/**
 * Runs of a MicroRaft cluster in which one node, `lead`, is the only one that ever wins
 * an election, through any number of its terms (coordination/raft.py).
 *
 * Every AppendEntries ever sent stays in `sent`, and every answer stays in `acks`, so that
 * a run may lose, repeat, delay and reorder them at will.
 */
module Replication {
  import opened MicroRaftNode
  import opened LogRepair

  datatype Ack = Ack(from: NodeId, request: Rpc, success: bool)

  datatype Cluster = Cluster(servers: map<NodeId, Server>, sent: set<Rpc>, acks: set<Ack>)

  datatype Step =
    | Command(command: Command)              // someone calls propose at the leader
    | Heartbeat                              // one round of the leader loop
    | Deliver(to: NodeId, rpc: Rpc)          // a sent AppendEntries, or any other RPC at all
    | Receive(ack: Ack)                      // an answer reaches the leader
    | Timeout(node: NodeId)                  // an election timer fires
    | Win                                    // the leader node wins an election
    | Lose(node: NodeId)                     // an election ends without a majority

  function Snapshots(s: Server): set<Rpc>
  {
    set p | p in s.peers :: BuildAppend(s, p)
  }

  /** Each peer is sent one message, in the order of the list, and together these are the snapshots. */
  lemma BroadcastIsSnapshots(s: Server)
    ensures var out := Broadcast(s);
            && |out| == |s.peers| && (forall i :: 0 <= i < |out| ==> out[i].0 == s.peers[i])
            && Snapshots(s) == set i | 0 <= i < |out| :: out[i].1
  {
    hide BuildAppend;
    var out := Broadcast(s);
    forall m ensures m in Snapshots(s) <==> m in set i | 0 <= i < |out| :: out[i].1 {
      if m in Snapshots(s) {
        var p :| p in s.peers && m == BuildAppend(s, p);
        var i :| 0 <= i < |s.peers| && s.peers[i] == p;
        assert out[i].1 == m;
      }
    }
  }

  /** One step; a step that is not enabled changes nothing. */
  function Next(c: Cluster, lead: NodeId, step: Step): (c': Cluster)
    requires lead in c.servers
    ensures c'.servers.Keys == c.servers.Keys
  {
    var l := c.servers[lead];
    match step
    case Command(command) =>
      if l.role != Leader then c
      else
        var l' := Propose(l, command).0;
        c.(servers := c.servers[lead := l'], sent := c.sent + Snapshots(l'))
    case Heartbeat =>
      if l.role != Leader then c else c.(sent := c.sent + Snapshots(l))
    case Deliver(to, rpc) =>
      if to !in c.servers || (rpc.AppendEntries? && rpc !in c.sent) then c
      else
        var (s', reply) := Handle(c.servers[to], rpc);
        c.(servers := c.servers[to := s'],
           acks := if reply.AppendReply? then c.acks + {Ack(to, rpc, reply.success)} else c.acks)
    case Receive(ack) =>
      if ack !in c.acks then c
      else c.(servers := c.servers[lead := OnReply(l, ack.from, ack.success)])
    case Timeout(n) =>
      if n !in c.servers || c.servers[n].role == Leader then c
      else c.(servers := c.servers[n := BeginElection(c.servers[n])])
    case Win => c.(servers := c.servers[lead := BecomeLeader(l)])
    case Lose(n) =>
      if n !in c.servers then c
      else c.(servers := c.servers[n := c.servers[n].(role := Follower)])
  }

  lemma ProposedSnapshots(s: Server, command: Command)
    requires s.role == Leader
    ensures Snapshots(Propose(s, command).0) == Snapshots(s.(log := Propose(s, command).0.log))
  {
    var s' := Propose(s, command).0;
    hide BuildAppend;
    if s.peers != [] {
      assert s' == s.(log := s'.log);
    } else {
      assert Snapshots(s') == {};
    }
  }

  /** What a proposal hands to the network, one message to each peer, and all that a heartbeat would, is in flight. */
  lemma ProposalIsBroadcast(c: Cluster, lead: NodeId, command: Command)
    requires lead in c.servers && c.servers[lead].role == Leader
    ensures var s, c' := c.servers[lead], Next(c, lead, Command(command));
            var out := Broadcast(s.(log := c'.servers[lead].log));
            && c'.sent == c.sent + (set i | 0 <= i < |out| :: out[i].1)
            && |out| == |s.peers| && (forall i :: 0 <= i < |out| ==> out[i].0 == s.peers[i])
  {
    var s := c.servers[lead];
    ProposedSnapshots(s, command);
    BroadcastIsSnapshots(s.(log := Propose(s, command).0.log));
    hide BuildAppend, Snapshots, Propose, Broadcast;
  }

  /** The state after the steps, in order. */
  ghost function Run(c: Cluster, lead: NodeId, steps: seq<Step>): (c': Cluster)
    requires lead in c.servers
    ensures c'.servers.Keys == c.servers.Keys
  {
    if steps == [] then c else Next(Run(c, lead, steps[..|steps| - 1]), lead, steps[|steps| - 1])
  }

  lemma {:induction false} RunAppend(c: Cluster, lead: NodeId, a: seq<Step>, b: seq<Step>)
    requires lead in c.servers
    ensures Run(c, lead, a + b) == Run(Run(c, lead, a), lead, b)
  {
    hide Next;
    if b == [] {
      assert a + b == a;
    } else {
      RunAppend(c, lead, a, b[..|b| - 1]);
      assert (a + b)[..|a + b| - 1] == a + b[..|b| - 1];
    }
  }

  ghost predicate Initial(c: Cluster, lead: NodeId)
  {
    && lead in c.servers
    && (forall n :: n in c.servers ==> c.servers[n] == Fresh(n, c.servers[n].peers))
    && c.sent == {} && c.acks == {}
  }

  // ----- The invariant -----

  /** A node against the leader's log `l` and commit index `commit`. */
  ghost predicate Synced(s: Server, l: seq<Entry>, commit: nat)
  {
    && s.log <= l
    && s.lastApplied == s.commitIndex <= |s.log|
    && s.commitIndex <= commit
    && s.applied == Commands(s.log[..s.commitIndex])
  }

  ghost predicate InFlight(m: Rpc, l: seq<Entry>, commit: nat)
  {
    IsSnapshot(m, l) && m.leaderCommit <= commit
  }

  ghost predicate NextIndicesFit(s: Server)
  {
    forall p :: p in s.nextIndex ==> s.nextIndex[p] <= |s.log| + 1
  }

  ghost predicate Inv(c: Cluster, lead: NodeId)
  {
    && lead in c.servers
    && var l := c.servers[lead];
    && WellIndexed(l.log) && NextIndicesFit(l)
    && (forall n :: n in c.servers ==> c.servers[n].id == n)
    && (forall n :: n in c.servers ==> Synced(c.servers[n], l.log, l.commitIndex))
    && (forall n :: n in c.servers && n != lead ==> c.servers[n].role != Leader)
    && (forall m :: m in c.sent ==> InFlight(m, l.log, l.commitIndex))
  }

  /** What never shrinks from one state to a later one. */
  ghost predicate Grows(c: Cluster, c': Cluster, lead: NodeId)
  {
    && lead in c.servers && c.servers.Keys == c'.servers.Keys
    && c.servers[lead].log <= c'.servers[lead].log
    && (forall n :: n in c.servers ==> Forward(c.servers[n], c'.servers[n]))
  }

  ghost predicate Forward(s: Server, s': Server)
  {
    && s'.id == s.id && s'.peers == s.peers
    && |s.log| <= |s'.log| && s.commitIndex <= s'.commitIndex && s.term <= s'.term
    && s.applied <= s'.applied
  }

  // ----- Node-level preservation -----

  lemma CommandsOfPrefix(es: seq<Entry>, a: nat, b: nat)
    requires a <= b <= |es|
    ensures Commands(es[..a]) + Commands(es[a..b]) == Commands(es[..b])
    ensures Commands(es[..a]) <= Commands(es[..b])
  {
  }

  lemma SyncedLonger(s: Server, l: seq<Entry>, commit: nat, l': seq<Entry>, commit': nat)
    requires Synced(s, l, commit) && l <= l' && commit <= commit'
    ensures Synced(s, l', commit')
  {
  }

  /** Moving the commit index of a synced node forward and applying keeps it synced. */
  lemma ApplySynced(s: Server, l: seq<Entry>, commit: nat, target: nat)
    requires Synced(s, l, commit) && s.commitIndex <= target <= |s.log|
    ensures var s' := Apply(s.(commitIndex := target));
            Synced(s', l, if target > commit then target else commit) && Forward(s, s')
            && s' == s.(commitIndex := target, lastApplied := target, applied := s'.applied)
  {
    CommandsOfPrefix(s.log, s.commitIndex, target);
    if s.commitIndex == target {
      assert s.log[s.commitIndex..target] == [];
    }
  }

  /** A synced node's log after the append loop: grown to the snapshot's end, or as before. */
  lemma AppendedLogSynced(s: Server, m: Rpc, l: seq<Entry>, commit: nat)
    requires WellIndexed(l) && Synced(s, l, commit) && IsSnapshot(m, l)
    ensures PrevMatches(s.log, m.prevLogIndex, m.prevLogTerm) ==>
              var log' := AppendAll(s.log, m.entries);
              && Synced(s.(log := log'), l, commit)
              && |s.log| <= |log'| && m.prevLogIndex + |m.entries| <= |log'|
  {
    hide WellIndexed, LogMatching, ShareExactly, AppendAll, PrevMatches;
    var k := |s.log|;
    assert s.log == l[..k];
    PrefixMatches(l, k);
    PrevCheckMeaning(s.log, l, k, m);
    if m.prevLogIndex <= k {
      AppendAllMeaning(s.log, l, k, m.prevLogIndex, |m.entries|);
      assert AppendAll(s.log, m.entries)[..s.commitIndex] == s.log[..s.commitIndex];
    }
  }

  lemma AppendSynced(s: Server, m: Rpc, l: seq<Entry>, commit: nat)
    requires WellIndexed(l) && Synced(s, l, commit) && InFlight(m, l, commit)
    ensures var (s', ok) := Append(s, m);
            && Synced(s', l, commit) && Forward(s, s')
            && s'.nextIndex == s.nextIndex && s'.matchIndex == s.matchIndex
            && s'.role == s.role && s'.term == s.term
            && (ok ==> m.prevLogIndex + |m.entries| <= |s'.log|)
            && (s.log == l ==> s'.log == l)
            && (s.commitIndex == commit ==> s'.commitIndex == commit)
  {
    hide WellIndexed, AppendAll;
    AppendedLogSynced(s, m, l, commit);
    if PrevMatches(s.log, m.prevLogIndex, m.prevLogTerm) {
      var s1 := s.(log := AppendAll(s.log, m.entries));
      if m.leaderCommit > s.commitIndex {
        ApplySynced(s1, l, commit, Min(m.leaderCommit, |s1.log|));
      }
    }
  }

  lemma HandleSynced(s: Server, m: Rpc, l: seq<Entry>, commit: nat)
    requires WellIndexed(l) && Synced(s, l, commit)
    requires m.AppendEntries? ==> InFlight(m, l, commit)
    ensures var (s', reply) := Handle(s, m);
            && Synced(s', l, commit) && Forward(s, s')
            && s'.nextIndex == s.nextIndex && s'.matchIndex == s.matchIndex
            && (s.role != Leader ==> s'.role != Leader)
            && (reply.AppendReply? <==> m.AppendEntries?)
            && (reply.AppendReply? && reply.success ==> m.prevLogIndex + |m.entries| <= |s'.log|)
            && (s.log == l ==> s'.log == l)
            && (s.commitIndex == commit ==> s'.commitIndex == commit)
  {
    var s1 := ObserveTerm(s, m.term);
    assert Synced(s1, l, commit);
    if m.AppendEntries? {
      AppendSynced(s1, m, l, commit);
    }
  }

  /** The leader's own moves keep it synced with itself, and only extend its log. */
  lemma OnReplySynced(s: Server, peer: NodeId, success: bool)
    requires Synced(s, s.log, s.commitIndex) && NextIndicesFit(s)
    ensures var s' := OnReply(s, peer, success);
            Synced(s', s'.log, s'.commitIndex) && NextIndicesFit(s') && Forward(s, s') && s'.log == s.log
  {
    OnReplyKeeps(s, peer, success);
    if success {
      var s1 := s.(matchIndex := s.matchIndex[peer := |s.log|], nextIndex := s.nextIndex[peer := |s.log| + 1]);
      var n := GreatestCommittable(s1, |s1.log|);
      assert Synced(s1, s.log, s.commitIndex);
      ApplySynced(s1, s.log, s.commitIndex, n);
    }
  }

  lemma ProposeSynced(s: Server, command: Command)
    requires Synced(s, s.log, s.commitIndex) && NextIndicesFit(s) && WellIndexed(s.log)
    ensures var s' := Propose(s, command).0;
            && Synced(s', s'.log, s'.commitIndex) && NextIndicesFit(s') && WellIndexed(s'.log)
            && Forward(s, s') && s.log <= s'.log
  {
    if s.role == Leader {
      var s1 := s.(log := s.log + [Entry(s.term, |s.log| + 1, command)]);
      assert s1.log[..s.commitIndex] == s.log[..s.commitIndex];
      assert Synced(s1, s1.log, s.commitIndex);
      ApplySynced(s1, s1.log, s.commitIndex, |s1.log|);
    }
  }

  // ----- Every step -----

  /** Replacing the leader by a later version of itself. */
  lemma LeaderMoves(c: Cluster, lead: NodeId, l': Server, sent': set<Rpc>)
    requires Inv(c, lead)
    requires Forward(c.servers[lead], l') && c.servers[lead].log <= l'.log
    requires Synced(l', l'.log, l'.commitIndex) && NextIndicesFit(l') && WellIndexed(l'.log)
    requires forall m :: m in sent' ==> m in c.sent || InFlight(m, l'.log, l'.commitIndex)
    ensures var c' := c.(servers := c.servers[lead := l'], sent := sent');
            Inv(c', lead) && Grows(c, c', lead)
  {
    var l := c.servers[lead];
    var c' := c.(servers := c.servers[lead := l'], sent := sent');
    forall n | n in c'.servers ensures Synced(c'.servers[n], l'.log, l'.commitIndex) {
      if n != lead {
        SyncedLonger(c.servers[n], l.log, l.commitIndex, l'.log, l'.commitIndex);
      }
    }
    forall m | m in sent' ensures InFlight(m, l'.log, l'.commitIndex) {
      if m in c.sent {
        SnapshotOfLongerLog(m, l.log, l'.log);
      }
    }
  }

  /** Replacing any node by a later version whose log the leader's log still covers. */
  lemma NodeMoves(c: Cluster, lead: NodeId, n: NodeId, s': Server, acks': set<Ack>)
    requires Inv(c, lead) && n in c.servers
    requires Forward(c.servers[n], s') && Synced(s', c.servers[lead].log, c.servers[lead].commitIndex)
    requires n == lead ==> s'.log == c.servers[lead].log && s'.commitIndex == c.servers[lead].commitIndex
                           && s'.nextIndex == c.servers[lead].nextIndex
    requires n != lead ==> s'.role != Leader
    ensures var c' := c.(servers := c.servers[n := s'], acks := acks');
            Inv(c', lead) && Grows(c, c', lead)
  {
  }

  lemma SnapshotsInFlight(s: Server)
    requires NextIndicesFit(s)
    ensures forall m :: m in Snapshots(s) ==> InFlight(m, s.log, s.commitIndex)
  {
    forall p | p in s.peers ensures InFlight(BuildAppend(s, p), s.log, s.commitIndex) {
      BuildAppendIsSnapshot(s, p);
    }
  }

  lemma InvStep(c: Cluster, lead: NodeId, step: Step)
    requires Inv(c, lead)
    ensures Inv(Next(c, lead, step), lead) && Grows(c, Next(c, lead, step), lead)
  {
    hide Handle, OnReply, Propose, BuildAppend, IsSnapshot, WellIndexed;
    var l := c.servers[lead];
    match step
    case Command(command) =>
      if l.role == Leader {
        ProposeSynced(l, command);
        SnapshotsInFlight(Propose(l, command).0);
        LeaderMoves(c, lead, Propose(l, command).0, c.sent + Snapshots(Propose(l, command).0));
      }
    case Heartbeat =>
      SnapshotsInFlight(l);
      LeaderMoves(c, lead, l, c.sent + Snapshots(l));
      assert c.servers[lead := l] == c.servers;
    case Deliver(to, rpc) =>
      if to in c.servers && (rpc.AppendEntries? ==> rpc in c.sent) {
        var s := c.servers[to];
        HandleSynced(s, rpc, l.log, l.commitIndex);
        NodeMoves(c, lead, to, Handle(s, rpc).0, Next(c, lead, step).acks);
      }
    case Receive(ack) =>
      OnReplySynced(l, ack.from, ack.success);
      LeaderMoves(c, lead, OnReply(l, ack.from, ack.success), c.sent);
    case Timeout(n) =>
      if n in c.servers && c.servers[n].role != Leader {
        NodeMoves(c, lead, n, BeginElection(c.servers[n]), c.acks);
      }
    case Win =>
      LeaderMoves(c, lead, BecomeLeader(l), c.sent);
    case Lose(n) =>
      if n in c.servers {
        NodeMoves(c, lead, n, c.servers[n].(role := Follower), c.acks);
      }
  }

  lemma GrowsTransitive(a: Cluster, b: Cluster, c: Cluster, lead: NodeId)
    requires Grows(a, b, lead) && Grows(b, c, lead)
    ensures Grows(a, c, lead)
  {
  }

  lemma {:induction false} InvRun(c: Cluster, lead: NodeId, steps: seq<Step>)
    requires Initial(c, lead)
    ensures Inv(Run(c, lead, steps), lead)
  {
    if steps != [] {
      InvRun(c, lead, steps[..|steps| - 1]);
      InvStep(Run(c, lead, steps[..|steps| - 1]), lead, steps[|steps| - 1]);
    }
  }

  lemma {:induction false} RunGrows(c: Cluster, lead: NodeId, steps: seq<Step>, i: nat)
    requires Initial(c, lead) && i <= |steps|
    ensures Grows(Run(c, lead, steps[..i]), Run(c, lead, steps), lead)
    decreases |steps| - i
  {
    InvRun(c, lead, steps[..i]);
    if i == |steps| {
      assert steps[..i] == steps;
    } else {
      assert steps[..i + 1][..i] == steps[..i];
      InvStep(Run(c, lead, steps[..i]), lead, steps[i]);
      RunGrows(c, lead, steps, i + 1);
      GrowsTransitive(Run(c, lead, steps[..i]), Run(c, lead, steps[..i + 1]), Run(c, lead, steps), lead);
    }
  }

  // ----- Main results -----

  /**
   * Prefix agreement: in every reachable state every node has applied a prefix of the
   * leader's committed commands.
   */
  lemma AppliedIsCommittedPrefix(c: Cluster, lead: NodeId, steps: seq<Step>, n: NodeId)
    requires Initial(c, lead) && n in c.servers
    ensures var c' := Run(c, lead, steps);
            var l := c'.servers[lead];
            && l.commitIndex <= |l.log|
            && c'.servers[n].applied <= Commands(l.log[..l.commitIndex])
            && l.applied == Commands(l.log[..l.commitIndex])
  {
    InvRun(c, lead, steps);
    var c' := Run(c, lead, steps);
    var l, s := c'.servers[lead], c'.servers[n];
    assert Synced(l, l.log, l.commitIndex);
    assert s.log[..s.commitIndex] == l.log[..s.commitIndex];
    CommandsOfPrefix(l.log, s.commitIndex, l.commitIndex);
  }

  lemma PrefixesOfOneSequence<T>(a: seq<T>, b: seq<T>, whole: seq<T>)
    requires a <= whole && b <= whole
    ensures a <= b || b <= a
  {
    assert a == whole[..|a|] && b == whole[..|b|];
  }

  /** Two nodes never apply different commands at the same position, even at different times. */
  lemma PrefixAgreement(c: Cluster, lead: NodeId, steps: seq<Step>, i: nat, n: NodeId, m: NodeId)
    requires Initial(c, lead) && n in c.servers && m in c.servers && i <= |steps|
    ensures var earlier := Run(c, lead, steps[..i]).servers[n].applied;
            var later := Run(c, lead, steps).servers[m].applied;
            earlier <= later || later <= earlier
  {
    var whole := Run(c, lead, steps).servers[lead].applied;
    AppliedIsCommittedPrefix(c, lead, steps, m);
    AppliedIsCommittedPrefix(c, lead, steps[..i], n);
    RunGrows(c, lead, steps, i);
    PrefixesOfOneSequence(Run(c, lead, steps[..i]).servers[n].applied,
                          Run(c, lead, steps).servers[m].applied, whole);
  }
}
