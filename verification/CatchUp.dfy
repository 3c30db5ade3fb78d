/**
 * From every reachable state a sitting leader can bring any of its peers up to date, and with a
 * majority of them commit its whole log (coordination/raft.py:343-403).
 */
module CatchUp {
  import opened Wrappers
  import opened MicroRaftNode
  import opened LogRepair
  import opened Replication
  import opened MajorityCommit

  /** Nothing but heartbeats, deliveries and answers. */
  ghost predicate Undisturbed(steps: seq<Step>)
  {
    forall i :: 0 <= i < |steps| ==> steps[i].Heartbeat? || steps[i].Deliver? || steps[i].Receive?
  }

  function NextFor(s: Server, p: NodeId): nat { Get(s.nextIndex, p, 1) }

  /** `lead` leads, and `p` is one of its peers. */
  ghost predicate Leads(c: Cluster, lead: NodeId, p: NodeId)
  {
    && lead in c.servers && Inv(c, lead) && c.servers[lead].role == Leader
    && p in c.servers && p != lead && p in c.servers[lead].peers
  }

  lemma {:induction false} RunKeepsInv(c: Cluster, lead: NodeId, steps: seq<Step>)
    requires Inv(c, lead)
    ensures Inv(Run(c, lead, steps), lead)
  {
    hide Next;
    if steps != [] {
      RunKeepsInv(c, lead, steps[..|steps| - 1]);
      InvStep(Run(c, lead, steps[..|steps| - 1]), lead, steps[|steps| - 1]);
    }
  }

  // ----- One round with one peer -----

  lemma BeatThenDeliver(c: Cluster, lead: NodeId, p: NodeId)
    requires Leads(c, lead, p)
    ensures var l, f := c.servers[lead], c.servers[p];
            var m := BuildAppend(l, p);
            var c1 := Next(Next(c, lead, Heartbeat), lead, Deliver(p, m));
            var (f', reply) := Handle(f, m);
            && reply.AppendReply? && c1.servers == c.servers[p := f'] && Ack(p, m, reply.success) in c1.acks
  {
    hide Handle, Inv;
    var l, f := c.servers[lead], c.servers[p];
    var m := BuildAppend(l, p);
    HandleAppendLog(f, m);
    assert m in Snapshots(l);
  }

  lemma OneRound(c: Cluster, lead: NodeId, p: NodeId) returns (steps: seq<Step>)
    requires Leads(c, lead, p)
    ensures |steps| == 3 && Undisturbed(steps)
    ensures lead in c.servers && p in c.servers
    ensures var c', x := Run(c, lead, steps), Exchange(c.servers[lead], c.servers[p]);
            c'.servers == c.servers[p := x.1][lead := x.0]
  {
    var l, f := c.servers[lead], c.servers[p];
    var m := BuildAppend(l, p);
    assert f.id == p && lead != p;
    BeatThenDeliver(c, lead, p);
    hide *;
    ExchangeParts(l, f);
    var ack := Ack(p, m, Handle(f, m).1.success);
    steps := ThreeSteps(c, lead, Heartbeat, Deliver(p, m), Receive(ack));
    ReceiveServers(Next(Next(c, lead, Heartbeat), lead, Deliver(p, m)), lead, ack);
  }

  lemma ExchangeParts(l: Server, f: Server)
    ensures var m := BuildAppend(l, f.id);
            var (f', reply) := Handle(f, m);
            reply.AppendReply? ==> Exchange(l, f).0 == OnReply(l, f.id, reply.success) && Exchange(l, f).1 == f'
  {
    hide Handle, OnReply, BuildAppend;
  }

  lemma ReceiveServers(c: Cluster, lead: NodeId, ack: Ack)
    requires lead in c.servers && ack in c.acks
    ensures Next(c, lead, Receive(ack)).servers
            == c.servers[lead := OnReply(c.servers[lead], ack.from, ack.success)]
  {
  }

  lemma ThreeSteps(c: Cluster, lead: NodeId, s0: Step, s1: Step, s2: Step) returns (steps: seq<Step>)
    requires lead in c.servers && s0.Heartbeat? && s1.Deliver? && s2.Receive?
    ensures |steps| == 3 && Undisturbed(steps)
    ensures Run(c, lead, steps) == Next(Next(Next(c, lead, s0), lead, s1), lead, s2)
  {
    hide Next;
    steps := [s0, s1, s2];
    assert steps[..3] == steps && steps[..2][..1] == steps[..1] && steps[..1][..0] == [];
    assert Run(c, lead, steps[..1]) == Next(Run(c, lead, []), lead, steps[0]);
    assert Run(c, lead, steps[..2]) == Next(Run(c, lead, steps[..1]), lead, steps[1]);
  }

  // ----- Repairing one peer inside the cluster -----

  /** Every committable index has been committed. */
  ghost predicate Settled(s: Server)
  {
    forall k :: 1 <= k <= |s.log| && Committable(s, k) ==> k <= s.commitIndex
  }

  lemma CreditSettles(s: Server, peer: NodeId)
    ensures Settled(OnReply(s, peer, true))
  {
    var s1 := s.(matchIndex := s.matchIndex[peer := |s.log|], nextIndex := s.nextIndex[peer := |s.log| + 1]);
    var n := GreatestCommittable(s1, |s1.log|);
    var s' := OnReply(s, peer, true);
    assert s' == CommitUpTo(s1, |s1.log|);
    CommitUpToKeeps(s1, |s1.log|);
    hide GreatestCommittable;
    forall k | 1 <= k <= |s'.log| && Committable(s', k) ensures k <= s'.commitIndex {
      assert Committable(s1, k);
    }
  }

  /** `p` now holds the leader's whole log and is credited with it; all else is as it was. */
  ghost predicate BroughtUp(c: Cluster, c': Cluster, lead: NodeId, p: NodeId)
  {
    && lead in c.servers && Leads(c', lead, p) && c'.servers.Keys == c.servers.Keys
    && var l, l' := c.servers[lead], c'.servers[lead];
    && l'.log == l.log && l'.term == l.term && l'.peers == l.peers
    && l'.matchIndex == l.matchIndex[p := |l.log|] && Settled(l')
    && c'.servers[p].log == l.log
    && forall q :: q in c.servers && q != lead && q != p ==> c'.servers[q] == c.servers[q]
  }

  lemma PrefixLogMatches(c: Cluster, lead: NodeId, p: NodeId)
    requires Inv(c, lead) && p in c.servers
    ensures LogMatching(c.servers[p].log, c.servers[lead].log) && WellIndexed(c.servers[lead].log)
    ensures NextFor(c.servers[lead], p) <= |c.servers[lead].log| + 1
  {
    var f, l := c.servers[p].log, c.servers[lead].log;
    assert f == l[..|f|];
    PrefixMatches(l, |f|);
  }

  /** A refused round: the next index is one less, and nothing else of interest has changed. */
  ghost predicate Retried(c: Cluster, c': Cluster, lead: NodeId, p: NodeId)
  {
    && Leads(c, lead, p) && Leads(c', lead, p) && c'.servers.Keys == c.servers.Keys
    && var l, l' := c.servers[lead], c'.servers[lead];
    && l'.log == l.log && l'.term == l.term && l'.peers == l.peers && l'.matchIndex == l.matchIndex
    && NextFor(l', p) + 1 == NextFor(l, p)
    && forall q :: q in c.servers && q != lead && q != p ==> c'.servers[q] == c.servers[q]
  }

  lemma RoundEffect(c: Cluster, lead: NodeId, p: NodeId, c': Cluster)
    requires Leads(c, lead, p) && Inv(c', lead)
    requires var x := Exchange(c.servers[lead], c.servers[p]); c'.servers == c.servers[p := x.1][lead := x.0]
    ensures if Exchange(c.servers[lead], c.servers[p]).2 then BroughtUp(c, c', lead, p) else Retried(c, c', lead, p)
  {
    var l, f := c.servers[lead], c.servers[p];
    assert f.id == p;
    PrefixLogMatches(c, lead, p);
    FollowerCovered(c', lead, p);
    hide Inv, Synced, LogMatching, WellIndexed, CommonPrefix, Settled, Exchange, NextFor, SetAll;
    RoundFacts(l, f);
    KeysKept(c, lead, p, c');
  }

  lemma KeysKept(c: Cluster, lead: NodeId, p: NodeId, c': Cluster)
    requires lead in c.servers && p in c.servers && p != lead
    requires lead in c'.servers && p in c'.servers
    requires c'.servers == c.servers[p := c'.servers[p]][lead := c'.servers[lead]]
    ensures c'.servers.Keys == c.servers.Keys
    ensures forall q :: q in c.servers && q != lead && q != p ==> c'.servers[q] == c.servers[q]
  {
  }

  lemma RoundFacts(l: Server, f: Server)
    requires WellIndexed(l.log) && LogMatching(f.log, l.log) && NextFor(l, f.id) <= |l.log| + 1
    ensures var (l', f', ok) := Exchange(l, f);
            && l'.log == l.log && l'.peers == l.peers && l'.term == l.term && l'.role == l.role
            && (ok ==> l.log <= f'.log && l'.matchIndex == l.matchIndex[f.id := |l.log|] && Settled(l'))
            && (!ok ==> l'.matchIndex == l.matchIndex && NextFor(l', f.id) + 1 == NextFor(l, f.id))
  {
    ExchangeMeaning(l, f);
    hide Exchange, LogMatching, WellIndexed, Settled;
    ExchangeLeader(l, f);
  }

  lemma FollowerCovered(c: Cluster, lead: NodeId, p: NodeId)
    requires Inv(c, lead) && p in c.servers
    ensures lead in c.servers && c.servers[p].log <= c.servers[lead].log
  {
  }

  lemma ExchangeLeader(l: Server, f: Server)
    ensures var l' := Exchange(l, f).0;
            && l'.peers == l.peers && l'.term == l.term && l'.role == l.role
            && (Exchange(l, f).2 ==> Settled(l'))
  {
    hide Handle, OnReply, BuildAppend, Settled;
    var (f', reply) := Handle(f, BuildAppend(l, f.id));
    var ok := reply.AppendReply? && reply.success;
    OnReplyKeeps(l, f.id, ok);
    CreditSettles(l, f.id);
  }

  lemma RetryThenUp(c: Cluster, c': Cluster, c'': Cluster, lead: NodeId, p: NodeId)
    requires Retried(c, c', lead, p) && BroughtUp(c', c'', lead, p)
    ensures BroughtUp(c, c'', lead, p)
  {
    hide Inv, Settled;
  }

  /** A given peer comes to hold the leader's whole log within three steps for every entry in doubt. */
  lemma {:induction false} BringUp(c: Cluster, lead: NodeId, p: NodeId) returns (steps: seq<Step>)
    requires Leads(c, lead, p)
    ensures Undisturbed(steps) && |steps| <= 3 * NextFor(c.servers[lead], p)
    ensures BroughtUp(c, Run(c, lead, steps), lead, p)
    decreases NextFor(c.servers[lead], p)
  {
    hide Exchange, Inv, Settled, Run, BroughtUp;
    steps := OneRound(c, lead, p);
    var c' := Run(c, lead, steps);
    RunKeepsInv(c, lead, steps);
    RoundEffect(c, lead, p, c');
    if !Exchange(c.servers[lead], c.servers[p]).2 {
      var rest := BringUp(c', lead, p);
      RunAppend(c, lead, steps, rest);
      RetryThenUp(c, c', Run(c', lead, rest), lead, p);
      steps := steps + rest;
    }
  }

  /** From every reachable state in which `lead` leads, some undisturbed continuation brings a peer up to date. */
  lemma PeerCatchesUp(c: Cluster, lead: NodeId, steps: seq<Step>, p: NodeId) returns (more: seq<Step>)
    requires Initial(c, lead) && p in c.servers && p != lead
    requires Run(c, lead, steps).servers[lead].role == Leader && p in Run(c, lead, steps).servers[lead].peers
    ensures Undisturbed(more) && |more| <= 3 * (|Run(c, lead, steps).servers[lead].log| + 1)
    ensures var log := Run(c, lead, steps).servers[lead].log;
            var end := Run(c, lead, steps + more);
            end.servers[lead].log == log && end.servers[p].log == log
  {
    InvRun(c, lead, steps);
    var now := Run(c, lead, steps);
    more := BringUp(now, lead, p);
    PrefixLogMatches(now, lead, p);
    RunAppend(c, lead, steps, more);
  }

  // ----- What one delivery does -----

  lemma CommitTaken(s: Server, m: Rpc)
    requires m.AppendEntries? && s.commitIndex <= |s.log|
    ensures var (s', reply) := Handle(s, m);
            var ok, n := PrevMatches(s.log, m.prevLogIndex, m.prevLogTerm), |s'.log|;
            && (ok && m.leaderCommit > s.commitIndex ==> s'.commitIndex == (if m.leaderCommit < n then m.leaderCommit else n))
            && (!ok || m.leaderCommit <= s.commitIndex ==> s'.commitIndex == s.commitIndex)
  {
    hide AppendAll, PrevMatches;
  }

  /** The effect of a snapshot on a node whose log is a prefix of the leader's. */
  lemma SnapshotEffect(f: Server, m: Rpc, l: seq<Entry>, commit: nat)
    requires WellIndexed(l) && Synced(f, l, commit) && InFlight(m, l, commit)
    ensures var (f', reply) := Handle(f, m);
            var ok, hi := m.prevLogIndex <= |f.log|, m.prevLogIndex + |m.entries|;
            && hi <= |l| && reply.AppendReply? && reply.success == ok
            && f'.log == (if ok && hi > |f.log| then l[..hi] else f.log)
            && (ok && m.leaderCommit > f.commitIndex ==>
                  f'.commitIndex == (if m.leaderCommit < |f'.log| then m.leaderCommit else |f'.log|))
            && (!ok || m.leaderCommit <= f.commitIndex ==> f'.commitIndex == f.commitIndex)
            && f'.commitIndex <= |f'.log| && f'.applied == Commands(f'.log[..f'.commitIndex])
  {
    PrefixMatches(l, |f.log|);
    assert f.log == l[..|f.log|];
    HandleSynced(f, m, l, commit);
    hide WellIndexed, LogMatching, ShareExactly, AppendAll, Handle, PrevMatches;
    AppendMeaning(f, m, l, |f.log|);
    PrevCheckMeaning(f.log, l, |f.log|, m);
    CommitTaken(f, m);
  }

  /**
   * In every run, a snapshot that reaches a node is accepted exactly when it starts within the node's
   * log.  The log then reaches at least to the snapshot's end, and everything up to the commit index
   * it carries, as far as the log goes, is committed and applied; a refused one changes none of these.
   */
  lemma DeliveryEffect(c: Cluster, lead: NodeId, steps: seq<Step>, p: NodeId, m: Rpc)
    requires Initial(c, lead) && p in c.servers && m in Run(c, lead, steps).sent
    ensures var now, later := Run(c, lead, steps), Run(c, lead, steps + [Deliver(p, m)]);
            var l, f, f' := now.servers[lead].log, now.servers[p], later.servers[p];
            && m.AppendEntries?
            && var ok, hi := m.prevLogIndex <= |f.log|, m.prevLogIndex + |m.entries|;
            && hi <= |l| && Ack(p, m, ok) in later.acks
            && f'.log == (if ok && hi > |f.log| then l[..hi] else f.log)
            && (ok && m.leaderCommit > f.commitIndex ==>
                  f'.commitIndex == (if m.leaderCommit < |f'.log| then m.leaderCommit else |f'.log|))
            && (!ok || m.leaderCommit <= f.commitIndex ==> f'.commitIndex == f.commitIndex)
            && f'.commitIndex <= |f'.log| && f'.applied == Commands(f'.log[..f'.commitIndex])
  {
    var now := Run(c, lead, steps);
    InvRun(c, lead, steps);
    var l := now.servers[lead];
    assert InFlight(m, l.log, l.commitIndex) && Synced(now.servers[p], l.log, l.commitIndex) && WellIndexed(l.log);
    OneStepMore(c, lead, steps, Deliver(p, m));
    hide Run, Handle, Inv, Synced, InFlight, WellIndexed, Commands;
    SnapshotEffect(now.servers[p], m, l.log, l.commitIndex);
  }

  // ----- The follower commits too -----

  /** A follower that holds the leader's log takes over the commit index of any of its snapshots. */
  lemma LearnsCommit(f: Server, m: Rpc, l: seq<Entry>, commit: nat)
    requires WellIndexed(l) && Synced(f, l, commit) && f.log == l
    requires IsSnapshot(m, l) && m.leaderCommit == commit <= |l|
    ensures var f' := Handle(f, m).0; f'.log == l && f'.commitIndex == commit
  {
    assert l[..|l|] == l;
    PrefixMatches(l, |l|);
    hide WellIndexed, LogMatching, ShareExactly, AppendAll, PrevMatches;
    PrevCheckMeaning(l, l, |l|, m);
    AppendAllMeaning(l, l, |l|, m.prevLogIndex, |m.entries|);
    assert m.entries == l[m.prevLogIndex..m.prevLogIndex + |m.entries|];
    hide IsSnapshot, Commands;
    TakesCommit(ObserveTerm(f, m.term), m);
  }

  lemma TakesCommit(s: Server, m: Rpc)
    requires m.AppendEntries? && PrevMatches(s.log, m.prevLogIndex, m.prevLogTerm)
    requires AppendAll(s.log, m.entries) == s.log && s.commitIndex <= m.leaderCommit <= |s.log|
    ensures var s' := Append(s, m).0; s'.log == s.log && s'.commitIndex == m.leaderCommit
  {
    hide AppendAll, PrevMatches;
  }

  lemma BeatTeaches(c: Cluster, lead: NodeId, p: NodeId) returns (steps: seq<Step>)
    requires Leads(c, lead, p) && c.servers[p].log == c.servers[lead].log
    ensures Undisturbed(steps) && |steps| == 2
    ensures var c' := Run(c, lead, steps);
            && lead in c'.servers && p in c'.servers && Inv(c', lead) && c'.servers[lead] == c.servers[lead]
            && c'.servers[p].log == c.servers[lead].log
            && c'.servers[p].commitIndex == c.servers[lead].commitIndex
  {
    var m := BuildAppend(c.servers[lead], p);
    SnapshotTeaches(c, lead, p);
    BeatThenDeliver(c, lead, p);
    assert lead != p;
    hide Handle, Next, Inv, BuildAppend, Run, Leads;
    steps := TwoSteps(c, lead, Heartbeat, Deliver(p, m));
    RunKeepsInv(c, lead, steps);
  }

  lemma SnapshotTeaches(c: Cluster, lead: NodeId, p: NodeId)
    requires Leads(c, lead, p) && c.servers[p].log == c.servers[lead].log
    ensures var l := c.servers[lead];
            var f' := Handle(c.servers[p], BuildAppend(l, p)).0;
            f'.log == l.log && f'.commitIndex == l.commitIndex
  {
    var l, f := c.servers[lead], c.servers[p];
    PrefixLogMatches(c, lead, p);
    assert Synced(f, l.log, l.commitIndex) && Synced(l, l.log, l.commitIndex);
    assert BuildAppend(l, p).leaderCommit == l.commitIndex;
    hide Handle, Inv, BuildAppend, IsSnapshot, WellIndexed, LogMatching;
    BuildAppendIsSnapshot(l, p);
    LearnsCommit(f, BuildAppend(l, p), l.log, l.commitIndex);
  }

  lemma TwoSteps(c: Cluster, lead: NodeId, s0: Step, s1: Step) returns (steps: seq<Step>)
    requires lead in c.servers && s0.Heartbeat? && s1.Deliver?
    ensures |steps| == 2 && Undisturbed(steps)
    ensures Run(c, lead, steps) == Next(Next(c, lead, s0), lead, s1)
  {
    hide Next;
    steps := [s0, s1];
    assert steps[..1] == [s0] && steps[..1][..0] == [];
    assert Run(c, lead, steps[..1]) == Next(c, lead, s0);
  }

  lemma SameCommitSameApplied(c: Cluster, lead: NodeId, p: NodeId)
    requires Inv(c, lead) && p in c.servers && c.servers[p].commitIndex == c.servers[lead].commitIndex
    ensures c.servers[p].applied == c.servers[lead].applied
  {
    var l, f := c.servers[lead], c.servers[p];
    assert Synced(f, l.log, l.commitIndex) && Synced(l, l.log, l.commitIndex);
    assert f.log[..f.commitIndex] == l.log[..l.commitIndex];
  }

  /**
   * From every reachable state in which `lead` leads, some undisturbed continuation makes a given
   * peer commit and apply all that the leader has committed.
   */
  lemma FollowerCommits(c: Cluster, lead: NodeId, steps: seq<Step>, p: NodeId) returns (more: seq<Step>)
    requires Initial(c, lead) && p in c.servers && p != lead
    requires Run(c, lead, steps).servers[lead].role == Leader && p in Run(c, lead, steps).servers[lead].peers
    ensures Undisturbed(more) && |more| <= 3 * (|Run(c, lead, steps).servers[lead].log| + 1) + 2
    ensures var l, end := Run(c, lead, steps).servers[lead], Run(c, lead, steps + more);
            && end.servers[lead].log == l.log && end.servers[lead].commitIndex >= l.commitIndex
            && end.servers[p].log == l.log
            && end.servers[p].commitIndex == end.servers[lead].commitIndex
            && end.servers[p].applied == end.servers[lead].applied
  {
    var now := Run(c, lead, steps);
    InvRun(c, lead, steps);
    PrefixLogMatches(now, lead, p);
    var first := BringUp(now, lead, p);
    var level := Run(now, lead, first);
    var rest := BeatTeaches(level, lead, p);
    more := first + rest;
    hide Inv, Settled;
    RunAppend(now, lead, first, rest);
    RunAppend(c, lead, steps, more);
    SameCommitSameApplied(Run(level, lead, rest), lead, p);
    UndisturbedBoth(first, rest);
    NeverLess(c, lead, steps, more);
  }

  lemma NeverLess(c: Cluster, lead: NodeId, steps: seq<Step>, more: seq<Step>)
    requires Initial(c, lead)
    ensures Run(c, lead, steps).servers[lead].commitIndex <= Run(c, lead, steps + more).servers[lead].commitIndex
  {
    assert (steps + more)[..|steps|] == steps;
    RunGrows(c, lead, steps + more, |steps|);
  }

  // ----- A leader without peers -----

  /** Alone, the leader has committed and applied its whole log, and nothing is in the air. */
  ghost predicate Alone(c: Cluster, lead: NodeId)
  {
    && Inv(c, lead) && c.servers[lead].peers == [] && c.sent == {} && c.acks == {}
    && c.servers[lead].commitIndex == |c.servers[lead].log|
  }

  lemma AloneStep(c: Cluster, lead: NodeId, step: Step)
    requires Alone(c, lead)
    ensures Alone(Next(c, lead, step), lead)
  {
    var l := c.servers[lead];
    InvStep(c, lead, step);
    match step
    case Command(command) =>
    case Heartbeat =>
    case Deliver(to, rpc) =>
      if to in c.servers && !rpc.AppendEntries? {
        HandleSynced(c.servers[to], rpc, l.log, l.commitIndex);
      }
    case Receive(_) =>
    case Timeout(_) =>
    case Win =>
    case Lose(_) =>
  }

  lemma {:induction false} AloneRun(c: Cluster, lead: NodeId, steps: seq<Step>)
    requires Initial(c, lead) && c.servers[lead].peers == []
    ensures Alone(Run(c, lead, steps), lead)
  {
    hide Next;
    InvRun(c, lead, steps);
    if steps != [] {
      AloneRun(c, lead, steps[..|steps| - 1]);
      AloneStep(Run(c, lead, steps[..|steps| - 1]), lead, steps[|steps| - 1]);
    }
  }

  /** A node without peers commits and applies every command at once. */
  lemma LoneLeaderCommits(c: Cluster, lead: NodeId, steps: seq<Step>)
    requires Initial(c, lead) && c.servers[lead].peers == []
    ensures var l := Run(c, lead, steps).servers[lead];
            l.commitIndex == |l.log| && l.applied == Commands(l.log)
  {
    AloneRun(c, lead, steps);
    var l := Run(c, lead, steps).servers[lead];
    assert Synced(l, l.log, l.commitIndex);
    assert l.log[..|l.log|] == l.log;
  }

  /** A command proposed at a sitting leader becomes its last entry, of its term, at the index it is told. */
  lemma ProposalIsLast(c: Cluster, lead: NodeId, steps: seq<Step>, command: Command)
    requires Initial(c, lead) && Run(c, lead, steps).servers[lead].role == Leader
    ensures var l, l' := Run(c, lead, steps).servers[lead], Run(c, lead, steps + [Command(command)]).servers[lead];
            && l'.log == l.log + [Entry(l.term, |l.log| + 1, command)]
            && Propose(l, command).1 == Some(|l'.log|) && l'.role == Leader && l'.term == l.term
  {
    InvRun(c, lead, steps);
    OneStepMore(c, lead, steps, Command(command));
    hide Run, Initial;
    ProposeStep(Run(c, lead, steps), lead, command);
  }

  lemma OneStepMore(c: Cluster, lead: NodeId, steps: seq<Step>, step: Step)
    requires lead in c.servers
    ensures Run(c, lead, steps + [step]) == Next(Run(c, lead, steps), lead, step)
  {
    hide Next;
    assert (steps + [step])[..|steps|] == steps;
  }

  lemma ProposeStep(c: Cluster, lead: NodeId, command: Command)
    requires Inv(c, lead) && c.servers[lead].role == Leader
    ensures var l, l' := c.servers[lead], Next(c, lead, Command(command)).servers[lead];
            && l'.log == l.log + [Entry(l.term, |l.log| + 1, command)]
            && Propose(l, command).1 == Some(|l'.log|) && l'.role == Leader && l'.term == l.term
  {
    assert Synced(c.servers[lead], c.servers[lead].log, c.servers[lead].commitIndex);
    hide Propose, Inv, Synced, Snapshots;
    ProposeEffect(c.servers[lead], command);
  }

  lemma ProposeEffect(s: Server, command: Command)
    requires s.role == Leader && s.commitIndex <= |s.log|
    ensures var (s', index) := Propose(s, command);
            && s'.log == s.log + [Entry(s.term, |s.log| + 1, command)] && index == Some(|s.log| + 1)
            && s'.role == s.role && s'.term == s.term
  {
  }

  // ----- A majority of peers -----

  /** The peers `qs` all hold the leader's log and are credited with it. */
  ghost predicate AllUp(c: Cluster, c': Cluster, lead: NodeId, qs: seq<NodeId>)
  {
    && lead in c.servers && Inv(c', lead) && c'.servers[lead].role == Leader && c'.servers.Keys == c.servers.Keys
    && var l, l' := c.servers[lead], c'.servers[lead];
    && l'.log == l.log && l'.term == l.term && l'.peers == l.peers
    && (qs != [] ==> Settled(l'))
    && forall q :: q in qs ==> q in c'.servers && c'.servers[q].log == l.log && Get(l'.matchIndex, q, 0) == |l.log|
  }

  lemma AllUpMore(c: Cluster, c': Cluster, c'': Cluster, lead: NodeId, qs: seq<NodeId>, p: NodeId)
    requires AllUp(c, c', lead, qs) && BroughtUp(c', c'', lead, p) && p !in qs && lead !in qs
    ensures AllUp(c, c'', lead, qs + [p])
  {
    hide Inv, Settled;
  }

  lemma InitOfDistinct(qs: seq<NodeId>)
    requires NoRepeats(qs) && qs != []
    ensures var n := |qs| - 1;
            qs == qs[..n] + [qs[n]] && NoRepeats(qs[..n]) && qs[n] !in qs[..n] && qs[n] in qs
  {
  }

  lemma StillLeads(c: Cluster, c': Cluster, lead: NodeId, qs: seq<NodeId>, p: NodeId)
    requires AllUp(c, c', lead, qs) && Leads(c, lead, p)
    ensures Leads(c', lead, p)
  {
    hide Inv, Settled;
  }

  lemma NotAPeer(c: Cluster, lead: NodeId, qs: seq<NodeId>)
    requires forall q :: q in qs ==> Leads(c, lead, q)
    ensures lead !in qs
  {
    hide Inv;
    assert !Leads(c, lead, lead);
  }

  lemma NextFits(c: Cluster, lead: NodeId, p: NodeId)
    requires Leads(c, lead, p)
    ensures lead in c.servers && NextFor(c.servers[lead], p) <= |c.servers[lead].log| + 1
  {
    PrefixLogMatches(c, lead, p);
  }

  lemma UndisturbedBoth(a: seq<Step>, b: seq<Step>)
    requires Undisturbed(a) && Undisturbed(b)
    ensures Undisturbed(a + b)
  {
  }

  lemma Bounds(a: nat, n: nat)
    ensures 3 * a * n + 3 * a == 3 * a * (n + 1)
  {
  }

  lemma {:induction false} BringUpAll(c: Cluster, lead: NodeId, qs: seq<NodeId>) returns (steps: seq<Step>)
    requires Inv(c, lead) && c.servers[lead].role == Leader && NoRepeats(qs)
    requires forall q :: q in qs ==> Leads(c, lead, q)
    ensures Undisturbed(steps) && |steps| <= 3 * (|c.servers[lead].log| + 1) * |qs|
    ensures AllUp(c, Run(c, lead, steps), lead, qs)
  {
    if qs == [] {
      steps := [];
    } else {
      var n := |qs| - 1;
      var init, p := qs[..n], qs[n];
      InitOfDistinct(qs);
      assert forall q :: q in init ==> q in qs;
      hide Inv, Run, Settled, BroughtUp, Undisturbed, Leads;
      steps := BringUpAll(c, lead, init);
      var c' := Run(c, lead, steps);
      StillLeads(c, c', lead, init, p);
      var rest := BringUp(c', lead, p);
      NextFits(c', lead, p);
      RunAppend(c, lead, steps, rest);
      NotAPeer(c, lead, init);
      AllUpMore(c, c', Run(c', lead, rest), lead, init, p);
      UndisturbedBoth(steps, rest);
      Bounds(|c.servers[lead].log| + 1, n);
      steps := steps + rest;
    }
  }

  /** Credits of distinct peers add up. */
  lemma CreditsCount(peers: seq<NodeId>, qs: seq<NodeId>, matchIndex: map<NodeId, nat>, n: nat)
    requires NoRepeats(peers) && NoRepeats(qs)
    requires forall q :: q in qs ==> q in peers && Get(matchIndex, q, 0) >= n
    ensures AckCount(peers, matchIndex, n) >= |qs|
  {
    AckCountIsSetSize(peers, matchIndex, n);
    DistinctSize(qs);
    SubsetSize((set q | q in qs), Acked(peers, matchIndex, n));
  }

  /** `lead` leads, its last entry is of its own term, and with `qs` it is a majority. */
  ghost predicate Quorum(l: Server, qs: seq<NodeId>)
  {
    && l.role == Leader && l.log != [] && l.log[|l.log| - 1].term == l.term
    && 1 + |qs| >= Majority(|l.peers|) && NoRepeats(qs) && qs != []
    && forall q :: q in qs ==> q in l.peers
  }

  /**
   * From every reachable state in which `lead` leads with a last entry of its own term, some
   * undisturbed continuation with a majority of peers commits the leader's whole log.
   */
  lemma CommitReachesEnd(c: Cluster, lead: NodeId, steps: seq<Step>, qs: seq<NodeId>) returns (more: seq<Step>)
    requires Initial(c, lead) && PeersAreTheOthers(c, lead)
    ensures var l := Run(c, lead, steps).servers[lead];
            Quorum(l, qs) ==>
              && Undisturbed(more) && |more| <= 3 * (|l.log| + 1) * |qs|
              && var l' := Run(c, lead, steps + more).servers[lead];
              && l'.log == l.log && l'.commitIndex == |l.log| && l'.applied == Commands(l.log)
  {
    more := [];
    var now := Run(c, lead, steps);
    InvRun(c, lead, steps);
    PeersStay(c, lead, steps);
    if Quorum(now.servers[lead], qs) {
      QuorumLed(now, lead, qs);
      hide Inv, Leads, Run, Initial, PeersAreTheOthers, AllUp, Undisturbed;
      more := BringUpAll(now, lead, qs);
      RunAppend(c, lead, steps, more);
      QuorumCommits(now, Run(now, lead, more), lead, qs);
    }
  }

  lemma QuorumCommits(c: Cluster, c': Cluster, lead: NodeId, qs: seq<NodeId>)
    requires AllUp(c, c', lead, qs) && Quorum(c.servers[lead], qs) && NoRepeats(c.servers[lead].peers)
    ensures var l, l' := c.servers[lead], c'.servers[lead];
            l'.log == l.log && l'.commitIndex == |l.log| && l'.applied == Commands(l.log)
  {
    var l, l' := c.servers[lead], c'.servers[lead];
    assert Synced(l', l'.log, l'.commitIndex);
    hide Inv;
    CreditsCount(l'.peers, qs, l'.matchIndex, |l.log|);
    assert Committable(l', |l.log|);
    assert l'.log[..|l.log|] == l.log;
  }

  lemma QuorumLed(c: Cluster, lead: NodeId, qs: seq<NodeId>)
    requires lead in c.servers && Inv(c, lead) && PeersAreTheOthers(c, lead) && c.servers[lead].role == Leader
    requires forall q :: q in qs ==> q in c.servers[lead].peers
    ensures forall q :: q in qs ==> Leads(c, lead, q)
    ensures NoRepeats(c.servers[lead].peers)
  {
    hide Inv;
    forall q | q in qs ensures Leads(c, lead, q) {
      assert q in (set p | p in c.servers[lead].peers);
      assert q in c.servers.Keys - {lead};
    }
  }

  lemma PeersStay(c: Cluster, lead: NodeId, steps: seq<Step>)
    requires Initial(c, lead) && PeersAreTheOthers(c, lead)
    ensures PeersAreTheOthers(Run(c, lead, steps), lead)
  {
    RunGrows(c, lead, steps, 0);
    assert steps[..0] == [];
    assert Forward(c.servers[lead], Run(c, lead, steps).servers[lead]);
  }
}
