/**
 * Voting in the coordination layer (coordination/raft.py:146-196, 273-305): what a grant means, how
 * often a node can give one, and why whoever could win next holds everything that is committed.
 */
module MicroVotes {
  import opened Wrappers
  import opened MicroRaftNode
  import opened LogRepair
  import opened Replication
  import opened MajorityCommit

  /** The log of a candidate that reports this last entry is at least as far as `log`. */
  predicate UpToDate(lastTerm: nat, lastIndex: nat, log: seq<Entry>)
  {
    log == [] || lastTerm > log[|log| - 1].term || (lastTerm == log[|log| - 1].term && lastIndex >= |log|)
  }

  /** A vote request is granted exactly under its three conditions, and a grant is all that is recorded. */
  lemma VoteGrantedIff(s: Server, m: Rpc)
    requires m.RequestVote?
    ensures var (s', reply) := Handle(s, m);
            && reply.VoteReply? && reply.term == s'.term
            && s'.term == (if m.term > s.term then m.term else s.term)
            && (reply.granted <==> m.term >= s.term && (s.votedFor == None || s.votedFor == Some(m.candidateId))
                                   && UpToDate(m.lastLogTerm, m.lastLogIndex, s.log))
            && s'.votedFor == (if reply.granted then Some(m.candidateId) else s.votedFor)
            && s' == s.(term := s'.term, role := s'.role, votedFor := s'.votedFor)
  {
  }

  /** Whatever arrives, a newer term is adopted and ends a candidacy or a leadership; otherwise both stay. */
  lemma TermObserved(s: Server, m: Rpc)
    ensures var (s', reply) := Handle(s, m);
            && s'.term == (if m.term > s.term then m.term else s.term)
            && s'.role == (if m.term > s.term then Follower else s.role)
            && s'.id == s.id && s'.peers == s.peers && s'.nextIndex == s.nextIndex && s'.matchIndex == s.matchIndex
            && (m.AppendEntries? ==> reply == AppendReply(s'.term, reply.success) && s'.votedFor == s.votedFor)
            && (m.UnknownRpc? ==> reply == NoReply && s' == s.(term := s'.term, role := s'.role))
  {
    hide AppendAll;
  }

  // ----- Counting grants -----

  /** The positions of the replies that grant. */
  ghost function Grants(replies: seq<Option<bool>>): set<int>
  {
    set i | 0 <= i < |replies| && replies[i] == Some(true)
  }

  lemma {:induction false} GrantCountIs(replies: seq<Option<bool>>)
    ensures GrantCount(replies) == |Grants(replies)|
  {
    if replies == [] {
      assert Grants(replies) == {};
    } else {
      var n := |replies| - 1;
      var init := replies[..n];
      GrantCountIs(init);
      assert forall i :: 0 <= i < n ==> init[i] == replies[i];
      assert Grants(replies) == if replies[n] == Some(true) then Grants(init) + {n} else Grants(init);
    }
  }

  /** The votes needed are a strict majority of the peers and the node itself. */
  lemma ElectedIffMajority(replies: seq<Option<bool>>, peers: seq<NodeId>)
    requires |replies| == |peers|
    ensures 1 + GrantCount(replies) >= Majority(|peers|) <==> 2 * (1 + |Grants(replies)|) > |peers| + 1
  {
    GrantCountIs(replies);
  }

  /**
   * An election that nothing interrupts is a timeout of the cluster followed by a win or a loss: it
   * ends in leadership of the next term, or as its follower, with the node's vote spent on itself.
   */
  lemma ElectionIsTwoSteps(c: Cluster, lead: NodeId, replies: seq<Option<bool>>)
    requires lead in c.servers && c.servers[lead].role != Leader && |replies| == |c.servers[lead].peers|
    ensures var s := c.servers[lead];
            var won := 2 * (1 + |Grants(replies)|) > |s.peers| + 1;
            var s' := Next(Next(c, lead, Timeout(lead)), lead, if won then Win else Lose(lead)).servers[lead];
            && s' == (if 1 + GrantCount(replies) >= Majority(|s.peers|) then BecomeLeader(BeginElection(s))
                      else BeginElection(s).(role := Follower))
            && s'.term == s.term + 1 && s'.log == s.log && s'.commitIndex == s.commitIndex
            && s'.role == (if won then Leader else Follower)
            && s'.votedFor == (if won then None else Some(s.id))
  {
    ElectedIffMajority(replies, c.servers[lead].peers);
    hide SetAll, GrantCount, Grants, Majority;
  }

  // ----- One node's votes -----

  datatype Turn = Ask(rpc: Rpc) | Stand | Won | Lost

  function Take(s: Server, t: Turn): Server
  {
    match t
    case Ask(m) => Handle(s, m).0
    case Stand => BeginElection(s)
    case Won => BecomeLeader(s)
    case Lost => s.(role := Follower)
  }

  /** Whom the turn supports, and in which term. */
  function Support(s: Server, t: Turn): Option<(nat, NodeId)>
  {
    match t
    case Ask(m) =>
      var (s', reply) := Handle(s, m);
      if m.RequestVote? && reply.VoteReply? && reply.granted then Some((s'.term, m.candidateId)) else None
    case Stand => Some((s.term + 1, s.id))
    case _ => None
  }

  function TakeAll(s: Server, ts: seq<Turn>): Server
  {
    if ts == [] then s else Take(TakeAll(s, ts[..|ts| - 1]), ts[|ts| - 1])
  }

  /** Everyone supported so far, as (term, candidate). */
  function Supports(s: Server, ts: seq<Turn>): set<(nat, NodeId)>
  {
    if ts == [] then {}
    else
      var x := Support(TakeAll(s, ts[..|ts| - 1]), ts[|ts| - 1]);
      Supports(s, ts[..|ts| - 1]) + (if x.Some? then {x.value} else {})
  }

  ghost predicate OnePerTerm(xs: set<(nat, NodeId)>)
  {
    forall x, y :: x in xs && y in xs && x.0 == y.0 ==> x == y
  }

  /** No support is beyond the term, and one in the present term is the recorded vote. */
  ghost predicate VotesRecorded(s: Server, xs: set<(nat, NodeId)>)
  {
    OnePerTerm(xs) && forall x :: x in xs ==> x.0 <= s.term && (x.0 == s.term ==> s.votedFor == Some(x.1))
  }

  lemma VotesRecordedStep(s: Server, xs: set<(nat, NodeId)>, t: Turn)
    requires VotesRecorded(s, xs) && !t.Won?
    ensures var x := Support(s, t);
            VotesRecorded(Take(s, t), xs + (if x.Some? then {x.value} else {}))
  {
    if t.Ask? {
      TermObserved(s, t.rpc);
      if t.rpc.RequestVote? {
        VoteGrantedIff(s, t.rpc);
      }
      KeepsVote(s, t.rpc);
      hide Handle;
    }
  }

  lemma KeepsVote(s: Server, m: Rpc)
    ensures !m.RequestVote? ==> Handle(s, m).0.votedFor == s.votedFor
  {
    TermObserved(s, m);
    hide AppendAll;
  }

  /** Until it wins, a node supports at most one candidate per term. */
  lemma {:induction false} OneVoteUnlessWon(id: NodeId, peers: seq<NodeId>, ts: seq<Turn>)
    requires forall i :: 0 <= i < |ts| ==> !ts[i].Won?
    ensures OnePerTerm(Supports(Fresh(id, peers), ts))
    ensures VotesRecorded(TakeAll(Fresh(id, peers), ts), Supports(Fresh(id, peers), ts))
  {
    hide Take, Support;
    if ts != [] {
      OneVoteUnlessWon(id, peers, ts[..|ts| - 1]);
      VotesRecordedStep(TakeAll(Fresh(id, peers), ts[..|ts| - 1]), Supports(Fresh(id, peers), ts[..|ts| - 1]),
                        ts[|ts| - 1]);
    }
  }

  /** Winning clears the vote, so that a node can support another candidate of the very term it won. */
  lemma TwoVotesAfterWinning(id: NodeId, peers: seq<NodeId>, other: NodeId)
    requires other != id
    ensures var ts := [Stand, Won, Ask(RequestVote(1, other, 0, 0))];
            (1, id) in Supports(Fresh(id, peers), ts) && (1, other) in Supports(Fresh(id, peers), ts)
  {
    var s, m := Fresh(id, peers), RequestVote(1, other, 0, 0);
    var none: seq<Turn> := [];
    TurnMore(s, none, Stand);
    TurnMore(s, none + [Stand], Won);
    TurnMore(s, none + [Stand] + [Won], Ask(m));
    assert none + [Stand] + [Won] + [Ask(m)] == [Stand, Won, Ask(m)];
    WinningClearsVote(BeginElection(s));
    VoteGrantedIff(BecomeLeader(BeginElection(s)), m);
    hide Handle, BecomeLeader;
  }

  lemma TurnMore(s: Server, ts: seq<Turn>, t: Turn)
    ensures TakeAll(s, ts + [t]) == Take(TakeAll(s, ts), t) && (ts == [] ==> TakeAll(s, ts) == s)
    ensures var x := Support(TakeAll(s, ts), t);
            Supports(s, ts + [t]) == Supports(s, ts) + (if x.Some? then {x.value} else {})
  {
    hide Take, Support;
    assert (ts + [t])[..|ts|] == ts;
  }

  lemma WinningClearsVote(s: Server)
    ensures var s' := BecomeLeader(s);
            && s'.votedFor == None && s'.term == s.term && s'.log == s.log && s'.role == Leader && s'.id == s.id
            && (forall p :: p in s.peers ==> p in s'.nextIndex && s'.nextIndex[p] == |s.log| + 1)
            && (forall p :: p in s.peers ==> p in s'.matchIndex && s'.matchIndex[p] == 0)
  {
  }

  // ----- The election restriction -----

  ghost predicate TermsAscend(s: Server)
  {
    && (forall i, j :: 0 <= i < j < |s.log| ==> s.log[i].term <= s.log[j].term)
    && (forall i :: 0 <= i < |s.log| ==> s.log[i].term <= s.term)
  }

  lemma LeaderLogStep(c: Cluster, lead: NodeId, step: Step)
    requires Inv(c, lead)
    ensures var l, l' := c.servers[lead], Next(c, lead, step).servers[lead];
            l.term <= l'.term
            && (l'.log == l.log || exists e: Entry :: e.term == l.term && l'.log == l.log + [e])
  {
    hide Handle, OnReply, Propose, BuildAppend, Snapshots, WellIndexed, IsSnapshot, SetAll, NextIndicesFit;
    var l := c.servers[lead];
    match step
    case Command(command) =>
      assert Synced(l, l.log, l.commitIndex);
      if l.role == Leader {
        ProposedLog(l, command);
      }
    case Heartbeat =>
    case Deliver(to, rpc) =>
      if to == lead && (rpc.AppendEntries? ==> rpc in c.sent) {
        HandleSynced(l, rpc, l.log, l.commitIndex);
      }
    case Receive(ack) => OnReplyKeeps(l, ack.from, ack.success);
    case Timeout(_) =>
    case Win =>
    case Lose(_) =>
  }

  lemma TermsAscendStep(c: Cluster, lead: NodeId, step: Step)
    requires Inv(c, lead) && TermsAscend(c.servers[lead])
    ensures TermsAscend(Next(c, lead, step).servers[lead])
  {
    LeaderLogStep(c, lead, step);
    hide Inv, Next;
  }

  lemma ProposedLog(s: Server, command: Command)
    requires s.role == Leader && s.commitIndex <= |s.log|
    ensures var s' := Propose(s, command).0;
            s'.log == s.log + [Entry(s.term, |s.log| + 1, command)] && s'.term == s.term
  {
  }

  lemma {:induction false} TermsAscendRun(c: Cluster, lead: NodeId, steps: seq<Step>)
    requires Initial(c, lead)
    ensures TermsAscend(Run(c, lead, steps).servers[lead])
  {
    hide Next;
    if steps != [] {
      TermsAscendRun(c, lead, steps[..|steps| - 1]);
      InvRun(c, lead, steps[..|steps| - 1]);
      TermsAscendStep(Run(c, lead, steps[..|steps| - 1]), lead, steps[|steps| - 1]);
    }
  }

  /** `v` would grant `p` its vote. */
  ghost predicate WouldGrant(v: Server, p: Server)
  {
    var reply := Handle(v, OwnRequest(p)).1;
    reply.VoteReply? && reply.granted
  }

  /** Among prefixes of one log with ascending terms, a grant goes only to a log at least as long. */
  lemma GrantGoesToLonger(v: Server, p: Server, l: Server)
    requires v.log <= l.log && p.log <= l.log && TermsAscend(l) && WouldGrant(v, p)
    ensures |v.log| <= |p.log|
  {
    VoteGrantedIff(v, OwnRequest(p));
    assert UpToDate(LastTerm(p.log), |p.log|, v.log);
    assert forall i :: 0 <= i < |v.log| ==> v.log[i] == l.log[i];
    assert forall i :: 0 <= i < |p.log| ==> p.log[i] == l.log[i];
  }

  /**
   * After a timely run, a node that could gather the grants of a strict majority, its own included,
   * holds everything the leader has committed.
   */
  lemma ElectableHoldsCommitted(c: Cluster, lead: NodeId, steps: seq<Step>, p: NodeId, voters: set<NodeId>)
    requires Initial(c, lead) && PeersAreTheOthers(c, lead) && Timely(c, lead, steps)
    requires p in c.servers && p in voters && voters <= c.servers.Keys && 2 * |voters| > |c.servers|
    requires forall v :: v in voters && v != p ==>
               WouldGrant(Run(c, lead, steps).servers[v], Run(c, lead, steps).servers[p])
    ensures var now := Run(c, lead, steps);
            var l := now.servers[lead];
            l.commitIndex <= |l.log| && l.log[..l.commitIndex] <= now.servers[p].log
  {
    CommittedIsHeldByMajority(c, lead, steps);
    TermsAscendRun(c, lead, steps);
    var now := Run(c, lead, steps);
    var l := now.servers[lead];
    var holders := Holders(now, lead, l.commitIndex);
    assert |now.servers| == |now.servers.Keys| == |c.servers.Keys| == |c.servers|;
    CommonMember(holders, voters, c.servers.Keys);
    var v :| v in holders && v in voters;
    hide Run, WouldGrant, TermsAscend, Timely, Initial;
    assert Synced(now.servers[v], l.log, l.commitIndex) && Synced(now.servers[p], l.log, l.commitIndex);
    if v != p {
      GrantGoesToLonger(now.servers[v], now.servers[p], l);
    }
    LongEnoughHolds(now, lead, p, l.commitIndex);
  }

  lemma CommonMember(a: set<NodeId>, b: set<NodeId>, all: set<NodeId>)
    requires a <= all && b <= all && 2 * |a| > |all| && 2 * |b| > |all|
    ensures exists x :: x in a && x in b
  {
    SubsetSize(a + b, all);
    assert |a + b| + |a * b| == |a| + |b|;
    var x :| x in a * b;
  }
}
