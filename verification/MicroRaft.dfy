/**
 * The replicated log of the coordination layer (coordination/raft.py).
 *
 * `Server` is the value of one node's fields.  Each handler has a specification
 * function on `Server`, and the class `MicroRaft` carries the in-place code, whose
 * methods are proved to compute those functions.  `applied` records the commands
 * handed to the commit callbacks, in order.
 */
module MicroRaftNode {
  import opened Wrappers

  type NodeId = string

  /** What a log entry carries: a sequenced topic message, or any other dictionary. */
  datatype Command =
    | OrderedMessage(topic: string, seqNo: int, payload: string)
    | OtherCommand(body: string)

  type Index = n: nat | 1 <= n witness 1

  datatype Entry = Entry(term: nat, index: Index, command: Command)

  datatype Role = Follower | Candidate | Leader

  datatype Rpc =
    | RequestVote(term: nat, candidateId: NodeId, lastLogIndex: nat, lastLogTerm: nat)
    | AppendEntries(term: nat, leaderId: NodeId, prevLogIndex: nat, prevLogTerm: nat,
                    entries: seq<Entry>, leaderCommit: nat)
    | UnknownRpc(term: nat)

  datatype Reply =
    | VoteReply(term: nat, granted: bool)
    | AppendReply(term: nat, success: bool)
    | NoReply

  datatype Server = Server(
    id: NodeId, peers: seq<NodeId>,
    term: nat, votedFor: Option<NodeId>, log: seq<Entry>,
    commitIndex: nat, lastApplied: nat,
    nextIndex: map<NodeId, Index>, matchIndex: map<NodeId, nat>,
    role: Role, applied: seq<Command>)

  function Fresh(id: NodeId, peers: seq<NodeId>): Server
  {
    Server(id, peers, 0, None, [], 0, 0, map[], map[], Follower, [])
  }

  function Min(a: nat, b: nat): nat { if a <= b then a else b }

  function Commands(es: seq<Entry>): (cs: seq<Command>)
  {
    seq(|es|, i requires 0 <= i < |es| => es[i].command)
  }

  // ----- Follower side -----

  /** One iteration of the append loop: keep, overwrite-and-truncate, or append. */
  function AppendOne(log: seq<Entry>, e: Entry): seq<Entry>
  {
    if e.index <= |log| then
      if log[e.index - 1].term != e.term then log[..e.index - 1] + [e] else log
    else
      log + [e]
  }

  function AppendAll(log: seq<Entry>, es: seq<Entry>): seq<Entry>
  {
    if es == [] then log
    else AppendOne(AppendAll(log, es[..|es| - 1]), es[|es| - 1])
  }

  predicate PrevMatches(log: seq<Entry>, prevIndex: nat, prevTerm: nat)
  {
    prevIndex > 0 ==> prevIndex <= |log| && log[prevIndex - 1].term == prevTerm
  }

  /** Everything up to the commit index has been handed to the callbacks. */
  function Apply(s: Server): Server
    requires s.commitIndex <= |s.log|
  {
    if s.lastApplied < s.commitIndex then
      s.(lastApplied := s.commitIndex,
         applied := s.applied + Commands(s.log[s.lastApplied..s.commitIndex]))
    else s
  }

  function Append(s: Server, m: Rpc): (Server, bool)
    requires m.AppendEntries?
  {
    if !PrevMatches(s.log, m.prevLogIndex, m.prevLogTerm) then (s, false)
    else
      var s1 := s.(log := AppendAll(s.log, m.entries));
      if m.leaderCommit > s.commitIndex then
        (Apply(s1.(commitIndex := Min(m.leaderCommit, |s1.log|))), true)
      else (s1, true)
  }

  function LastTerm(log: seq<Entry>): nat
  {
    if log == [] then 0 else log[|log| - 1].term
  }

  function Vote(s: Server, m: Rpc): (Server, bool)
    requires m.RequestVote?
  {
    if m.term < s.term then (s, false)
    else if s.votedFor.Some? && s.votedFor.value != m.candidateId then (s, false)
    else if m.lastLogTerm < LastTerm(s.log)
            || (m.lastLogTerm == LastTerm(s.log) && m.lastLogIndex < |s.log|) then (s, false)
    else (s.(votedFor := Some(m.candidateId)), true)
  }

  /** A newer term is adopted; leaders and candidates fall back to follower. */
  function ObserveTerm(s: Server, term: nat): Server
  {
    if term > s.term then s.(term := term, role := Follower) else s
  }

  function Handle(s: Server, m: Rpc): (Server, Reply)
  {
    var s1 := ObserveTerm(s, m.term);
    match m
    case RequestVote(_, _, _, _) =>
      var (s2, ok) := Vote(s1, m); (s2, VoteReply(s2.term, ok))
    case AppendEntries(_, _, _, _, _, _) =>
      var (s2, ok) := Append(s1, m); (s2, AppendReply(s2.term, ok))
    case UnknownRpc(_) => (s1, NoReply)
  }

  // ----- Elections -----

  function Majority(peerCount: nat): nat { (peerCount + 1) / 2 + 1 }

  function BeginElection(s: Server): Server
  {
    s.(term := s.term + 1, role := Candidate, votedFor := Some(s.id))
  }

  /** The vote request of a candidate: it reports its own last entry. */
  function OwnRequest(s: Server): Rpc { RequestVote(s.term, s.id, |s.log|, LastTerm(s.log)) }

  function GrantCount(replies: seq<Option<bool>>): nat
  {
    if replies == [] then 0
    else GrantCount(replies[..|replies| - 1]) + (if replies[|replies| - 1] == Some(true) then 1 else 0)
  }

  function BecomeLeader(s: Server): Server
  {
    s.(role := Leader, votedFor := None,
       nextIndex := SetAll(s.nextIndex, s.peers, |s.log| + 1),
       matchIndex := SetAll(s.matchIndex, s.peers, 0))
  }

  /** The table `m` after assigning `v` to each of the peers. */
  function SetAll<V>(m: map<NodeId, V>, peers: seq<NodeId>, v: V): (r: map<NodeId, V>)
    ensures forall p :: p in r <==> p in m || p in peers
    ensures forall p :: p in r ==> r[p] == if p in peers then v else m[p]
  {
    if peers == [] then m
    else SetAll(m, peers[..|peers| - 1], v)[peers[|peers| - 1] := v]
  }

  // ----- Leader side -----

  /** The snapshot sent to `peer`: everything from its next index on. */
  function BuildAppend(s: Server, peer: NodeId): Rpc
  {
    var next: Index := Get(s.nextIndex, peer, 1);
    var prev: nat := next - 1;
    AppendEntries(s.term, s.id, prev,
                  if 0 < prev <= |s.log| then s.log[prev - 1].term else 0,
                  if prev <= |s.log| then s.log[prev..] else [],
                  s.commitIndex)
  }

  /** How many of the peers have acknowledged index `n`. */
  function AckCount(peers: seq<NodeId>, matchIndex: map<NodeId, nat>, n: nat): (count: nat)
    ensures count <= |peers|
  {
    if peers == [] then 0
    else AckCount(peers[..|peers| - 1], matchIndex, n)
         + (if Get(matchIndex, peers[|peers| - 1], 0) >= n then 1 else 0)
  }

  /** Index `n` is of the current term and the leader plus its acknowledgers are a majority. */
  predicate Committable(s: Server, n: nat)
    requires 1 <= n <= |s.log|
  {
    s.log[n - 1].term == s.term && 1 + AckCount(s.peers, s.matchIndex, n) >= Majority(|s.peers|)
  }

  /** The greatest committable index in (commitIndex, hi], or the commit index itself. */
  function GreatestCommittable(s: Server, hi: nat): (n: nat)
    requires hi <= |s.log|
    ensures n == s.commitIndex || (s.commitIndex < n <= hi && Committable(s, n))
    ensures forall k :: n < k <= hi ==> !Committable(s, k)
    decreases hi
  {
    if hi <= s.commitIndex then s.commitIndex
    else if Committable(s, hi) then hi
    else GreatestCommittable(s, hi - 1)
  }

  /** The state after scanning the indices up to `hi`. */
  function CommitUpTo(s: Server, hi: nat): Server
    requires hi <= |s.log|
  {
    var n := GreatestCommittable(s, hi);
    if n > s.commitIndex then Apply(s.(commitIndex := n)) else s
  }

  function UpdateCommit(s: Server): Server { CommitUpTo(s, |s.log|) }

  function OnReply(s: Server, peer: NodeId, success: bool): Server
  {
    if success then
      UpdateCommit(s.(matchIndex := s.matchIndex[peer := |s.log|],
                      nextIndex := s.nextIndex[peer := |s.log| + 1]))
    else if Get(s.nextIndex, peer, 1) > 1 then
      s.(nextIndex := s.nextIndex[peer := Get(s.nextIndex, peer, 1) - 1])
    else s
  }

  function Propose(s: Server, command: Command): (Server, Option<Index>)
  {
    if s.role != Leader then (s, None)
    else
      var s1 := s.(log := s.log + [Entry(s.term, |s.log| + 1, command)]);
      (if s.peers == [] then Apply(s1.(commitIndex := |s1.log|)) else s1, Some(|s.log| + 1))
  }

  function Broadcast(s: Server): seq<(NodeId, Rpc)>
  {
    seq(|s.peers|, i requires 0 <= i < |s.peers| => (s.peers[i], BuildAppend(s, s.peers[i])))
  }

  // ----- The node itself -----

  class MicroRaft {
    const id: NodeId
    const peers: seq<NodeId>
    var term: nat
    var votedFor: Option<NodeId>
    var log: seq<Entry>
    var commitIndex: nat
    var lastApplied: nat
    var nextIndex: map<NodeId, Index>
    var matchIndex: map<NodeId, nat>
    var role: Role
    var applied: seq<Command>

    function State(): Server
      reads this
    {
      Server(id, peers, term, votedFor, log, commitIndex, lastApplied, nextIndex, matchIndex, role, applied)
    }

    constructor (id: NodeId, peers: seq<NodeId>)
      ensures State() == Fresh(id, peers)
    {
      this.id, this.peers := id, peers;
      term, votedFor, log := 0, None, [];
      commitIndex, lastApplied := 0, 0;
      nextIndex, matchIndex := map[], map[];
      role, applied := Follower, [];
    }

    method ApplyCommitted()
      requires commitIndex <= |log|
      modifies this
      ensures State() == Apply(old(State()))
    {
      ghost var start := lastApplied;
      while lastApplied < commitIndex
        invariant start <= lastApplied
        invariant lastApplied <= commitIndex || lastApplied == start
        invariant commitIndex <= |log|
        invariant State() == old(State()).(lastApplied := lastApplied, applied := applied)
        invariant lastApplied > start ==> applied == old(applied) + Commands(log[start..lastApplied])
        invariant lastApplied == start ==> applied == old(applied)
      {
        lastApplied := lastApplied + 1;
        applied := applied + [log[lastApplied - 1].command];
        assert Commands(log[start..lastApplied])
            == Commands(log[start..lastApplied - 1]) + [log[lastApplied - 1].command];
      }
    }

    method HandleAppendEntries(m: Rpc) returns (success: bool)
      requires m.AppendEntries?
      modifies this
      ensures (State(), success) == Append(old(State()), m)
    {
      if m.prevLogIndex > 0 {
        if m.prevLogIndex > |log| {
          return false;
        }
        if log[m.prevLogIndex - 1].term != m.prevLogTerm {
          return false;
        }
      }
      for i := 0 to |m.entries|
        invariant State() == old(State()).(log := AppendAll(old(log), m.entries[..i]))
      {
        var entry := m.entries[i];
        assert m.entries[..i + 1][..i] == m.entries[..i];
        if entry.index <= |log| {
          if log[entry.index - 1].term != entry.term {
            log := log[..entry.index - 1];
            log := log + [entry];
          }
        } else {
          log := log + [entry];
        }
      }
      assert m.entries[..|m.entries|] == m.entries;
      if m.leaderCommit > commitIndex {
        commitIndex := Min(m.leaderCommit, |log|);
        ApplyCommitted();
      }
      return true;
    }

    method HandleRequestVote(m: Rpc) returns (granted: bool)
      requires m.RequestVote?
      modifies this
      ensures (State(), granted) == Vote(old(State()), m)
    {
      if m.term < term {
        return false;
      }
      if votedFor != None && votedFor != Some(m.candidateId) {
        return false;
      }
      var myLastTerm := if log != [] then log[|log| - 1].term else 0;
      if m.lastLogTerm < myLastTerm || (m.lastLogTerm == myLastTerm && m.lastLogIndex < |log|) {
        return false;
      }
      votedFor := Some(m.candidateId);
      return true;
    }

    method HandleRpc(m: Rpc) returns (reply: Reply)
      modifies this
      ensures (State(), reply) == Handle(old(State()), m)
    {
      if m.term > term {
        term := m.term;
        if role == Leader {
          role := Follower;
        } else if role == Candidate {
          role := Follower;
        }
      }
      match m
      case RequestVote(_, _, _, _) =>
        var granted := HandleRequestVote(m);
        reply := VoteReply(term, granted);
      case AppendEntries(_, _, _, _, _, _) =>
        var success := HandleAppendEntries(m);
        reply := AppendReply(term, success);
      case UnknownRpc(_) =>
        reply := NoReply;
    }

    /** An election without interruption; a missing reply is `None`. */
    method StartElection(replies: seq<Option<bool>>)
      requires |replies| == |peers|
      modifies this
      ensures State() == if 1 + GrantCount(replies) >= Majority(|peers|)
                         then BecomeLeader(BeginElection(old(State())))
                         else BeginElection(old(State())).(role := Follower)
    {
      Stand();
      var majority := (|peers| + 1) / 2 + 1;
      var votes, asked := RequestVotes(replies, majority);
      Conclude(votes, majority);
    }

    /** All that happens before the first wait. */
    method Stand()
      modifies this
      ensures State() == BeginElection(old(State()))
    {
      term := term + 1;
      role := Candidate;
      votedFor := Some(id);
    }

    /** What follows the last wait, in whatever state the node is by then. */
    method Conclude(votes: nat, majority: nat)
      modifies this
      ensures State() == if votes >= majority then BecomeLeader(old(State())) else old(State()).(role := Follower)
    {
      if votes >= majority {
        BecomeLeaderInPlace();
      } else {
        role := Follower;
      }
    }

    /** Ask the peers one after the other, stopping at a majority; `asked` is what is sent, and to whom. */
    method RequestVotes(replies: seq<Option<bool>>, majority: nat) returns (votes: nat, asked: seq<(NodeId, Rpc)>)
      requires majority == Majority(|peers|) && |replies| == |peers|
      ensures votes >= majority <==> 1 + GrantCount(replies) >= majority
      ensures |asked| <= |peers| && forall i :: 0 <= i < |asked| ==> asked[i] == (peers[i], OwnRequest(State()))
      ensures votes == 1 + GrantCount(replies[..|asked|])
      ensures |asked| == |peers| || votes >= majority
      ensures forall i :: 0 <= i < |asked| ==> i == 0 || 1 + GrantCount(replies[..i]) < majority
    {
      var lastLogIndex := |log|;
      var lastLogTerm := if log == [] then 0 else log[|log| - 1].term;
      votes, asked := 1, [];
      for i := 0 to |peers|
        invariant votes == 1 + GrantCount(replies[..i]) && (i == 0 || votes < majority)
        invariant |asked| == i && forall j :: 0 <= j < i ==> asked[j] == (peers[j], OwnRequest(State()))
        invariant forall j :: 0 < j < i ==> 1 + GrantCount(replies[..j]) < majority
      {
        assert replies[..i + 1][..i] == replies[..i];
        asked := asked + [(peers[i], RequestVote(term, id, lastLogIndex, lastLogTerm))];
        if replies[i] == Some(true) {
          votes := votes + 1;
          if votes >= majority {
            GrantCountMonotone(replies, i + 1);
            return;
          }
        }
      }
      assert replies[..|replies|] == replies;
    }

    method BecomeLeaderInPlace()
      modifies this
      ensures State() == BecomeLeader(old(State()))
    {
      hide SetAll;
      role := Leader;
      votedFor := None;
      var lastIndex := |log|;
      var next: Index, zero: nat := lastIndex + 1, 0;
      SetAllNone(nextIndex, next);
      SetAllNone(matchIndex, zero);
      assert peers[..0] == [];
      for i := 0 to |peers|
        invariant State() == old(State()).(role := Leader, votedFor := None, nextIndex := nextIndex,
                                           matchIndex := matchIndex)
        invariant nextIndex == SetAll(old(nextIndex), peers[..i], next)
        invariant matchIndex == SetAll(old(matchIndex), peers[..i], zero)
      {
        SetAllMore(old(nextIndex), peers, i, next);
        SetAllMore(old(matchIndex), peers, i, zero);
        nextIndex := nextIndex[peers[i] := next];
        matchIndex := matchIndex[peers[i] := zero];
      }
      assert peers[..|peers|] == peers;
    }

    method BroadcastAppendEntries(forceReplicate: bool) returns (out: seq<(NodeId, Rpc)>)
      ensures out == Broadcast(State())
    {
      hide BuildAppend;
      out := [];
      for k := 0 to |peers|
        invariant |out| == k
        invariant forall j :: 0 <= j < k ==> out[j] == (peers[j], BuildAppend(State(), peers[j]))
      {
        var m := SnapshotFor(peers[k], forceReplicate);
        out := out + [(peers[k], m)];
      }
    }

    /** The loop body of the broadcast: one peer's snapshot. */
    method SnapshotFor(peer: NodeId, forceReplicate: bool) returns (m: Rpc)
      ensures m == BuildAppend(State(), peer)
    {
      var nextIdx: Index := Get(nextIndex, peer, 1);
      var prevIndex: nat := nextIdx - 1;
      var prevTerm := if prevIndex > 0 && prevIndex <= |log| then log[prevIndex - 1].term else 0;
      var entries := [];
      if nextIdx <= |log| || forceReplicate {
        var i: nat := nextIdx - 1;
        while i < |log|
          invariant nextIdx - 1 <= i
          invariant i <= |log| || i == nextIdx - 1
          invariant entries == if i <= |log| then log[nextIdx - 1..i] else []
          decreases |log| - i
        {
          entries := entries + [log[i]];
          i := i + 1;
        }
      }
      m := AppendEntries(term, id, prevIndex, prevTerm, entries, commitIndex);
    }

    method HandleAppendReply(peer: NodeId, success: bool)
      modifies this
      ensures State() == OnReply(old(State()), peer, success)
    {
      if success {
        matchIndex := matchIndex[peer := |log|];
        nextIndex := nextIndex[peer := |log| + 1];
        UpdateCommitIndex();
      } else {
        var next := Get(nextIndex, peer, 1);
        if next > 1 {
          nextIndex := nextIndex[peer := next - 1];
        }
      }
    }

    method UpdateCommitIndex()
      modifies this
      ensures State() == UpdateCommit(old(State()))
    {
      hide Apply, GreatestCommittable, CommitUpTo, AckCount;
      ghost var before := State();
      CommitUpToKeeps(before, Min(commitIndex, |log|));
      var n := commitIndex + 1;
      while n <= |log|
        invariant before.commitIndex < n
        invariant n <= |before.log| + 1 || n == before.commitIndex + 1
        invariant log == before.log
        invariant State() == CommitUpTo(before, Min(n - 1, |before.log|))
        decreases |before.log| + 1 - n
      {
        CommitUpToKeeps(before, n - 1);
        CommitUpToStep(before, n);
        CommitUpToKeeps(before, n);
        if log[n - 1].term == term {
          var replicated := CountReplicas(n);
          var majority := (|peers| + 1) / 2 + 1;
          if replicated >= majority {
            commitIndex := n;
            ApplyCommitted();
          }
        }
        n := n + 1;
      }
    }

    /** The counting loop of the commit rule. */
    method CountReplicas(n: nat) returns (replicated: nat)
      ensures replicated == 1 + AckCount(peers, matchIndex, n)
    {
      replicated := 1;
      for i := 0 to |peers|
        invariant replicated == 1 + AckCount(peers[..i], matchIndex, n)
      {
        assert peers[..i + 1][..i] == peers[..i];
        if Get(matchIndex, peers[i], 0) >= n {
          replicated := replicated + 1;
        }
      }
      assert peers[..|peers|] == peers;
    }

    method ProposeCommand(command: Command) returns (index: Option<Index>, out: seq<(NodeId, Rpc)>)
      modifies this
      ensures (State(), index) == Propose(old(State()), command)
      ensures index.None? ==> out == []
      ensures index.Some? ==> out == Broadcast(old(State()).(log := log))
    {
      if role != Leader {
        return None, [];
      }
      var entry := Entry(term, |log| + 1, command);
      log := log + [entry];
      out := BroadcastAppendEntries(true);
      if peers == [] {
        commitIndex := |log|;
        ApplyCommitted();
      }
      index := Some(entry.index);
    }
  }

  // ----- Lemmas used by the class -----

  lemma SetAllNone<V>(m: map<NodeId, V>, v: V)
    ensures SetAll(m, [], v) == m
  {
  }

  lemma SetAllMore<V>(m: map<NodeId, V>, peers: seq<NodeId>, i: nat, v: V)
    requires i < |peers|
    ensures SetAll(m, peers[..i + 1], v) == SetAll(m, peers[..i], v)[peers[i] := v]
  {
    assert peers[..i + 1][..i] == peers[..i];
  }

  lemma {:induction false} GrantCountMonotone(replies: seq<Option<bool>>, i: nat)
    requires i <= |replies|
    ensures GrantCount(replies[..i]) <= GrantCount(replies)
    decreases |replies| - i
  {
    if i == |replies| {
      assert replies[..i] == replies;
    } else {
      assert replies[..i + 1][..i] == replies[..i];
      GrantCountMonotone(replies, i + 1);
    }
  }

  lemma CommitUpToKeeps(s: Server, hi: nat)
    requires hi <= |s.log|
    ensures var s' := CommitUpTo(s, hi);
            s' == s.(commitIndex := s'.commitIndex, lastApplied := s'.lastApplied, applied := s'.applied)
    ensures hi <= s.commitIndex ==> CommitUpTo(s, hi) == s
  {
  }

  /** One iteration of the commit scan: commit and apply index `n`, or leave everything alone. */
  lemma CommitUpToStep(s: Server, n: nat)
    requires s.commitIndex < n <= |s.log|
    ensures CommitUpTo(s, n)
         == if Committable(s, n) then Apply(CommitUpTo(s, n - 1).(commitIndex := n)) else CommitUpTo(s, n - 1)
  {
    ApplyTwice(s, GreatestCommittable(s, n - 1), n);
  }

  /** Applying at an earlier commit index first makes no difference. */
  lemma ApplyTwice(s: Server, lo: nat, hi: nat)
    requires s.commitIndex <= lo <= hi <= |s.log|
    ensures lo > s.commitIndex ==>
              Apply(Apply(s.(commitIndex := lo)).(commitIndex := hi)) == Apply(s.(commitIndex := hi))
  {
    if s.lastApplied < lo {
      assert s.log[s.lastApplied..hi] == s.log[s.lastApplied..lo] + s.log[lo..hi];
      assert Commands(s.log[s.lastApplied..hi])
          == Commands(s.log[s.lastApplied..lo]) + Commands(s.log[lo..hi]);
      assert s.applied + Commands(s.log[s.lastApplied..lo]) + Commands(s.log[lo..hi])
          == s.applied + (Commands(s.log[s.lastApplied..lo]) + Commands(s.log[lo..hi]));
    }
  }
}
