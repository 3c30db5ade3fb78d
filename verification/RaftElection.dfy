/**
 * Leader election of the agent mesh (phase0/raft.py): the vote bookkeeping of `RaftNode`.
 */
module RaftElection {
  import opened Wrappers

  type NodeId = string

  datatype Role = Follower | Candidate | Leader

  /** The payloads of the `_raft` topic; `from` of the envelope is kept where it matters. */
  datatype Payload =
    | VoteRequest(term: nat, candidate: NodeId)
    | VoteResponse(term: nat, granted: bool, candidate: NodeId, voter: NodeId)
    | Heartbeat(term: nat, leader: NodeId, entries: seq<string>, leaderCommit: nat)

  datatype Node = Node(
    id: NodeId, peers: seq<NodeId>,
    role: Role, term: nat, votedFor: Option<NodeId>, leaderId: Option<NodeId>,
    votesReceived: nat, votesNeeded: nat, electionTerm: nat,
    commitIndex: nat, wal: seq<string>)

  function Started(id: NodeId, peers: seq<NodeId>): Node
  {
    Node(id, peers, Follower, 0, None, None, 0, 0, 0, 0, [])
  }

  function Needed(peers: seq<NodeId>): nat
  {
    if peers != [] then |peers| / 2 + 1 else 1
  }

  function BecomeLeader(s: Node): Node { s.(role := Leader, leaderId := Some(s.id)) }

  function StartElection(s: Node): Node
  {
    var s1 := s.(role := Candidate, term := s.term + 1, votedFor := Some(s.id), leaderId := None,
                 votesReceived := 1, votesNeeded := Needed(s.peers), electionTerm := s.term + 1);
    if 1 >= s1.votesNeeded then BecomeLeader(s1) else s1
  }

  /** The requests sent to the other peers; none when the election is already won. */
  function Requests(s: Node): seq<Payload>
  {
    if StartElection(s).role == Leader then []
    else RequestsTo(s.peers, s.id, s.term + 1)
  }

  function RequestsTo(peers: seq<NodeId>, id: NodeId, term: nat): (r: seq<Payload>)
    ensures forall m :: m in r ==> m == VoteRequest(term, id)
  {
    if peers == [] then []
    else
      RequestsTo(peers[..|peers| - 1], id, term)
      + (if peers[|peers| - 1] == id then [] else [VoteRequest(term, id)])
  }

  function OnVoteRequest(s: Node, term: nat, candidate: NodeId): (Node, Option<Payload>)
  {
    if candidate == s.id then (s, None)
    else
      var s1 := if term > s.term then s.(term := term, role := Follower, votedFor := None) else s;
      var granted := term >= s1.term && (s1.votedFor == None || s1.votedFor == Some(candidate));
      (if granted then s1.(votedFor := Some(candidate)) else s1,
       Some(VoteResponse(s1.term, granted, candidate, s.id)))
  }

  /** A response that adds to the tally. */
  predicate Counts(s: Node, term: nat, granted: bool)
  {
    s.role == Candidate && term == s.term && granted
  }

  function OnVoteResponse(s: Node, term: nat, granted: bool): Node
  {
    if s.role != Candidate then s
    else if term > s.term then s.(term := term, role := Follower, votedFor := None)
    else if !Counts(s, term, granted) then s
    else
      var s1 := s.(votesReceived := s.votesReceived + 1);
      if s1.votesReceived >= s1.votesNeeded then BecomeLeader(s1) else s1
  }

  function OnHeartbeat(s: Node, m: Payload): Node
    requires m.Heartbeat?
  {
    if m.leader == s.id || m.term < s.term then s
    else
      var s1 := s.(term := m.term, role := Follower, leaderId := Some(m.leader));
      if m.entries != [] then s1.(wal := s1.wal + m.entries, commitIndex := m.leaderCommit) else s1
  }

  function MakeHeartbeat(s: Node): Payload { Heartbeat(s.term, s.id, [], s.commitIndex) }

  class RaftNode {
    const id: NodeId
    const peers: seq<NodeId>
    var role: Role
    var term: nat
    var votedFor: Option<NodeId>
    var leaderId: Option<NodeId>
    var votesReceived: nat
    var votesNeeded: nat
    var electionTerm: nat
    var commitIndex: nat
    var wal: seq<string>

    function State(): Node
      reads this
    {
      Node(id, peers, role, term, votedFor, leaderId, votesReceived, votesNeeded, electionTerm, commitIndex, wal)
    }

    constructor (id: NodeId, peers: seq<NodeId>)
      ensures State() == Started(id, peers)
    {
      this.id, this.peers := id, peers;
      role, term, votedFor, leaderId := Follower, 0, None, None;
      votesReceived, votesNeeded, electionTerm := 0, 0, 0;
      commitIndex, wal := 0, [];
    }

    method BeginElection() returns (out: seq<Payload>)
      modifies this
      ensures State() == StartElection(old(State()))
      ensures out == Requests(old(State()))
    {
      role := Candidate;
      term := term + 1;
      votedFor := Some(id);
      leaderId := None;
      votesReceived := 1;
      votesNeeded := if peers != [] then |peers| / 2 + 1 else 1;
      electionTerm := term;
      out := [];
      if votesReceived >= votesNeeded {
        Lead();
        return;
      }
      for i := 0 to |peers|
        invariant out == RequestsTo(peers[..i], id, term)
      {
        assert peers[..i + 1][..i] == peers[..i];
        if peers[i] == id {
          continue;
        }
        out := out + [VoteRequest(term, id)];
      }
      assert peers[..|peers|] == peers;
    }

    method Lead()
      modifies this
      ensures State() == BecomeLeader(old(State()))
    {
      role := Leader;
      leaderId := Some(id);
    }

    method HandleRequestVote(reqTerm: nat, candidate: NodeId) returns (response: Option<Payload>)
      modifies this
      ensures (State(), response) == OnVoteRequest(old(State()), reqTerm, candidate)
    {
      if candidate == id {
        return None;
      }
      if reqTerm > term {
        term := reqTerm;
        role := Follower;
        votedFor := None;
      }
      var granted := false;
      if reqTerm >= term && (votedFor == None || votedFor == Some(candidate)) {
        votedFor := Some(candidate);
        granted := true;
      }
      response := Some(VoteResponse(term, granted, candidate, id));
    }

    method HandleRequestVoteResponse(respTerm: nat, granted: bool)
      modifies this
      ensures State() == OnVoteResponse(old(State()), respTerm, granted)
    {
      if role != Candidate {
        return;
      }
      if respTerm > term {
        term := respTerm;
        role := Follower;
        votedFor := None;
        return;
      }
      if respTerm < term {
        return;
      }
      if granted {
        votesReceived := votesReceived + 1;
        if votesReceived >= votesNeeded {
          Lead();
        }
      }
    }

    method HandleAppendEntries(m: Payload)
      requires m.Heartbeat?
      modifies this
      ensures State() == OnHeartbeat(old(State()), m)
    {
      if m.leader == id {
        return;
      }
      if m.term >= term {
        term := m.term;
        role := Follower;
        leaderId := Some(m.leader);
        if m.entries != [] {
          for i := 0 to |m.entries|
            invariant State() == old(State()).(term := m.term, role := Follower, leaderId := Some(m.leader),
                                               wal := old(wal) + m.entries[..i])
          {
            wal := wal + [m.entries[i]];
          }
          commitIndex := m.leaderCommit;
        }
      }
    }
  }
}
