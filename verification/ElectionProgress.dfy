/**
 * What an election leads to (phase0/raft.py:113-258): who follows whom, that a candidacy can
 * succeed, and that a leader can be followed by all.
 */
module ElectionProgress {
  import opened Wrappers
  import opened RaftElection
  import opened ElectionSafety

  // ----- Who follows whom -----

  /** The leader a node names: a leader itself, a candidate nobody, and a follower possibly another. */
  ghost predicate NamesLeader(s: Node)
  {
    match s.role
    case Leader => s.leaderId == Some(s.id) && s.electionTerm == s.term
    case Candidate => s.leaderId == None && s.electionTerm == s.term && s.votedFor == Some(s.id)
    case Follower => true
  }

  /** `x` has led a term that is not beyond `term`. */
  ghost predicate HasLed(c: Mesh, x: NodeId, term: nat)
  {
    exists t: nat :: t <= term && (x, t) in c.leaders
  }

  ghost predicate FollowInv(c: Mesh)
  {
    && (forall n :: n in c.nodes ==> c.nodes[n].id == n && NamesLeader(c.nodes[n]))
    && (forall n :: n in c.nodes && c.nodes[n].role == Leader ==> (n, c.nodes[n].term) in c.leaders)
    && (forall n :: n in c.nodes && c.nodes[n].leaderId.Some? ==>
          HasLed(c, c.nodes[n].leaderId.value, c.nodes[n].term))
    && (forall m :: m in c.sent && m.Heartbeat? ==> (m.leader, m.term) in c.leaders && m.entries == [])
    && (forall n :: n in c.nodes ==> c.nodes[n].wal == [] && c.nodes[n].commitIndex == 0)
  }

  /** How one node's handler may move it. */
  ghost predicate Moves(c: Mesh, s: Node, s': Node, added: set<(NodeId, nat)>)
  {
    && s'.id == s.id && NamesLeader(s') && s.term <= s'.term && s'.wal == s.wal && s'.commitIndex == s.commitIndex
    && (s'.role == Leader ==> (s.role == Leader && s'.term == s.term) || (s'.id, s'.term) in added)
    && (s'.leaderId.Some? ==>
          s'.leaderId == s.leaderId || (s'.leaderId.value, s'.term) in c.leaders + added)
  }

  lemma NodeMoved(c: Mesh, c': Mesh, n: NodeId, s': Node, added: set<(NodeId, nat)>)
    requires FollowInv(c) && n in c.nodes && Moves(c, c.nodes[n], s', added)
    requires c'.nodes == c.nodes[n := s'] && c'.leaders == c.leaders + added && c.sent <= c'.sent
    requires forall m :: m in c'.sent - c.sent ==> !m.Heartbeat?
    ensures FollowInv(c')
  {
    hide NamesLeader;
    forall k | k in c'.nodes && c'.nodes[k].leaderId.Some?
      ensures HasLed(c', c'.nodes[k].leaderId.value, c'.nodes[k].term)
    {
      if k != n || s'.leaderId == c.nodes[n].leaderId {
        assert HasLed(c, c.nodes[k].leaderId.value, c.nodes[k].term);
      }
    }
  }

  lemma HandlersMove(c: Mesh, s: Node, m: Payload)
    requires NamesLeader(s)
    ensures s.role != Leader ==> Moves(c, s, StartElection(s), Accession(s, StartElection(s)))
    ensures m.VoteRequest? ==> Moves(c, s, OnVoteRequest(s, m.term, m.candidate).0, {})
    ensures m.VoteResponse? ==>
              var s' := OnVoteResponse(s, m.term, m.granted); Moves(c, s, s', Accession(s, s'))
    ensures m.Heartbeat? && (m.leader, m.term) in c.leaders && m.entries == [] ==> Moves(c, s, OnHeartbeat(s, m), {})
  {
  }

  lemma FollowStep(c: Mesh, step: Step)
    requires FollowInv(c)
    ensures FollowInv(Next(c, step))
  {
    var c', n := Next(c, step), step.node;
    if n in c.nodes {
      var s := c.nodes[n];
      match step
      case Timeout(_) =>
        HandlersMove(c, s, MakeHeartbeat(s));
        hide StartElection, Accession;
        if s.role != Leader {
          NodeMoved(c, c', n, StartElection(s), Accession(s, StartElection(s)));
        }
      case Beat(_) =>
        assert s.role == Leader ==> s.commitIndex == 0;
        forall k | k in c'.nodes && c'.nodes[k].leaderId.Some?
          ensures HasLed(c', c'.nodes[k].leaderId.value, c'.nodes[k].term)
        {
          assert HasLed(c, c.nodes[k].leaderId.value, c.nodes[k].term);
        }
      case Deliver(_, m) =>
        HandlersMove(c, s, m);
        if m in c.sent {
          hide OnVoteRequest, OnVoteResponse, OnHeartbeat, Accession, Moves;
          match m
          case VoteRequest(term, candidate) =>
            AnswersAreResponses(s, term, candidate);
            NodeMoved(c, c', n, OnVoteRequest(s, term, candidate).0, {});
          case VoteResponse(term, granted, _, _) =>
            var s' := OnVoteResponse(s, term, granted);
            NodeMoved(c, c', n, s', Accession(s, s'));
          case Heartbeat(_, _, _, _) =>
            NodeMoved(c, c', n, OnHeartbeat(s, m), {});
        }
    }
  }

  lemma AnswersAreResponses(s: Node, term: nat, candidate: NodeId)
    ensures var response := OnVoteRequest(s, term, candidate).1; response.Some? ==> response.value.VoteResponse?
  {
  }

  lemma {:induction false} FollowRun(c: Mesh, steps: seq<Step>)
    requires Initial(c)
    ensures FollowInv(Run(c, steps))
  {
    hide Next;
    if steps != [] {
      FollowRun(c, steps[..|steps| - 1]);
      FollowStep(Run(c, steps[..|steps| - 1]), steps[|steps| - 1]);
    }
  }

  /**
   * In every run a node that names another as leader is a follower, and that other has led a term
   * not beyond its own; a leader names itself, and a candidate nobody.
   */
  lemma NamedLeaderHasLed(c: Mesh, steps: seq<Step>, n: NodeId)
    requires Initial(c) && n in Run(c, steps).nodes
    ensures var c' := Run(c, steps);
            var s := c'.nodes[n];
            && (s.leaderId.Some? ==> HasLed(c', s.leaderId.value, s.term))
            && (s.leaderId.Some? && s.leaderId.value != n ==> s.role == Follower)
            && (s.role == Leader ==> s.leaderId == Some(n) && (n, s.term) in c'.leaders)
            && (s.role == Candidate ==> s.leaderId == None)
            && (s.role != Follower ==> s.electionTerm == s.term)
  {
    FollowRun(c, steps);
  }

  /** In every run the heartbeats carry no entries, and no log entry is ever replicated by them. */
  lemma HeartbeatsReplicateNothing(c: Mesh, steps: seq<Step>, n: NodeId)
    requires Initial(c) && n in Run(c, steps).nodes
    ensures var c' := Run(c, steps);
            && (forall m :: m in c'.sent && m.Heartbeat? ==> m.entries == [])
            && c'.nodes[n].wal == [] && c'.nodes[n].commitIndex == 0
  {
    FollowRun(c, steps);
  }

  /**
   * A heartbeat from another node, of at least the receiver's term, makes it a follower of the
   * sender in that term and puts the entries at the end of its log; any other changes nothing.
   */
  lemma HeartbeatObeyed(c: Mesh, n: NodeId, m: Payload)
    requires n in c.nodes && c.nodes[n].id == n && m in c.sent && m.Heartbeat?
    ensures var s, c' := c.nodes[n], Next(c, Deliver(n, m));
            && n in c'.nodes && c' == c.(nodes := c.nodes[n := c'.nodes[n]])
            && (m.leader != n && m.term >= s.term ==>
                  && c'.nodes[n].role == Follower && c'.nodes[n].leaderId == Some(m.leader)
                  && c'.nodes[n].term == m.term && c'.nodes[n].wal == s.wal + m.entries
                  && c'.nodes[n].commitIndex == (if m.entries == [] then s.commitIndex else m.leaderCommit)
                  && c'.nodes[n].votedFor == s.votedFor)
            && (m.leader == n || m.term < s.term ==> c' == c)
  {
    assert c.nodes[n := c.nodes[n]] == c.nodes;
  }

  /** A response of a newer term ends a candidacy; one that does not count changes nothing else. */
  lemma ResponseObeyed(c: Mesh, n: NodeId, m: Payload)
    requires n in c.nodes && m in c.sent && m.VoteResponse? && !Counts(c.nodes[n], m.term, m.granted)
    ensures var s, s' := c.nodes[n], Next(c, Deliver(n, m)).nodes[n];
            if s.role == Candidate && m.term > s.term then
              s' == s.(role := Follower, term := m.term, votedFor := None)
            else s' == s
  {
  }

  /** A request is granted exactly if its term is newer, or the same and the vote free or the candidate's already. */
  lemma RequestGrantedIff(s: Node, term: nat, candidate: NodeId)
    requires candidate != s.id
    ensures var (s', response) := OnVoteRequest(s, term, candidate);
            var granted := term > s.term
                           || (term == s.term && (s.votedFor == None || s.votedFor == Some(candidate)));
            && s'.term == (if term > s.term then term else s.term)
            && response == Some(VoteResponse(s'.term, granted, candidate, s.id))
            && (granted ==> s'.votedFor == Some(candidate)) && (!granted ==> s' == s)
            && (s'.role == if term > s.term then Follower else s.role)
  {
  }

  /** One request for each other peer. */
  lemma {:induction false} RequestsCount(peers: seq<NodeId>, id: NodeId, term: nat)
    ensures |RequestsTo(peers, id, term)| == |set i | 0 <= i < |peers| && peers[i] != id|
  {
    if peers == [] {
      assert OtherPositions(peers, id) == {};
    } else {
      var n := |peers| - 1;
      RequestsCount(peers[..n], id, term);
      assert forall i :: 0 <= i < n ==> peers[..n][i] == peers[i];
      assert OtherPositions(peers, id)
             == if peers[n] != id then OtherPositions(peers[..n], id) + {n} else OtherPositions(peers[..n], id);
    }
    assert OtherPositions(peers, id) == set i | 0 <= i < |peers| && peers[i] != id;
  }

  ghost function OtherPositions(peers: seq<NodeId>, id: NodeId): set<int>
  {
    set i | 0 <= i < |peers| && peers[i] != id
  }

  // ----- An election can succeed -----

  /** `n` stands in `term` with `got` votes, and has asked. */
  ghost predicate Stands(c: Mesh, n: NodeId, term: nat, got: nat)
  {
    && n in c.nodes
    && var s := c.nodes[n];
    && s.id == n && s.role == Candidate && s.term == term && s.votesReceived == got
    && s.votesNeeded == Needed(s.peers) && got < s.votesNeeded
    && VoteRequest(term, n) in c.sent
  }

  ghost predicate OlderTerms(c: Mesh, vs: seq<NodeId>, term: nat)
  {
    forall v :: v in vs ==> v in c.nodes && c.nodes[v].id == v && c.nodes[v].term < term
  }

  lemma NodeAsks(c: Mesh, n: NodeId, p: NodeId)
    requires n in c.nodes && c.nodes[n].id == n && c.nodes[n].role != Leader
    requires p in c.nodes[n].peers && p != n && Needed(c.nodes[n].peers) > 1
    ensures var c' := Next(c, Timeout(n));
            && Stands(c', n, c.nodes[n].term + 1, 1) && c'.nodes == c.nodes[n := c'.nodes[n]]
            && c'.nodes[n].peers == c.nodes[n].peers
  {
    AsksSomebody(c.nodes[n].peers, n, c.nodes[n].term + 1, p);
    assert VoteRequest(c.nodes[n].term + 1, n) in Requests(c.nodes[n]);
  }

  lemma {:induction false} AsksSomebody(peers: seq<NodeId>, id: NodeId, term: nat, p: NodeId)
    requires p in peers && p != id
    ensures VoteRequest(term, id) in RequestsTo(peers, id, term)
  {
    var init := peers[..|peers| - 1];
    assert peers == init + [peers[|peers| - 1]];
    if p in init {
      AsksSomebody(init, id, term, p);
    }
  }

  /** One voter is asked and its answer delivered: one vote more, or the election won. */
  lemma OneVote(c: Mesh, n: NodeId, v: NodeId, term: nat, got: nat) returns (steps: seq<Step>)
    requires Stands(c, n, term, got) && OlderTerms(c, [v], term) && v != n
    ensures |steps| == 2
    ensures var c' := Run(c, steps);
            && n in c'.nodes && c'.nodes[n].peers == c.nodes[n].peers
            && (forall k :: k in c.nodes && k != n && k != v ==> k in c'.nodes && c'.nodes[k] == c.nodes[k])
            && (if got + 1 < Needed(c.nodes[n].peers) then Stands(c', n, term, got + 1)
                else c'.nodes[n].role == Leader && c'.nodes[n].term == term && (n, term) in c'.leaders)
  {
    var response := VoteResponse(term, true, n, v);
    steps := [Deliver(v, VoteRequest(term, n)), Deliver(n, response)];
    assert v in [v];
    RequestGrantedIff(c.nodes[v], term, n);
    assert steps[..2] == steps && steps[..1][..0] == [];
    RunSnoc(c, steps, 0);
    RunSnoc(c, steps, 1);
    var c1 := Run(c, steps[..1]);
    assert c1 == Next(c, steps[0]);
    assert response in c1.sent && c1.nodes[n] == c.nodes[n];
  }

  /**
   * A candidacy can succeed: a node whose term none of `voters` has reached, as many as it needs
   * besides itself, becomes leader of the next term in two steps for each of them.
   */
  lemma {:induction false} CandidateWins(c: Mesh, n: NodeId, voters: seq<NodeId>, term: nat, got: nat)
    returns (steps: seq<Step>)
    requires Stands(c, n, term, got) && OlderTerms(c, voters, term) && n !in voters && NoRepeats(voters)
    requires got + |voters| == Needed(c.nodes[n].peers)
    ensures |steps| == 2 * |voters|
    ensures var c' := Run(c, steps);
            n in c'.nodes && c'.nodes[n].role == Leader && c'.nodes[n].term == term && (n, term) in c'.leaders
    decreases |voters|
  {
    var v, rest := voters[0], voters[1..];
    assert v in voters && forall x :: x in rest ==> x in voters && x != v;
    var first := OneVote(c, n, v, term, got);
    if |voters| == 1 {
      steps := first;
    } else {
      hide Run, Stands;
      var c1 := Run(c, first);
      var more := CandidateWins(c1, n, rest, term, got + 1);
      RunJoin(c, first, more);
      steps := first + more;
    }
  }

  lemma {:induction false} RunJoin(c: Mesh, a: seq<Step>, b: seq<Step>)
    ensures Run(c, a + b) == Run(Run(c, a), b)
  {
    hide Next;
    if b == [] {
      assert a + b == a;
    } else {
      RunJoin(c, a, b[..|b| - 1]);
      assert (a + b)[..|a + b| - 1] == a + b[..|b| - 1];
    }
  }

  /** From every reachable state, a node that is not behind a sufficient set of voters can win the next term. */
  lemma ElectionCanSucceed(c: Mesh, before: seq<Step>, n: NodeId, voters: seq<NodeId>) returns (steps: seq<Step>)
    requires Initial(c) && n in Run(c, before).nodes && Run(c, before).nodes[n].role != Leader
    requires n !in voters && NoRepeats(voters) && |voters| == |Run(c, before).nodes[n].peers| / 2
    requires forall v :: v in voters ==>
               v in Run(c, before).nodes && Run(c, before).nodes[v].term <= Run(c, before).nodes[n].term
    requires voters != [] ==> exists p :: p in Run(c, before).nodes[n].peers && p != n
    ensures |steps| == 1 + 2 * |voters|
    ensures var term, c' := Run(c, before).nodes[n].term + 1, Run(c, before + steps);
            n in c'.nodes && c'.nodes[n].role == Leader && c'.nodes[n].term == term && (n, term) in c'.leaders
  {
    var now := Run(c, before);
    FollowRun(c, before);
    var start := [Timeout(n)];
    assert start[..0] == [];
    assert Run(now, start) == Next(now, Timeout(n));
    if voters == [] {
      steps := start;
      WinsAlone(now, n);
    } else {
      var p :| p in now.nodes[n].peers && p != n;
      NodeAsks(now, n, p);
      var c1 := Run(now, start);
      hide Run, Next, Stands, Initial, FollowInv;
      var more := CandidateWins(c1, n, voters, now.nodes[n].term + 1, 1);
      RunJoin(now, start, more);
      steps := start + more;
    }
    RunJoin(c, before, steps);
  }

  lemma WinsAlone(c: Mesh, n: NodeId)
    requires n in c.nodes && c.nodes[n].id == n && c.nodes[n].role != Leader && Needed(c.nodes[n].peers) == 1
    ensures var c' := Next(c, Timeout(n)); var term := c.nodes[n].term + 1;
            n in c'.nodes && c'.nodes[n].role == Leader && c'.nodes[n].term == term && (n, term) in c'.leaders
  {
  }

  /** A node leads at once exactly when it needs no vote but its own: when its list has at most one entry. */
  lemma LeadsAtOnceIff(c: Mesh, n: NodeId)
    requires n in c.nodes && c.nodes[n].id == n && c.nodes[n].role != Leader
    ensures var s, c' := c.nodes[n], Next(c, Timeout(n));
            && n in c'.nodes && c'.nodes[n].term == s.term + 1 && c'.nodes[n].votedFor == Some(n)
            && c'.nodes[n].role == (if |s.peers| <= 1 then Leader else Candidate)
            && ((n, s.term + 1) in c'.leaders <==> |s.peers| <= 1 || (n, s.term + 1) in c.leaders)
  {
  }

  // ----- A leader can be followed by all -----

  /** Heartbeats reach the nodes `vs` one after the other. */
  lemma {:induction false} BeatsReach(c: Mesh, n: NodeId, m: Payload, vs: seq<NodeId>) returns (steps: seq<Step>)
    requires m.Heartbeat? && m.leader == n && m in c.sent && n !in vs
    requires forall v :: v in vs ==> v in c.nodes && c.nodes[v].id == v && c.nodes[v].term <= m.term
    ensures |steps| == |vs|
    ensures var c' := Run(c, steps);
            && c'.nodes.Keys == c.nodes.Keys && (n in c.nodes ==> c'.nodes[n] == c.nodes[n])
            && (forall v :: v in c.nodes && v !in vs ==> c'.nodes[v] == c.nodes[v])
            && m in c'.sent && c'.leaders == c.leaders
            && forall v :: v in vs ==>
                 c'.nodes[v].role == Follower && c'.nodes[v].leaderId == Some(n) && c'.nodes[v].term == m.term
                 && c'.nodes[v].id == v
  {
    if vs == [] {
      steps := [];
    } else {
      var init, v := vs[..|vs| - 1], vs[|vs| - 1];
      assert vs == init + [v];
      steps := BeatsReach(c, n, m, init);
      var c1 := Run(c, steps);
      assert v in vs && (v in init ==> c1.nodes[v].term == m.term);
      HeartbeatObeyed(c1, v, m);
      steps := steps + [Deliver(v, m)];
      assert steps[..|steps| - 1] == steps[..|init|];
      hide Next;
    }
  }

  /** A leader whose term nobody is beyond can be followed by everybody, with one heartbeat to each. */
  lemma LeaderCanBeFollowed(c: Mesh, before: seq<Step>, n: NodeId, vs: seq<NodeId>) returns (steps: seq<Step>)
    requires Initial(c) && n in Run(c, before).nodes && Run(c, before).nodes[n].role == Leader && n !in vs
    requires forall v :: v in vs ==>
               v in Run(c, before).nodes && Run(c, before).nodes[v].term <= Run(c, before).nodes[n].term
    ensures |steps| == 1 + |vs|
    ensures var now, c' := Run(c, before), Run(c, before + steps);
            && n in c'.nodes && c'.nodes[n] == now.nodes[n]
            && forall v :: v in vs ==>
                 v in c'.nodes && c'.nodes[v].role == Follower && c'.nodes[v].leaderId == Some(n)
                 && c'.nodes[v].term == now.nodes[n].term
  {
    var now := Run(c, before);
    FollowRun(c, before);
    var m := MakeHeartbeat(now.nodes[n]);
    var beat := [Beat(n)];
    assert beat[..0] == [] && beat[0] == Beat(n);
    assert Run(now, beat) == Next(now, Beat(n));
    var c1 := Run(now, beat);
    assert c1 == now.(sent := now.sent + {m});
    hide Run, Next, FollowInv, Initial;
    var more := BeatsReach(c1, n, m, vs);
    RunJoin(now, beat, more);
    steps := beat + more;
    RunJoin(c, before, steps);
  }
}
