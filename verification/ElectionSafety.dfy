/**
 * Runs of the election protocol over a lossy, repeating, reordering broadcast medium
 * (phase0/raft.py): one vote per term, and at most one leader per term.
 *
 * `support` records who ever backed whom in which term, `tally` which grants each
 * candidate has counted, and `leaders` every accession to leadership.
 */
module ElectionSafety {
  import opened Wrappers
  import opened RaftElection

  datatype Mesh = Mesh(
    nodes: map<NodeId, Node>,
    sent: set<Payload>,
    support: set<(NodeId, nat, NodeId)>,   // (voter, term, candidate)
    tally: set<(NodeId, nat, NodeId)>,     // (candidate, term, voter)
    leaders: set<(NodeId, nat)>)

  datatype Step =
    | Timeout(node: NodeId)
    | Deliver(node: NodeId, message: Payload)
    | Beat(node: NodeId)

  /** Who has just become a leader. */
  function Accession(before: Node, after: Node): set<(NodeId, nat)>
  {
    if before.role != Leader && after.role == Leader then {(after.id, after.term)} else {}
  }

  function Next(c: Mesh, step: Step): Mesh
  {
    if step.node !in c.nodes then c
    else
      var s := c.nodes[step.node];
      match step
      case Timeout(n) =>
        if s.role == Leader then c
        else
          var s' := StartElection(s);
          c.(nodes := c.nodes[n := s'],
             sent := c.sent + (set m | m in Requests(s)),
             support := c.support + {(n, s'.term, n)},
             tally := c.tally + {(n, s'.term, n)},
             leaders := c.leaders + Accession(s, s'))
      case Beat(n) =>
        if s.role != Leader then c else c.(sent := c.sent + {MakeHeartbeat(s)})
      case Deliver(n, m) =>
        if m !in c.sent then c
        else
          match m
          case VoteRequest(term, candidate) =>
            var (s', response) := OnVoteRequest(s, term, candidate);
            c.(nodes := c.nodes[n := s'],
               sent := c.sent + (if response.Some? then {response.value} else {}),
               support := c.support + (if response.Some? && response.value.VoteResponse? && response.value.granted
                                       then {(n, response.value.term, candidate)} else {}))
          case VoteResponse(term, granted, _, voter) =>
            var s' := OnVoteResponse(s, term, granted);
            c.(nodes := c.nodes[n := s'],
               tally := c.tally + (if Counts(s, term, granted) then {(n, term, voter)} else {}),
               leaders := c.leaders + Accession(s, s'))
          case Heartbeat(_, _, _, _) =>
            c.(nodes := c.nodes[n := OnHeartbeat(s, m)])
  }

  ghost function Run(c: Mesh, steps: seq<Step>): Mesh
  {
    if steps == [] then c else Next(Run(c, steps[..|steps| - 1]), steps[|steps| - 1])
  }

  ghost predicate Initial(c: Mesh)
  {
    && (forall n :: n in c.nodes ==> c.nodes[n] == Started(n, c.nodes[n].peers))
    && c.sent == {} && c.support == {} && c.tally == {} && c.leaders == {}
  }

  // ----- One vote per term -----

  /** A node's support is never for a term beyond its own, and in its own term it is its vote. */
  ghost predicate SupportInv(c: Mesh)
  {
    && (forall n :: n in c.nodes ==> c.nodes[n].id == n)
    && (forall x :: x in c.support ==>
          && x.0 in c.nodes && x.1 <= c.nodes[x.0].term
          && (x.1 == c.nodes[x.0].term ==> c.nodes[x.0].votedFor == Some(x.2)))
    && (forall x, y :: x in c.support && y in c.support && x.0 == y.0 && x.1 == y.1 ==> x == y)
  }

  /** The term never goes back, and within a term a vote once cast stays. */
  ghost predicate VoteKept(s: Node, s': Node)
  {
    && s'.id == s.id && s'.peers == s.peers && s.term <= s'.term
    && (s.term == s'.term && s.votedFor.Some? ==> s'.votedFor == s.votedFor)
  }

  lemma HandlersKeepVotes(s: Node, m: Payload)
    ensures VoteKept(s, StartElection(s))
    ensures m.VoteRequest? ==> VoteKept(s, OnVoteRequest(s, m.term, m.candidate).0)
    ensures m.VoteResponse? ==> VoteKept(s, OnVoteResponse(s, m.term, m.granted))
    ensures m.Heartbeat? ==> VoteKept(s, OnHeartbeat(s, m))
  {
  }

  /** One node moves, and supports at most its own current vote. */
  lemma SupportUpdate(c: Mesh, n: NodeId, s': Node, added: set<(NodeId, nat, NodeId)>, c': Mesh)
    requires SupportInv(c) && n in c.nodes && VoteKept(c.nodes[n], s')
    requires c'.nodes == c.nodes[n := s'] && c'.support == c.support + added
    requires forall x :: x in added ==> x.0 == n && x.1 == s'.term && s'.votedFor == Some(x.2)
    ensures SupportInv(c')
  {
  }

  lemma RequestSupport(s: Node, term: nat, candidate: NodeId)
    ensures var (s', response) := OnVoteRequest(s, term, candidate);
            response.Some? && response.value.VoteResponse? && response.value.granted ==>
              response.value == VoteResponse(s'.term, true, candidate, s.id) && s'.votedFor == Some(candidate)
  {
  }

  lemma SupportStep(c: Mesh, step: Step)
    requires SupportInv(c)
    ensures SupportInv(Next(c, step))
  {
    var c', n := Next(c, step), step.node;
    if n in c.nodes {
      var s := c.nodes[n];
      match step
      case Timeout(_) =>
        if s.role != Leader {
          HandlersKeepVotes(s, MakeHeartbeat(s));
          SupportUpdate(c, n, StartElection(s), {(n, s.term + 1, n)}, c');
        }
      case Beat(_) =>
        assert c'.nodes == c.nodes && c'.support == c.support;
      case Deliver(_, m) =>
        HandlersKeepVotes(s, m);
        if m in c.sent {
          if m.VoteRequest? {
            RequestSupport(s, m.term, m.candidate);
          }
          hide OnVoteRequest, OnVoteResponse, OnHeartbeat, SupportInv, VoteKept;
          SupportUpdate(c, n, c'.nodes[n], c'.support - c.support, c');
        }
    }
  }

  lemma {:induction false} SupportRun(c: Mesh, steps: seq<Step>)
    requires Initial(c)
    ensures SupportInv(Run(c, steps))
  {
    if steps != [] {
      SupportRun(c, steps[..|steps| - 1]);
      SupportStep(Run(c, steps[..|steps| - 1]), steps[|steps| - 1]);
    }
  }

  /** One vote per term: no node ever supports two candidates in one term, its own candidacy included. */
  lemma OneVotePerTerm(c: Mesh, steps: seq<Step>, voter: NodeId, term: nat, a: NodeId, b: NodeId)
    requires Initial(c)
    requires (voter, term, a) in Run(c, steps).support && (voter, term, b) in Run(c, steps).support
    ensures a == b
  {
    SupportRun(c, steps);
  }

  // ----- One leader per term -----

  /** Every node's peer list names every member, itself included, exactly once. */
  ghost predicate FullPeerLists(c: Mesh)
  {
    forall n :: n in c.nodes ==> ListsExactly(c.nodes[n].peers, c.nodes.Keys)
  }

  /** Any two nodes need more votes together than there are members. */
  ghost predicate Overlapping(c: Mesh)
  {
    forall a, b :: a in c.nodes && b in c.nodes && a != b ==>
      Needed(c.nodes[a].peers) + Needed(c.nodes[b].peers) > |c.nodes|
  }

  lemma FullListsOverlap(c: Mesh)
    requires FullPeerLists(c)
    ensures Overlapping(c)
  {
    assert |c.nodes| == |c.nodes.Keys|;
    forall a, b | a in c.nodes && b in c.nodes && a != b
      ensures Needed(c.nodes[a].peers) + Needed(c.nodes[b].peers) > |c.nodes|
    {
      assert ListsExactly(c.nodes[a].peers, c.nodes.Keys) && ListsExactly(c.nodes[b].peers, c.nodes.Keys);
      assert a in c.nodes.Keys;
    }
  }

  ghost predicate ListsExactly(peers: seq<NodeId>, members: set<NodeId>)
  {
    |peers| == |members| && (set p | p in peers) == members
  }

  /** A grant is counted only by the candidate it names, and at most once per term. */
  ghost predicate FaithfulStep(c: Mesh, step: Step)
  {
    step.Deliver? && step.node in c.nodes && step.message in c.sent && step.message.VoteResponse?
    && Counts(c.nodes[step.node], step.message.term, step.message.granted) ==>
      && step.message.candidate == step.node
      && (step.node, step.message.term, step.message.voter) !in c.tally
  }

  ghost predicate Faithful(c: Mesh, steps: seq<Step>)
  {
    forall i :: 0 <= i < |steps| ==> FaithfulStep(Run(c, steps[..i]), steps[i])
  }

  /** The voters `n` has counted in `term`. */
  ghost function Voters(c: Mesh, n: NodeId, term: nat): set<NodeId>
  {
    set v | v in c.nodes && (n, term, v) in c.tally
  }

  /** Every granting response in the air stands for a real vote. */
  ghost predicate GrantsBacked(c: Mesh)
  {
    forall m :: m in c.sent && m.VoteResponse? && m.granted ==> (m.voter, m.term, m.candidate) in c.support
  }

  /** Every counted vote was cast by a member, for that candidate and term. */
  ghost predicate TallyBacked(c: Mesh)
  {
    forall x :: x in c.tally ==>
      x.0 in c.nodes && x.2 in c.nodes && x.1 <= c.nodes[x.0].term && (x.2, x.1, x.0) in c.support
  }

  ghost predicate CandidateCounted(c: Mesh, n: NodeId)
    requires n in c.nodes
  {
    var s := c.nodes[n];
    && (s.role == Candidate ==> s.votesNeeded == Needed(s.peers) && s.votesReceived == |Voters(c, n, s.term)|)
    && (s.role == Leader ==> (n, s.term) in c.leaders)
  }

  ghost predicate Elected(c: Mesh, x: (NodeId, nat))
  {
    x.0 in c.nodes && |Voters(c, x.0, x.1)| >= Needed(c.nodes[x.0].peers)
  }

  ghost predicate TallyInv(c: Mesh)
  {
    && SupportInv(c) && Overlapping(c) && GrantsBacked(c) && TallyBacked(c)
    && (forall n :: n in c.nodes ==> CandidateCounted(c, n))
    && (forall x :: x in c.leaders ==> Elected(c, x))
  }

  lemma VotersSame(c: Mesh, c': Mesh, n: NodeId, term: nat)
    requires c.nodes.Keys == c'.nodes.Keys
    requires forall v :: (n, term, v) in c'.tally <==> (n, term, v) in c.tally
    ensures Voters(c', n, term) == Voters(c, n, term)
  {
    assert forall v :: v in c.nodes <==> v in c'.nodes;
  }

  lemma VotersPlus(c: Mesh, c': Mesh, n: NodeId, term: nat, voter: NodeId)
    requires c.nodes.Keys == c'.nodes.Keys && voter in c.nodes
    requires c'.tally == c.tally + {(n, term, voter)}
    ensures Voters(c', n, term) == Voters(c, n, term) + {voter}
  {
    assert forall v :: v in c.nodes <==> v in c'.nodes;
  }

  /**
   * The bookkeeping when node `n` moves to `s'` and the tally gains at most one vote for
   * `n` in its present term: everyone else is unaffected.
   */
  lemma OthersUnaffected(c: Mesh, c': Mesh, n: NodeId, added: set<(NodeId, nat, NodeId)>)
    requires TallyInv(c) && n in c.nodes && n in c'.nodes && c'.nodes == c.nodes[n := c'.nodes[n]]
    requires c'.nodes[n].peers == c.nodes[n].peers
    requires c'.tally == c.tally + added && c.leaders <= c'.leaders
    requires forall x :: x in added ==> x.0 == n && x.2 in c.nodes
    ensures forall k :: k in c.nodes && k != n ==> CandidateCounted(c', k)
    ensures forall x :: x in c.leaders ==> Elected(c', x)
  {
    assert c'.nodes.Keys == c.nodes.Keys;
    assert |c'.nodes| == |c'.nodes.Keys| && |c.nodes| == |c.nodes.Keys|;
    forall k | k in c.nodes && k != n ensures CandidateCounted(c', k) {
      assert CandidateCounted(c, k);
      VotersSame(c, c', k, c.nodes[k].term);
    }
    forall x | x in c.leaders ensures Elected(c', x) {
      assert Elected(c, x);
      forall v | v in Voters(c, x.0, x.1) ensures v in Voters(c', x.0, x.1) {
      }
      SubsetSize(Voters(c, x.0, x.1), Voters(c', x.0, x.1));
    }
  }

  /** A move that casts no counted vote: still candidate only with the same tally in the same term. */
  ghost predicate QuietMove(s: Node, s': Node)
  {
    && VoteKept(s, s')
    && (s'.role == Candidate ==> s.role == Candidate && s'.term == s.term
                                 && s'.votesReceived == s.votesReceived && s'.votesNeeded == s.votesNeeded)
    && (s'.role == Leader ==> s.role == Leader && s'.term == s.term)
  }

  lemma QuietHandlers(s: Node, m: Payload)
    ensures m.VoteRequest? ==> QuietMove(s, OnVoteRequest(s, m.term, m.candidate).0)
    ensures m.VoteResponse? && !Counts(s, m.term, m.granted) ==> QuietMove(s, OnVoteResponse(s, m.term, m.granted))
    ensures m.Heartbeat? ==> QuietMove(s, OnHeartbeat(s, m))
  {
  }

  lemma PeerListsKept(c: Mesh, n: NodeId, s': Node, c': Mesh)
    requires n in c.nodes && Overlapping(c) && TallyBacked(c) && VoteKept(c.nodes[n], s')
    requires c'.nodes == c.nodes[n := s'] && c'.tally == c.tally && c.support <= c'.support
    ensures Overlapping(c') && TallyBacked(c') && s'.peers == c.nodes[n].peers
  {
    hide Needed;
    assert c'.nodes.Keys == c.nodes.Keys;
    assert |c'.nodes| == |c'.nodes.Keys| && |c.nodes| == |c.nodes.Keys|;
  }

  lemma StaysCounted(c: Mesh, n: NodeId, s': Node, c': Mesh)
    requires n in c.nodes && CandidateCounted(c, n) && QuietMove(c.nodes[n], s')
    requires c'.nodes == c.nodes[n := s'] && c'.tally == c.tally && c'.leaders == c.leaders
    ensures CandidateCounted(c', n)
  {
    assert c'.nodes.Keys == c.nodes.Keys;
    assert |c'.nodes| == |c'.nodes.Keys| && |c.nodes| == |c.nodes.Keys|;
    VotersSame(c, c', n, s'.term);
  }

  lemma TallyQuiet(c: Mesh, n: NodeId, s': Node, c': Mesh)
    requires TallyInv(c) && n in c.nodes && QuietMove(c.nodes[n], s') && SupportInv(c')
    requires c'.nodes == c.nodes[n := s'] && c.support <= c'.support
    requires c'.tally == c.tally && c'.leaders == c.leaders
    requires GrantsBacked(c')
    ensures TallyInv(c')
  {
    hide SupportInv, GrantsBacked, Elected, Voters, CandidateCounted, Overlapping, TallyBacked, VoteKept;
    PeerListsKept(c, n, s', c');
    OthersUnaffected(c, c', n, {});
    StaysCounted(c, n, s', c');
    assert c'.nodes.Keys == c.nodes.Keys;
  }

  lemma GrantsStayBacked(c: Mesh, step: Step)
    requires SupportInv(c) && GrantsBacked(c)
    ensures GrantsBacked(Next(c, step))
  {
    if step.node in c.nodes {
      var s := c.nodes[step.node];
      if step.Timeout? {
        assert forall m :: m in Requests(s) ==> m.VoteRequest?;
      } else if step.Deliver? && step.message.VoteRequest? {
        RequestSupport(s, step.message.term, step.message.candidate);
      }
    }
  }

  lemma TimeoutEffect(c: Mesh, n: NodeId)
    requires n in c.nodes && c.nodes[n].role != Leader && c.nodes[n].id == n
    ensures var s, c' := c.nodes[n], Next(c, Timeout(n));
            var s' := StartElection(s);
            && c'.nodes == c.nodes[n := s'] && VoteKept(s, s')
            && s'.term == s.term + 1 && s'.role != Follower
            && s'.votesReceived == 1 && s'.votesNeeded == Needed(s.peers) && s'.peers == s.peers
            && (s'.role == Leader ==> 1 >= s'.votesNeeded)
            && c'.support == c.support + {(n, s'.term, n)} && c'.tally == c.tally + {(n, s'.term, n)}
            && c'.leaders == c.leaders + Accession(s, s')
  {
  }

  lemma TimeoutFacts(c: Mesh, n: NodeId)
    requires TallyInv(c) && n in c.nodes
    ensures c.nodes[n].id == n
    ensures Voters(c, n, c.nodes[n].term + 1) == {}
    ensures SupportInv(Next(c, Timeout(n))) && GrantsBacked(Next(c, Timeout(n)))
  {
    hide Next;
    SupportStep(c, Timeout(n));
    GrantsStayBacked(c, Timeout(n));
  }

  /** A node that starts an election begins a tally of one in a term it never counted in. */
  lemma TallyTimeout(c: Mesh, n: NodeId)
    requires TallyInv(c) && n in c.nodes && c.nodes[n].role != Leader
    ensures TallyInv(Next(c, Timeout(n)))
  {
    hide Next, TallyInv, SupportInv, GrantsBacked, Accession, VoteKept, StartElection, Overlapping, Voters, Needed;
    var c' := Next(c, Timeout(n));
    var t := c.nodes[n].term + 1;
    TimeoutFacts(c, n);
    TimeoutEffect(c, n);
    VotersPlus(c, c', n, t, n);
    ElectedNow(c, c', n, {(n, t, n)});
  }

  /** What the moving node itself must satisfy. */
  lemma ElectedNow(c: Mesh, c': Mesh, n: NodeId, added: set<(NodeId, nat, NodeId)>)
    requires TallyInv(c) && n in c.nodes && n in c'.nodes && c'.nodes == c.nodes[n := c'.nodes[n]]
    requires SupportInv(c') && GrantsBacked(c') && VoteKept(c.nodes[n], c'.nodes[n])
    requires c'.tally == c.tally + added && c.support <= c'.support
    requires forall x :: x in added ==> x.0 == n && x.1 == c'.nodes[n].term && x.2 in c.nodes
                                        && (x.2, x.1, n) in c'.support
    requires c'.leaders == c.leaders + Accession(c.nodes[n], c'.nodes[n])
    requires c.nodes[n].role != Leader && c'.nodes[n].id == n
    requires c'.nodes[n].role == Follower ||
             (var s' := c'.nodes[n];
              && s'.votesNeeded == Needed(s'.peers) && s'.votesReceived == |Voters(c', n, s'.term)|
              && (s'.role == Leader ==> s'.votesReceived >= s'.votesNeeded))
    ensures TallyInv(c')
  {
    hide SupportInv, GrantsBacked, Voters;
    OthersUnaffected(c, c', n, added);
    assert c'.nodes.Keys == c.nodes.Keys;
    assert |c'.nodes| == |c'.nodes.Keys| && |c.nodes| == |c.nodes.Keys|;
    assert CandidateCounted(c', n);
    assert forall x :: x in Accession(c.nodes[n], c'.nodes[n]) ==> Elected(c', x);
  }

  lemma CountedEffect(c: Mesh, n: NodeId, m: Payload)
    requires n in c.nodes && m in c.sent && m.VoteResponse? && Counts(c.nodes[n], m.term, m.granted)
    ensures var s, c' := c.nodes[n], Next(c, Deliver(n, m));
            var s' := OnVoteResponse(s, m.term, m.granted);
            && c'.nodes == c.nodes[n := s'] && VoteKept(s, s')
            && s'.term == s.term == m.term && s'.role != Follower
            && s'.votesReceived == s.votesReceived + 1 && s'.votesNeeded == s.votesNeeded && s'.peers == s.peers
            && (s'.role == Leader ==> s'.votesReceived >= s'.votesNeeded)
            && c'.support == c.support && c'.tally == c.tally + {(n, m.term, m.voter)}
            && c'.leaders == c.leaders + Accession(s, s')
  {
  }

  lemma CountedFacts(c: Mesh, n: NodeId, m: Payload)
    requires TallyInv(c) && n in c.nodes && m in c.sent && m.VoteResponse?
    requires Counts(c.nodes[n], m.term, m.granted)
    ensures (m.voter, m.term, m.candidate) in c.support && m.voter in c.nodes && c.nodes[n].id == n
    ensures m.candidate != n ==> (m.voter, m.term, n) !in c.support
    ensures c.nodes[n].votesNeeded == Needed(c.nodes[n].peers)
    ensures c.nodes[n].votesReceived == |Voters(c, n, m.term)|
    ensures m.voter in Voters(c, n, m.term) <==> (n, m.term, m.voter) in c.tally
    ensures SupportInv(Next(c, Deliver(n, m))) && GrantsBacked(Next(c, Deliver(n, m)))
  {
    assert CandidateCounted(c, n);
    hide Next, OnVoteResponse;
    SupportStep(c, Deliver(n, m));
    GrantsStayBacked(c, Deliver(n, m));
  }

  /** A faithfully counted grant adds one voter to the tally. */
  lemma TallyCounted(c: Mesh, n: NodeId, m: Payload)
    requires TallyInv(c) && n in c.nodes && m in c.sent && m.VoteResponse?
    requires Counts(c.nodes[n], m.term, m.granted) && FaithfulStep(c, Deliver(n, m))
    ensures TallyInv(Next(c, Deliver(n, m)))
  {
    hide Next, TallyInv, SupportInv, GrantsBacked, Accession, VoteKept, OnVoteResponse, Overlapping, Voters, Needed;
    var c' := Next(c, Deliver(n, m));
    CountedFacts(c, n, m);
    assert m.candidate == n;
    CountedEffect(c, n, m);
    VotersPlus(c, c', n, m.term, m.voter);
    ElectedNow(c, c', n, {(n, m.term, m.voter)});
  }

  lemma TallyStep(c: Mesh, step: Step)
    requires TallyInv(c) && FaithfulStep(c, step)
    ensures TallyInv(Next(c, step))
  {
    var c', n := Next(c, step), step.node;
    if n in c.nodes {
      var s := c.nodes[n];
      match step
      case Timeout(_) =>
        if s.role != Leader {
          TallyTimeout(c, n);
        }
      case Beat(_) =>
        GrantsStayBacked(c, step);
        assert c.nodes[n := s] == c.nodes;
        TallyQuiet(c, n, s, c');
      case Deliver(_, m) =>
        if m in c.sent {
          if m.VoteResponse? && Counts(s, m.term, m.granted) {
            TallyCounted(c, n, m);
          } else {
            QuietHandlers(s, m);
            SupportStep(c, step);
            GrantsStayBacked(c, step);
            hide OnVoteRequest, OnVoteResponse, OnHeartbeat, QuietMove, SupportInv, GrantsBacked, TallyInv;
            TallyQuiet(c, n, c'.nodes[n], c');
          }
        }
    }
  }

  lemma {:induction false} TallyRun(c: Mesh, steps: seq<Step>)
    requires Initial(c) && Overlapping(c) && Faithful(c, steps)
    ensures TallyInv(Run(c, steps))
  {
    if steps != [] {
      var init := steps[..|steps| - 1];
      forall i | 0 <= i < |init| ensures FaithfulStep(Run(c, init[..i]), init[i]) {
        assert steps[..i] == init[..i];
      }
      TallyRun(c, init);
      TallyStep(Run(c, init), steps[|steps| - 1]);
    }
  }

  lemma QuorumsApart(a: set<NodeId>, b: set<NodeId>, all: set<NodeId>)
    requires a <= all && b <= all && a * b == {}
    ensures |a| + |b| <= |all|
  {
    SubsetSize(a + b, all);
  }

  /** Election safety: no two nodes ever become leader in the same term. */
  lemma OneLeaderPerTerm(c: Mesh, steps: seq<Step>, term: nat, a: NodeId, b: NodeId)
    requires Initial(c) && Overlapping(c) && Faithful(c, steps)
    requires (a, term) in Run(c, steps).leaders && (b, term) in Run(c, steps).leaders
    ensures a == b
  {
    TallyRun(c, steps);
    var c' := Run(c, steps);
    var va, vb := Voters(c', a, term), Voters(c', b, term);
    assert |c'.nodes| == |c'.nodes.Keys|;
    assert Elected(c', (a, term)) && Elected(c', (b, term));
    if va * vb == {} {
      QuorumsApart(va, vb, c'.nodes.Keys);
    } else {
      var v :| v in va * vb;
      assert (v, term, a) in c'.support && (v, term, b) in c'.support;
    }
  }

  /** Nodes that lead at the same time in the same term are one node. */
  lemma LeadersOfOneTerm(c: Mesh, steps: seq<Step>, a: NodeId, b: NodeId)
    requires Initial(c) && Overlapping(c) && Faithful(c, steps)
    requires a in Run(c, steps).nodes && b in Run(c, steps).nodes
    requires Run(c, steps).nodes[a].role == Leader && Run(c, steps).nodes[b].role == Leader
    requires Run(c, steps).nodes[a].term == Run(c, steps).nodes[b].term
    ensures a == b
  {
    TallyRun(c, steps);
    OneLeaderPerTerm(c, steps, Run(c, steps).nodes[a].term, a, b);
  }

  // ----- Where faithfulness is needed -----

  /** The counted voters that really support `n` in `term`. */
  ghost function Backers(c: Mesh, n: NodeId, term: nat): set<NodeId>
  {
    set v | v in Voters(c, n, term) && (v, term, n) in c.support
  }

  /**
   * Exactly when counting one response keeps the tally equal to the number of distinct
   * backers: the response must name this candidate and its voter must be new.
   */
  lemma CountTruthfulIff(c: Mesh, n: NodeId, m: Payload)
    requires TallyInv(c) && n in c.nodes && m in c.sent && m.VoteResponse?
    requires Counts(c.nodes[n], m.term, m.granted)
    ensures var c' := Next(c, Deliver(n, m));
            c'.nodes[n].votesReceived == |Backers(c', n, m.term)|
            <==> m.candidate == n && (n, m.term, m.voter) !in c.tally
  {
    hide Next, TallyInv, OnVoteResponse, Voters, VoteKept, Accession;
    var c' := Next(c, Deliver(n, m));
    CountedFacts(c, n, m);
    CountedEffect(c, n, m);
    VotersPlus(c, c', n, m.term, m.voter);
    BackersAreVoters(c, n, m.term);
    BackersPlus(c, c', n, m.term, m.voter);
  }

  lemma BackersPlus(c: Mesh, c': Mesh, n: NodeId, term: nat, voter: NodeId)
    requires c'.support == c.support && Voters(c', n, term) == Voters(c, n, term) + {voter}
    ensures Backers(c', n, term)
         == if (voter, term, n) in c.support then Backers(c, n, term) + {voter} else Backers(c, n, term)
  {
  }

  lemma BackersAreVoters(c: Mesh, n: NodeId, term: nat)
    requires TallyInv(c)
    ensures Backers(c, n, term) == Voters(c, n, term)
  {
  }

  const TRIO: seq<NodeId> := ["a", "b", "c"]

  const THREE: Mesh := Mesh(map["a" := Started("a", TRIO), "b" := Started("b", TRIO), "c" := Started("c", TRIO)],
                            {}, {}, {}, {})

  const GRANT: Payload := VoteResponse(1, true, "a", "c")

  /** The one grant of c, given to a, is also counted by b, which hears the same broadcast. */
  const OVERHEARD: seq<Step> := [Timeout("a"), Timeout("b"), Deliver("c", VoteRequest(1, "a")),
                                 Deliver("a", GRANT), Deliver("b", GRANT)]

  lemma RunSnoc(c: Mesh, steps: seq<Step>, i: nat)
    requires i < |steps|
    ensures Run(c, steps[..i + 1]) == Next(Run(c, steps[..i]), steps[i])
  {
    hide Next;
    assert steps[..i + 1][..i] == steps[..i];
  }

  /** A candidate of term 1 with its own vote, one short of the two it needs. */
  function Hopeful(id: NodeId): Node
  {
    Node(id, TRIO, Candidate, 1, Some(id), None, 1, 2, 1, 0, [])
  }

  lemma HopefulStarts(id: NodeId)
    requires id == "a" || id == "b"
    ensures StartElection(Started(id, TRIO)) == Hopeful(id)
    ensures VoteRequest(1, "a") in Requests(Started("a", TRIO))
  {
    assert TRIO[..2] == ["a", "b"];
    assert RequestsTo(["a", "b"], "a", 1) == RequestsTo(["a", "b"][..1], "a", 1) + [VoteRequest(1, "a")];
    var r := RequestsTo(["a", "b"], "a", 1);
    assert VoteRequest(1, "a") == r[|r| - 1];
    assert RequestsTo(TRIO, "a", 1) == RequestsTo(TRIO[..2], "a", 1) + [VoteRequest(1, "a")];
  }

  /** A hopeful that counts one more grant becomes a leader. */
  lemma HopefulWins(id: NodeId)
    ensures var s := OnVoteResponse(Hopeful(id), 1, true);
            s.role == Leader && Accession(Hopeful(id), s) == {(id, 1)}
  {
  }

  lemma OverheardCandidates()
    ensures var c := Run(THREE, OVERHEARD[..2]);
            && c.nodes == THREE.nodes["a" := Hopeful("a")]["b" := Hopeful("b")]
            && VoteRequest(1, "a") in c.sent
  {
    hide StartElection, Requests, Started;
    RunSnoc(THREE, OVERHEARD, 0);
    RunSnoc(THREE, OVERHEARD, 1);
    assert OVERHEARD[..0] == [];
    HopefulStarts("a");
    HopefulStarts("b");
    assert Started("a", TRIO).role == Follower && Started("b", TRIO).role == Follower by {
      StartedIsFollower("a");
      StartedIsFollower("b");
    }
  }

  lemma StartedIsFollower(id: NodeId)
    ensures Started(id, TRIO).role == Follower
  {
  }

  /** Both a and b are candidates of term 1, and c has granted its one vote to a. */
  lemma OverheardGrant()
    ensures var c := Run(THREE, OVERHEARD[..3]);
            && "a" in c.nodes && "b" in c.nodes && c.nodes["a"] == Hopeful("a") && c.nodes["b"] == Hopeful("b")
            && GRANT in c.sent
  {
    hide Run;
    OverheardCandidates();
    RunSnoc(THREE, OVERHEARD, 2);
    assert OnVoteRequest(Started("c", TRIO), 1, "a").1 == Some(GRANT);
  }

  lemma CountOverheard(c: Mesh, id: NodeId)
    requires id in c.nodes && c.nodes[id] == Hopeful(id) && GRANT in c.sent
    ensures var c' := Next(c, Deliver(id, GRANT));
            && c'.nodes == c.nodes[id := c'.nodes[id]] && c'.sent == c.sent
            && c'.leaders == c.leaders + {(id, 1)}
  {
    HopefulWins(id);
  }

  lemma TrioIsValid()
    ensures Initial(THREE) && FullPeerLists(THREE)
  {
    var t := TRIO;
    assert t[0] == "a" && t[1] == "b" && t[2] == "c";
    assert (set p | p in t) == {"a", "b", "c"};
    assert THREE.nodes.Keys == {"a", "b", "c"};
  }

  /** Without faithfulness the claim is false: a and b both lead term 1 on the same grant. */
  lemma TwoLeaders()
    ensures Initial(THREE) && FullPeerLists(THREE)
    ensures var c := Run(THREE, OVERHEARD); ("a", 1) in c.leaders && ("b", 1) in c.leaders
  {
    hide Run, Next, Hopeful, FullPeerLists, Initial, Started;
    TrioIsValid();
    OverheardGrant();
    RunSnoc(THREE, OVERHEARD, 3);
    RunSnoc(THREE, OVERHEARD, 4);
    assert OVERHEARD[..5] == OVERHEARD;
    CountOverheard(Run(THREE, OVERHEARD[..3]), "a");
    CountOverheard(Run(THREE, OVERHEARD[..4]), "b");
  }

  // The other half of faithfulness: one grant counted twice.

  const QUINT: seq<NodeId> := ["a", "b", "c", "d", "e"]

  const FIVE: Mesh := Mesh(map["a" := Started("a", QUINT), "b" := Started("b", QUINT), "c" := Started("c", QUINT),
                               "d" := Started("d", QUINT), "e" := Started("e", QUINT)], {}, {}, {}, {})

  /** d and e vote for b; c votes for a, and its one grant reaches a twice. */
  const REPEATED: seq<Step> := [Timeout("a"), Timeout("b"),
                                Deliver("c", VoteRequest(1, "a")), Deliver("d", VoteRequest(1, "b")),
                                Deliver("e", VoteRequest(1, "b")),
                                Deliver("a", VoteResponse(1, true, "a", "c")),
                                Deliver("a", VoteResponse(1, true, "a", "c")),
                                Deliver("b", VoteResponse(1, true, "b", "d")),
                                Deliver("b", VoteResponse(1, true, "b", "e"))]

  /** Every response is handled by the candidate it names. */
  ghost predicate Addressed(steps: seq<Step>)
  {
    forall i :: 0 <= i < |steps| && steps[i].Deliver? && steps[i].message.VoteResponse? ==>
      steps[i].message.candidate == steps[i].node
  }

  /** A candidate of term 1 among five, with some of the three votes it needs. */
  function Running(id: NodeId, votes: nat): Node
  {
    Node(id, QUINT, Candidate, 1, Some(id), None, votes, 3, 1, 0, [])
  }

  ghost predicate StateIs(c: Mesh, id: NodeId, s: Node) { id in c.nodes && c.nodes[id] == s }

  /** Nothing but node `id` has moved, and nothing sent or won is lost. */
  ghost predicate OnlyMoved(c: Mesh, c': Mesh, id: NodeId)
  {
    && (forall n :: n in c.nodes && n != id ==> n in c'.nodes && c'.nodes[n] == c.nodes[n])
    && c.sent <= c'.sent && c.leaders <= c'.leaders
  }

  lemma RunningStarts(c: Mesh, id: NodeId)
    requires StateIs(c, id, Started(id, QUINT)) && id != "e"
    ensures var c' := Next(c, Timeout(id));
            OnlyMoved(c, c', id) && StateIs(c', id, Running(id, 1)) && VoteRequest(1, id) in c'.sent
  {
    var s := Started(id, QUINT);
    assert StartElection(s) == Running(id, 1);
    assert QUINT[|QUINT| - 1] == "e";
    assert RequestsTo(QUINT, id, 1) == RequestsTo(QUINT[..4], id, 1) + [VoteRequest(1, id)];
    assert VoteRequest(1, id) in Requests(s);
  }

  lemma Grants(c: Mesh, voter: NodeId, candidate: NodeId)
    requires StateIs(c, voter, Started(voter, QUINT)) && voter != candidate && VoteRequest(1, candidate) in c.sent
    ensures var c' := Next(c, Deliver(voter, VoteRequest(1, candidate)));
            OnlyMoved(c, c', voter) && VoteResponse(1, true, candidate, voter) in c'.sent
  {
    var s := Started(voter, QUINT);
    assert OnVoteRequest(s, 1, candidate).1 == Some(VoteResponse(1, true, candidate, voter));
  }

  lemma CountsGrant(c: Mesh, id: NodeId, votes: nat, voter: NodeId)
    requires StateIs(c, id, Running(id, votes)) && VoteResponse(1, true, id, voter) in c.sent
    ensures var c' := Next(c, Deliver(id, VoteResponse(1, true, id, voter)));
            && OnlyMoved(c, c', id)
            && (votes + 1 < 3 ==> StateIs(c', id, Running(id, votes + 1)))
            && (votes + 1 >= 3 ==> (id, 1) in c'.leaders)
  {
  }

  ghost predicate Idle(c: Mesh, ids: set<NodeId>)
  {
    forall id :: id in ids ==> StateIs(c, id, Started(id, QUINT))
  }

  lemma FiveIdle()
    ensures Idle(FIVE, {"a", "b", "c", "d", "e"}) && Run(FIVE, REPEATED[..0]) == FIVE
  {
  }

  lemma StillIdle(c: Mesh, c': Mesh, id: NodeId, ids: set<NodeId>)
    requires OnlyMoved(c, c', id) && Idle(c, ids) && id !in ids
    ensures Idle(c', ids)
  {
  }

  lemma IdleNode(c: Mesh, ids: set<NodeId>, id: NodeId)
    requires Idle(c, ids) && id in ids
    ensures StateIs(c, id, Started(id, QUINT))
  {
  }

  lemma IdleFewer(c: Mesh, ids: set<NodeId>, fewer: set<NodeId>)
    requires Idle(c, ids) && fewer <= ids
    ensures Idle(c, fewer)
  {
  }

  lemma RepeatedStands()
    ensures var c := Run(FIVE, REPEATED[..2]);
            && Idle(c, {"c", "d", "e"}) && StateIs(c, "a", Running("a", 1)) && StateIs(c, "b", Running("b", 1))
            && VoteRequest(1, "a") in c.sent && VoteRequest(1, "b") in c.sent
  {
    FiveIdle();
    var c0, c1, c2 := FIVE, Run(FIVE, REPEATED[..1]), Run(FIVE, REPEATED[..2]);
    RunSnoc(FIVE, REPEATED, 0);
    RunSnoc(FIVE, REPEATED, 1);
    assert REPEATED[0] == Timeout("a") && REPEATED[1] == Timeout("b");
    hide Run, Next, Started, Running, StateIs, Idle, OnlyMoved;
    IdleNode(c0, {"a", "b", "c", "d", "e"}, "a");
    IdleFewer(c0, {"a", "b", "c", "d", "e"}, {"b", "c", "d", "e"});
    RunningStarts(c0, "a");
    StillIdle(c0, c1, "a", {"b", "c", "d", "e"});
    IdleNode(c1, {"b", "c", "d", "e"}, "b");
    IdleFewer(c1, {"b", "c", "d", "e"}, {"c", "d", "e"});
    RunningStarts(c1, "b");
    StillIdle(c1, c2, "b", {"c", "d", "e"});
    UnmovedState(c1, c2, "b");
  }

  /** a and b stand in term 1 and have asked for votes; the nodes `ids` have heard nothing yet. */
  ghost predicate Polling(c: Mesh, ids: set<NodeId>)
  {
    && Idle(c, ids) && StateIs(c, "a", Running("a", 1)) && StateIs(c, "b", Running("b", 1))
    && VoteRequest(1, "a") in c.sent && VoteRequest(1, "b") in c.sent
  }

  lemma VoteCast(c: Mesh, ids: set<NodeId>, voter: NodeId, candidate: NodeId)
    requires Polling(c, ids) && voter in ids && voter != "a" && voter != "b"
    requires candidate == "a" || candidate == "b"
    ensures var c' := Next(c, Deliver(voter, VoteRequest(1, candidate)));
            && Polling(c', ids - {voter}) && c.sent <= c'.sent
            && VoteResponse(1, true, candidate, voter) in c'.sent
  {
    hide Next, Started, Running, StateIs, Idle, OnlyMoved;
    var c' := Next(c, Deliver(voter, VoteRequest(1, candidate)));
    IdleNode(c, ids, voter);
    IdleFewer(c, ids, ids - {voter});
    Grants(c, voter, candidate);
    StillIdle(c, c', voter, ids - {voter});
    UnmovedState(c, c', voter);
  }

  lemma PollStep(i: nat, ids: set<NodeId>, voter: NodeId, candidate: NodeId)
    requires i < |REPEATED| && REPEATED[i] == Deliver(voter, VoteRequest(1, candidate))
    requires Polling(Run(FIVE, REPEATED[..i]), ids) && voter in ids && voter != "a" && voter != "b"
    requires candidate == "a" || candidate == "b"
    ensures var c, c' := Run(FIVE, REPEATED[..i]), Run(FIVE, REPEATED[..i + 1]);
            && Polling(c', ids - {voter}) && c.sent <= c'.sent
            && VoteResponse(1, true, candidate, voter) in c'.sent
  {
    hide Run, Next, Polling;
    RunSnoc(FIVE, REPEATED, i);
    VoteCast(Run(FIVE, REPEATED[..i]), ids, voter, candidate);
  }

  lemma VoteOfC()
    ensures var c := Run(FIVE, REPEATED[..3]);
            Polling(c, {"d", "e"}) && VoteResponse(1, true, "a", "c") in c.sent
  {
    RepeatedStands();
    hide Run, Idle;
    var ids := {"c", "d", "e"};
    assert ids - {"c"} == {"d", "e"};
    PollStep(2, ids, "c", "a");
  }

  lemma VotesOfDAndE()
    ensures var c := Run(FIVE, REPEATED[..5]);
            && Polling(c, {}) && Run(FIVE, REPEATED[..3]).sent <= c.sent
            && VoteResponse(1, true, "b", "d") in c.sent && VoteResponse(1, true, "b", "e") in c.sent
  {
    VoteOfC();
    hide Run, Polling;
    var ids := {"d", "e"};
    assert ids - {"d"} == {"e"};
    PollStep(3, ids, "d", "b");
    var last := {"e"};
    assert last - {"e"} == {};
    PollStep(4, last, "e", "b");
  }

  lemma RepeatedVotes()
    ensures var c := Run(FIVE, REPEATED[..5]);
            && StateIs(c, "a", Running("a", 1)) && StateIs(c, "b", Running("b", 1))
            && VoteResponse(1, true, "a", "c") in c.sent && VoteResponse(1, true, "b", "d") in c.sent
            && VoteResponse(1, true, "b", "e") in c.sent
  {
    VoteOfC();
    VotesOfDAndE();
    hide Run, StateIs, Idle;
  }

  lemma UnmovedState(c: Mesh, c': Mesh, id: NodeId)
    requires OnlyMoved(c, c', id)
    ensures forall n, s :: n != id && StateIs(c, n, s) ==> StateIs(c', n, s)
    ensures c.sent <= c'.sent && c.leaders <= c'.leaders
  {
  }

  lemma FiveIsValid()
    ensures Initial(FIVE) && FullPeerLists(FIVE)
  {
    var q := QUINT;
    assert q[0] in q && q[1] in q && q[2] in q && q[3] in q && q[4] in q;
    assert (set p | p in q) == {"a", "b", "c", "d", "e"} == FIVE.nodes.Keys;
  }

  /** Even if every response reaches only its addressee, a grant counted twice makes two leaders. */
  lemma TwoLeadersByRepeat()
    ensures Initial(FIVE) && FullPeerLists(FIVE) && Addressed(REPEATED)
    ensures var c := Run(FIVE, REPEATED); ("a", 1) in c.leaders && ("b", 1) in c.leaders
  {
    FiveIsValid();
    RepeatedVotes();
    hide Run, Next, Running, StateIs, FullPeerLists, Initial, Started;
    var c5 := Run(FIVE, REPEATED[..5]);
    CountsGrant(c5, "a", 1, "c");
    RunSnoc(FIVE, REPEATED, 5);
    var c6 := Run(FIVE, REPEATED[..6]);
    UnmovedState(c5, c6, "a");
    CountsGrant(c6, "a", 2, "c");
    RunSnoc(FIVE, REPEATED, 6);
    var c7 := Run(FIVE, REPEATED[..7]);
    UnmovedState(c6, c7, "a");
    CountsGrant(c7, "b", 1, "d");
    RunSnoc(FIVE, REPEATED, 7);
    var c8 := Run(FIVE, REPEATED[..8]);
    UnmovedState(c7, c8, "b");
    CountsGrant(c8, "b", 2, "e");
    RunSnoc(FIVE, REPEATED, 8);
    assert REPEATED[..9] == REPEATED;
    UnmovedState(c8, Run(FIVE, REPEATED), "b");
  }

  // ----- Where overlapping is needed -----

  /** Two nodes that list only themselves both lead term 1, and nothing is miscounted. */
  lemma LoneListsTwoLeaders(c: Mesh, a: NodeId, b: NodeId)
    requires Initial(c) && a in c.nodes && b in c.nodes && a != b
    requires c.nodes[a].peers == [a] && c.nodes[b].peers == [b]
    ensures Faithful(c, [Timeout(a), Timeout(b)])
    ensures var c' := Run(c, [Timeout(a), Timeout(b)]); (a, 1) in c'.leaders && (b, 1) in c'.leaders
  {
    var steps := [Timeout(a), Timeout(b)];
    assert steps[..0] == [] && steps[..1][..0] == [] && steps[..2] == steps;
    RunSnoc(c, steps, 0);
    RunSnoc(c, steps, 1);
    LoneStart(c, a);
    LoneStart(Run(c, steps[..1]), b);
  }

  lemma LoneStart(c: Mesh, a: NodeId)
    requires a in c.nodes && c.nodes[a] == Started(a, [a])
    ensures var c' := Next(c, Timeout(a));
            && (a, 1) in c'.leaders && c.leaders <= c'.leaders && c'.nodes == c.nodes[a := c'.nodes[a]]
  {
    assert StartElection(c.nodes[a]).role == Leader;
  }
}
