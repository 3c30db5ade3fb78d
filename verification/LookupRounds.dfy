/**
 * How the iterative lookup goes on and when it stops (phase0/dht_kademlia.py:229-268), where what it
 * returns comes from, and what the routing table is told.
 */
module LookupRounds {
  import opened Wrappers
  import opened StableSort
  import opened TopK
  import opened KademliaTable
  import opened KademliaHistory
  import opened IterativeLookup

  /** `k` rounds, whatever comes of them. */
  ghost function RoundsOf(st: Lookup, target: NodeId, alpha: nat, net: Network, k: nat): Lookup
    decreases k
  {
    if k == 0 then st else RoundsOf(Round(st, target, alpha, net), target, alpha, net, k - 1)
  }

  ghost predicate SameNearest(a: Lookup, b: Lookup)
  {
    a.shortlist != [] && b.shortlist != [] && a.shortlist[0] == b.shortlist[0]
  }

  /** The round before position `k` left the nearest as it was; the very first round of a lookup does not count. */
  ghost predicate Settled(st: Lookup, target: NodeId, alpha: nat, net: Network, k: nat)
  {
    && k >= 1 && (k >= 2 || st.closest.Some?)
    && SameNearest(RoundsOf(st, target, alpha, net, k - 1), RoundsOf(st, target, alpha, net, k))
  }

  ghost predicate SomebodyLeft(st: Lookup)
  {
    exists i :: 0 <= i < |st.shortlist| && st.shortlist[i].pubkey !in st.contacted
  }

  lemma SomebodyLeftIff(st: Lookup, alpha: nat)
    requires alpha > 0
    ensures ToQuery(st, alpha) != [] <==> SomebodyLeft(st)
  {
    UncontactedMembers(st.shortlist, st.contacted);
    hide Uncontacted;
    var u := Uncontacted(st.shortlist, st.contacted);
    if SomebodyLeft(st) {
      var i :| 0 <= i < |st.shortlist| && st.shortlist[i].pubkey !in st.contacted;
      assert st.shortlist[i] in u;
    }
    if u != [] {
      assert u[0] in u && u[0] in st.shortlist;
    }
  }

  /** The state carries its nearest, unless no round has been made. */
  ghost predicate Carries(st: Lookup)
  {
    st.closest.Some? ==> st.shortlist != [] && st.closest.value == st.shortlist[0]
  }

  lemma RoundCarries(st: Lookup, target: NodeId, alpha: nat, net: Network)
    ensures var st' := Round(st, target, alpha, net);
            Carries(st') && (st'.closest.Some? <==> st'.shortlist != [])
  {
    hide Sort, Merge, Gather, GatherOps;
  }

  lemma ListStays(st: Lookup, target: NodeId, alpha: nat, net: Network)
    requires st.shortlist != []
    ensures Round(st, target, alpha, net).shortlist != []
  {
    var results := Gather(ToQuery(st, alpha), st.contacted, net).0;
    MergeMembers(st.shortlist, results);
    SortCorrect(PeerDistance(target), Merge(st.shortlist, results));
    assert st.shortlist[0] in Merge(st.shortlist, results);
  }

  lemma OneLater(st: Lookup, target: NodeId, alpha: nat, net: Network, j: nat)
    requires j >= 1
    ensures RoundsOf(st, target, alpha, net, j) == RoundsOf(Round(st, target, alpha, net), target, alpha, net, j - 1)
  {
  }

  lemma SettledLater(st: Lookup, target: NodeId, alpha: nat, net: Network, j: nat)
    requires j >= 2 && Round(st, target, alpha, net).closest.Some?
    ensures Settled(st, target, alpha, net, j) <==> Settled(Round(st, target, alpha, net), target, alpha, net, j - 1)
  {
    OneLater(st, target, alpha, net, j);
    OneLater(st, target, alpha, net, j - 1);
    hide Round, RoundsOf, SameNearest;
  }

  lemma SettledFirst(st: Lookup, target: NodeId, alpha: nat, net: Network)
    requires Carries(st)
    ensures var st' := Round(st, target, alpha, net);
            st.closest.Some? && st'.closest == st.closest <==> Settled(st, target, alpha, net, 1)
  {
    var st' := Round(st, target, alpha, net);
    RoundCarries(st, target, alpha, net);
    OneLater(st, target, alpha, net, 1);
    hide Round;
    assert RoundsOf(st, target, alpha, net, 0) == st && RoundsOf(st', target, alpha, net, 0) == st';
    hide RoundsOf;
  }

  /** After `j` rounds another one is made, if any are left. */
  ghost predicate GoesOn(st: Lookup, target: NodeId, alpha: nat, net: Network, j: nat)
  {
    SomebodyLeft(RoundsOf(st, target, alpha, net, j)) && !Settled(st, target, alpha, net, j)
  }

  /**
   * Of at most `n` rounds exactly `k` are made: each is preceded by somebody to ask and by a round
   * that changed the nearest listed peer, if any but the very first has been made; and the last is
   * followed by no other because `n` are made, nobody is left, or it did not change the nearest.
   */
  ghost predicate Stops(st: Lookup, target: NodeId, alpha: nat, net: Network, n: nat, k: nat)
  {
    && k <= n && Rounds(st, target, alpha, net, n) == RoundsOf(st, target, alpha, net, k)
    && (forall j: nat :: j < k ==> GoesOn(st, target, alpha, net, j))
    && (k == n || !GoesOn(st, target, alpha, net, k))
  }

  lemma GoesOnFirst(st: Lookup, target: NodeId, alpha: nat, net: Network)
    requires alpha > 0
    ensures RoundsOf(st, target, alpha, net, 0) == st
    ensures GoesOn(st, target, alpha, net, 0) <==> ToQuery(st, alpha) != []
  {
    SomebodyLeftIff(st, alpha);
    assert RoundsOf(st, target, alpha, net, 0) == st;
    hide SomebodyLeft, ToQuery, RoundsOf;
    assert !Settled(st, target, alpha, net, 0);
  }

  lemma GoesOnLater(st: Lookup, target: NodeId, alpha: nat, net: Network, j: nat)
    requires j >= 1 && Round(st, target, alpha, net).closest.Some? && !Settled(st, target, alpha, net, 1)
    ensures GoesOn(st, target, alpha, net, j) <==> GoesOn(Round(st, target, alpha, net), target, alpha, net, j - 1)
  {
    var st' := Round(st, target, alpha, net);
    OneLater(st, target, alpha, net, j);
    hide Round, SomebodyLeft, RoundsOf;
    if j >= 2 {
      SettledLater(st, target, alpha, net, j);
      hide Settled;
    } else {
      assert !Settled(st', target, alpha, net, 0);
      hide Settled;
    }
  }

  lemma StopsLater(st: Lookup, target: NodeId, alpha: nat, net: Network, n: nat, k: nat)
    requires n > 0 && GoesOn(st, target, alpha, net, 0) && !Settled(st, target, alpha, net, 1)
    requires Round(st, target, alpha, net).closest.Some?
    requires Rounds(st, target, alpha, net, n) == Rounds(Round(st, target, alpha, net), target, alpha, net, n - 1)
    requires Stops(Round(st, target, alpha, net), target, alpha, net, n - 1, k)
    ensures Stops(st, target, alpha, net, n, k + 1)
  {
    OneLater(st, target, alpha, net, k + 1);
    GoesOnLater(st, target, alpha, net, k + 1);
    hide Round, RoundsOf, Rounds, Settled, GoesOn;
    forall j: nat | j < k + 1 ensures GoesOn(st, target, alpha, net, j) {
      if j > 0 {
        GoesOnLater(st, target, alpha, net, j);
      }
    }
  }

  lemma StopsAtOnce(st: Lookup, target: NodeId, alpha: nat, net: Network, n: nat)
    requires alpha > 0 && (n == 0 || ToQuery(st, alpha) == [])
    ensures Stops(st, target, alpha, net, n, 0)
  {
    GoesOnFirst(st, target, alpha, net);
    hide Round, RoundsOf, ToQuery, GoesOn;
  }

  lemma StopsAfterOne(st: Lookup, target: NodeId, alpha: nat, net: Network, n: nat)
    requires alpha > 0 && n > 0 && ToQuery(st, alpha) != [] && Settled(st, target, alpha, net, 1)
    requires Rounds(st, target, alpha, net, n) == Round(st, target, alpha, net)
    ensures Stops(st, target, alpha, net, n, 1)
  {
    GoesOnFirst(st, target, alpha, net);
    OneLater(st, target, alpha, net, 1);
    assert RoundsOf(Round(st, target, alpha, net), target, alpha, net, 0) == Round(st, target, alpha, net);
    assert !GoesOn(st, target, alpha, net, 1);
    hide Round, Rounds, RoundsOf, ToQuery, GoesOn, Settled;
  }

  lemma {:induction false} StopsWhenSettled(st: Lookup, target: NodeId, alpha: nat, net: Network, n: nat) returns (k: nat)
    requires Carries(st) && alpha > 0
    ensures Stops(st, target, alpha, net, n, k)
    decreases n
  {
    hide Round, ToQuery, Carries, Settled, RoundsOf, Stops, GoesOn;
    var st' := Round(st, target, alpha, net);
    if n == 0 || ToQuery(st, alpha) == [] {
      k := 0;
      StopsAtOnce(st, target, alpha, net, n);
    } else {
      SettledFirst(st, target, alpha, net);
      if st.closest.Some? && st'.closest == st.closest {
        k := 1;
        StopsAfterOne(st, target, alpha, net, n);
      } else {
        RoundCarries(st, target, alpha, net);
        CarriesOn(st, target, alpha, net);
        GoesOnFirst(st, target, alpha, net);
        var k' := StopsWhenSettled(st', target, alpha, net, n - 1);
        k := k' + 1;
        StopsLater(st, target, alpha, net, n, k');
      }
    }
  }

  lemma CarriesOn(st: Lookup, target: NodeId, alpha: nat, net: Network)
    requires ToQuery(st, alpha) != []
    ensures Round(st, target, alpha, net).closest.Some?
  {
    UncontactedMembers(st.shortlist, st.contacted);
    hide Round, Uncontacted;
    assert Uncontacted(st.shortlist, st.contacted)[0] in Uncontacted(st.shortlist, st.contacted);
    ListStays(st, target, alpha, net);
    RoundCarries(st, target, alpha, net);
  }

  /**
   * From the table's answer the lookup makes at most `n` rounds.  Fewer are made only when nobody is
   * left to ask or a round after the first left the nearest listed peer as it was; and no round is
   * made after such a one.
   */
  lemma LookupStops(t: Table, target: NodeId, alpha: nat, net: Network, n: nat) returns (k: nat)
    requires alpha > 0
    ensures var st := Start(t, target);
            && k <= n && Rounds(st, target, alpha, net, n) == RoundsOf(st, target, alpha, net, k)
            && (forall j: nat :: j < k ==> SomebodyLeft(RoundsOf(st, target, alpha, net, j)))
            && (forall j: nat :: 2 <= j < k ==>
                  !SameNearest(RoundsOf(st, target, alpha, net, j - 1), RoundsOf(st, target, alpha, net, j)))
            && (k < n ==>
                  || !SomebodyLeft(RoundsOf(st, target, alpha, net, k))
                  || (k >= 2 && SameNearest(RoundsOf(st, target, alpha, net, k - 1), RoundsOf(st, target, alpha, net, k))))
  {
    StartFields(t, target);
    var st := Start(t, target);
    k := StopsWhenSettled(st, target, alpha, net, n);
    hide RoundsOf, Start, SomebodyLeft, SameNearest, Rounds;
    forall j: nat | j < k
      ensures SomebodyLeft(RoundsOf(st, target, alpha, net, j))
              && (j >= 2 ==> !SameNearest(RoundsOf(st, target, alpha, net, j - 1), RoundsOf(st, target, alpha, net, j)))
    {
      assert GoesOn(st, target, alpha, net, j);
    }
  }

  // ----- Whom a round asks -----

  /** How many of the first `i` have not been contacted. */
  function Unasked(ps: seq<Peer>, contacted: set<string>, i: nat): nat
    requires i <= |ps|
  {
    if i == 0 then 0 else Unasked(ps, contacted, i - 1) + (if ps[i - 1].pubkey in contacted then 0 else 1)
  }

  lemma {:induction false} UnaskedCounts(ps: seq<Peer>, contacted: set<string>, n: nat)
    requires n <= |ps|
    ensures |Uncontacted(ps[..n], contacted)| == Unasked(ps, contacted, n)
  {
    if n > 0 {
      UnaskedCounts(ps, contacted, n - 1);
      UncontactedMore(ps, n - 1, contacted);
      hide Uncontacted;
    }
  }

  lemma {:induction false} UncontactedAt(ps: seq<Peer>, contacted: set<string>, n: nat, i: nat)
    requires i < n <= |ps| && ps[i].pubkey !in contacted
    ensures Unasked(ps, contacted, i) < |Uncontacted(ps[..n], contacted)|
    ensures Uncontacted(ps[..n], contacted)[Unasked(ps, contacted, i)] == ps[i]
  {
    UncontactedMore(ps, n - 1, contacted);
    if i == n - 1 {
      UnaskedCounts(ps, contacted, i);
      hide Uncontacted;
    } else {
      UncontactedAt(ps, contacted, n - 1, i);
      hide Uncontacted;
    }
  }

  lemma QueueAt(st: Lookup, alpha: nat, i: nat)
    requires i < |st.shortlist| && st.shortlist[i].pubkey !in st.contacted
    requires Unasked(st.shortlist, st.contacted, i) < alpha
    ensures var at := Unasked(st.shortlist, st.contacted, i);
            at < |ToQuery(st, alpha)| && ToQuery(st, alpha)[at] == st.shortlist[i]
  {
    var ps := st.shortlist;
    assert ps[..|ps|] == ps;
    UncontactedAt(ps, st.contacted, |ps|, i);
  }

  /** A round asks the first `alpha` of the shortlist that have not been asked, in order, and all of them if there are fewer. */
  lemma AsksNearestUnasked(st: Lookup, target: NodeId, alpha: nat, net: Network) returns (asked: seq<string>)
    ensures Round(st, target, alpha, net).queried == st.queried + asked
    ensures forall k :: k in Round(st, target, alpha, net).contacted <==> k in st.contacted || k in asked
    ensures var ps := st.shortlist;
            var all := Unasked(ps, st.contacted, |ps|);
            && |asked| == (if all <= alpha then all else alpha)
            && forall i: nat :: i < |ps| && ps[i].pubkey !in st.contacted && Unasked(ps, st.contacted, i) < alpha ==>
                 Unasked(ps, st.contacted, i) < |asked| && asked[Unasked(ps, st.contacted, i)] == ps[i].pubkey
  {
    var ps, q := st.shortlist, ToQuery(st, alpha);
    asked := Keys(q);
    assert ps[..|ps|] == ps;
    UnaskedCounts(ps, st.contacted, |ps|);
    ContactsOfRound(st, target, alpha, net);
    assert |q| == if Unasked(ps, st.contacted, |ps|) <= alpha then Unasked(ps, st.contacted, |ps|) else alpha;
    assert Round(st, target, alpha, net).queried == st.queried + asked;
    hide Uncontacted, Unasked, Round, ToQuery;
    forall i: nat | i < |ps| && ps[i].pubkey !in st.contacted && Unasked(ps, st.contacted, i) < alpha
      ensures Unasked(ps, st.contacted, i) < |asked| && asked[Unasked(ps, st.contacted, i)] == ps[i].pubkey
    {
      QueueAt(st, alpha, i);
    }
  }

  lemma ContactsOfRound(st: Lookup, target: NodeId, alpha: nat, net: Network)
    ensures forall k :: k in Round(st, target, alpha, net).contacted
                        <==> k in st.contacted || k in Keys(ToQuery(st, alpha))
  {
    var q, st' := ToQuery(st, alpha), Round(st, target, alpha, net);
    assert st'.contacted == Gather(q, st.contacted, net).1;
    hide Round, Gather, ToQuery;
    forall k ensures k in st'.contacted <==> k in st.contacted || k in Keys(q) {
      GatherAsked(q, st.contacted, net, k);
      if HasKey(q, k) {
        var i :| 0 <= i < |q| && q[i].pubkey == k;
        assert Keys(q)[i] == k;
      }
      if k in Keys(q) {
        var i :| 0 <= i < |q| && Keys(q)[i] == k;
        assert q[i].pubkey == k;
      }
    }
  }

  // ----- What the table is told -----

  ghost predicate Offered(listed: seq<Peer>, asked: set<string>, from: string, clock: (string, nat) -> real, op: Op)
  {
    exists j: nat :: j < |listed| && listed[j].pubkey !in asked
                     && op == Add(listed[j].id, listed[j].addr, listed[j].pubkey, clock(from, j))
  }

  /** The table is offered exactly the entries not asked yet, as they were reported. */
  lemma {:induction false} OffersAreReported(listed: seq<Peer>, asked: set<string>, from: string,
                                             clock: (string, nat) -> real, op: Op)
    ensures op in Offers(listed, asked, from, clock) <==> Offered(listed, asked, from, clock, op)
  {
    if listed != [] {
      var n := |listed| - 1;
      OffersAreReported(listed[..n], asked, from, clock, op);
      assert forall j :: 0 <= j < n ==> listed[..n][j] == listed[j];
      if Offered(listed[..n], asked, from, clock, op) {
        var j: nat :| j < n && listed[..n][j].pubkey !in asked
                      && op == Add(listed[..n][j].id, listed[..n][j].addr, listed[..n][j].pubkey, clock(from, j));
        assert listed[j].pubkey !in asked;
      }
    }
  }

  lemma {:induction false} NoChargesOffered(listed: seq<Peer>, asked: set<string>, from: string,
                                            clock: (string, nat) -> real, id: NodeId)
    ensures Charges(Offers(listed, asked, from, clock), id) == 0
  {
    if listed != [] {
      var n := |listed| - 1;
      NoChargesOffered(listed[..n], asked, from, clock, id);
      var before := Offers(listed[..n], asked, from, clock);
      if listed[n].pubkey in asked {
        assert before + [] == before;
      } else {
        ChargesOfSum(before, [Add(listed[n].id, listed[n].addr, listed[n].pubkey, clock(from, n))], id);
      }
    }
  }

  lemma {:induction false} ChargesOfSum(a: seq<Op>, b: seq<Op>, id: NodeId)
    ensures Charges(a + b, id) == Charges(a, id) + Charges(b, id)
  {
    if b == [] {
      assert a + b == a;
    } else {
      ChargesOfSum(a, b[..|b| - 1], id);
      assert (a + b)[..|a + b| - 1] == a + b[..|b| - 1];
    }
  }

  /** The asked peer is charged a failure exactly when its query raises, and nobody else is. */
  lemma ChargedIffBroken(p: Peer, asked: set<string>, net: Network, id: NodeId)
    ensures Charges(QueryOps(p, asked, net), id)
            == Charges(net.meanwhile(p.pubkey), id) + (if net.answer(p.pubkey).Broken? && id == p.id then 1 else 0)
  {
    var listed := Listed(net.answer(p.pubkey));
    var offers := Offers(listed, asked, p.pubkey, net.clock);
    var tail: seq<Op> := if net.answer(p.pubkey).Broken? then [Fail(p.id)] else [];
    NoChargesOffered(listed, asked, p.pubkey, net.clock, id);
    ChargesOfSum(net.meanwhile(p.pubkey), offers, id);
    ChargesOfSum(net.meanwhile(p.pubkey) + offers, tail, id);
    assert tail != [] ==> tail[..0] == [];
  }

  // ----- Where the result comes from -----

  /** A contact of the table, as stored, or a peer as one that was asked reported it. */
  ghost predicate Sourced(t: Table, net: Network, queried: seq<string>, p: Peer)
  {
    || (exists c :: c in AllContacts(t) && p == Peer(c.id, c.addr, c.pubkey))
    || (exists k :: k in queried && p in Listed(net.answer(k)))
  }

  ghost predicate AllSourced(t: Table, net: Network, st: Lookup)
  {
    forall p :: p in st.shortlist ==> Sourced(t, net, st.queried, p)
  }

  lemma RoundSourced(t: Table, st: Lookup, target: NodeId, alpha: nat, net: Network)
    requires AllSourced(t, net, st)
    ensures AllSourced(t, net, Round(st, target, alpha, net))
  {
    var queue := ToQuery(st, alpha);
    var results := Gather(queue, st.contacted, net).0;
    MergeMembers(st.shortlist, results);
    SortCorrect(PeerDistance(target), Merge(st.shortlist, results));
    var st' := Round(st, target, alpha, net);
    assert st'.queried == st.queried + Keys(queue);
    var sorted := Sort(PeerDistance(target), Merge(st.shortlist, results));
    assert st'.shortlist == Front(sorted, K);
    hide Round, Gather, Merge, Sort, ToQuery;
    forall p | p in st'.shortlist ensures Sourced(t, net, st'.queried, p) {
      assert p in sorted;
      GatherResults(queue, st.contacted, net, p);
      if p in st.shortlist {
        assert Sourced(t, net, st.queried, p);
        assert forall k :: k in st.queried ==> k in st'.queried;
      } else {
        var q :| q in queue && p in Listed(net.answer(q.pubkey));
        var i :| 0 <= i < |queue| && queue[i] == q;
        assert Keys(queue)[i] == q.pubkey && q.pubkey in Keys(queue);
      }
    }
  }

  lemma {:induction false} RoundsSourced(t: Table, st: Lookup, target: NodeId, alpha: nat, net: Network, n: nat)
    requires AllSourced(t, net, st)
    ensures AllSourced(t, net, Rounds(st, target, alpha, net, n))
    decreases n
  {
    hide Round, AllSourced;
    if n > 0 && ToQuery(st, alpha) != [] {
      RoundSourced(t, st, target, alpha, net);
      RoundsSourced(t, Round(st, target, alpha, net), target, alpha, net, n - 1);
    }
  }

  /** Whatever the lookup returns is a contact the table held, or what a peer that was asked reported, unaltered. */
  lemma ReturnsOnlyKnown(t: Table, target: NodeId, alpha: nat, net: Network, n: nat, p: Peer)
    requires p in Rounds(Start(t, target), target, alpha, net, n).shortlist
    ensures Sourced(t, net, Rounds(Start(t, target), target, alpha, net, n).queried, p)
  {
    StartSourced(t, target, net);
    hide Start, Rounds;
    RoundsSourced(t, Start(t, target), target, alpha, net, n);
  }

  lemma StartSourced(t: Table, target: NodeId, net: Network)
    ensures AllSourced(t, net, Start(t, target))
  {
    StartFields(t, target);
    var r := FindNearest(t, target, K);
    forall p | p in ToPeers(r) ensures Sourced(t, net, [], p) {
      var i :| 0 <= i < |r| && ToPeers(r)[i] == p;
      FoundIsStored(t, target, K, r[i]);
    }
    hide FindNearest, ToPeers;
    assert Start(t, target).queried == [];
  }

  lemma FoundIsStored(t: Table, target: NodeId, count: nat, c: Contact)
    requires c in FindNearest(t, target, count)
    ensures c in AllContacts(t)
  {
    var cs := Candidates(t, count);
    SortCorrect(Distance(target), cs);
    assert c in cs;
    hide Sort;
    CandidatesMembers(t, count, c);
    var i: nat :| i < |t| && c in FirstOf(t[i], count);
    var j :| 0 <= j < |FirstOf(t[i], count)| && FirstOf(t[i], count)[j] == c;
    assert t[i][j] == c;
  }

  // ----- From the empty table -----

  /** The lookup is exact on every table that genuine additions, with any failures between them, have built. */
  lemma LookupAfterRun(own: NodeId, ops: seq<Op>, target: NodeId, alpha: nat, net: Network,
                       idOf: string -> NodeId, n: nat)
    requires GenuineOps(ops, idOf) && GenuineNetwork(net, idOf)
    ensures var t := TableApplyAll(own, EMPTY, ops);
            var end := Rounds(Start(t, target), target, alpha, net, n);
            && IsTop(IdDistance(target), K, TableIds(t) + Reported(end.queried, net), Ids(end.shortlist))
            && NoRepeats(end.queried) && |end.queried| <= n * alpha
  {
    var t := TableApplyAll(own, EMPTY, ops);
    PlacedRun(own, ops);
    forall c | c in AllContacts(t) ensures c.id == idOf(c.pubkey) {
      GenuineAfterRun(own, ops, idOf, c);
    }
    hide TableApplyAll, Rounds, Start, IsTop, Placed;
    LookupIsExact(own, t, target, alpha, net, idOf, n);
  }
}
