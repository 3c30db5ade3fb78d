/**
 * The iterative lookup of the Kademlia DHT (phase0/dht_kademlia.py:216-270), against the
 * one-shot answer: the K nearest of everything heard.
 */
module IterativeLookup {
  import opened Wrappers
  import opened StableSort
  import opened TopK
  import opened KademliaTable

  datatype Peer = Peer(id: NodeId, addr: string, pubkey: string)

  /** What comes back from one peer; `Broken` raises after the listed entries have been read. */
  datatype Reply = Nodes(peers: seq<Peer>) | OtherReply | Broken(peers: seq<Peer>)

  /**
   * The world around one lookup.  No pubkey is asked twice, so the answers form a function of it;
   * `clock` is read when an entry of an answer is added to the table, and `meanwhile` is what
   * others do to the table while an answer is awaited.
   */
  datatype Network = Network(answer: string -> Reply, clock: (string, nat) -> real, meanwhile: string -> seq<Op>)

  function Listed(r: Reply): seq<Peer> { if r.OtherReply? then [] else r.peers }

  /** The running state; `queried`, `heard` and `ops` record what was asked and learned, and all that befell the table. */
  datatype Lookup = Lookup(shortlist: seq<Peer>, contacted: set<string>, closest: Option<Peer>,
                           queried: seq<string>, heard: set<NodeId>, ops: seq<Op>)

  function ToPeers(cs: seq<Contact>): seq<Peer>
  {
    seq(|cs|, i requires 0 <= i < |cs| => Peer(cs[i].id, cs[i].addr, cs[i].pubkey))
  }

  function Ids(ps: seq<Peer>): seq<NodeId>
  {
    seq(|ps|, i requires 0 <= i < |ps| => ps[i].id)
  }

  function Keys(ps: seq<Peer>): seq<string>
  {
    seq(|ps|, i requires 0 <= i < |ps| => ps[i].pubkey)
  }

  predicate HasKey(ps: seq<Peer>, pubkey: string)
  {
    exists i :: 0 <= i < |ps| && ps[i].pubkey == pubkey
  }

  function Uncontacted(ps: seq<Peer>, contacted: set<string>): seq<Peer>
  {
    if ps == [] then []
    else
      Uncontacted(ps[..|ps| - 1], contacted)
      + (if ps[|ps| - 1].pubkey in contacted then [] else [ps[|ps| - 1]])
  }

  function Front(ps: seq<Peer>, n: nat): seq<Peer> { if |ps| <= n then ps else ps[..n] }

  function ToQuery(st: Lookup, alpha: nat): seq<Peer>
  {
    Front(Uncontacted(st.shortlist, st.contacted), alpha)
  }

  /** Ask the peers of the queue in turn; collect what is not yet contacted at that moment. */
  function Gather(queue: seq<Peer>, contacted: set<string>, net: Network): (seq<Peer>, set<string>)
  {
    if queue == [] then ([], contacted)
    else
      var (results, before) := Gather(queue[..|queue| - 1], contacted, net);
      var p := queue[|queue| - 1].pubkey;
      (results + Uncontacted(Listed(net.answer(p)), before + {p}), before + {p})
  }

  /** Append what the list does not hold yet. */
  function Merge(shortlist: seq<Peer>, results: seq<Peer>): seq<Peer>
  {
    if results == [] then shortlist
    else
      var m, r := Merge(shortlist, results[..|results| - 1]), results[|results| - 1];
      if HasKey(m, r.pubkey) then m else m + [r]
  }

  function PeerDistance(target: NodeId): Peer -> int { (p: Peer) => Xor(target, p.id) }

  function IdDistance(target: NodeId): NodeId -> int { (id: NodeId) => Xor(target, id) }

  /** Every collected entry of an answer is offered to the table. */
  function Offers(listed: seq<Peer>, asked: set<string>, from: string, clock: (string, nat) -> real): seq<Op>
  {
    if listed == [] then []
    else
      var n := |listed| - 1;
      var p := listed[n];
      Offers(listed[..n], asked, from, clock)
      + (if p.pubkey in asked then [] else [Add(p.id, p.addr, p.pubkey, clock(from, n))])
  }

  /** What one query does to the table; a peer whose query raises is charged a failure. */
  function QueryOps(p: Peer, asked: set<string>, net: Network): seq<Op>
  {
    net.meanwhile(p.pubkey) + Offers(Listed(net.answer(p.pubkey)), asked, p.pubkey, net.clock)
    + (if net.answer(p.pubkey).Broken? then [Fail(p.id)] else [])
  }

  function GatherOps(queue: seq<Peer>, contacted: set<string>, net: Network): seq<Op>
  {
    if queue == [] then []
    else
      var init, last := queue[..|queue| - 1], queue[|queue| - 1];
      GatherOps(init, contacted, net) + QueryOps(last, Gather(init, contacted, net).1 + {last.pubkey}, net)
  }

  /** All ids reported by the peers with the given keys. */
  ghost function Reported(keys: seq<string>, net: Network): set<NodeId>
  {
    set i, j | 0 <= i < |keys| && 0 <= j < |Listed(net.answer(keys[i]))| :: Listed(net.answer(keys[i]))[j].id
  }

  function First(ps: seq<Peer>): Option<Peer> { if ps == [] then None else Some(ps[0]) }

  ghost function Round(st: Lookup, target: NodeId, alpha: nat, net: Network): Lookup
  {
    var queue := ToQuery(st, alpha);
    var gathered := Gather(queue, st.contacted, net);
    var shortlist := Front(Sort(PeerDistance(target), Merge(st.shortlist, gathered.0)), K);
    Lookup(shortlist, gathered.1, First(shortlist), st.queried + Keys(queue),
           st.heard + Reported(Keys(queue), net), st.ops + GatherOps(queue, st.contacted, net))
  }

  /** At most `n` rounds; a round that finds the same closest peer again is the last. */
  ghost function Rounds(st: Lookup, target: NodeId, alpha: nat, net: Network, n: nat): Lookup
    decreases n
  {
    if n == 0 || ToQuery(st, alpha) == [] then st
    else
      var st' := Round(st, target, alpha, net);
      if st.closest.Some? && st'.closest == st.closest then st'
      else Rounds(st', target, alpha, net, n - 1)
  }

  ghost function TableIds(t: Table): set<NodeId> { set c | c in AllContacts(t) :: c.id }

  ghost function Start(t: Table, target: NodeId): Lookup
  {
    Lookup(ToPeers(FindNearest(t, target, K)), {}, None, [], TableIds(t), [])
  }

  lemma StartFields(t: Table, target: NodeId)
    ensures Start(t, target).shortlist == ToPeers(FindNearest(t, target, K))
    ensures Start(t, target).contacted == {} && Start(t, target).closest == None
    ensures Start(t, target).ops == []
  {
  }

  /** One round, as the loop of the lookup goes through it. */
  lemma RoundsUnfold(st: Lookup, target: NodeId, alpha: nat, net: Network, n: nat)
    ensures var queue := Front(Uncontacted(st.shortlist, st.contacted), alpha);
            var gathered := Gather(queue, st.contacted, net);
            var shortlist := Front(Sort(PeerDistance(target), Merge(st.shortlist, gathered.0)), K);
            var st' := Round(st, target, alpha, net);
            && st'.shortlist == shortlist && st'.contacted == gathered.1 && st'.closest == First(shortlist)
            && st'.ops == st.ops + GatherOps(queue, st.contacted, net)
            && (n == 0 || queue == [] ==> Rounds(st, target, alpha, net, n) == st)
            && (n > 0 && queue != [] ==>
                  Rounds(st, target, alpha, net, n)
                  == if st.closest.Some? && First(shortlist) == st.closest then st'
                     else Rounds(st', target, alpha, net, n - 1))
  {
    hide Gather, Merge, Sort, GatherOps, Uncontacted, Front;
  }

  // ----- What befalls the table -----

  lemma ApplyOneMore(own: NodeId, t: Table, ops: seq<Op>, op: Op)
    requires |t| == B
    ensures TableApply(own, TableApplyAll(own, t, ops), op) == TableApplyAll(own, t, ops + [op])
  {
    hide TableApply;
    assert (ops + [op])[..|ops|] == ops;
  }

  lemma {:induction false} ApplySplit(own: NodeId, t: Table, a: seq<Op>, b: seq<Op>)
    requires |t| == B
    ensures TableApplyAll(own, t, a + b) == TableApplyAll(own, TableApplyAll(own, t, a), b)
  {
    hide TableApply;
    if b == [] {
      assert a + b == a;
    } else {
      ApplySplit(own, t, a, b[..|b| - 1]);
      assert (a + b)[..|a + b| - 1] == a + b[..|b| - 1];
    }
  }

  lemma ApplyNone(own: NodeId, t: Table)
    requires |t| == B
    ensures TableApplyAll(own, t, []) == t
  {
  }

  lemma GatherMore(queue: seq<Peer>, k: nat, contacted: set<string>, net: Network)
    requires k < |queue|
    ensures var before, p := Gather(queue[..k], contacted, net), queue[k];
            var asked := before.1 + {p.pubkey};
            && Gather(queue[..k + 1], contacted, net).0
               == before.0 + Uncontacted(Listed(net.answer(p.pubkey)), asked)
            && Gather(queue[..k + 1], contacted, net).1 == asked
            && GatherOps(queue[..k + 1], contacted, net)
               == GatherOps(queue[..k], contacted, net) + QueryOps(p, asked, net)
  {
    hide Uncontacted, QueryOps;
    assert queue[..k + 1][..k] == queue[..k];
  }

  lemma OffersMore(ps: seq<Peer>, k: nat, asked: set<string>, from: string, clock: (string, nat) -> real)
    requires k < |ps|
    ensures Offers(ps[..k + 1], asked, from, clock)
            == if ps[k].pubkey in asked then Offers(ps[..k], asked, from, clock)
               else Offers(ps[..k], asked, from, clock)
                    + [Add(ps[k].id, ps[k].addr, ps[k].pubkey, clock(from, k))]
  {
    assert ps[..k + 1][..k] == ps[..k];
  }

  lemma UncontactedMore(ps: seq<Peer>, k: nat, contacted: set<string>)
    requires k < |ps|
    ensures Uncontacted(ps[..k + 1], contacted)
            == if ps[k].pubkey in contacted then Uncontacted(ps[..k], contacted)
               else Uncontacted(ps[..k], contacted) + [ps[k]]
  {
    assert ps[..k + 1][..k] == ps[..k];
  }

  class KademliaDHT {
    const routing: RoutingTable

    constructor (own: NodeId)
      ensures routing.own == own && routing.Valid() && routing.State() == EMPTY
      ensures fresh(routing) && forall b :: b in routing.buckets ==> fresh(b)
    {
      routing := new RoutingTable(own);
    }

    method Find(target: NodeId, alpha: nat, net: Network) returns (shortlist: seq<Peer>)
      requires routing.Valid()
      modifies routing.buckets
      ensures routing.Valid()
      ensures var st := Rounds(Start(old(routing.State()), target), target, alpha, net, 5);
              && shortlist == st.shortlist
              && routing.State() == TableApplyAll(routing.own, old(routing.State()), st.ops)
    {
      hide *;
      ghost var table := routing.State();
      SizeOf();
      ApplyNone(routing.own, table);
      ghost var st := Start(table, target);
      StartFields(table, target);
      var nearest := routing.Nearest(target, K);
      shortlist := ToPeers(nearest);
      if shortlist == [] {
        NothingToAsk(st, target, alpha, net);
        return [];
      }
      ghost var end := Rounds(st, target, alpha, net, 5);
      var contacted: set<string> := {};
      var closest: Option<Peer> := None;
      for i := 0 to 5
        invariant routing.Valid()
        invariant st.shortlist == shortlist && st.contacted == contacted && st.closest == closest
        invariant routing.State() == TableApplyAll(routing.own, table, st.ops)
        invariant end == Rounds(st, target, alpha, net, 5 - i)
      {
        RoundsUnfold(st, target, alpha, net, 5 - i);
        var queue := Front(Uncontacted(shortlist, contacted), alpha);
        if queue == [] {
          return;
        }
        ApplySplit(routing.own, table, st.ops, GatherOps(queue, contacted, net));
        st := Round(st, target, alpha, net);
        var results;
        results, contacted := Query(queue, contacted, net);
        shortlist := MergeInto(shortlist, results);
        shortlist := Front(Sort(PeerDistance(target), shortlist), K);
        var newClosest := First(shortlist);
        if newClosest.Some? && closest.Some? && newClosest == closest {
          return;
        }
        closest := newClosest;
      }
      RoundsUnfold(st, target, alpha, net, 0);
    }

    lemma SizeOf()
      requires routing.Valid()
      ensures |routing.State()| == B
    {
    }

    /** The querying loop of one round. */
    method Query(queue: seq<Peer>, contacted: set<string>, net: Network)
      returns (results: seq<Peer>, asked: set<string>)
      requires routing.Valid()
      modifies routing.buckets
      ensures routing.Valid()
      ensures results == Gather(queue, contacted, net).0 && asked == Gather(queue, contacted, net).1
      ensures routing.State()
              == TableApplyAll(routing.own, old(routing.State()), GatherOps(queue, contacted, net))
    {
      ghost var table := routing.State();
      results, asked := [], contacted;
      for k := 0 to |queue|
        invariant routing.Valid()
        invariant results == Gather(queue[..k], contacted, net).0 && asked == Gather(queue[..k], contacted, net).1
        invariant routing.State() == TableApplyAll(routing.own, table, GatherOps(queue[..k], contacted, net))
      {
        hide *;
        var node := queue[k];
        SizeOf();
        GatherMore(queue, k, contacted, net);
        asked := asked + {node.pubkey};
        ApplySplit(routing.own, table, GatherOps(queue[..k], contacted, net), QueryOps(node, asked, net));
        var heard := Ask(node, asked, net);
        results := results + heard;
      }
      assert queue[..|queue|] == queue;
    }

    /** One query: the wait, and what the table makes of the outcome. */
    method Ask(node: Peer, asked: set<string>, net: Network) returns (heard: seq<Peer>)
      requires routing.Valid()
      modifies routing.buckets
      ensures routing.Valid()
      ensures heard == Uncontacted(Listed(net.answer(node.pubkey)), asked)
      ensures routing.State() == TableApplyAll(routing.own, old(routing.State()), QueryOps(node, asked, net))
    {
      SizeOf();
      ghost var table, own := routing.State(), routing.own;
      var resp := net.answer(node.pubkey);
      hide TableApply, TableApplyAll, Uncontacted, Offers;
      Meanwhile(net.meanwhile(node.pubkey));
      heard := [];
      ghost var offers := Offers(Listed(resp), asked, node.pubkey, net.clock);
      ApplySplit(own, table, net.meanwhile(node.pubkey), offers);
      if resp.OtherReply? {
        ListedNone(asked, node.pubkey, net.clock);
        ApplyNone(own, routing.State());
      } else {
        heard := Learn(resp.peers, asked, node.pubkey, net.clock);
      }
      assert routing.State() == TableApplyAll(own, table, net.meanwhile(node.pubkey) + offers);
      if resp.Broken? {
        ApplyOneMore(own, table, net.meanwhile(node.pubkey) + offers, Fail(node.id));
        routing.MarkFailure(node.id);
      } else {
        assert QueryOps(node, asked, net) == net.meanwhile(node.pubkey) + offers;
      }
    }

    /** Other tasks use the table while this one waits. */
    method Meanwhile(ops: seq<Op>)
      requires routing.Valid()
      modifies routing.buckets
      ensures routing.Valid() && routing.State() == TableApplyAll(routing.own, old(routing.State()), ops)
    {
      ghost var table := routing.State();
      for k := 0 to |ops|
        invariant routing.Valid()
        invariant routing.State() == TableApplyAll(routing.own, table, ops[..k])
      {
        hide *;
        SizeOf();
        ApplyOneMore(routing.own, table, ops[..k], ops[k]);
        assert ops[..k + 1] == ops[..k] + [ops[k]];
        match ops[k]
        case Add(id, addr, pubkey, now) =>
          var _ := routing.AddNode(id, addr, pubkey, now);
        case Fail(id) =>
          routing.MarkFailure(id);
      }
      assert ops[..|ops|] == ops;
    }

    method Learn(listed: seq<Peer>, asked: set<string>, from: string, clock: (string, nat) -> real)
      returns (heard: seq<Peer>)
      requires routing.Valid()
      modifies routing.buckets
      ensures routing.Valid()
      ensures heard == Uncontacted(listed, asked)
      ensures routing.State()
              == TableApplyAll(routing.own, old(routing.State()), Offers(listed, asked, from, clock))
    {
      hide *;
      heard := [];
      ghost var table := routing.State();
      SizeOf();
      NoneOffered(asked, from, clock);
      ApplyNone(routing.own, table);
      assert listed[..0] == [];
      for j := 0 to |listed|
        invariant routing.Valid()
        invariant heard == Uncontacted(listed[..j], asked)
        invariant routing.State() == TableApplyAll(routing.own, table, Offers(listed[..j], asked, from, clock))
      {
        var nd := listed[j];
        UncontactedMore(listed, j, asked);
        OffersMore(listed, j, asked, from, clock);
        if nd.pubkey !in asked {
          SizeOf();
          heard := heard + [nd];
          ApplyOneMore(routing.own, table, Offers(listed[..j], asked, from, clock),
                       Add(nd.id, nd.addr, nd.pubkey, clock(from, j)));
          var _ := routing.AddNode(nd.id, nd.addr, nd.pubkey, clock(from, j));
        }
      }
      assert listed[..|listed|] == listed;
    }

    method MergeInto(shortlist: seq<Peer>, results: seq<Peer>) returns (merged: seq<Peer>)
      ensures merged == Merge(shortlist, results)
    {
      merged := shortlist;
      for k := 0 to |results|
        invariant merged == Merge(shortlist, results[..k])
      {
        assert results[..k + 1][..k] == results[..k];
        if !HasKey(merged, results[k].pubkey) {
          merged := merged + [results[k]];
        }
      }
      assert results[..|results|] == results;
    }
  }

  lemma NothingToAsk(st: Lookup, target: NodeId, alpha: nat, net: Network)
    requires st.shortlist == []
    ensures Rounds(st, target, alpha, net, 5) == st
  {
  }

  lemma NoneOffered(asked: set<string>, from: string, clock: (string, nat) -> real)
    ensures Uncontacted([], asked) == [] && Offers([], asked, from, clock) == []
  {
  }

  lemma ListedNone(asked: set<string>, from: string, clock: (string, nat) -> real)
    ensures Uncontacted(Listed(OtherReply), asked) == [] && Offers(Listed(OtherReply), asked, from, clock) == []
  {
  }

  // ----- Exactness -----

  /** Every peer carries the id of its pubkey, and different pubkeys have different ids. */
  ghost predicate Genuine(ps: seq<Peer>, idOf: string -> NodeId)
  {
    forall i :: 0 <= i < |ps| ==> ps[i].id == idOf(ps[i].pubkey)
  }

  ghost predicate OneToOne(idOf: string -> NodeId)
  {
    forall a, b :: idOf(a) == idOf(b) ==> a == b
  }

  ghost predicate GenuineNetwork(net: Network, idOf: string -> NodeId)
  {
    OneToOne(idOf) && forall k :: Genuine(Listed(net.answer(k)), idOf)
  }

  ghost predicate GenuineTable(t: Table, idOf: string -> NodeId)
  {
    forall c :: c in AllContacts(t) ==> c.id == idOf(c.pubkey)
  }

  /** All that has been heard: the ids the table knew and those reported by the peers asked. */
  ghost predicate LookupInv(st: Lookup, target: NodeId, known: set<NodeId>, net: Network, idOf: string -> NodeId)
  {
    && Genuine(st.shortlist, idOf)
    && st.heard == known + Reported(st.queried, net)
    && IsTop(IdDistance(target), K, st.heard, Ids(st.shortlist))
    && (forall k :: k in st.contacted ==> idOf(k) in st.heard)
    && NoRepeats(st.queried) && (forall k :: k in st.queried <==> k in st.contacted)
  }

  lemma {:induction false} UncontactedMembers(ps: seq<Peer>, contacted: set<string>)
    ensures forall p :: p in Uncontacted(ps, contacted) <==> p in ps && p.pubkey !in contacted
  {
    if ps != [] {
      UncontactedMembers(ps[..|ps| - 1], contacted);
      assert ps == ps[..|ps| - 1] + [ps[|ps| - 1]];
    }
  }

  lemma {:induction false} UncontactedNoRepeats(ps: seq<Peer>, contacted: set<string>)
    requires NoRepeats(Keys(ps))
    ensures NoRepeats(Keys(Uncontacted(ps, contacted)))
  {
    if ps != [] {
      var init, last := ps[..|ps| - 1], ps[|ps| - 1];
      assert forall i :: 0 <= i < |init| ==> Keys(init)[i] == Keys(ps)[i];
      UncontactedNoRepeats(init, contacted);
      UncontactedMembers(init, contacted);
      var u := Uncontacted(init, contacted);
      forall i | 0 <= i < |u| ensures u[i].pubkey != last.pubkey {
        assert u[i] in init;
        var j :| 0 <= j < |init| && init[j] == u[i];
        assert Keys(ps)[j] != Keys(ps)[|ps| - 1];
      }
      assert Uncontacted(ps, contacted) == if last.pubkey in contacted then u else u + [last];
      hide Uncontacted;
      KeysMore(u, last);
    }
  }

  lemma KeysMore(ps: seq<Peer>, p: Peer)
    requires NoRepeats(Keys(ps)) && forall i :: 0 <= i < |ps| ==> ps[i].pubkey != p.pubkey
    ensures NoRepeats(Keys(ps + [p]))
  {
    var r := ps + [p];
    forall i, j | 0 <= i < j < |r| ensures Keys(r)[i] != Keys(r)[j] {
      if j < |ps| {
        assert Keys(ps)[i] != Keys(ps)[j];
      }
    }
  }

  lemma GenuineMember(ps: seq<Peer>, idOf: string -> NodeId, p: Peer)
    requires Genuine(ps, idOf) && p in ps
    ensures p.id == idOf(p.pubkey)
  {
    var i :| 0 <= i < |ps| && ps[i] == p;
  }

  lemma HasKeyMore(ps: seq<Peer>, p: Peer, k: string)
    ensures HasKey(ps + [p], k) <==> HasKey(ps, k) || p.pubkey == k
  {
    var r := ps + [p];
    assert r[|ps|] == p;
    assert forall i :: 0 <= i < |ps| ==> r[i] == ps[i];
  }

  ghost predicate Reports(queue: seq<Peer>, net: Network, p: Peer)
  {
    exists q :: q in queue && p in Listed(net.answer(q.pubkey))
  }

  /** What is asked. */
  lemma {:induction false} GatherAsked(queue: seq<Peer>, contacted: set<string>, net: Network, k: string)
    ensures k in Gather(queue, contacted, net).1 <==> k in contacted || HasKey(queue, k)
  {
    if queue != [] {
      var init, last := queue[..|queue| - 1], queue[|queue| - 1];
      GatherAsked(init, contacted, net, k);
      HasKeyMore(init, last, k);
      assert queue == init + [last];
    }
  }

  /** What is gathered has been reported, and everything reported is gathered or was asked. */
  lemma {:induction false} GatherResults(queue: seq<Peer>, contacted: set<string>, net: Network, p: Peer)
    ensures var (results, asked) := Gather(queue, contacted, net);
            && (p in results ==> Reports(queue, net, p))
            && (Reports(queue, net, p) ==> p in results || p.pubkey in asked)
  {
    if queue != [] {
      var init, last := queue[..|queue| - 1], queue[|queue| - 1];
      GatherResults(init, contacted, net, p);
      var before := Gather(init, contacted, net).1;
      UncontactedMembers(Listed(net.answer(last.pubkey)), before + {last.pubkey});
      assert queue == init + [last];
      assert Reports(queue, net, p) <==> Reports(init, net, p) || p in Listed(net.answer(last.pubkey));
    }
  }

  lemma {:induction false} MergeMembers(shortlist: seq<Peer>, results: seq<Peer>)
    ensures var m := Merge(shortlist, results);
            && (forall p :: p in m ==> p in shortlist || p in results)
            && (forall p :: p in shortlist ==> p in m)
            && (forall p :: p in results ==> HasKey(m, p.pubkey))
            && (NoRepeats(Keys(shortlist)) ==> NoRepeats(Keys(m)))
  {
    if results != [] {
      var init, r := results[..|results| - 1], results[|results| - 1];
      MergeMembers(shortlist, init);
      var m, m' := Merge(shortlist, init), Merge(shortlist, results);
      assert results == init + [r];
      assert forall i :: 0 <= i < |m| ==> m'[i] == m[i];
      forall p | p in results ensures HasKey(m', p.pubkey) {
        if p in init {
          var i :| 0 <= i < |m| && m[i].pubkey == p.pubkey;
          assert m'[i].pubkey == p.pubkey;
        } else if m' != m {
          assert m'[|m|].pubkey == p.pubkey;
        }
      }
      if NoRepeats(Keys(shortlist)) {
        forall i, j | 0 <= i < j < |m'| ensures Keys(m')[i] != Keys(m')[j] {
          if j < |m| {
            assert Keys(m)[i] != Keys(m)[j];
          }
        }
      }
    }
  }

  // Sorting peers by distance sorts their ids by distance.

  lemma {:induction false} IdsOfInsert(target: NodeId, ps: seq<Peer>, p: Peer)
    ensures Ids(Insert(PeerDistance(target), ps, p)) == Insert(IdDistance(target), Ids(ps), p.id)
  {
    if ps == [] || PeerDistance(target)(ps[|ps| - 1]) <= PeerDistance(target)(p) {
      assert Ids(ps + [p]) == Ids(ps) + [p.id];
    } else {
      var init, last := ps[..|ps| - 1], ps[|ps| - 1];
      IdsOfInsert(target, init, p);
      assert Ids(init) == Ids(ps)[..|ps| - 1];
      var r := Insert(PeerDistance(target), init, p);
      assert Ids(r + [last]) == Ids(r) + [last.id];
    }
  }

  lemma {:induction false} IdsOfSort(target: NodeId, ps: seq<Peer>)
    ensures Ids(Sort(PeerDistance(target), ps)) == Sort(IdDistance(target), Ids(ps))
  {
    if ps != [] {
      var init, last := ps[..|ps| - 1], ps[|ps| - 1];
      IdsOfSort(target, init);
      assert Ids(init) == Ids(ps)[..|ps| - 1];
      IdsOfInsert(target, Sort(PeerDistance(target), init), last);
    }
  }

  // One round.

  lemma DistinctKeys(ps: seq<Peer>, target: NodeId, idOf: string -> NodeId)
    requires Genuine(ps, idOf) && StrictlySorted(IdDistance(target), Ids(ps))
    ensures NoRepeats(Keys(ps))
  {
    forall i, j | 0 <= i < j < |ps| ensures Keys(ps)[i] != Keys(ps)[j] {
      assert IdDistance(target)(Ids(ps)[i]) < IdDistance(target)(Ids(ps)[j]);
    }
  }

  lemma DistinctDistances(ps: seq<Peer>, target: NodeId, idOf: string -> NodeId)
    requires Genuine(ps, idOf) && OneToOne(idOf) && NoRepeats(Keys(ps))
    ensures forall i, j :: 0 <= i < j < |ps| ==> IdDistance(target)(Ids(ps)[i]) != IdDistance(target)(Ids(ps)[j])
  {
    forall i, j | 0 <= i < j < |ps| ensures IdDistance(target)(Ids(ps)[i]) != IdDistance(target)(Ids(ps)[j]) {
      assert Keys(ps)[i] != Keys(ps)[j];
      if Xor(target, ps[i].id) == Xor(target, ps[j].id) {
        XorInjective(target, ps[i].id, ps[j].id);
      }
    }
  }

  /** Truncating the sorted pool leaves the nearest ids of the pool. */
  lemma ShortlistIsTop(target: NodeId, pool: seq<Peer>, idOf: string -> NodeId)
    requires Genuine(pool, idOf) && OneToOne(idOf) && NoRepeats(Keys(pool))
    ensures var s := Front(Sort(PeerDistance(target), pool), K);
            IsTop(IdDistance(target), K, Elements(Ids(pool)), Ids(s)) && Genuine(s, idOf)
  {
    DistinctDistances(pool, target, idOf);
    TakeIsTop(IdDistance(target), K, Ids(pool));
    IdsOfSort(target, pool);
    SortCorrect(PeerDistance(target), pool);
    hide Sort;
    var sorted := Sort(PeerDistance(target), pool);
    assert Ids(Front(sorted, K)) == if |sorted| <= K then Ids(sorted) else Ids(sorted)[..K];
    forall i | 0 <= i < |sorted| ensures sorted[i].id == idOf(sorted[i].pubkey) {
      GenuineMember(pool, idOf, sorted[i]);
    }
  }

  lemma QueueFacts(ps: seq<Peer>, contacted: set<string>, alpha: nat)
    requires NoRepeats(Keys(ps))
    ensures var q := Front(Uncontacted(ps, contacted), alpha);
            && |q| <= alpha && NoRepeats(Keys(q))
            && forall p :: p in q ==> p in ps && p.pubkey !in contacted
  {
    UncontactedMembers(ps, contacted);
    UncontactedNoRepeats(ps, contacted);
    hide Uncontacted;
    var u := Uncontacted(ps, contacted);
    var q := Front(u, alpha);
    assert forall i :: 0 <= i < |q| ==> q[i] == u[i] && Keys(q)[i] == Keys(u)[i];
  }

  lemma ReportedBy(queue: seq<Peer>, net: Network, id: NodeId)
    ensures id in Reported(Keys(queue), net) <==> exists p :: Reports(queue, net, p) && p.id == id
  {
    if id in Reported(Keys(queue), net) {
      var i, j :| 0 <= i < |queue| && 0 <= j < |Listed(net.answer(Keys(queue)[i]))|
                  && Listed(net.answer(Keys(queue)[i]))[j].id == id;
      var p := Listed(net.answer(queue[i].pubkey))[j];
      assert queue[i] in queue && p in Listed(net.answer(queue[i].pubkey));
      assert Reports(queue, net, p);
    }
    if p: Peer :| Reports(queue, net, p) && p.id == id {
      var q :| q in queue && p in Listed(net.answer(q.pubkey));
      var i :| 0 <= i < |queue| && queue[i] == q;
      var j :| 0 <= j < |Listed(net.answer(q.pubkey))| && Listed(net.answer(q.pubkey))[j] == p;
      assert Keys(queue)[i] == q.pubkey;
    }
  }

  lemma ReportedSplit(a: seq<string>, b: seq<string>, net: Network)
    ensures Reported(a + b, net) == Reported(a, net) + Reported(b, net)
  {
    forall id ensures id in Reported(a + b, net) <==> id in Reported(a, net) || id in Reported(b, net) {
      if id in Reported(a, net) {
        var i, j :| 0 <= i < |a| && 0 <= j < |Listed(net.answer(a[i]))| && Listed(net.answer(a[i]))[j].id == id;
        assert (a + b)[i] == a[i];
      }
      if id in Reported(b, net) {
        var i, j :| 0 <= i < |b| && 0 <= j < |Listed(net.answer(b[i]))| && Listed(net.answer(b[i]))[j].id == id;
        assert (a + b)[|a| + i] == b[i];
      }
      if id in Reported(a + b, net) {
        var i, j :| 0 <= i < |a + b| && 0 <= j < |Listed(net.answer((a + b)[i]))|
                    && Listed(net.answer((a + b)[i]))[j].id == id;
        assert i < |a| ==> (a + b)[i] == a[i];
        assert i >= |a| ==> (a + b)[i] == b[i - |a|];
      }
    }
  }

  /** What the pool of a round holds. */
  ghost predicate PoolCovers(pool: seq<Peer>, st: Lookup, queue: seq<Peer>, net: Network, idOf: string -> NodeId)
  {
    && Genuine(pool, idOf) && NoRepeats(Keys(pool))
    && (forall p :: p in st.shortlist ==> p in pool)
    && (forall p :: p in pool ==> p in st.shortlist || Reports(queue, net, p))
    && (forall p :: Reports(queue, net, p) ==> HasKey(pool, p.pubkey) || p.pubkey in st.contacted || HasKey(queue, p.pubkey))
  }

  lemma ReportsGenuine(queue: seq<Peer>, net: Network, idOf: string -> NodeId, p: Peer)
    requires GenuineNetwork(net, idOf) && Reports(queue, net, p)
    ensures p.id == idOf(p.pubkey)
  {
    var q :| q in queue && p in Listed(net.answer(q.pubkey));
    GenuineMember(Listed(net.answer(q.pubkey)), idOf, p);
  }

  lemma PoolOfRound(st: Lookup, queue: seq<Peer>, net: Network, idOf: string -> NodeId)
    requires Genuine(st.shortlist, idOf) && NoRepeats(Keys(st.shortlist)) && GenuineNetwork(net, idOf)
    ensures PoolCovers(Merge(st.shortlist, Gather(queue, st.contacted, net).0), st, queue, net, idOf)
  {
    var results, asked := Gather(queue, st.contacted, net).0, Gather(queue, st.contacted, net).1;
    MergeMembers(st.shortlist, results);
    var pool := Merge(st.shortlist, results);
    hide Gather, Merge, Reports, HasKey, GenuineNetwork;
    forall p ensures p in results ==> Reports(queue, net, p) {
      GatherResults(queue, st.contacted, net, p);
    }
    forall p | Reports(queue, net, p)
      ensures HasKey(pool, p.pubkey) || p.pubkey in st.contacted || HasKey(queue, p.pubkey)
    {
      GatherResults(queue, st.contacted, net, p);
      GatherAsked(queue, st.contacted, net, p.pubkey);
    }
    forall i | 0 <= i < |pool| ensures pool[i].id == idOf(pool[i].pubkey) {
      if pool[i] in st.shortlist {
        GenuineMember(st.shortlist, idOf, pool[i]);
      } else {
        ReportsGenuine(queue, net, idOf, pool[i]);
      }
    }
  }

  lemma IdOfMember(ps: seq<Peer>, id: NodeId)
    ensures id in Elements(Ids(ps)) <==> exists p :: p in ps && p.id == id
  {
    if id in Elements(Ids(ps)) {
      var i :| 0 <= i < |ps| && Ids(ps)[i] == id;
      assert ps[i] in ps;
    }
    if p: Peer :| p in ps && p.id == id {
      var i :| 0 <= i < |ps| && ps[i] == p;
      assert Ids(ps)[i] == id;
    }
  }

  /** The ids of the pool lie between the shortlist with the news and all that has been heard. */
  lemma PoolIds(st: Lookup, pool: seq<Peer>, queue: seq<Peer>, target: NodeId, known: set<NodeId>,
                net: Network, idOf: string -> NodeId)
    requires LookupInv(st, target, known, net, idOf) && PoolCovers(pool, st, queue, net, idOf)
    requires GenuineNetwork(net, idOf) && forall p :: p in queue ==> p in st.shortlist
    ensures var news := Reported(Keys(queue), net);
            && Elements(Ids(st.shortlist)) <= Elements(Ids(pool)) <= st.heard + news
            && news - st.heard <= Elements(Ids(pool))
  {
    hide Reported, Ids, Keys, Reports, IsTop, NoRepeats;
    var news := Reported(Keys(queue), net);
    forall id | id in Elements(Ids(st.shortlist)) ensures id in Elements(Ids(pool)) && id in st.heard {
      IdOfMember(st.shortlist, id);
      IdOfMember(pool, id);
      ShortlistHeard(st, target, known, net, idOf, id);
    }
    forall id | id in Elements(Ids(pool)) ensures id in st.heard + news {
      IdOfMember(pool, id);
      var p :| p in pool && p.id == id;
      if p in st.shortlist {
        IdOfMember(st.shortlist, id);
      } else {
        ReportedBy(queue, net, id);
      }
    }
    forall id | id in news && id !in st.heard ensures id in Elements(Ids(pool)) {
      ReportedBy(queue, net, id);
      var p: Peer :| Reports(queue, net, p) && p.id == id;
      ReportsGenuine(queue, net, idOf, p);
      NewsInPool(st, pool, queue, target, known, net, idOf, p);
    }
  }

  lemma ShortlistHeard(st: Lookup, target: NodeId, known: set<NodeId>, net: Network, idOf: string -> NodeId, id: NodeId)
    requires LookupInv(st, target, known, net, idOf) && id in Elements(Ids(st.shortlist))
    ensures id in st.heard
  {
  }

  lemma NewsInPool(st: Lookup, pool: seq<Peer>, queue: seq<Peer>, target: NodeId, known: set<NodeId>,
                   net: Network, idOf: string -> NodeId, p: Peer)
    requires LookupInv(st, target, known, net, idOf) && PoolCovers(pool, st, queue, net, idOf)
    requires forall q :: q in queue ==> q in st.shortlist
    requires Reports(queue, net, p) && p.id == idOf(p.pubkey) && p.id !in st.heard
    ensures p.id in Elements(Ids(pool))
  {
    hide Reported, Reports, IsTop, NoRepeats;
    if HasKey(queue, p.pubkey) {
      var i :| 0 <= i < |queue| && queue[i].pubkey == p.pubkey;
      assert queue[i] in st.shortlist;
      GenuineMember(st.shortlist, idOf, queue[i]);
      IdOfMember(st.shortlist, p.id);
      ShortlistHeard(st, target, known, net, idOf, p.id);
    } else {
      var i :| 0 <= i < |pool| && pool[i].pubkey == p.pubkey;
      assert pool[i] in pool;
      IdOfMember(pool, p.id);
    }
  }

  lemma AskedSoFar(st: Lookup, queue: seq<Peer>, net: Network, alpha: nat)
    requires NoRepeats(st.queried) && (forall k :: k in st.queried <==> k in st.contacted)
    requires NoRepeats(Keys(queue)) && forall p :: p in queue ==> p.pubkey !in st.contacted
    ensures var queried, asked := st.queried + Keys(queue), Gather(queue, st.contacted, net).1;
            && NoRepeats(queried) && (forall k :: k in queried <==> k in asked)
            && (forall k :: k in asked <==> k in st.contacted || HasKey(queue, k))
  {
    var queried, asked := st.queried + Keys(queue), Gather(queue, st.contacted, net).1;
    forall k ensures k in asked <==> k in st.contacted || HasKey(queue, k) {
      GatherAsked(queue, st.contacted, net, k);
    }
    hide Gather;
    forall k ensures k in Keys(queue) <==> HasKey(queue, k) {
      if HasKey(queue, k) {
        var i :| 0 <= i < |queue| && queue[i].pubkey == k;
        assert Keys(queue)[i] == k;
      }
    }
    forall i, j | 0 <= i < j < |queried| ensures queried[i] != queried[j] {
      if i < |st.queried| <= j {
        assert queue[j - |st.queried|] in queue && queried[i] in st.queried;
      }
    }
  }

  /** A round keeps the shortlist the K nearest of everything heard, and asks at most `alpha` peers, all new. */
  lemma RoundKeeps(st: Lookup, target: NodeId, alpha: nat, known: set<NodeId>, net: Network, idOf: string -> NodeId)
    requires LookupInv(st, target, known, net, idOf) && GenuineNetwork(net, idOf)
    ensures var st' := Round(st, target, alpha, net);
            && LookupInv(st', target, known, net, idOf)
            && |st'.queried| <= |st.queried| + alpha && st.heard <= st'.heard
  {
    var queue := ToQuery(st, alpha);
    var asked := Gather(queue, st.contacted, net).1;
    var pool := Merge(st.shortlist, Gather(queue, st.contacted, net).0);
    var st' := Round(st, target, alpha, net);
    DistinctKeys(st.shortlist, target, idOf);
    QueueFacts(st.shortlist, st.contacted, alpha);
    PoolOfRound(st, queue, net, idOf);
    PoolIds(st, pool, queue, target, known, net, idOf);
    ShortlistIsTop(target, pool, idOf);
    MergeIsTop(IdDistance(target), K, st.heard, Ids(st.shortlist), Reported(Keys(queue), net),
               Elements(Ids(pool)), Ids(st'.shortlist));
    AskedSoFar(st, queue, net, alpha);
    ReportedSplit(st.queried, Keys(queue), net);
    forall k | k in asked ensures idOf(k) in st'.heard {
      if k !in st.contacted {
        AskedIsHeard(st, queue, target, known, net, idOf, k);
      }
    }
  }

  lemma AskedIsHeard(st: Lookup, queue: seq<Peer>, target: NodeId, known: set<NodeId>, net: Network,
                     idOf: string -> NodeId, k: string)
    requires LookupInv(st, target, known, net, idOf) && HasKey(queue, k)
    requires forall q :: q in queue ==> q in st.shortlist
    ensures idOf(k) in st.heard
  {
    var i :| 0 <= i < |queue| && queue[i].pubkey == k;
    assert queue[i] in st.shortlist;
    GenuineMember(st.shortlist, idOf, queue[i]);
    IdOfMember(st.shortlist, idOf(k));
    ShortlistHeard(st, target, known, net, idOf, idOf(k));
  }

  // The whole lookup.

  /** What holds of contacts ranked by distance holds of their ids. */
  lemma TopOfIds(target: NodeId, cs: set<Contact>, r: seq<Contact>)
    requires IsTop(Distance(target), K, cs, r)
    ensures IsTop(IdDistance(target), K, set c | c in cs :: c.id, Ids(ToPeers(r)))
  {
    var ids, r' := set c | c in cs :: c.id, Ids(ToPeers(r));
    var key, key' := Distance(target), IdDistance(target);
    assert |r'| == |r| && forall i :: 0 <= i < |r| ==> r'[i] == r[i].id && r[i] in r && key'(r'[i]) == key(r[i]);
    hide Ids, ToPeers;
    forall c | c in r ensures c.id in r' {
      var i :| 0 <= i < |r| && r[i] == c;
      assert r'[i] == c.id;
    }
    forall x | x in r' ensures exists i :: 0 <= i < |r| && r[i].id == x {
      var i :| 0 <= i < |r'| && r'[i] == x;
      assert r[i].id == x;
    }
    forall x, y | x in ids && x !in r' && y in r' ensures key'(y) < key'(x) {
      var c :| c in cs && c.id == x;
      var i :| 0 <= i < |r| && r[i].id == y;
      assert c !in r;
      assert key(r[i]) < key(c);
    }
  }

  lemma StartIsExact(own: NodeId, t: Table, target: NodeId, net: Network, idOf: string -> NodeId)
    requires Placed(own, t) && GenuineTable(t, idOf)
    ensures LookupInv(Start(t, target), target, TableIds(t), net, idOf)
  {
    FindNearestExact(own, t, target, K);
    hide FindNearest, Placed;
    var r := FindNearest(t, target, K);
    TopOfIds(target, AllContacts(t), r);
    hide AllContacts, IsTop, Ids;
    StartGenuine(r, AllContacts(t), target, idOf);
    assert Reported([], net) == {};
  }

  lemma StartGenuine(r: seq<Contact>, cs: set<Contact>, target: NodeId, idOf: string -> NodeId)
    requires IsTop(Distance(target), K, cs, r) && forall c :: c in cs ==> c.id == idOf(c.pubkey)
    ensures Genuine(ToPeers(r), idOf)
  {
    forall i | 0 <= i < |r| ensures r[i].id == idOf(r[i].pubkey) {
      assert r[i] in r;
    }
  }

  lemma {:induction false} RoundsKeep(st: Lookup, target: NodeId, alpha: nat, known: set<NodeId>, net: Network,
                                      idOf: string -> NodeId, n: nat)
    requires LookupInv(st, target, known, net, idOf) && GenuineNetwork(net, idOf)
    ensures var end := Rounds(st, target, alpha, net, n);
            && LookupInv(end, target, known, net, idOf)
            && |end.queried| <= |st.queried| + n * alpha && st.heard <= end.heard
    decreases n
  {
    hide LookupInv, GenuineNetwork, Round;
    if n > 0 && ToQuery(st, alpha) != [] {
      RoundKeeps(st, target, alpha, known, net, idOf);
      RoundsKeep(Round(st, target, alpha, net), target, alpha, known, net, idOf, n - 1);
      assert n * alpha == (n - 1) * alpha + alpha;
    }
  }

  /**
   * The lookup is exact: after any number of rounds the shortlist is the K nearest of all ids
   * known to the table at the start or reported by a peer asked so far, nearest first; no
   * pubkey is asked twice; and at most `n * alpha` are asked.
   */
  lemma LookupIsExact(own: NodeId, t: Table, target: NodeId, alpha: nat, net: Network,
                      idOf: string -> NodeId, n: nat)
    requires Placed(own, t) && GenuineTable(t, idOf) && GenuineNetwork(net, idOf)
    ensures var end := Rounds(Start(t, target), target, alpha, net, n);
            && IsTop(IdDistance(target), K, TableIds(t) + Reported(end.queried, net), Ids(end.shortlist))
            && NoRepeats(end.queried) && |end.queried| <= n * alpha
  {
    StartIsExact(own, t, target, net, idOf);
    RoundsKeep(Start(t, target), target, alpha, TableIds(t), net, idOf, n);
  }

  /** Position by position, further rounds never bring anything farther. */
  lemma NeverFartherAway(own: NodeId, t: Table, target: NodeId, alpha: nat, net: Network,
                         idOf: string -> NodeId, m: nat, n: nat)
    requires Placed(own, t) && GenuineTable(t, idOf) && GenuineNetwork(net, idOf)
    ensures var early := Rounds(Start(t, target), target, alpha, net, m);
            var late := Rounds(early, target, alpha, net, n);
            && |early.shortlist| <= |late.shortlist|
            && forall i :: 0 <= i < |early.shortlist| ==>
                 Xor(target, late.shortlist[i].id) <= Xor(target, early.shortlist[i].id)
  {
    hide Rounds, Start;
    StartIsExact(own, t, target, net, idOf);
    var early := Rounds(Start(t, target), target, alpha, net, m);
    RoundsKeep(Start(t, target), target, alpha, TableIds(t), net, idOf, m);
    var late := Rounds(early, target, alpha, net, n);
    RoundsKeep(early, target, alpha, TableIds(t), net, idOf, n);
    var key, a, b := IdDistance(target), Ids(early.shortlist), Ids(late.shortlist);
    TopMonotone(key, K, early.heard, a, late.heard, b);
    forall i | 0 <= i < |early.shortlist|
      ensures Xor(target, late.shortlist[i].id) <= Xor(target, early.shortlist[i].id)
    {
      assert key(b[i]) <= key(a[i]);
    }
  }

  /**
   * When nobody is left to ask, the shortlist is closed: all its members have been asked, and
   * whoever one of them reports is listed too, or farther than all K of those listed.
   */
  lemma ExhaustedIsClosed(own: NodeId, t: Table, target: NodeId, alpha: nat, net: Network,
                          idOf: string -> NodeId, n: nat, p: Peer, q: Peer)
    requires Placed(own, t) && GenuineTable(t, idOf) && GenuineNetwork(net, idOf) && alpha > 0
    ensures var end := Rounds(Start(t, target), target, alpha, net, n);
            ToQuery(end, alpha) == [] && p in end.shortlist && q in Listed(net.answer(p.pubkey)) ==>
              && p.pubkey in end.queried
              && (q.id in Ids(end.shortlist)
                  || (|end.shortlist| == K
                      && forall i :: 0 <= i < K ==> Xor(target, end.shortlist[i].id) < Xor(target, q.id)))
  {
    StartIsExact(own, t, target, net, idOf);
    RoundsKeep(Start(t, target), target, alpha, TableIds(t), net, idOf, n);
    var end := Rounds(Start(t, target), target, alpha, net, n);
    hide Rounds, Start;
    if ToQuery(end, alpha) == [] && p in end.shortlist && q in Listed(net.answer(p.pubkey)) {
      NoneLeft(end, alpha, p);
      KnownReport(end.queried, net, p.pubkey, q);
      NotListedIsFarther(end, target, q.id);
    }
  }

  lemma NoneLeft(st: Lookup, alpha: nat, p: Peer)
    requires alpha > 0 && ToQuery(st, alpha) == [] && p in st.shortlist
    ensures p.pubkey in st.contacted
  {
    UncontactedMembers(st.shortlist, st.contacted);
    hide Uncontacted;
    assert Uncontacted(st.shortlist, st.contacted) == [];
    assert p !in Uncontacted(st.shortlist, st.contacted);
  }

  lemma KnownReport(keys: seq<string>, net: Network, k: string, q: Peer)
    requires k in keys && q in Listed(net.answer(k))
    ensures q.id in Reported(keys, net)
  {
    var i :| 0 <= i < |keys| && keys[i] == k;
    var j :| 0 <= j < |Listed(net.answer(k))| && Listed(net.answer(k))[j] == q;
    assert Listed(net.answer(keys[i]))[j].id == q.id;
  }

  lemma NotListedIsFarther(st: Lookup, target: NodeId, id: NodeId)
    requires IsTop(IdDistance(target), K, st.heard, Ids(st.shortlist)) && id in st.heard
    ensures id in Ids(st.shortlist)
            || (|st.shortlist| == K
                && forall i :: 0 <= i < K ==> Xor(target, st.shortlist[i].id) < Xor(target, id))
  {
    var ids := Ids(st.shortlist);
    if id !in ids {
      forall i | 0 <= i < |ids| ensures Xor(target, st.shortlist[i].id) < Xor(target, id) {
        assert ids[i] in ids;
        assert IdDistance(target)(ids[i]) < IdDistance(target)(id);
      }
    }
  }

  /**
   * Truncating every round loses nothing: the shortlist is what sorting everything heard, once,
   * and keeping the first K would give.
   */
  lemma LookupIsOneShot(own: NodeId, t: Table, target: NodeId, alpha: nat, net: Network,
                        idOf: string -> NodeId, n: nat, all: seq<NodeId>)
    requires Placed(own, t) && GenuineTable(t, idOf) && GenuineNetwork(net, idOf) && NoRepeats(all)
    ensures var end := Rounds(Start(t, target), target, alpha, net, n);
            Elements(all) == TableIds(t) + Reported(end.queried, net) ==>
              var sorted := Sort(IdDistance(target), all);
              Ids(end.shortlist) == if |sorted| <= K then sorted else sorted[..K]
  {
    LookupIsExact(own, t, target, alpha, net, idOf, n);
    var end, key := Rounds(Start(t, target), target, alpha, net, n), IdDistance(target);
    forall i, j | 0 <= i < j < |all| ensures key(all[i]) != key(all[j]) {
      if Xor(target, all[i]) == Xor(target, all[j]) {
        XorInjective(target, all[i], all[j]);
      }
    }
    TakeIsTop(key, K, all);
    hide Rounds, Start, Sort, IsTop, Placed;
    var sorted := Sort(key, all);
    if Elements(all) == TableIds(t) + Reported(end.queried, net) {
      TopUnique(key, K, Elements(all), Ids(end.shortlist), if |sorted| <= K then sorted else sorted[..K]);
    }
  }
}
