/**
 * What a stored contact says about the past (phase0/dht_kademlia.py:48-118): where its fields come
 * from, after any run of additions and failures.
 */
module KademliaHistory {
  import opened KademliaTable

  /** The most recent addition of `id` was at `time`. */
  ghost predicate LastAdded(ops: seq<Op>, id: NodeId, time: real)
  {
    exists j :: 0 <= j < |ops| && ops[j].Add? && ops[j].id == id && ops[j].now == time
                && forall k :: j < k < |ops| ==> !(ops[k].Add? && ops[k].id == id)
  }

  /** `c` was stored by operation `i`. */
  ghost predicate StoredBy(ops: seq<Op>, c: Contact, i: int)
  {
    && 0 <= i < |ops| && ops[i] == Add(c.id, c.addr, c.pubkey, c.firstSeen)
    && c.failures == Charges(ops[i..], c.id)
  }

  /**
   * A contact has the address and pubkey of the addition that stored it, at the time it was first
   * seen; it was last seen at the most recent addition; its failures are those charged since.
   */
  ghost predicate Remembers(ops: seq<Op>, c: Contact)
  {
    LastAdded(ops, c.id, c.lastSeen) && exists i :: StoredBy(ops, c, i)
  }

  lemma LastAddedLater(ops: seq<Op>, op: Op, id: NodeId, time: real)
    ensures op.Add? && op.id == id ==> LastAdded(ops + [op], id, op.now)
    ensures !(op.Add? && op.id == id) && LastAdded(ops, id, time) ==> LastAdded(ops + [op], id, time)
  {
    var all := ops + [op];
    if op.Add? && op.id == id {
      assert all[|ops|] == op;
    } else if LastAdded(ops, id, time) {
      var j :| 0 <= j < |ops| && ops[j].Add? && ops[j].id == id && ops[j].now == time
               && forall k :: j < k < |ops| ==> !(ops[k].Add? && ops[k].id == id);
      assert all[j] == ops[j];
    }
  }

  lemma StoredLater(ops: seq<Op>, op: Op, c: Contact, i: int, c': Contact)
    requires StoredBy(ops, c, i)
    requires c' == c.(lastSeen := c'.lastSeen, failures := c.failures + (if op == Fail(c.id) then 1 else 0))
    ensures StoredBy(ops + [op], c', i)
  {
    assert (ops + [op])[i..] == ops[i..] + [op];
    assert (ops[i..] + [op])[..|ops[i..]|] == ops[i..];
  }

  lemma JustStored(ops: seq<Op>, c: Contact)
    requires c.failures == 0
    ensures StoredBy(ops + [Add(c.id, c.addr, c.pubkey, c.firstSeen)], c, |ops|)
  {
    var op := Add(c.id, c.addr, c.pubkey, c.firstSeen);
    assert (ops + [op])[|ops|..] == [op];
    assert [op][..0] == [];
  }

  /** Where a contact of the bucket comes from. */
  ghost predicate From(b: Bucket, op: Op, c': Contact)
  {
    || (op.Add? && c' == Contact(op.id, op.addr, op.pubkey, op.now, op.now, 0))
    || exists k :: 0 <= k < |b|
                   && c' == b[k].(lastSeen := if op.Add? && op.id == b[k].id then op.now else b[k].lastSeen,
                                  failures := b[k].failures + (if op == Fail(b[k].id) then 1 else 0))
  }

  lemma Origins(b: Bucket, op: Op, j: nat)
    requires OneEach(b) && j < |Apply(b, op)|
    ensures From(b, op, Apply(b, op)[j])
  {
    var b', i := Apply(b, op), IndexOf(b, op.id);
    match op
    case Fail(id) => FailOrigin(b, op, j);
    case Add(id, addr, pubkey, now) =>
      if i < |b| {
        var k := if j < i then j else if j < |b| - 1 then j + 1 else i;
        assert b'[j] == b[k].(lastSeen := if k == i then now else b[k].lastSeen);
        OneId(b, id, k);
      } else if |b| < K {
        if j < |b| {
          OneId(b, id, j);
          assert b'[j] == b[j];
        }
      } else if b[0].failures >= 3 {
        if j < |b| - 1 {
          OneId(b, id, j + 1);
          assert b'[j] == b[j + 1];
        }
      } else {
        OneId(b, id, j);
        assert b'[j] == b[j];
      }
  }

  lemma FailOrigin(b: Bucket, op: Op, j: nat)
    requires OneEach(b) && op.Fail? && j < |Apply(b, op)|
    ensures From(b, op, Apply(b, op)[j])
  {
    OneId(b, op.id, j);
    assert Apply(b, op)[j] == b[j].(failures := b[j].failures + (if op == Fail(b[j].id) then 1 else 0));
  }

  lemma OneId(b: Bucket, id: NodeId, k: nat)
    requires OneEach(b) && k < |b|
    ensures b[k].id == id <==> k == IndexOf(b, id)
  {
    if b[k].id == id {
      IndexOfMember(b, id, k);
    }
  }

  /** After any run every stored contact remembers truly. */
  lemma {:induction false} ContactsRemember(own: NodeId, ops: seq<Op>, i: nat, j: nat)
    requires i < B && j < |TableApplyAll(own, EMPTY, ops)[i]|
    ensures Remembers(ops, TableApplyAll(own, EMPTY, ops)[i][j])
    decreases |ops|
  {
    hide BucketFor, Apply, Remembers;
    if ops != [] {
      var init, op := ops[..|ops| - 1], ops[|ops| - 1];
      var t, t' := TableApplyAll(own, EMPTY, init), TableApplyAll(own, EMPTY, ops);
      PlacedRun(own, init);
      forall k: nat | k < |t[i]| ensures Remembers(init, t[i][k]) {
        ContactsRemember(own, init, i, k);
      }
      assert ops == init + [op];
      if BucketFor(own, op.id) == i {
        Origins(t[i], op, j);
        RemembersMore(init, op, t[i], t'[i][j]);
      } else {
        assert t'[i] == t[i];
        OtherBucket(own, op, i, t[i][j], t);
        RemembersSame(init, op, t[i][j]);
      }
    }
  }

  lemma OtherBucket(own: NodeId, op: Op, i: nat, c: Contact, t: Table)
    requires Placed(own, t) && i < B && c in t[i] && BucketFor(own, op.id) != i
    ensures c.id != op.id
  {
    var j :| 0 <= j < |t[i]| && t[i][j] == c;
    assert BucketFor(own, t[i][j].id) == i;
  }

  lemma RemembersSame(ops: seq<Op>, op: Op, c: Contact)
    requires Remembers(ops, c) && op.id != c.id
    ensures Remembers(ops + [op], c)
  {
    var i :| StoredBy(ops, c, i);
    StoredLater(ops, op, c, i, c);
    LastAddedLater(ops, op, c.id, c.lastSeen);
  }

  lemma RemembersMore(ops: seq<Op>, op: Op, b: Bucket, c': Contact)
    requires (forall k: nat :: k < |b| ==> Remembers(ops, b[k])) && From(b, op, c')
    ensures Remembers(ops + [op], c')
  {
    if op.Add? && c' == Contact(op.id, op.addr, op.pubkey, op.now, op.now, 0) {
      JustStored(ops, c');
      LastAddedLater(ops, op, op.id, op.now);
    } else {
      var k: nat :| k < |b|
                    && c' == b[k].(lastSeen := if op.Add? && op.id == b[k].id then op.now else b[k].lastSeen,
                                   failures := b[k].failures + (if op == Fail(b[k].id) then 1 else 0));
      assert Remembers(ops, b[k]);
      var i :| StoredBy(ops, b[k], i);
      StoredLater(ops, op, b[k], i, c');
      LastAddedLater(ops, op, b[k].id, b[k].lastSeen);
    }
  }

  /** An addition reports success exactly when the id is in the bucket afterwards. */
  lemma AddedIffPresent(b: Bucket, id: NodeId, addr: string, pubkey: string, now: real)
    ensures AddTo(b, id, addr, pubkey, now).1 <==> Has(AddTo(b, id, addr, pubkey, now).0, id)
  {
    var b' := AddTo(b, id, addr, pubkey, now).0;
    if AddTo(b, id, addr, pubkey, now).1 {
      assert b'[|b'| - 1].id == id;
    }
  }

  // ----- Genuine contacts -----

  /** Every addition carries the id of its pubkey. */
  ghost predicate GenuineOps(ops: seq<Op>, idOf: string -> NodeId)
  {
    forall i :: 0 <= i < |ops| && ops[i].Add? ==> ops[i].id == idOf(ops[i].pubkey)
  }

  /** If the additions are genuine, so is every stored contact. */
  lemma GenuineAfterRun(own: NodeId, ops: seq<Op>, idOf: string -> NodeId, c: Contact)
    requires GenuineOps(ops, idOf) && c in AllContacts(TableApplyAll(own, EMPTY, ops))
    ensures c.id == idOf(c.pubkey)
  {
    var t := TableApplyAll(own, EMPTY, ops);
    var i: nat, j: nat :| i < |t| && j < |t[i]| && t[i][j] == c;
    ContactsRemember(own, ops, i, j);
    var k :| StoredBy(ops, c, k);
  }
}
