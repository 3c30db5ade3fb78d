/**
 * The routing table of the Kademlia DHT (phase0/dht_kademlia.py:20-126).
 *
 * A node id stands for its 160-bit big-endian value.  A bucket is the sequence of its
 * contacts in the order the ordered dictionary keeps them, least recently seen first.
 */
module KademliaTable {
  import opened StableSort
  import opened TopK

  const K: nat := 3
  const B: nat := 160

  type NodeId = nat

  // ----- XOR distance -----

  function Xor(a: nat, b: nat): nat
  {
    if a == 0 && b == 0 then 0
    else 2 * Xor(a / 2, b / 2) + (if a % 2 == b % 2 then 0 else 1)
  }

  function BitLength(d: nat): nat
  {
    if d == 0 then 0 else 1 + BitLength(d / 2)
  }

  function Pow2(n: nat): (p: nat)
    ensures p >= 1
  {
    if n == 0 then 1 else 2 * Pow2(n - 1)
  }

  /** Despite its name in the source, the position of the highest differing bit. */
  function LeadingZeros(a: NodeId, b: NodeId): nat
  {
    var d := Xor(a, b);
    if d > 0 then BitLength(d) - 1 else B - 1
  }

  function BucketFor(own: NodeId, id: NodeId): (i: nat)
    ensures i < B
  {
    var lz := LeadingZeros(own, id);
    if lz < B - 1 then lz else B - 1
  }

  lemma {:induction false} XorInjective(t: nat, a: nat, b: nat)
    requires Xor(t, a) == Xor(t, b)
    ensures a == b
    decreases t + a + b
  {
    if t != 0 || a != 0 || b != 0 {
      var x, y := Xor(t / 2, a / 2), Xor(t / 2, b / 2);
      assert Xor(t, a) / 2 == x && Xor(t, b) / 2 == y by {
        XorHalf(t, a);
        XorHalf(t, b);
      }
      XorHalf(t, a);
      XorHalf(t, b);
      XorInjective(t / 2, a / 2, b / 2);
    }
  }

  lemma XorHalf(a: nat, b: nat)
    ensures Xor(a, b) / 2 == Xor(a / 2, b / 2)
    ensures Xor(a, b) % 2 == (if a % 2 == b % 2 then 0 else 1)
  {
  }

  lemma {:induction false} XorZero(a: nat, b: nat)
    ensures Xor(a, b) == 0 <==> a == b
    decreases a + b
  {
    if a != 0 || b != 0 {
      XorZero(a / 2, b / 2);
    }
  }

  /** A node's own id would go to the last bucket. */
  lemma OwnBucket(own: NodeId)
    ensures BucketFor(own, own) == B - 1
  {
    XorZero(own, own);
  }

  lemma {:induction false} BitLengthBounds(d: nat)
    requires d > 0
    ensures BitLength(d) >= 1 && Pow2(BitLength(d) - 1) <= d < Pow2(BitLength(d))
  {
    if d > 1 {
      BitLengthBounds(d / 2);
    } else {
      assert BitLength(1) == 1 + BitLength(0);
    }
  }

  lemma {:induction false} Pow2Monotone(a: nat, b: nat)
    requires a <= b
    ensures Pow2(a) <= Pow2(b)
  {
    if a < b {
      Pow2Monotone(a, b - 1);
    }
  }

  lemma HighestBit(d: nat, n: nat, i: nat)
    requires Pow2(n) <= d < Pow2(n + 1)
    ensures Pow2(i) <= d < Pow2(i + 1) <==> i == n
  {
    if i < n {
      Pow2Monotone(i + 1, n);
    } else if i > n {
      Pow2Monotone(n + 1, i);
    }
  }

  /** The distance of ids below a power of two is below it. */
  lemma {:induction false} XorBound(a: nat, b: nat, n: nat)
    requires a < Pow2(n) && b < Pow2(n)
    ensures Xor(a, b) < Pow2(n)
  {
    if n > 0 {
      XorBound(a / 2, b / 2, n - 1);
      XorHalf(a, b);
    }
  }

  /** For distinct 160-bit ids the bucket is exactly the highest set bit of the distance. */
  lemma BucketIsHighestBit(own: NodeId, id: NodeId, i: nat)
    requires own < Pow2(B) && id < Pow2(B) && own != id
    ensures BucketFor(own, id) == i <==> Pow2(i) <= Xor(own, id) < Pow2(i + 1)
  {
    hide Pow2, Xor, BitLength;
    XorZero(own, id);
    XorBound(own, id, B);
    var d := Xor(own, id);
    BitLengthBounds(d);
    var n := BitLength(d) - 1;
    if B <= n {
      Pow2Monotone(B, n);
    }
    HighestBit(d, n, i);
  }

  // ----- One bucket -----

  datatype Contact = Contact(id: NodeId, addr: string, pubkey: string,
                             firstSeen: real, lastSeen: real, failures: nat)

  type Bucket = seq<Contact>

  /** The position of a contact, or the length when it is absent. */
  function IndexOf(b: Bucket, id: NodeId): (i: nat)
    ensures i <= |b|
    ensures i < |b| ==> b[i].id == id
    ensures forall j :: 0 <= j < i ==> b[j].id != id
  {
    if b == [] then 0
    else
      var i := IndexOf(b[..|b| - 1], id);
      if i < |b| - 1 then i
      else if b[|b| - 1].id == id then |b| - 1
      else |b|
  }

  predicate Has(b: Bucket, id: NodeId) { IndexOf(b, id) < |b| }

  function Newcomer(id: NodeId, addr: string, pubkey: string, now: real): Contact
  {
    Contact(id, addr, pubkey, now, now, 0)
  }

  function AddTo(b: Bucket, id: NodeId, addr: string, pubkey: string, now: real): (Bucket, bool)
  {
    var i := IndexOf(b, id);
    if i < |b| then (b[..i] + b[i + 1..] + [b[i].(lastSeen := now)], true)
    else if |b| < K then (b + [Newcomer(id, addr, pubkey, now)], true)
    else if b[0].failures >= 3 then (b[1..] + [Newcomer(id, addr, pubkey, now)], true)
    else (b, false)
  }

  function FailIn(b: Bucket, id: NodeId): Bucket
  {
    var i := IndexOf(b, id);
    if i < |b| then b[i := b[i].(failures := b[i].failures + 1)] else b
  }

  class KBucket {
    var nodes: Bucket

    constructor ()
      ensures nodes == []
    {
      nodes := [];
    }

    method AddNode(id: NodeId, addr: string, pubkey: string, now: real) returns (added: bool)
      modifies this
      ensures (nodes, added) == AddTo(old(nodes), id, addr, pubkey, now)
    {
      if Has(nodes, id) {
        var i := IndexOf(nodes, id);
        nodes := nodes[i := nodes[i].(lastSeen := now)];
        var c := nodes[i];
        nodes := nodes[..i] + nodes[i + 1..] + [c];
        return true;
      }
      if |nodes| < K {
        nodes := nodes + [Contact(id, addr, pubkey, now, now, 0)];
        return true;
      }
      var oldest := nodes[0];
      if oldest.failures >= 3 {
        nodes := nodes[1..];
        nodes := nodes + [Contact(id, addr, pubkey, now, now, 0)];
        return true;
      }
      return false;
    }

    method MarkFailure(id: NodeId)
      modifies this
      ensures nodes == FailIn(old(nodes), id)
    {
      if Has(nodes, id) {
        var i := IndexOf(nodes, id);
        nodes := nodes[i := nodes[i].(failures := nodes[i].failures + 1)];
      }
    }

    method GetNodes(count: nat) returns (r: Bucket)
      ensures r == FirstOf(nodes, count)
    {
      r := if |nodes| <= count then nodes else nodes[..count];
    }
  }

  function FirstOf(b: Bucket, count: nat): Bucket
  {
    if |b| <= count then b else b[..count]
  }

  /** At most K contacts, one per id, least recently seen first, none seen after `now`. */
  ghost predicate BucketInv(b: Bucket, now: real)
  {
    && |b| <= K
    && (forall i, j :: 0 <= i < j < |b| ==> b[i].id != b[j].id && b[i].lastSeen <= b[j].lastSeen)
    && (forall i :: 0 <= i < |b| ==> b[i].lastSeen <= now)
  }

  lemma RefreshKeepsInv(b: Bucket, i: nat, earlier: real, now: real)
    requires BucketInv(b, earlier) && earlier <= now && i < |b|
    ensures BucketInv(b[..i] + b[i + 1..] + [b[i].(lastSeen := now)], now)
  {
  }

  lemma AppendKeepsInv(b: Bucket, c: Contact, earlier: real, now: real)
    requires BucketInv(b, earlier) && earlier <= now && |b| < K && c.lastSeen == now
    requires forall i :: 0 <= i < |b| ==> b[i].id != c.id
    ensures BucketInv(b + [c], now)
  {
  }

  lemma AddKeepsInv(b: Bucket, id: NodeId, addr: string, pubkey: string, earlier: real, now: real)
    requires BucketInv(b, earlier) && earlier <= now
    ensures BucketInv(AddTo(b, id, addr, pubkey, now).0, now)
  {
    var i := IndexOf(b, id);
    if i < |b| {
      RefreshKeepsInv(b, i, earlier, now);
    } else if |b| < K {
      AppendKeepsInv(b, Newcomer(id, addr, pubkey, now), earlier, now);
    } else if b[0].failures >= 3 {
      AppendKeepsInv(b[1..], Newcomer(id, addr, pubkey, now), earlier, now);
    }
  }

  lemma FailKeepsInv(b: Bucket, id: NodeId, now: real)
    requires BucketInv(b, now)
    ensures BucketInv(FailIn(b, id), now)
  {
  }

  // ----- Runs of one bucket -----

  datatype Op =
    | Add(id: NodeId, addr: string, pubkey: string, now: real)
    | Fail(id: NodeId)

  function Apply(b: Bucket, op: Op): Bucket
  {
    match op
    case Add(id, addr, pubkey, now) => AddTo(b, id, addr, pubkey, now).0
    case Fail(id) => FailIn(b, id)
  }

  function ApplyAll(b: Bucket, ops: seq<Op>): Bucket
  {
    if ops == [] then b else Apply(ApplyAll(b, ops[..|ops| - 1]), ops[|ops| - 1])
  }

  /** The failures charged to `id`. */
  function Charges(ops: seq<Op>, id: NodeId): nat
  {
    if ops == [] then 0
    else Charges(ops[..|ops| - 1], id) + (if ops[|ops| - 1] == Fail(id) then 1 else 0)
  }

  ghost predicate Member(b: Bucket, id: NodeId, failures: nat)
  {
    exists i :: 0 <= i < |b| && b[i].id == id && b[i].failures == failures
  }

  ghost predicate OneEach(b: Bucket)
  {
    forall i, j :: 0 <= i < j < |b| ==> b[i].id != b[j].id
  }

  lemma IndexOfMember(b: Bucket, id: NodeId, i: nat)
    requires OneEach(b) && i < |b| && b[i].id == id
    ensures IndexOf(b, id) == i
  {
  }

  /** A newcomer takes the place of the least recently seen contact of a full bucket, which has failed thrice. */
  predicate Evicts(b: Bucket, op: Op, i: nat)
    requires i < |b|
  {
    op.Add? && i == 0 && !Has(b, op.id) && |b| >= K && b[0].failures >= 3
  }

  lemma KeptByAdd(b: Bucket, op: Op, i: nat)
    requires op.Add? && i < |b| && !Evicts(b, op, i)
    ensures Member(Apply(b, op), b[i].id, b[i].failures)
  {
    var b', k := Apply(b, op), IndexOf(b, op.id);
    if k < |b| {
      if i == k {
        assert b'[|b| - 1].id == b[i].id;
      } else {
        var j := if i < k then i else i - 1;
        assert b'[j] == b[i];
      }
    } else if |b| >= K && b[0].failures >= 3 {
      assert b'[i - 1] == b[i];
    } else {
      assert b'[i] == b[i];
    }
  }

  lemma KeptByFail(b: Bucket, op: Op, i: nat)
    requires op.Fail? && i < |b| && OneEach(b)
    ensures Member(Apply(b, op), b[i].id, b[i].failures + (if op.id == b[i].id then 1 else 0))
  {
    if op.id == b[i].id {
      IndexOfMember(b, op.id, i);
    }
    assert Apply(b, op)[i].id == b[i].id;
  }

  lemma StaysOneEach(b: Bucket, op: Op)
    requires OneEach(b)
    ensures OneEach(Apply(b, op))
  {
  }

  /** One operation: a live contact stays, charged if it failed. */
  lemma LiveStays(b: Bucket, op: Op, id: NodeId, failures: nat)
    requires OneEach(b) && Member(b, id, failures) && failures < 3
    ensures OneEach(Apply(b, op))
    ensures Member(Apply(b, op), id, failures + (if op == Fail(id) then 1 else 0))
  {
    var i: nat :| i < |b| && b[i].id == id && b[i].failures == failures;
    StaysOneEach(b, op);
    if op.Add? {
      KeptByAdd(b, op, i);
    } else {
      KeptByFail(b, op, i);
    }
  }

  /**
   * Live contacts are never displaced: over any run, a contact whose failures, with those
   * charged to it during the run, stay below three is still there, with just those failures.
   */
  lemma {:induction false} LiveNeverDisplaced(b: Bucket, ops: seq<Op>, id: NodeId, failures: nat)
    requires OneEach(b) && Member(b, id, failures) && failures + Charges(ops, id) < 3
    ensures OneEach(ApplyAll(b, ops)) && Member(ApplyAll(b, ops), id, failures + Charges(ops, id))
  {
    if ops != [] {
      var init := ops[..|ops| - 1];
      LiveNeverDisplaced(b, init, id, failures);
      LiveStays(ApplyAll(b, init), ops[|ops| - 1], id, failures + Charges(init, id));
    }
  }

  /** A contact leaves a bucket in one operation exactly when a newcomer evicts it. */
  lemma LeavesIffEvicted(b: Bucket, op: Op, i: nat)
    requires OneEach(b) && i < |b|
    ensures !Has(Apply(b, op), b[i].id) <==> Evicts(b, op, i)
  {
    var b' := Apply(b, op);
    if Evicts(b, op, i) {
      assert forall j :: 0 <= j < |b'| - 1 ==> b'[j] == b[j + 1];
      assert b'[|b'| - 1].id == op.id && b[0].id != op.id;
    } else {
      if op.Add? {
        KeptByAdd(b, op, i);
      } else {
        KeptByFail(b, op, i);
      }
      var j: nat :| j < |b'| && b'[j].id == b[i].id;
      HasAt(b', j);
    }
  }

  lemma HasAt(b: Bucket, j: nat)
    requires j < |b|
    ensures Has(b, b[j].id)
  {
  }

  // ----- The table -----

  /** One bucket per bit position. */
  type Table = seq<Bucket>

  function TableApply(own: NodeId, t: Table, op: Op): (t': Table)
    requires |t| == B
    ensures |t'| == B
  {
    var i := BucketFor(own, op.id);
    t[i := Apply(t[i], op)]
  }

  function TableApplyAll(own: NodeId, t: Table, ops: seq<Op>): (t': Table)
    requires |t| == B
    ensures |t'| == B
  {
    if ops == [] then t else TableApply(own, TableApplyAll(own, t, ops[..|ops| - 1]), ops[|ops| - 1])
  }

  /** Every contact sits in the bucket of its distance, and every bucket is in order. */
  ghost predicate TableInv(own: NodeId, t: Table, now: real)
  {
    && |t| == B
    && (forall i :: 0 <= i < B ==> BucketInv(t[i], now))
    && (forall i, j :: 0 <= i < B && 0 <= j < |t[i]| ==> BucketFor(own, t[i][j].id) == i)
  }

  /** What does not depend on the clock: each contact once, in its own bucket, and at most K to a bucket. */
  ghost predicate Placed(own: NodeId, t: Table)
  {
    && |t| == B
    && (forall i :: 0 <= i < B ==> OneEach(t[i]) && |t[i]| <= K)
    && (forall i: nat, j: nat :: i < B && j < |t[i]| ==> BucketFor(own, t[i][j].id) == i)
  }

  lemma InvIsPlaced(own: NodeId, t: Table, now: real)
    requires TableInv(own, t, now)
    ensures Placed(own, t)
  {
    hide BucketFor;
    assert forall i :: 0 <= i < B ==> BucketInv(t[i], now);
  }

  const EMPTY: Table := seq<Bucket>(B, _ => [])

  /** The clock does not run backwards. */
  ghost predicate Monotone(ops: seq<Op>, from: real)
  {
    && (forall i :: 0 <= i < |ops| && ops[i].Add? ==> from <= ops[i].now)
    && (forall i, j :: 0 <= i < j < |ops| && ops[i].Add? && ops[j].Add? ==> ops[i].now <= ops[j].now)
  }

  function Latest(ops: seq<Op>, from: real): real
  {
    if ops == [] then from
    else if ops[|ops| - 1].Add? then ops[|ops| - 1].now
    else Latest(ops[..|ops| - 1], from)
  }

  lemma {:induction false} LatestIs(ops: seq<Op>, from: real)
    requires Monotone(ops, from)
    ensures from <= Latest(ops, from)
    ensures forall i :: 0 <= i < |ops| && ops[i].Add? ==> ops[i].now <= Latest(ops, from)
    ensures Latest(ops, from) == from || exists i :: 0 <= i < |ops| && ops[i].Add? && ops[i].now == Latest(ops, from)
  {
    if ops != [] {
      var init := ops[..|ops| - 1];
      assert forall i :: 0 <= i < |init| ==> init[i] == ops[i];
      LatestIs(init, from);
    }
  }

  lemma ApplyMembers(b: Bucket, op: Op, j: nat)
    requires j < |Apply(b, op)|
    ensures Apply(b, op)[j].id == op.id || exists k :: 0 <= k < |b| && b[k].id == Apply(b, op)[j].id
  {
    var b', k := Apply(b, op), IndexOf(b, op.id);
    if op.Add? && k < |b| && j < |b| - 1 {
      assert b'[j] == b[if j < k then j else j + 1];
    } else if op.Add? && k >= |b| && j < |b'| - 1 && |b| >= K && b[0].failures >= 3 {
      assert b'[j] == b[j + 1];
    } else if j < |b| {
      assert b[j].id == b[j].id;
    }
  }

  lemma TableStep(own: NodeId, t: Table, op: Op, earlier: real, now: real)
    requires TableInv(own, t, earlier) && earlier <= now && (op.Add? ==> op.now == now)
    ensures TableInv(own, TableApply(own, t, op), now)
  {
    var x := BucketFor(own, op.id);
    var t': Table := TableApply(own, t, op);
    assert BucketInv(t[x], earlier);
    if op.Add? {
      AddKeepsInv(t[x], op.id, op.addr, op.pubkey, earlier, now);
    } else {
      FailKeepsInv(t[x], op.id, earlier);
    }
    hide AddTo, FailIn;
    forall i: nat, j: nat | i < B && j < |t'[i]| ensures BucketFor(own, t'[i][j].id) == i {
      if i == x {
        ApplyMembers(t[x], op, j);
      }
    }
  }

  /** After any run of adds and failures every contact is in its own bucket only, and no bucket exceeds K. */
  lemma {:induction false} TableRun(own: NodeId, ops: seq<Op>, from: real)
    requires Monotone(ops, from)
    ensures TableInv(own, TableApplyAll(own, EMPTY, ops), Latest(ops, from))
  {
    if ops != [] {
      var init, op := ops[..|ops| - 1], ops[|ops| - 1];
      assert forall i :: 0 <= i < |init| ==> init[i] == ops[i];
      TableRun(own, init, from);
      LatestIs(init, from);
      TableStep(own, TableApplyAll(own, EMPTY, init), op, Latest(init, from), Latest(ops, from));
    }
  }

  lemma PlacedStep(own: NodeId, t: Table, op: Op)
    requires Placed(own, t)
    ensures Placed(own, TableApply(own, t, op))
  {
    var x := BucketFor(own, op.id);
    var t': Table := TableApply(own, t, op);
    assert OneEach(t[x]) && |t[x]| <= K;
    StaysOneEach(t[x], op);
    assert |Apply(t[x], op)| <= K;
    hide AddTo, FailIn, OneEach, BucketFor;
    forall i: nat, j: nat | i < B && j < |t'[i]| ensures BucketFor(own, t'[i][j].id) == i {
      if i == x {
        ApplyMembers(t[x], op, j);
      }
    }
  }

  /** The same of any run, even if the clock runs backwards. */
  lemma {:induction false} PlacedRun(own: NodeId, ops: seq<Op>)
    ensures Placed(own, TableApplyAll(own, EMPTY, ops))
  {
    hide BucketFor, TableApply;
    if ops != [] {
      PlacedRun(own, ops[..|ops| - 1]);
      PlacedStep(own, TableApplyAll(own, EMPTY, ops[..|ops| - 1]), ops[|ops| - 1]);
    }
  }

  /** What happens in one bucket is what its own operations do. */
  lemma {:induction false} BucketOfRun(own: NodeId, t: Table, ops: seq<Op>, i: nat)
    requires |t| == B && i < B
    ensures TableApplyAll(own, t, ops)[i] == ApplyAll(t[i], OpsOf(own, ops, i))
  {
    if ops != [] {
      var init, op := ops[..|ops| - 1], ops[|ops| - 1];
      BucketOfRun(own, t, init, i);
      var mine := OpsOf(own, init, i);
      if BucketFor(own, op.id) == i {
        assert (mine + [op])[..|mine|] == mine;
      } else {
        assert mine + [] == mine;
      }
    }
  }

  function OpsOf(own: NodeId, ops: seq<Op>, i: nat): seq<Op>
  {
    if ops == [] then []
    else
      OpsOf(own, ops[..|ops| - 1], i)
      + (if BucketFor(own, ops[|ops| - 1].id) == i then [ops[|ops| - 1]] else [])
  }

  // ----- find_nearest -----

  /** The first `count` contacts of every bucket, bucket by bucket. */
  function Candidates(t: Table, count: nat): seq<Contact>
  {
    if t == [] then [] else Candidates(t[..|t| - 1], count) + FirstOf(t[|t| - 1], count)
  }

  function Distance(target: NodeId): Contact -> int
  {
    (c: Contact) => Xor(target, c.id)
  }

  function FindNearest(t: Table, target: NodeId, count: nat): seq<Contact>
  {
    FirstOf(Sort(Distance(target), Candidates(t, count)), count)
  }

  ghost function AllContacts(t: Table): set<Contact>
  {
    set i, j | 0 <= i < |t| && 0 <= j < |t[i]| :: t[i][j]
  }

  /** The contacts among the `count` oldest of their bucket. */
  ghost function Oldest(t: Table, count: nat): set<Contact>
  {
    set i, j | 0 <= i < |t| && 0 <= j < |t[i]| && j < count :: t[i][j]
  }

  /** Buckets without a common id, each without a repeated one, concatenate without repeats. */
  lemma {:induction false} CandidatesDistinct(own: NodeId, t: Table, count: nat)
    requires forall i :: 0 <= i < |t| ==> OneEach(t[i])
    requires forall i: nat, j: nat :: i < |t| && j < |t[i]| ==> BucketFor(own, t[i][j].id) == i
    ensures OneEach(Candidates(t, count))
    ensures forall c: Contact :: c in Candidates(t, count) ==> BucketFor(own, c.id) < |t|
  {
    if t != [] {
      var init, last := t[..|t| - 1], t[|t| - 1];
      assert forall i :: 0 <= i < |init| ==> init[i] == t[i];
      CandidatesDistinct(own, init, count);
      var f := FirstOf(last, count);
      assert forall j :: 0 <= j < |f| ==> f[j] == last[j];
      assert t[|t| - 1] == last;
    }
  }

  ghost predicate Occurs(t: Table, count: nat, c: Contact)
  {
    exists i: nat :: i < |t| && c in FirstOf(t[i], count)
  }

  lemma {:induction false} CandidatesMembers(t: Table, count: nat, c: Contact)
    ensures c in Candidates(t, count) <==> Occurs(t, count, c)
  {
    if t != [] {
      var init, last := t[..|t| - 1], t[|t| - 1];
      CandidatesMembers(init, count, c);
      if Occurs(init, count, c) {
        var i: nat :| i < |init| && c in FirstOf(init[i], count);
        assert t[i] == init[i];
      }
      if Occurs(t, count, c) {
        var i: nat :| i < |t| && c in FirstOf(t[i], count);
        assert i < |t| - 1 ==> t[i] == init[i];
      }
    }
  }

  lemma CandidatesAreOldest(t: Table, count: nat, c: Contact)
    ensures c in Candidates(t, count) <==> c in Oldest(t, count)
  {
    CandidatesMembers(t, count, c);
    hide Candidates;
    if Occurs(t, count, c) {
      var i: nat :| i < |t| && c in FirstOf(t[i], count);
      var j :| 0 <= j < |FirstOf(t[i], count)| && FirstOf(t[i], count)[j] == c;
      assert t[i][j] == c;
    }
    if c in Oldest(t, count) {
      var i: nat, j: nat :| i < |t| && j < |t[i]| && j < count && t[i][j] == c;
      assert FirstOf(t[i], count)[j] == c;
    }
  }

  /** For any count, find_nearest returns the nearest of the `count` oldest contacts of every bucket. */
  lemma FindNearestOfOldest(own: NodeId, t: Table, target: NodeId, count: nat)
    requires Placed(own, t)
    ensures IsTop(Distance(target), count, Oldest(t, count), FindNearest(t, target, count))
  {
    var cs := Candidates(t, count);
    CandidatesDistinct(own, t, count);
    forall c ensures c in cs <==> c in Oldest(t, count) {
      CandidatesAreOldest(t, count, c);
    }
    hide Oldest, Candidates;
    forall i, j | 0 <= i < j < |cs| ensures Distance(target)(cs[i]) != Distance(target)(cs[j]) {
      if Xor(target, cs[i].id) == Xor(target, cs[j].id) {
        XorInjective(target, cs[i].id, cs[j].id);
      }
    }
    TakeIsTop(Distance(target), count, cs);
    assert Elements(cs) == Oldest(t, count);
  }

  /**
   * The bucketed table refines a flat set: with `count` at least K, find_nearest returns
   * exactly the `count` nearest of all stored contacts, nearest first.
   */
  lemma FindNearestExact(own: NodeId, t: Table, target: NodeId, count: nat)
    requires Placed(own, t) && count >= K
    ensures IsTop(Distance(target), count, AllContacts(t), FindNearest(t, target, count))
  {
    FindNearestOfOldest(own, t, target, count);
    assert Oldest(t, count) == AllContacts(t);
  }

  ghost predicate AlwaysExact(count: nat)
  {
    forall own, t, target :: Placed(own, t) ==>
      IsTop(Distance(target), count, AllContacts(t), FindNearest(t, target, count))
  }

  /** A full bucket whose nearest contact was seen last. */
  const CROWD: Bucket := [Contact(4, "", "", 0.0, 0.0, 0), Contact(5, "", "", 0.0, 0.0, 0),
                          Contact(6, "", "", 0.0, 0.0, 0)]

  const CROWDED: Table := seq<Bucket>(B, i => if i == 2 then CROWD else [])

  lemma {:induction false} XorOfZero(a: nat)
    ensures Xor(0, a) == a
    decreases a
  {
    if a > 0 {
      XorOfZero(a / 2);
      XorHalf(0, a);
    }
  }

  lemma CrowdBucket(id: NodeId)
    requires 4 <= id < 8
    ensures BucketFor(0, id) == 2
  {
    XorOfZero(id);
    assert id / 2 / 2 == 1 && BitLength(1) == 1;
    assert BitLength(id / 2) == 2;
  }

  lemma CrowdedInv()
    ensures TableInv(0, CROWDED, 0.0)
  {
    CrowdBucket(4);
    CrowdBucket(5);
    CrowdBucket(6);
    hide BucketFor;
  }

  lemma CrowdedCandidates(count: nat)
    requires 0 < count < K
    ensures CROWD[0] in Candidates(CROWDED, count) && CROWD[2] !in Candidates(CROWDED, count)
    ensures CROWD[2] in AllContacts(CROWDED)
  {
    var t, near, far := CROWDED, CROWD[2], CROWD[0];
    CandidatesMembers(t, count, near);
    CandidatesMembers(t, count, far);
    hide Candidates;
    assert t[2] == CROWD && t[2][2] == near;
    assert far == FirstOf(t[2], count)[0] && far in FirstOf(t[2], count);
  }

  /** With `count` below K, find_nearest looks only at the oldest `count` contacts of a bucket. */
  lemma CrowdedMisses(count: nat)
    requires 0 < count < K
    ensures !IsTop(Distance(6), count, AllContacts(CROWDED), FindNearest(CROWDED, 6, count))
  {
    var near := CROWD[2];
    CrowdedCandidates(count);
    XorZero(6, 6);
    MissedNearest(Distance(6), count, AllContacts(CROWDED), Candidates(CROWDED, count), CROWD[0], near);
  }

  /** A pool that lacks a nearest element cannot yield the top. */
  lemma MissedNearest(key: Contact -> int, count: nat, all: set<Contact>, pool: seq<Contact>,
                      other: Contact, near: Contact)
    requires count > 0 && other in pool && near !in pool && near in all
    requires forall c :: key(c) >= key(near)
    ensures !IsTop(key, count, all, FirstOf(Sort(key, pool), count))
  {
    SortCorrect(key, pool);
    hide Sort;
    var r := FirstOf(Sort(key, pool), count);
    assert r != [] && near !in r;
    assert r[0] in r && !(key(r[0]) < key(near));
  }

  /** Exactly for which counts find_nearest is exact on every table. */
  lemma FindNearestExactIff(count: nat)
    ensures AlwaysExact(count) <==> count >= K || count == 0
  {
    if count >= K || count == 0 {
      forall own, t, target | Placed(own, t)
        ensures IsTop(Distance(target), count, AllContacts(t), FindNearest(t, target, count))
      {
        if count >= K {
          FindNearestExact(own, t, target, count);
        }
      }
    } else {
      CrowdedInv();
      InvIsPlaced(0, CROWDED, 0.0);
      CrowdedMisses(count);
    }
  }

  lemma {:induction false} ChargesOfBucket(own: NodeId, ops: seq<Op>, id: NodeId)
    ensures Charges(OpsOf(own, ops, BucketFor(own, id)), id) == Charges(ops, id)
  {
    if ops != [] {
      var init, op := ops[..|ops| - 1], ops[|ops| - 1];
      ChargesOfBucket(own, init, id);
      var mine := OpsOf(own, init, BucketFor(own, id));
      if BucketFor(own, op.id) == BucketFor(own, id) {
        assert (mine + [op])[..|mine|] == mine;
      } else {
        assert mine + [] == mine;
      }
    }
  }

  /** Over any run of the whole table, a contact charged with fewer than three failures in all stays. */
  lemma LiveStaysInTable(own: NodeId, t: Table, ops: seq<Op>, id: NodeId, failures: nat)
    requires Placed(own, t) && Member(t[BucketFor(own, id)], id, failures)
    requires failures + Charges(ops, id) < 3
    ensures Member(TableApplyAll(own, t, ops)[BucketFor(own, id)], id, failures + Charges(ops, id))
  {
    var i := BucketFor(own, id);
    BucketOfRun(own, t, ops, i);
    ChargesOfBucket(own, ops, id);
    assert OneEach(t[i]);
    LiveNeverDisplaced(t[i], OpsOf(own, ops, i), id, failures);
  }

  // ----- The table object -----

  class RoutingTable {
    const own: NodeId
    const buckets: seq<KBucket>

    ghost predicate Valid()
    {
      && |buckets| == B
      && forall i, j :: 0 <= i < j < B ==> buckets[i] != buckets[j]
    }

    function State(): (t: Table)
      reads this, buckets
      ensures |t| == |buckets|
    {
      seq<Bucket>(|buckets|, i requires 0 <= i < |buckets| reads this, buckets => buckets[i].nodes)
    }

    constructor (own: NodeId)
      ensures this.own == own && Valid() && State() == EMPTY
      ensures forall i :: 0 <= i < |buckets| ==> fresh(buckets[i])
    {
      var bs: seq<KBucket> := [];
      while |bs| < B
        invariant |bs| <= B
        invariant forall i :: 0 <= i < |bs| ==> fresh(bs[i]) && bs[i].nodes == []
        invariant forall i, j :: 0 <= i < j < |bs| ==> bs[i] != bs[j]
        decreases B - |bs|
      {
        var b := new KBucket();
        bs := bs + [b];
      }
      this.own, this.buckets := own, bs;
    }

    method AddNode(id: NodeId, addr: string, pubkey: string, now: real) returns (added: bool)
      requires Valid()
      modifies buckets
      ensures State() == TableApply(own, old(State()), Add(id, addr, pubkey, now))
      ensures added == AddTo(old(State())[BucketFor(own, id)], id, addr, pubkey, now).1
    {
      var i := BucketFor(own, id);
      added := buckets[i].AddNode(id, addr, pubkey, now);
    }

    method MarkFailure(id: NodeId)
      requires Valid()
      modifies buckets
      ensures State() == TableApply(own, old(State()), Fail(id))
    {
      var i := BucketFor(own, id);
      buckets[i].MarkFailure(id);
    }

    method Nearest(target: NodeId, count: nat) returns (r: seq<Contact>)
      requires Valid()
      ensures r == FindNearest(State(), target, count)
    {
      var dist: seq<Contact> := [];
      for i := 0 to |buckets|
        invariant dist == Candidates(State()[..i], count)
      {
        var nodes := buckets[i].GetNodes(count);
        assert State()[..i + 1][..i] == State()[..i];
        dist := dist + nodes;
      }
      assert State()[..|buckets|] == State();
      dist := Sort(Distance(target), dist);
      r := if |dist| <= count then dist else dist[..count];
    }
  }
}
