/** The idempotency log (coordination/dedup.py): message ids with the time their entries expire. */
module Dedup {

  type Table = map<string, real>

  predicate IsProcessed(t: Table, id: string, now: real)
  {
    id in t && t[id] > now
  }

  /** An existing entry, expired or not, is kept as it is. */
  function Mark(t: Table, id: string, now: real, ttl: real): Table
  {
    if id in t then t else t[id := now + ttl]
  }

  function Cleanup(t: Table, now: real): Table
  {
    t - (set id | id in t && t[id] < now)
  }

  class DedupLog {
    const ttl: real
    var table: Table

    constructor (ttlDays: nat)
      ensures table == map[] && ttl == (ttlDays * 86400) as real
    {
      ttl := (ttlDays * 86400) as real;
      table := map[];
    }

    method Check(id: string, now: real) returns (processed: bool)
      ensures processed <==> exists expiry :: (id, expiry) in table.Items && expiry > now
      ensures processed == IsProcessed(table, id, now)
    {
      processed := id in table && table[id] > now;
      assert id in table ==> (id, table[id]) in table.Items;
    }

    method MarkProcessed(id: string, now: real)
      modifies this
      ensures table == Mark(old(table), id, now, ttl)
    {
      if id !in table {
        table := table[id := now + ttl];
      }
    }

    method Sweep(now: real)
      modifies this
      ensures forall id :: id in table <==> id in old(table) && old(table)[id] >= now
      ensures forall id :: id in table ==> table[id] == old(table)[id]
      ensures table == Cleanup(old(table), now)
    {
      table := map id | id in table && !(table[id] < now) :: table[id];
    }
  }

  // ----- What marking achieves -----

  /**
   * Exactly when marking makes an id processed: no expired entry of it is still in the log,
   * since such an entry is neither renewed nor replaced.
   */
  lemma MarkTakesEffectIff(t: Table, id: string, now: real, ttl: real)
    requires ttl > 0.0
    ensures IsProcessed(Mark(t, id, now, ttl), id, now) <==> !(id in t && t[id] <= now)
  {
  }

  datatype LogOp = Marked(id: string, at: real) | Swept(at: real)

  function Use(t: Table, op: LogOp, ttl: real): Table
  {
    match op
    case Marked(id, at) => Mark(t, id, at, ttl)
    case Swept(at) => Cleanup(t, at)
  }

  function UseAll(t: Table, ops: seq<LogOp>, ttl: real): Table
  {
    if ops == [] then t else Use(UseAll(t, ops[..|ops| - 1], ttl), ops[|ops| - 1], ttl)
  }

  /** A log in which `id` expires at `until` keeps it so while no sweep comes later than that. */
  lemma {:induction false} EntryKept(t: Table, id: string, until: real, ops: seq<LogOp>, ttl: real)
    requires id in t && t[id] == until
    requires forall i :: 0 <= i < |ops| && ops[i].Swept? ==> ops[i].at <= until
    ensures id in UseAll(t, ops, ttl) && UseAll(t, ops, ttl)[id] == until
  {
    if ops != [] {
      EntryKept(t, id, until, ops[..|ops| - 1], ttl);
    }
  }

  /** Without another mark, `id` never reads as processed from `until` on. */
  lemma {:induction false} EntryNotExtended(t: Table, id: string, until: real, ops: seq<LogOp>, ttl: real)
    requires id in t ==> t[id] <= until
    requires forall i :: 0 <= i < |ops| && ops[i].Marked? ==> ops[i].id != id
    ensures id in UseAll(t, ops, ttl) ==> UseAll(t, ops, ttl)[id] <= until
  {
    if ops != [] {
      EntryNotExtended(t, id, until, ops[..|ops| - 1], ttl);
    }
  }

  /**
   * A new entry counts for exactly its lifetime: whatever is marked and swept in between, the id
   * reads as processed before its expiry and, unless it is marked again, not from then on.
   */
  lemma {:induction false} ProcessedForItsLifetime(t: Table, id: string, now: real, ttl: real, ops: seq<LogOp>, later: real)
    requires id !in t && forall i :: 0 <= i < |ops| ==> ops[i].at <= later
    ensures var t' := UseAll(Mark(t, id, now, ttl), ops, ttl);
            && (later < now + ttl ==> IsProcessed(t', id, later))
            && (later >= now + ttl && (forall i :: 0 <= i < |ops| && ops[i].Marked? ==> ops[i].id != id) ==>
                  !IsProcessed(t', id, later))
  {
    var marked := Mark(t, id, now, ttl);
    if later < now + ttl {
      EntryKept(marked, id, now + ttl, ops, ttl);
    } else if forall i :: 0 <= i < |ops| && ops[i].Marked? ==> ops[i].id != id {
      EntryNotExtended(marked, id, now + ttl, ops, ttl);
    }
  }

  // ----- Message ids -----

  function Digit(d: nat): char
    requires d < 10
  {
    "0123456789"[d]
  }

  function Decimal(n: nat): (s: string)
    ensures s != [] && forall i :: 0 <= i < |s| ==> s[i] != ':' && s[i] != '-'
  {
    if n < 10 then [Digit(n)] else Decimal(n / 10) + [Digit(n % 10)]
  }

  function Number(n: int): (s: string)
    ensures forall i :: 0 <= i < |s| ==> s[i] != ':'
  {
    if n < 0 then "-" + Decimal(-n) else Decimal(n)
  }

  /** The key of a sequenced message: its topic, a colon, and its number. */
  function MsgId(topic: string, seqNo: int): string
  {
    topic + ":" + Number(seqNo)
  }

  lemma {:induction false} DecimalInjective(a: nat, b: nat)
    requires Decimal(a) == Decimal(b)
    ensures a == b
  {
    var s := Decimal(a);
    assert a >= 10 ==> Decimal(a / 10) == s[..|s| - 1];
    assert b >= 10 ==> Decimal(b / 10) == s[..|s| - 1];
    assert s[|s| - 1] == Digit(a % 10) == Digit(b % 10);
    if a >= 10 && b >= 10 {
      DecimalInjective(a / 10, b / 10);
    }
  }

  /** What a string of digits reads as. */
  function Reading(s: string): int
  {
    if s == [] then 0 else 10 * Reading(s[..|s| - 1]) + (s[|s| - 1] as int - '0' as int)
  }

  /** A number is written in digits, without leading zeros, and reads back. */
  lemma {:induction false} DecimalReads(n: nat)
    ensures var s := Decimal(n);
            && Reading(s) == n && (forall i :: 0 <= i < |s| ==> '0' <= s[i] <= '9')
            && (|s| > 1 ==> s[0] != '0')
  {
    var s := Decimal(n);
    if n < 10 {
      assert s[..0] == [];
    } else {
      DecimalReads(n / 10);
      assert s[..|s| - 1] == Decimal(n / 10);
      assert forall i :: 0 <= i < |s| - 1 ==> s[i] == Decimal(n / 10)[i];
      if n / 10 < 10 {
        assert s[0] == Digit(n / 10);
      }
    }
  }

  /** The id of message 12 of "orders". */
  lemma SampleId()
    ensures MsgId("orders", 12) == "orders:12"
  {
    assert Decimal(1) == "1";
    assert Decimal(12) == "12";
  }

  /** Different messages have different ids, whatever characters the topics contain. */
  lemma MsgIdInjective(t1: string, n1: int, t2: string, n2: int)
    requires MsgId(t1, n1) == MsgId(t2, n2)
    ensures t1 == t2 && n1 == n2
  {
    var s, d1, d2 := MsgId(t1, n1), Number(n1), Number(n2);
    assert s[|t1|] == ':' && s[|t2|] == ':';
    assert forall i :: |t1| < i < |s| ==> s[i] == d1[i - |t1| - 1];
    assert forall i :: |t2| < i < |s| ==> s[i] == d2[i - |t2| - 1];
    assert |t1| == |t2|;
    assert t1 == s[..|t1|] == t2;
    assert d1 == s[|t1| + 1..] == d2;
    NumberInjective(n1, n2);
  }

  lemma NumberInjective(a: int, b: int)
    requires Number(a) == Number(b)
    ensures a == b
  {
    if a < 0 {
      assert Number(a)[0] == '-';
      assert b < 0;
      assert Decimal(-a) == Number(a)[1..] == Decimal(-b);
      DecimalInjective(-a, -b);
    } else {
      assert Number(a)[0] != '-';
      assert b >= 0;
      DecimalInjective(a, b);
    }
  }
}
