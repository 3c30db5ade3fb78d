/**
 * The reorder buffer of one topic (coordination/consumer_group.py:61-86), as a function of
 * the messages received: which are handed to the callbacks, in what order, and what waits.
 */
module ReorderBuffer {
  import opened StableSort

  datatype Msg = Msg(seqNo: int, payload: string)

  /** The offset of a topic and the messages buffered for it. */
  datatype Channel = Channel(offset: int, pending: seq<Msg>)

  function SeqNo(m: Msg): int { m.seqNo }

  /** Drain the head of the buffer while it is the next number; with what was delivered. */
  function Flush(ch: Channel): (Channel, seq<Msg>)
    decreases |ch.pending|
  {
    if ch.pending != [] && ch.pending[0].seqNo == ch.offset + 1 then
      var (ch', out) := Flush(Channel(ch.offset + 1, ch.pending[1..]));
      (ch', [ch.pending[0]] + out)
    else (ch, [])
  }

  /** One message: deliver and drain, buffer, or ignore. */
  function Accept(ch: Channel, m: Msg): (Channel, seq<Msg>)
  {
    if m.seqNo == ch.offset + 1 then
      var (ch', out) := Flush(Channel(m.seqNo, ch.pending));
      (ch', [m] + out)
    else if m.seqNo > ch.offset + 1 then
      (Channel(ch.offset, Sort(SeqNo, ch.pending + [m])), [])
    else (ch, [])
  }

  function AcceptAll(ch: Channel, ms: seq<Msg>): (Channel, seq<Msg>)
  {
    if ms == [] then (ch, [])
    else
      var (c1, o1) := AcceptAll(ch, ms[..|ms| - 1]);
      var (c2, o2) := Accept(c1, ms[|ms| - 1]);
      (c2, o1 + o2)
  }

  // ----- Gap-free delivery, for every stream -----

  /** `out` carries exactly the numbers from `start + 1` to `end`, once each and in order. */
  ghost predicate Consecutive(out: seq<Msg>, start: int, end: int)
  {
    |out| == end - start && forall i :: 0 <= i < |out| ==> out[i].seqNo == start + 1 + i
  }

  /** Number `k` occurs in the stream. */
  ghost predicate Arrived(ms: seq<Msg>, k: int)
  {
    exists m :: m in ms && m.seqNo == k
  }

  lemma ConsecutiveCovers(out: seq<Msg>, start: int, end: int)
    requires Consecutive(out, start, end)
    ensures forall k :: start < k <= end ==> Arrived(out, k)
  {
    forall k | start < k <= end ensures Arrived(out, k) {
      assert out[k - start - 1] in out;
    }
  }

  lemma {:induction false} FlushGapFree(ch: Channel)
    ensures Consecutive(Flush(ch).1, ch.offset, Flush(ch).0.offset)
    ensures ch.pending == Flush(ch).1 + Flush(ch).0.pending
    decreases |ch.pending|
  {
    if ch.pending != [] && ch.pending[0].seqNo == ch.offset + 1 {
      FlushGapFree(Channel(ch.offset + 1, ch.pending[1..]));
    }
  }

  lemma AcceptGapFree(ch: Channel, m: Msg)
    ensures Consecutive(Accept(ch, m).1, ch.offset, Accept(ch, m).0.offset)
    ensures forall x :: x in Accept(ch, m).1 ==> x in ch.pending || x == m
    ensures forall x :: x in Accept(ch, m).0.pending ==> x in ch.pending || x == m
  {
    FlushGapFree(Channel(m.seqNo, ch.pending));
    SortCorrect(SeqNo, ch.pending + [m]);
  }

  /** Whatever arrives - stale, repeated or early - the callbacks see start+1, start+2, ... up to the offset. */
  lemma {:induction false} GapFree(ch: Channel, ms: seq<Msg>)
    ensures Consecutive(AcceptAll(ch, ms).1, ch.offset, AcceptAll(ch, ms).0.offset)
    ensures forall x :: x in AcceptAll(ch, ms).1 ==> x in ch.pending || x in ms
    ensures forall x :: x in AcceptAll(ch, ms).0.pending ==> x in ch.pending || x in ms
  {
    if ms != [] {
      GapFree(ch, ms[..|ms| - 1]);
      AcceptGapFree(AcceptAll(ch, ms[..|ms| - 1]).0, ms[|ms| - 1]);
    }
  }

  /** Saving the offset, restarting with an empty buffer and receiving any stream continues the sequence. */
  lemma RestartGapFree(ch: Channel, before: seq<Msg>, after: seq<Msg>)
    ensures var (c1, o1) := AcceptAll(ch, before);
            var (c2, o2) := AcceptAll(Channel(c1.offset, []), after);
            Consecutive(o1 + o2, ch.offset, c2.offset)
  {
    GapFree(ch, before);
    GapFree(Channel(AcceptAll(ch, before).0.offset, []), after);
  }

  // ----- Distinct numbers: the state depends only on the set received -----

  ghost predicate DistinctNumbers(s: set<Msg>)
  {
    forall x, y :: x in s && y in s && x.seqNo == y.seqNo ==> x == y
  }

  /**
   * The state after receiving the set `s` from offset `start`: everything up to the first
   * missing number has been delivered, and the rest waits in strictly increasing order.
   */
  ghost predicate Canonical(start: int, s: set<Msg>, ch: Channel, out: seq<Msg>)
  {
    && Consecutive(out, start, ch.offset)
    && (forall x :: x in out ==> x in s)
    && (forall x :: x in s ==> x.seqNo != ch.offset + 1)
    && StrictlySorted(SeqNo, ch.pending)
    && (forall x :: x in ch.pending <==> x in s && x.seqNo > ch.offset)
  }

  lemma CanonicalUnique(start: int, s: set<Msg>, c1: Channel, o1: seq<Msg>, c2: Channel, o2: seq<Msg>)
    requires DistinctNumbers(s) && Canonical(start, s, c1, o1) && Canonical(start, s, c2, o2)
    ensures c1 == c2 && o1 == o2
  {
    ConsecutiveCovers(o1, start, c1.offset);
    ConsecutiveCovers(o2, start, c2.offset);
    assert !Arrived(o2, c1.offset + 1) && !Arrived(o1, c2.offset + 1);
    forall i | 0 <= i < |o1| ensures o1[i] == o2[i] {
      assert o1[i] in s && o2[i] in s;
    }
    StrictlySortedUnique(SeqNo, c1.pending, c2.pending);
  }

  /** Draining a strictly sorted buffer stops exactly at the first missing number. */
  lemma {:induction false} FlushCanonical(ch: Channel)
    requires StrictlySorted(SeqNo, ch.pending)
    requires forall x :: x in ch.pending ==> x.seqNo > ch.offset
    ensures var (ch', _) := Flush(ch);
            && StrictlySorted(SeqNo, ch'.pending)
            && forall x :: x in ch'.pending ==> x.seqNo > ch'.offset + 1
    decreases |ch.pending|
  {
    if ch.pending != [] && ch.pending[0].seqNo == ch.offset + 1 {
      var rest := ch.pending[1..];
      forall i | 0 <= i < |rest| ensures rest[i].seqNo > ch.offset + 1 {
        assert SeqNo(ch.pending[0]) < SeqNo(ch.pending[i + 1]);
      }
      forall i, j | 0 <= i < j < |rest| ensures SeqNo(rest[i]) < SeqNo(rest[j]) {
        assert rest[i] == ch.pending[i + 1] && rest[j] == ch.pending[j + 1];
      }
      FlushCanonical(Channel(ch.offset + 1, rest));
    } else if ch.pending != [] {
      assert ch.pending[0] in ch.pending;
      forall i | 0 < i < |ch.pending| ensures ch.pending[i].seqNo > ch.offset + 1 {
        assert SeqNo(ch.pending[0]) < SeqNo(ch.pending[i]);
      }
    }
  }

  /** Buffering a new number keeps the buffer strictly sorted. */
  lemma BufferStrict(pending: seq<Msg>, m: Msg)
    requires StrictlySorted(SeqNo, pending) && forall x :: x in pending ==> x.seqNo != m.seqNo
    ensures StrictlySorted(SeqNo, Sort(SeqNo, pending + [m]))
    ensures forall x :: x in Sort(SeqNo, pending + [m]) <==> x in pending || x == m
  {
    SortAppended(SeqNo, pending, m);
    InsertElements(SeqNo, pending, m);
    hide Sort, Insert;
    assert forall i :: 0 <= i < |pending| ==> pending[i] in pending;
    InsertStrict(SeqNo, pending, m);
  }

  /** Each new number takes the canonical state of a set to that of the larger set. */
  lemma AcceptCanonical(start: int, s: set<Msg>, ch: Channel, out: seq<Msg>, m: Msg)
    requires Canonical(start, s, ch, out) && forall x :: x in s ==> x.seqNo != m.seqNo
    ensures Canonical(start, s + {m}, Accept(ch, m).0, out + Accept(ch, m).1)
  {
    if m.seqNo == ch.offset + 1 {
      DeliverCanonical(start, s, ch, out, m);
    } else if m.seqNo > ch.offset + 1 {
      BufferStrict(ch.pending, m);
      hide Sort, StrictlySorted;
    }
  }

  /** What is left after draining is what lies beyond the new offset. */
  lemma DrainSplit(pending: seq<Msg>, drained: seq<Msg>, rest: seq<Msg>, start: int, end: int)
    requires pending == drained + rest && Consecutive(drained, start, end)
    requires forall x :: x in rest ==> x.seqNo > end + 1
    ensures forall x :: x in rest <==> x in pending && x.seqNo > end
    ensures forall x :: x in drained ==> x in pending
    ensures forall x :: x in pending ==> x.seqNo != end + 1
  {
    forall x | x in pending ensures x in rest || x.seqNo <= end {
      if x in drained {
        var i :| 0 <= i < |drained| && drained[i] == x;
      }
    }
  }

  lemma DeliverCanonical(start: int, s: set<Msg>, ch: Channel, out: seq<Msg>, m: Msg)
    requires Canonical(start, s, ch, out) && m.seqNo == ch.offset + 1
    requires forall x :: x in s ==> x.seqNo != m.seqNo
    ensures Canonical(start, s + {m}, Accept(ch, m).0, out + Accept(ch, m).1)
  {
    var next := Channel(m.seqNo, ch.pending);
    FlushGapFree(next);
    FlushCanonical(next);
    var (ch', drained) := Flush(next);
    assert Accept(ch, m).1 == [m] + drained;
    hide Flush, Accept, StrictlySorted;
    DrainSplit(ch.pending, drained, ch'.pending, m.seqNo, ch'.offset);
    ConsecutiveJoin(out, [m] + drained, start, ch.offset, ch'.offset);
    DrainedSet(s, m, ch, drained, ch');
  }

  /** The set side of a delivery: what was in `s` beyond the old offset is beyond the new one, or drained. */
  lemma DrainedSet(s: set<Msg>, m: Msg, ch: Channel, drained: seq<Msg>, ch': Channel)
    requires m.seqNo == ch.offset + 1 <= ch'.offset
    requires forall x :: x in ch.pending <==> x in s && x.seqNo > ch.offset
    requires forall x :: x in s ==> x.seqNo != m.seqNo
    requires forall x :: x in ch'.pending <==> x in ch.pending && x.seqNo > ch'.offset
    requires forall x :: x in drained ==> x in ch.pending
    requires forall x :: x in ch.pending ==> x.seqNo != ch'.offset + 1
    ensures forall x :: x in ch'.pending <==> x in s + {m} && x.seqNo > ch'.offset
    ensures forall x :: x in s + {m} ==> x.seqNo != ch'.offset + 1
    ensures forall x :: x in [m] + drained ==> x in s + {m}
  {
  }

  lemma ConsecutiveJoin(a: seq<Msg>, b: seq<Msg>, start: int, mid: int, end: int)
    requires Consecutive(a, start, mid) && Consecutive(b, mid, end)
    ensures Consecutive(a + b, start, end)
  {
  }

  ghost function Messages(ms: seq<Msg>): set<Msg> { set m | m in ms }

  ghost predicate DistinctStream(ms: seq<Msg>)
  {
    forall i, j :: 0 <= i < j < |ms| ==> ms[i].seqNo != ms[j].seqNo
  }

  lemma {:induction false} StreamCanonical(start: int, ms: seq<Msg>)
    requires DistinctStream(ms)
    ensures Canonical(start, Messages(ms), AcceptAll(Channel(start, []), ms).0, AcceptAll(Channel(start, []), ms).1)
  {
    if ms != [] {
      var init, last := ms[..|ms| - 1], ms[|ms| - 1];
      StreamCanonical(start, init);
      var (c1, o1) := AcceptAll(Channel(start, []), init);
      AcceptCanonical(start, Messages(init), c1, o1, last);
      assert ms == init + [last];
      assert Messages(ms) == Messages(init) + {last};
    }
  }

  lemma StreamDistinct(ms: seq<Msg>)
    requires DistinctStream(ms)
    ensures DistinctNumbers(Messages(ms))
  {
    forall x, y | x in Messages(ms) && y in Messages(ms) && x.seqNo == y.seqNo ensures x == y {
      var i :| 0 <= i < |ms| && ms[i] == x;
      var j :| 0 <= j < |ms| && ms[j] == y;
      assert i == j;
    }
  }

  /** Order independence: two arrival orders of the same messages end alike and deliver alike. */
  lemma OrderIndependent(start: int, ms: seq<Msg>, ms': seq<Msg>)
    requires DistinctStream(ms) && DistinctStream(ms') && Messages(ms) == Messages(ms')
    ensures AcceptAll(Channel(start, []), ms) == AcceptAll(Channel(start, []), ms')
  {
    StreamDistinct(ms);
    StreamCanonical(start, ms);
    StreamCanonical(start, ms');
    var (c1, o1) := AcceptAll(Channel(start, []), ms);
    var (c2, o2) := AcceptAll(Channel(start, []), ms');
    CanonicalUnique(start, Messages(ms), c1, o1, c2, o2);
  }

  /** If every number up to `n` has arrived and none beyond, the buffer is empty and all are delivered. */
  lemma AllArrived(start: int, ms: seq<Msg>, n: int)
    requires DistinctStream(ms) && start <= n
    requires forall k :: start < k <= n ==> Arrived(ms, k)
    requires forall m :: m in ms ==> m.seqNo <= n
    ensures var (ch, out) := AcceptAll(Channel(start, []), ms);
            ch == Channel(n, []) && Consecutive(out, start, n) && forall x :: x in out ==> x in ms
  {
    StreamCanonical(start, ms);
    var (ch, out) := AcceptAll(Channel(start, []), ms);
    assert ch.pending != [] ==> ch.pending[0] in ch.pending;
    assert forall m :: m in ms <==> m in Messages(ms);
    ConsecutiveCovers(out, start, ch.offset);
    assert !Arrived(ms, ch.offset + 1) && !Arrived(out, n + 1);
    assert forall x :: x !in ch.pending;
  }

  /**
   * A restart loses nothing: replaying, in any order, the messages beyond the saved offset
   * ends in the state of the run that was never interrupted, having delivered the same.
   */
  lemma RestartSameAsUninterrupted(start: int, before: seq<Msg>, after: seq<Msg>, replay: seq<Msg>)
    requires DistinctStream(before + after) && DistinctStream(replay)
    requires Messages(replay)
          == set m | m in Messages(before + after) && m.seqNo > AcceptAll(Channel(start, []), before).0.offset
    ensures var (c1, o1) := AcceptAll(Channel(start, []), before);
            var (c2, o2) := AcceptAll(Channel(c1.offset, []), replay);
            AcceptAll(Channel(start, []), before + after) == (c2, o1 + o2)
  {
    var full := before + after;
    var (c1, o1) := AcceptAll(Channel(start, []), before);
    var (c2, o2) := AcceptAll(Channel(c1.offset, []), replay);
    var (c3, o3) := AcceptAll(Channel(start, []), full);
    StreamDistinct(full);
    assert DistinctStream(before) by {
      assert forall i :: 0 <= i < |before| ==> full[i] == before[i];
    }
    StreamCanonical(start, before);
    StreamCanonical(start, full);
    StreamCanonical(c1.offset, replay);
    assert Messages(before) <= Messages(full);
    forall x | x in Messages(full) ensures x.seqNo != c2.offset + 1 {
      assert x.seqNo > c1.offset ==> x in Messages(replay);
    }
    forall x ensures x in c2.pending <==> x in Messages(full) && x.seqNo > c2.offset {
      assert x in c2.pending <==> x in Messages(replay) && x.seqNo > c2.offset;
    }
    CanonicalUnique(start, Messages(full), c2, o1 + o2, c3, o3);
  }

  // ----- Repeated numbers in the buffer -----

  /** A future number arrives that is already waiting in the buffer. */
  ghost predicate BufferedTwice(ch: Channel, m: Msg)
  {
    m.seqNo > ch.offset + 1 && exists x :: x in ch.pending && x.seqNo == m.seqNo
  }

  ghost predicate NeverBufferedTwice(ch: Channel, ms: seq<Msg>)
  {
    forall i :: 0 <= i < |ms| ==> !BufferedTwice(AcceptAll(ch, ms[..i]).0, ms[i])
  }

  /** Nothing delivered waits in the buffer, and nothing waits twice. */
  ghost predicate Above(ch: Channel)
  {
    StrictlySorted(SeqNo, ch.pending) && forall x :: x in ch.pending ==> x.seqNo > ch.offset
  }

  ghost predicate Clean(ch: Channel)
  {
    StrictlySorted(SeqNo, ch.pending) && forall x :: x in ch.pending ==> x.seqNo > ch.offset + 1
  }

  lemma AcceptStaysClean(ch: Channel, m: Msg)
    requires Clean(ch) && !BufferedTwice(ch, m)
    ensures Clean(Accept(ch, m).0)
  {
    if m.seqNo == ch.offset + 1 {
      FlushCanonical(Channel(m.seqNo, ch.pending));
    } else if m.seqNo > ch.offset + 1 {
      BufferStrict(ch.pending, m);
      hide Sort, StrictlySorted;
    }
  }

  lemma {:induction false} FlushStaysSorted(ch: Channel)
    requires Sorted(SeqNo, ch.pending)
    ensures Sorted(SeqNo, Flush(ch).0.pending)
    ensures !Above(ch) ==> !Above(Flush(ch).0)
    decreases |ch.pending|
  {
    if ch.pending != [] && ch.pending[0].seqNo == ch.offset + 1 {
      var next := Channel(ch.offset + 1, ch.pending[1..]);
      if !Above(ch) {
        StuckTail(ch);
      }
      FlushStaysSorted(next);
    }
  }

  /** Popping the head of a sorted buffer that holds a repeat or a stale number leaves one behind. */
  lemma StuckTail(ch: Channel)
    requires Sorted(SeqNo, ch.pending) && !Above(ch)
    requires ch.pending != [] && ch.pending[0].seqNo == ch.offset + 1
    ensures !Above(Channel(ch.offset + 1, ch.pending[1..]))
  {
    var p := ch.pending;
    forall x | x in p ensures x.seqNo > ch.offset {
      var i :| 0 <= i < |p| && p[i] == x;
      assert i > 0 ==> SeqNo(p[0]) <= SeqNo(p[i]);
    }
    var i, j :| 0 <= i < j < |p| && SeqNo(p[i]) >= SeqNo(p[j]);
    assert p[1..][j - 1] == p[j] && p[j] in p[1..];
    assert i > 0 ==> SeqNo(p[1..][i - 1]) >= SeqNo(p[1..][j - 1]);
  }

  lemma InsertKeepsRepeat(s: seq<Msg>, x: Msg)
    requires !StrictlySorted(SeqNo, s) || exists y :: y in s && y.seqNo == x.seqNo
    ensures !StrictlySorted(SeqNo, Insert(SeqNo, s, x))
  {
    var p := InsertShape(SeqNo, s, x);
    var r := s[..p] + [x] + s[p..];
    if !StrictlySorted(SeqNo, s) {
      var i, j :| 0 <= i < j < |s| && SeqNo(s[i]) >= SeqNo(s[j]);
      var i', j' := if i < p then i else i + 1, if j < p then j else j + 1;
      assert r[i'] == s[i] && r[j'] == s[j];
      assert SeqNo(r[i']) >= SeqNo(r[j']);
    } else {
      var y :| y in s && y.seqNo == x.seqNo;
      var i :| 0 <= i < |s| && s[i] == y;
      assert i < p ==> SeqNo(r[i]) >= SeqNo(r[p]);
      assert i >= p ==> r[i + 1] == y && SeqNo(r[p]) >= SeqNo(r[i + 1]);
    }
  }

  /** A buffer once clogged stays clogged, and buffering a number twice clogs it. */
  lemma AcceptStaysClogged(ch: Channel, m: Msg)
    requires Sorted(SeqNo, ch.pending)
    ensures Sorted(SeqNo, Accept(ch, m).0.pending)
    ensures !Above(ch) || BufferedTwice(ch, m) ==> !Above(Accept(ch, m).0)
  {
    if m.seqNo == ch.offset + 1 {
      FlushStaysSorted(Channel(m.seqNo, ch.pending));
    } else if m.seqNo > ch.offset + 1 {
      SortAppended(SeqNo, ch.pending, m);
      InsertElements(SeqNo, ch.pending, m);
      InsertSorted(SeqNo, ch.pending, m);
      if !StrictlySorted(SeqNo, ch.pending) || BufferedTwice(ch, m) {
        InsertKeepsRepeat(ch.pending, m);
      }
    }
  }

  lemma {:induction false} CleanOrClogged(start: int, ms: seq<Msg>)
    ensures var ch := AcceptAll(Channel(start, []), ms).0;
            && Sorted(SeqNo, ch.pending)
            && (NeverBufferedTwice(Channel(start, []), ms) ==> Clean(ch))
            && (!NeverBufferedTwice(Channel(start, []), ms) ==> !Above(ch))
  {
    hide Accept, Above, Clean, BufferedTwice, Sorted;
    var c0 := Channel(start, []);
    if ms == [] {
      EmptyIsClean(start);
    } else {
      var init, last := ms[..|ms| - 1], ms[|ms| - 1];
      CleanOrClogged(start, init);
      var ch := AcceptAll(c0, init).0;
      AcceptStaysClogged(ch, last);
      assert forall i :: 0 <= i < |init| ==> ms[..i] == init[..i] && ms[i] == init[i];
      if NeverBufferedTwice(c0, init) && !BufferedTwice(ch, last) {
        AcceptStaysClean(ch, last);
        assert NeverBufferedTwice(c0, ms);
      } else {
        assert !NeverBufferedTwice(c0, ms);
      }
    }
  }

  lemma EmptyIsClean(start: int)
    ensures Clean(Channel(start, [])) && Sorted(SeqNo, Channel(start, []).pending)
  {
  }

  /**
   * Exactly when the buffer ends clean (nothing delivered still waits, nothing waits
   * twice): no future number ever arrived while a copy of it was already waiting.
   */
  lemma CleanIff(start: int, ms: seq<Msg>)
    ensures Clean(AcceptAll(Channel(start, []), ms).0) <==> NeverBufferedTwice(Channel(start, []), ms)
  {
    CleanOrClogged(start, ms);
  }

  ghost predicate SeenOrWaits(ch: Channel, m: Msg)
  {
    m.seqNo <= ch.offset || Arrived(ch.pending, m.seqNo)
  }

  lemma {:induction false} SeenOrWaiting(ch: Channel, ms: seq<Msg>)
    ensures ch.offset <= AcceptAll(ch, ms).0.offset
    ensures forall m :: m in ms ==> SeenOrWaits(AcceptAll(ch, ms).0, m)
  {
    if ms != [] {
      var init, last := ms[..|ms| - 1], ms[|ms| - 1];
      SeenOrWaiting(ch, init);
      var c1 := AcceptAll(ch, init).0;
      AcceptGapFree(c1, last);
      AcceptKeeps(c1, last);
      assert ms == init + [last];
      hide Accept;
      assert AcceptAll(ch, ms).0 == Accept(c1, last).0;
      forall m | m in ms ensures SeenOrWaits(Accept(c1, last).0, m) {
        if m in init && m.seqNo > c1.offset {
          var x :| x in c1.pending && x.seqNo == m.seqNo;
        }
      }
    }
  }

  lemma AcceptKeeps(ch: Channel, m: Msg)
    ensures var ch' := Accept(ch, m).0;
            && (m.seqNo <= ch'.offset || m in ch'.pending)
            && forall x :: x in ch.pending ==> x.seqNo <= ch'.offset || x in ch'.pending
  {
    if m.seqNo == ch.offset + 1 {
      FlushGapFree(Channel(m.seqNo, ch.pending));
      var (ch', out) := Flush(Channel(m.seqNo, ch.pending));
      forall x | x in ch.pending ensures x.seqNo <= ch'.offset || x in ch'.pending {
        if x in out {
          var i :| 0 <= i < |out| && out[i] == x;
        }
      }
    } else {
      SortCorrect(SeqNo, ch.pending + [m]);
    }
  }

  /** Progress: if no number was buffered twice and all up to `n` have arrived, all up to `n` are delivered. */
  lemma Progress(start: int, ms: seq<Msg>, n: int)
    requires NeverBufferedTwice(Channel(start, []), ms)
    requires forall k :: start < k <= n ==> Arrived(ms, k)
    ensures AcceptAll(Channel(start, []), ms).0.offset >= n
  {
    CleanIff(start, ms);
    SeenOrWaiting(Channel(start, []), ms);
    var ch := AcceptAll(Channel(start, []), ms).0;
    hide AcceptAll, NeverBufferedTwice;
    assert !Arrived(ms, ch.offset + 1);
  }

  // Exactly when deliveries keep up with arrivals.

  lemma {:induction false} AcceptAllAppend(ch: Channel, a: seq<Msg>, b: seq<Msg>)
    ensures AcceptAll(ch, a + b).0 == AcceptAll(AcceptAll(ch, a).0, b).0
  {
    hide Accept;
    if b == [] {
      assert a + b == a;
    } else {
      AcceptAllAppend(ch, a, b[..|b| - 1]);
      assert (a + b)[..|a + b| - 1] == a + b[..|b| - 1];
    }
  }

  lemma NeverTwiceAppend(ch: Channel, a: seq<Msg>, b: seq<Msg>)
    requires NeverBufferedTwice(ch, a) && NeverBufferedTwice(AcceptAll(ch, a).0, b)
    ensures NeverBufferedTwice(ch, a + b)
  {
    hide AcceptAll, BufferedTwice;
    var ab := a + b;
    forall i | 0 <= i < |ab| ensures !BufferedTwice(AcceptAll(ch, ab[..i]).0, ab[i]) {
      if i < |a| {
        assert ab[..i] == a[..i];
      } else {
        assert ab[..i] == a + b[..i - |a|];
        AcceptAllAppend(ch, a, b[..i - |a|]);
      }
    }
  }

  lemma NeverTwiceMore(ch: Channel, more: seq<Msg>, m: Msg)
    requires NeverBufferedTwice(ch, more) && !BufferedTwice(AcceptAll(ch, more).0, m)
    ensures NeverBufferedTwice(ch, more + [m]) && AcceptAll(ch, more + [m]).0 == Accept(AcceptAll(ch, more).0, m).0
  {
    AcceptAllSnoc(ch, more, m);
    hide AcceptAll, BufferedTwice, Accept;
    var all := more + [m];
    assert all[..|more|] == more;
    assert forall i :: 0 <= i < |more| ==> all[..i] == more[..i] && all[i] == more[i];
  }

  /** The head of the buffer has been passed already, so that nothing behind it can leave. */
  ghost predicate Stuck(ch: Channel)
  {
    Sorted(SeqNo, ch.pending) && ch.pending != [] && ch.pending[0].seqNo <= ch.offset
  }

  lemma {:induction false} FlushKeepsLast(ch: Channel)
    ensures var rest := Flush(ch).0.pending;
            rest != [] ==> ch.pending != [] && rest[|rest| - 1] == ch.pending[|ch.pending| - 1]
    decreases |ch.pending|
  {
    if ch.pending != [] && ch.pending[0].seqNo == ch.offset + 1 {
      FlushKeepsLast(Channel(ch.offset + 1, ch.pending[1..]));
    }
  }

  /** How far the last buffered number is ahead. */
  ghost function Ahead(ch: Channel): nat
  {
    var p := ch.pending;
    if p == [] || p[|p| - 1].seqNo <= ch.offset then 0 else p[|p| - 1].seqNo - ch.offset
  }

  lemma CloggedOrStuck(ch: Channel)
    requires Sorted(SeqNo, ch.pending) && !Above(ch)
    ensures ch.pending != []
    ensures !Stuck(ch) ==> ch.pending[|ch.pending| - 1].seqNo > ch.offset
  {
    var p := ch.pending;
    if |p| > 1 {
      assert SeqNo(p[0]) <= SeqNo(p[|p| - 1]);
    }
  }

  /** The expected number moves a clogged channel on, still clogged. */
  lemma DriveStep(ch: Channel)
    requires Sorted(SeqNo, ch.pending) && !Above(ch) && !Stuck(ch)
    ensures var m := Msg(ch.offset + 1, "");
            var ch' := Accept(ch, m).0;
            && !BufferedTwice(ch, m) && Sorted(SeqNo, ch'.pending) && !Above(ch') && Ahead(ch') < Ahead(ch)
  {
    hide Accept, Flush, Sorted, Above, Stuck;
    AcceptStaysClogged(ch, Msg(ch.offset + 1, ""));
    CloggedOrStuck(ch);
    CloggedOrStuck(Accept(ch, Msg(ch.offset + 1, "")).0);
    ExpectedMovesOn(ch);
  }

  lemma ExpectedMovesOn(ch: Channel)
    ensures var ch' := Accept(ch, Msg(ch.offset + 1, "")).0;
            && ch'.offset > ch.offset
            && (ch'.pending != [] ==>
                  ch.pending != [] && ch'.pending[|ch'.pending| - 1] == ch.pending[|ch.pending| - 1])
  {
    FlushKeepsLast(Channel(ch.offset + 1, ch.pending));
    FlushGapFree(Channel(ch.offset + 1, ch.pending));
    hide Flush;
  }

  /** Sending a clogged channel one expected number after the other brings a stale number to its head. */
  lemma {:induction false} DriveToStuck(ch: Channel, more: seq<Msg>) returns (longer: seq<Msg>)
    requires NeverBufferedTwice(ch, more)
    requires Sorted(SeqNo, AcceptAll(ch, more).0.pending) && !Above(AcceptAll(ch, more).0)
    ensures NeverBufferedTwice(ch, longer) && Stuck(AcceptAll(ch, longer).0)
    decreases Ahead(AcceptAll(ch, more).0)
  {
    hide AcceptAll, Accept, Above, Stuck, Sorted, NeverBufferedTwice, BufferedTwice, Ahead;
    var c := AcceptAll(ch, more).0;
    if Stuck(c) {
      longer := more;
    } else {
      var m := Msg(c.offset + 1, "");
      DriveStep(c);
      NeverTwiceMore(ch, more, m);
      longer := DriveToStuck(ch, more + [m]);
    }
  }

  lemma DeliverOnStuck(ch: Channel)
    requires Stuck(ch)
    ensures var m := Msg(ch.offset + 1, "");
            !BufferedTwice(ch, m) && Accept(ch, m).0 == Channel(ch.offset + 1, ch.pending)
  {
  }

  lemma NothingBufferedTwice(ch: Channel)
    ensures NeverBufferedTwice(ch, []) && AcceptAll(ch, []).0 == ch
  {
    AcceptAllNone(ch);
  }

  /** With a stale head, the number after next may arrive and wait, and the next one does not free it. */
  lemma StuckBlocks(ch: Channel) returns (two: seq<Msg>)
    requires Stuck(ch)
    ensures NeverBufferedTwice(ch, two) && AcceptAll(ch, two).0.offset == ch.offset + 1
    ensures Arrived(AcceptAll(ch, two).0.pending, ch.offset + 2)
  {
    var m1, m2 := Msg(ch.offset + 1, ""), Msg(ch.offset + 2, "");
    NothingBufferedTwice(ch);
    two := [];
    if !Arrived(ch.pending, ch.offset + 2) {
      assert !BufferedTwice(ch, m2);
      BufferOnStuck(ch, m2);
      hide AcceptAll, Accept, Stuck, NeverBufferedTwice, BufferedTwice, Arrived;
      NeverTwiceMore(ch, two, m2);
      two := two + [m2];
    }
    hide AcceptAll, Accept, Stuck, NeverBufferedTwice, BufferedTwice, Arrived;
    DeliverOnStuck(AcceptAll(ch, two).0);
    NeverTwiceMore(ch, two, m1);
    two := two + [m1];
  }

  lemma BufferOnStuck(ch: Channel, m: Msg)
    requires Stuck(ch) && m.seqNo > ch.offset + 1
    ensures var ch' := Accept(ch, m).0;
            Stuck(ch') && ch'.offset == ch.offset && Arrived(ch'.pending, m.seqNo)
  {
    SortAppended(SeqNo, ch.pending, m);
    InsertElements(SeqNo, ch.pending, m);
    InsertSorted(SeqNo, ch.pending, m);
    SortedHead(Insert(SeqNo, ch.pending, m), ch.pending[0]);
    hide Sort, Insert, Sorted;
  }

  lemma SortedHead(p: seq<Msg>, x: Msg)
    requires Sorted(SeqNo, p) && x in p
    ensures p[0].seqNo <= x.seqNo
  {
    var i :| 0 <= i < |p| && p[i] == x;
    assert i > 0 ==> SeqNo(p[0]) <= SeqNo(p[i]);
  }

  /** What has been delivered or waits has arrived. */
  lemma ReachedIsArrived(start: int, ms: seq<Msg>, n: int)
    requires var ch := AcceptAll(Channel(start, []), ms).0;
             n <= ch.offset || (n == ch.offset + 1 && Arrived(ch.pending, n))
    ensures forall k :: start < k <= n ==> Arrived(ms, k)
  {
    GapFree(Channel(start, []), ms);
    var (ch, out) := AcceptAll(Channel(start, []), ms);
    ConsecutiveCovers(out, start, ch.offset);
    hide AcceptAll;
    forall k | start < k <= n ensures Arrived(ms, k) {
      if k <= ch.offset {
        assert Arrived(out, k);
      }
    }
  }

  /** Once a number has been buffered twice, some continuation leaves an arrived number undelivered. */
  lemma TwiceBlocks(start: int, ms: seq<Msg>) returns (more: seq<Msg>, n: int)
    requires !NeverBufferedTwice(Channel(start, []), ms)
    ensures NeverBufferedTwice(AcceptAll(Channel(start, []), ms).0, more)
    ensures forall k :: start < k <= n ==> Arrived(ms + more, k)
    ensures AcceptAll(Channel(start, []), ms + more).0.offset < n
  {
    var c0 := Channel(start, []);
    CleanOrClogged(start, ms);
    var ch := AcceptAll(c0, ms).0;
    NothingBufferedTwice(ch);
    hide Accept, Stuck, AcceptAll, Above;
    var stuck := DriveToStuck(ch, []);
    var two := StuckBlocks(AcceptAll(ch, stuck).0);
    NeverTwiceAppend(ch, stuck, two);
    more := stuck + two;
    AcceptAllAppend(ch, stuck, two);
    AcceptAllAppend(c0, ms, more);
    n := AcceptAll(c0, ms + more).0.offset + 1;
    ReachedIsArrived(start, ms + more, n);
  }

  /** Whatever arrives from now on without being buffered twice, all numbers up to `n` are delivered once they are there. */
  ghost predicate KeepsUp(start: int, ms: seq<Msg>)
  {
    forall more, n :: Owed(start, ms, more, n) ==> AcceptAll(Channel(start, []), ms + more).0.offset >= n
  }

  ghost predicate Owed(start: int, ms: seq<Msg>, more: seq<Msg>, n: int)
  {
    && NeverBufferedTwice(AcceptAll(Channel(start, []), ms).0, more)
    && forall k :: start < k <= n ==> Arrived(ms + more, k)
  }

  /**
   * Exactly when deliveries keep up with arrivals, now and in every continuation: no number has
   * been buffered while a copy of it was waiting.
   */
  lemma KeepsUpIff(start: int, ms: seq<Msg>)
    ensures KeepsUp(start, ms) <==> NeverBufferedTwice(Channel(start, []), ms)
  {
    var c0 := Channel(start, []);
    if NeverBufferedTwice(c0, ms) {
      forall more, n | Owed(start, ms, more, n) ensures AcceptAll(c0, ms + more).0.offset >= n {
        NeverTwiceAppend(c0, ms, more);
        Progress(start, ms + more, n);
      }
    } else {
      var more, n := TwiceBlocks(start, ms);
      assert Owed(start, ms, more, n);
    }
  }

  /** A repeat in the buffer blocks what is behind it: 1, 2, 3 and 4 have arrived, and 4 is not delivered. */
  lemma RepeatBlocks()
    ensures var (ch, out) := AcceptAll(Channel(0, []), [Msg(3, "c"), Msg(3, "c"), Msg(4, "d"), Msg(1, "a"), Msg(2, "b")]);
            && ch == Channel(3, [Msg(3, "c"), Msg(4, "d")])
            && out == [Msg(1, "a"), Msg(2, "b"), Msg(3, "c")]
  {
    var a, b, c, d := Msg(1, "a"), Msg(2, "b"), Msg(3, "c"), Msg(4, "d");
    BufferTwiceThen(c, d);
    DeliverTwoOf(a, b, c, d);
    var c0, ms := Channel(0, []), [c, c, d];
    AcceptAllSnoc(c0, ms, a);
    AcceptAllSnoc(c0, ms + [a], b);
    assert ms + [a] + [b] == [c, c, d, a, b];
    assert [] + [a] == [a] && [a] + [b, c] == [a, b, c];
  }

  lemma AcceptAllSnoc(ch: Channel, ms: seq<Msg>, m: Msg)
    ensures var (c1, o1) := AcceptAll(ch, ms);
            var (c2, o2) := Accept(c1, m);
            AcceptAll(ch, ms + [m]).0 == c2 && AcceptAll(ch, ms + [m]).1 == o1 + o2
  {
    hide Accept;
    assert (ms + [m])[..|ms|] == ms;
  }

  lemma FlushPops(offset: int, m: Msg, rest: seq<Msg>)
    requires m.seqNo == offset + 1
    requires rest != [] && rest[0].seqNo != offset + 2
    ensures var (ch, out) := Flush(Channel(offset, [m] + rest)); ch == Channel(offset + 1, rest) && out == [m]
  {
    var ch := Channel(offset, [m] + rest);
    assert ch.pending[1..] == rest;
    assert Flush(ch).0 == Channel(offset + 1, rest);
    assert Flush(ch).1 == [m] + [];
  }

  lemma DeliverTwoOf(a: Msg, b: Msg, c: Msg, d: Msg)
    requires a.seqNo == 1 && b.seqNo == 2 && c.seqNo == 3 && d.seqNo == 4
    ensures var (ch, out) := Accept(Channel(0, [c, c, d]), a); ch == Channel(1, [c, c, d]) && out == [a]
    ensures var (ch, out) := Accept(Channel(1, [c, c, d]), b); ch == Channel(3, [c, d]) && out == [b, c]
  {
    var p := [c, c, d];
    assert Accept(Channel(0, p), a).1 == [a] + [];
    FlushPops(2, c, [c, d]);
    assert [c] + [c, d] == p;
    assert Accept(Channel(1, p), b).1 == [b] + [c];
  }

  lemma AcceptAtEnd(ch: Channel, m: Msg)
    requires m.seqNo > ch.offset + 1 && Sorted(SeqNo, ch.pending + [m])
    ensures Accept(ch, m).0 == Channel(ch.offset, ch.pending + [m]) && Accept(ch, m).1 == []
  {
    SortOfSorted(SeqNo, ch.pending + [m]);
    assert Accept(ch, m).0 == Channel(ch.offset, ch.pending + [m]);
  }

  lemma BufferTwiceThen(c: Msg, d: Msg)
    requires c.seqNo == 3 && d.seqNo == 4
    ensures var (ch, out) := AcceptAll(Channel(0, []), [c, c, d]); ch == Channel(0, [c, c, d]) && out == []
  {
    hide Accept, Sort, AcceptAll;
    var none: seq<Msg> := [];
    var c0 := Channel(0, none);
    AcceptAllNone(c0);
    AcceptAtEnd(c0, c);
    AcceptAllSnoc(c0, none, c);
    AcceptAtEnd(Channel(0, none + [c]), c);
    AcceptAllSnoc(c0, none + [c], c);
    AcceptAtEnd(Channel(0, none + [c] + [c]), d);
    AcceptAllSnoc(c0, none + [c] + [c], d);
    assert none + [c] + [c] + [d] == [c, c, d];
  }

  lemma AcceptAllNone(ch: Channel)
    ensures AcceptAll(ch, []).0 == ch && AcceptAll(ch, []).1 == []
  {
  }

  // ----- Starting late -----

  lemma NoFirst(out: seq<Msg>, start: int, end: int)
    requires Consecutive(out, start, end) && (out != [] ==> out[0].seqNo != start + 1)
    ensures out == [] && end == start
  {
  }

  /** Who has missed the next number, and never gets it, is never handed anything. */
  lemma LateStartStarves(start: int, ms: seq<Msg>)
    requires forall i :: 0 <= i < |ms| ==> ms[i].seqNo != start + 1
    ensures AcceptAll(Channel(start, []), ms).1 == [] && AcceptAll(Channel(start, []), ms).0.offset == start
  {
    GapFree(Channel(start, []), ms);
    hide AcceptAll, Consecutive;
    var (ch, out) := AcceptAll(Channel(start, []), ms);
    forall i | 0 <= i < |out| ensures out[i].seqNo != start + 1 {
      assert out[i] in out;
    }
    NoFirst(out, start, ch.offset);
  }
}
