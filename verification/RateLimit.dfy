/**
 * The two sliding-window rate limiters: the filter of the signature gate (phase0/sig_gate.py:45-95)
 * and the deque of the relay (relay/server.py:380-392), over whole histories.
 */
module RateLimit {
  import opened Wrappers

  /** At most `limit` messages per window; `closed` windows include both ends. */
  datatype Rule = Rule(limit: int, window: real, closed: bool)

  predicate Live(rule: Rule, t: real, now: real)
  {
    if rule.closed then now - t <= rule.window else now - t < rule.window
  }

  function Keep(rule: Rule, ts: seq<real>, now: real): seq<real>
  {
    if ts == [] then []
    else
      Keep(rule, ts[..|ts| - 1], now)
      + (if Live(rule, ts[|ts| - 1], now) then [ts[|ts| - 1]] else [])
  }

  /** The deque's way: drop expired times from the front only. */
  function Drop(rule: Rule, ts: seq<real>, now: real): seq<real>
  {
    if ts != [] && !Live(rule, ts[0], now) then Drop(rule, ts[1..], now) else ts
  }

  /** One check against the times left after cleaning. */
  function Admit(rule: Rule, kept: seq<real>, now: real): (seq<real>, bool)
  {
    if |kept| >= rule.limit then (kept, false) else (kept + [now], true)
  }

  type Counters = map<string, seq<real>>

  datatype Arrival = Arrival(sender: string, time: real)

  function Times(m: Counters, sender: string): seq<real>
  {
    if sender in m then m[sender] else []
  }

  function FilterCheck(rule: Rule, m: Counters, a: Arrival): (Counters, bool)
  {
    var r := Admit(rule, Keep(rule, Times(m, a.sender), a.time), a.time);
    (m[a.sender := r.0], r.1)
  }

  function DequeCheck(rule: Rule, m: Counters, a: Arrival): (Counters, bool)
  {
    var r := Admit(rule, Drop(rule, Times(m, a.sender), a.time), a.time);
    (m[a.sender := r.0], r.1)
  }

  function FilterRun(rule: Rule, arrivals: seq<Arrival>): Counters
  {
    if arrivals == [] then map[]
    else FilterCheck(rule, FilterRun(rule, arrivals[..|arrivals| - 1]), arrivals[|arrivals| - 1]).0
  }

  function DequeRun(rule: Rule, arrivals: seq<Arrival>): Counters
  {
    if arrivals == [] then map[]
    else DequeCheck(rule, DequeRun(rule, arrivals[..|arrivals| - 1]), arrivals[|arrivals| - 1]).0
  }

  /** Whether an arrival after `init` is let through. */
  predicate Passes(rule: Rule, init: seq<Arrival>, last: Arrival)
  {
    FilterCheck(rule, FilterRun(rule, init), last).1
  }

  /** The times at which messages of `sender` were let through. */
  function Accepted(rule: Rule, arrivals: seq<Arrival>, sender: string): seq<real>
  {
    if arrivals == [] then []
    else
      var init, last := arrivals[..|arrivals| - 1], arrivals[|arrivals| - 1];
      Accepted(rule, init, sender)
      + (if last.sender == sender && Passes(rule, init, last) then [last.time] else [])
  }

  function AcceptedByDeque(rule: Rule, arrivals: seq<Arrival>, sender: string): seq<real>
  {
    if arrivals == [] then []
    else
      var init, last := arrivals[..|arrivals| - 1], arrivals[|arrivals| - 1];
      AcceptedByDeque(rule, init, sender)
      + (if last.sender == sender && DequeCheck(rule, DequeRun(rule, init), last).1 then [last.time] else [])
  }

  // ----- The signature gate -----

  /** A parsed message; a field that is absent is `None`. */
  datatype Envelope = Envelope(from: Option<string>, signature: Option<string>, pubkey: Option<string>)

  datatype Stats = Stats(passed: nat, rejectedRate: nat, rejectedSig: nat, rejectedDeny: nat)

  datatype Verdict = Passed | RejectedRate | RejectedSig | RejectedDeny

  function Count(s: Stats, v: Verdict): Stats
  {
    match v
    case Passed => s.(passed := s.passed + 1)
    case RejectedRate => s.(rejectedRate := s.rejectedRate + 1)
    case RejectedSig => s.(rejectedSig := s.rejectedSig + 1)
    case RejectedDeny => s.(rejectedDeny := s.rejectedDeny + 1)
  }

  predicate Complete(msg: Option<Envelope>)
  {
    msg.Some? && msg.value.from.Some? && msg.value.signature.Some? && msg.value.pubkey.Some?
  }

  datatype Gate = Gate(counters: Counters, allowlist: Option<set<string>>, denylist: set<string>, stats: Stats)

  const OPEN: Gate := Gate(map[], None, {}, Stats(0, 0, 0, 0))

  /** What becomes of a message; `verified` is the outcome of the signature check. */
  function Judged(rule: Rule, g: Gate, msg: Option<Envelope>, verified: bool, now: real): Verdict
  {
    if !Complete(msg) then RejectedSig
    else
      var from := msg.value.from.value;
      if g.allowlist.Some? && from !in g.allowlist.value then RejectedDeny
      else if from in g.denylist then RejectedDeny
      else if !verified then RejectedSig
      else if FilterCheck(rule, g.counters, Arrival(from, now)).1 then Passed
      else RejectedRate
  }

  /** Only a verified message uses up its sender's quota. */
  function Checked(rule: Rule, g: Gate, msg: Option<Envelope>, verified: bool, now: real): Gate
  {
    var v := Judged(rule, g, msg, verified, now);
    g.(counters := if v in {Passed, RejectedRate} then
                     FilterCheck(rule, g.counters, Arrival(msg.value.from.value, now)).0
                   else g.counters,
       stats := Count(g.stats, v))
  }

  datatype GateEvent =
    | Message(msg: Option<Envelope>, verified: bool, now: real)
    | Allow(dids: set<string>)
    | Denied(did: string)

  function GateStep(rule: Rule, g: Gate, e: GateEvent): Gate
  {
    match e
    case Message(msg, verified, now) => Checked(rule, g, msg, verified, now)
    case Allow(dids) => g.(allowlist := Some(dids))
    case Denied(did) => g.(denylist := g.denylist + {did})
  }

  class SigGate {
    const rateLimit: int
    const window: real
    var counters: Counters
    var allowlist: Option<set<string>>
    var denylist: set<string>
    var stats: Stats

    ghost function State(): Gate
      reads this
    {
      Gate(counters, allowlist, denylist, stats)
    }

    constructor (rateLimit: int, window: real)
      ensures this.rateLimit == rateLimit && this.window == window && State() == OPEN
    {
      this.rateLimit, this.window := rateLimit, window;
      counters, allowlist, denylist, stats := map[], None, {}, Stats(0, 0, 0, 0);
    }

    method SetAllowlist(dids: set<string>)
      modifies this`allowlist
      ensures State() == GateStep(Rule(rateLimit, window, false), old(State()), Allow(dids))
    {
      allowlist := Some(dids);
    }

    method Deny(did: string)
      modifies this`denylist
      ensures State() == GateStep(Rule(rateLimit, window, false), old(State()), Denied(did))
    {
      denylist := denylist + {did};
    }

    method CheckRate(sender: string, now: real) returns (ok: bool)
      modifies this`counters
      ensures counters == FilterCheck(Rule(rateLimit, window, false), old(counters), Arrival(sender, now)).0
      ensures ok == FilterCheck(Rule(rateLimit, window, false), old(counters), Arrival(sender, now)).1
    {
      var timestamps := Times(counters, sender);
      var live := Filtered(timestamps, now);
      counters := counters[sender := live];
      if |counters[sender]| >= rateLimit {
        return false;
      }
      counters := counters[sender := counters[sender] + [now]];
      return true;
    }

    method Filtered(timestamps: seq<real>, now: real) returns (live: seq<real>)
      ensures live == Keep(Rule(rateLimit, window, false), timestamps, now)
    {
      live := [];
      for i := 0 to |timestamps|
        invariant live == Keep(Rule(rateLimit, window, false), timestamps[..i], now)
      {
        assert timestamps[..i + 1][..i] == timestamps[..i];
        if now - timestamps[i] < window {
          live := live + [timestamps[i]];
        }
      }
      assert timestamps[..|timestamps|] == timestamps;
    }

    method Check(msg: Option<Envelope>, verified: bool, now: real) returns (passed: bool)
      modifies this`counters, this`stats
      ensures passed <==> Judged(Rule(rateLimit, window, false), old(State()), msg, verified, now) == Passed
      ensures State() == GateStep(Rule(rateLimit, window, false), old(State()), Message(msg, verified, now))
    {
      if !Complete(msg) {
        stats := stats.(rejectedSig := stats.rejectedSig + 1);
        return false;
      }
      var from := msg.value.from.value;
      if allowlist.Some? && from !in allowlist.value {
        stats := stats.(rejectedDeny := stats.rejectedDeny + 1);
        return false;
      }
      if from in denylist {
        stats := stats.(rejectedDeny := stats.rejectedDeny + 1);
        return false;
      }
      if !verified {
        stats := stats.(rejectedSig := stats.rejectedSig + 1);
        return false;
      }
      var ok := CheckRate(from, now);
      if !ok {
        stats := stats.(rejectedRate := stats.rejectedRate + 1);
        return false;
      }
      stats := stats.(passed := stats.passed + 1);
      return true;
    }
  }

  // ----- The relay -----

  /** The relay's window is one second, both ends included. */
  function RelayRule(maxMsgsPerSec: int): Rule { Rule(maxMsgsPerSec, 1.0, true) }

  class RelayLimiter {
    const maxMsgsPerSec: int
    var rateLimits: Counters

    constructor (maxMsgsPerSec: int)
      ensures this.maxMsgsPerSec == maxMsgsPerSec && rateLimits == map[]
    {
      this.maxMsgsPerSec, rateLimits := maxMsgsPerSec, map[];
    }

    method CheckRateLimit(peerId: string, now: real) returns (ok: bool)
      modifies this
      ensures rateLimits == DequeCheck(RelayRule(maxMsgsPerSec), old(rateLimits), Arrival(peerId, now)).0
      ensures ok == DequeCheck(RelayRule(maxMsgsPerSec), old(rateLimits), Arrival(peerId, now)).1
    {
      if peerId !in rateLimits {
        rateLimits := rateLimits[peerId := []];
      }
      var q := rateLimits[peerId];
      while q != [] && q[0] < now - 1.0
        invariant Drop(RelayRule(maxMsgsPerSec), q, now)
                  == Drop(RelayRule(maxMsgsPerSec), Times(old(rateLimits), peerId), now)
        decreases |q|
      {
        q := q[1..];
      }
      if |q| >= maxMsgsPerSec {
        rateLimits := rateLimits[peerId := q];
        return false;
      }
      rateLimits := rateLimits[peerId := q + [now]];
      return true;
    }
  }

  // ----- Popping the head against filtering -----

  /** No expired time stands behind a live one. */
  ghost predicate ExpiredFirst(rule: Rule, ts: seq<real>, now: real)
  {
    forall i, j :: 0 <= i < j < |ts| && Live(rule, ts[i], now) ==> Live(rule, ts[j], now)
  }

  lemma {:induction false} KeepLive(rule: Rule, ts: seq<real>, now: real)
    ensures forall i :: 0 <= i < |Keep(rule, ts, now)| ==> Live(rule, Keep(rule, ts, now)[i], now)
    ensures |Keep(rule, ts, now)| <= |ts|
    ensures Keep(rule, ts, now) == ts <==> forall i :: 0 <= i < |ts| ==> Live(rule, ts[i], now)
  {
    if ts != [] {
      KeepLive(rule, ts[..|ts| - 1], now);
      assert ts == ts[..|ts| - 1] + [ts[|ts| - 1]];
      assert forall i :: 0 <= i < |ts| - 1 ==> ts[..|ts| - 1][i] == ts[i];
    }
  }

  lemma {:induction false} KeepAppend(rule: Rule, a: seq<real>, b: seq<real>, now: real)
    ensures Keep(rule, a + b, now) == Keep(rule, a, now) + Keep(rule, b, now)
  {
    if b == [] {
      assert a + b == a;
    } else {
      KeepAppend(rule, a, b[..|b| - 1], now);
      assert (a + b)[..|a + b| - 1] == a + b[..|b| - 1];
    }
  }

  /** Popping the head removes exactly what a filter would, just when no expired time is hidden behind a live one. */
  lemma {:induction false} DropIsKeepIff(rule: Rule, ts: seq<real>, now: real)
    ensures Drop(rule, ts, now) == Keep(rule, ts, now) <==> ExpiredFirst(rule, ts, now)
  {
    if ts != [] && !Live(rule, ts[0], now) {
      DropIsKeepIff(rule, ts[1..], now);
      KeepAppend(rule, [ts[0]], ts[1..], now);
      assert ts == [ts[0]] + ts[1..];
      assert Keep(rule, [ts[0]], now) == [];
      assert ExpiredFirst(rule, ts, now) <==> ExpiredFirst(rule, ts[1..], now) by {
        ExpiredFirstTail(rule, ts, now);
      }
    } else {
      KeepLive(rule, ts, now);
    }
  }

  lemma ExpiredFirstTail(rule: Rule, ts: seq<real>, now: real)
    requires ts != [] && !Live(rule, ts[0], now)
    ensures ExpiredFirst(rule, ts, now) <==> ExpiredFirst(rule, ts[1..], now)
  {
    if ExpiredFirst(rule, ts[1..], now) {
      forall i, j | 0 <= i < j < |ts| && Live(rule, ts[i], now) ensures Live(rule, ts[j], now) {
        assert ts[1..][i - 1] == ts[i] && ts[1..][j - 1] == ts[j];
      }
    }
    if ExpiredFirst(rule, ts, now) {
      forall i, j | 0 <= i < j < |ts[1..]| && Live(rule, ts[1..][i], now) ensures Live(rule, ts[1..][j], now) {
        assert ts[1..][i] == ts[i + 1] && ts[1..][j] == ts[j + 1];
      }
    }
  }

  // ----- Whole histories -----

  /** The clock does not run backwards. */
  ghost predicate Monotone(arrivals: seq<Arrival>)
  {
    forall i, j :: 0 <= i < j < |arrivals| ==> arrivals[i].time <= arrivals[j].time
  }

  /** Cleaning earlier with the same rule changes nothing for a later cleaning. */
  lemma {:induction false} KeepTwice(rule: Rule, ts: seq<real>, earlier: real, now: real)
    requires earlier <= now
    ensures Keep(rule, Keep(rule, ts, earlier), now) == Keep(rule, ts, now)
  {
    if ts != [] {
      var init, t := ts[..|ts| - 1], ts[|ts| - 1];
      KeepTwice(rule, init, earlier, now);
      KeepAppend(rule, Keep(rule, init, earlier), [t], now);
      KeepOne(rule, t, now);
      KeepOne(rule, t, earlier);
      assert Keep(rule, init, earlier) + [] == Keep(rule, init, earlier);
    }
  }

  lemma KeepOne(rule: Rule, t: real, now: real)
    ensures Keep(rule, [t], now) == if Live(rule, t, now) then [t] else []
  {
    assert [t][..0] == [];
  }

  lemma OneMore(rule: Rule, init: seq<Arrival>, last: Arrival, sender: string)
    ensures var passed := if last.sender == sender && Passes(rule, init, last) then [last.time] else [];
            var ts := Times(FilterRun(rule, init), sender);
            && Accepted(rule, init + [last], sender) == Accepted(rule, init, sender) + passed
            && Times(FilterRun(rule, init + [last]), sender)
               == (if last.sender == sender then Keep(rule, ts, last.time) else ts) + passed
  {
    hide Keep;
    assert (init + [last])[..|init|] == init;
  }

  lemma KeepStep(rule: Rule, stored: seq<real>, accepted: seq<real>, passed: seq<real>, t: real, now: real)
    requires t <= now && Keep(rule, stored, now) == Keep(rule, accepted, now)
    ensures Keep(rule, Keep(rule, stored, t) + passed, now) == Keep(rule, accepted + passed, now)
  {
    KeepTwice(rule, stored, t, now);
    KeepAppend(rule, Keep(rule, stored, t), passed, now);
    KeepAppend(rule, accepted, passed, now);
  }

  lemma MonotoneInit(init: seq<Arrival>, last: Arrival)
    requires Monotone(init + [last])
    ensures Monotone(init) && forall i :: 0 <= i < |init| ==> init[i].time <= last.time
  {
    var all := init + [last];
    assert all[|init|] == last && forall i :: 0 <= i < |init| ==> all[i] == init[i];
  }

  /** What is stored serves every later check as well as the whole accepted history. */
  lemma {:induction false} StoredIsEnough(rule: Rule, arrivals: seq<Arrival>, sender: string, now: real)
    requires Monotone(arrivals) && (arrivals != [] ==> arrivals[|arrivals| - 1].time <= now)
    ensures Keep(rule, Times(FilterRun(rule, arrivals), sender), now)
            == Keep(rule, Accepted(rule, arrivals, sender), now)
  {
    if arrivals != [] {
      var init, last := arrivals[..|arrivals| - 1], arrivals[|arrivals| - 1];
      assert arrivals == init + [last];
      hide Keep, FilterRun, Accepted, FilterCheck, Passes;
      MonotoneInit(init, last);
      StoredIsEnough(rule, init, sender, now);
      OneMore(rule, init, last, sender);
      var ts := Times(FilterRun(rule, init), sender);
      var passed := if last.sender == sender && Passes(rule, init, last) then [last.time] else [];
      if last.sender == sender {
        KeepStep(rule, ts, Accepted(rule, init, sender), passed, last.time, now);
      } else {
        assert ts + [] == ts && Accepted(rule, init, sender) + [] == Accepted(rule, init, sender);
      }
    }
  }

  // ----- Windows -----

  /** How many of the times lie between `lo` and `hi`, both included. */
  function Within(ts: seq<real>, lo: real, hi: real): nat
  {
    if ts == [] then 0
    else Within(ts[..|ts| - 1], lo, hi) + (if lo <= ts[|ts| - 1] <= hi then 1 else 0)
  }

  /** The same with `lo` left out. */
  function After(ts: seq<real>, lo: real, hi: real): nat
  {
    if ts == [] then 0
    else After(ts[..|ts| - 1], lo, hi) + (if lo < ts[|ts| - 1] <= hi then 1 else 0)
  }

  /** The same with `hi` left out. */
  function Until(ts: seq<real>, lo: real, hi: real): nat
  {
    if ts == [] then 0
    else Until(ts[..|ts| - 1], lo, hi) + (if lo <= ts[|ts| - 1] < hi then 1 else 0)
  }

  lemma {:induction false} LiveAreRecent(rule: Rule, ts: seq<real>, now: real)
    requires forall i :: 0 <= i < |ts| ==> ts[i] <= now
    ensures |Keep(rule, ts, now)|
            == if rule.closed then Within(ts, now - rule.window, now) else After(ts, now - rule.window, now)
  {
    if ts != [] {
      LiveAreRecent(rule, ts[..|ts| - 1], now);
    }
  }

  lemma {:induction false} AcceptedEarlier(rule: Rule, arrivals: seq<Arrival>, sender: string, now: real)
    requires forall i :: 0 <= i < |arrivals| ==> arrivals[i].time <= now
    ensures forall i :: 0 <= i < |Accepted(rule, arrivals, sender)| ==> Accepted(rule, arrivals, sender)[i] <= now
  {
    if arrivals != [] {
      AcceptedEarlier(rule, arrivals[..|arrivals| - 1], sender, now);
      hide Passes;
    }
  }

  /**
   * A message is let through exactly when fewer than `limit` of its sender's were in the window that
   * ends now: with the time `now - window` itself in a closed window, without it in an open one.
   */
  lemma RefusedIffFull(rule: Rule, arrivals: seq<Arrival>, a: Arrival)
    requires Monotone(arrivals + [a])
    ensures var accepted, from := Accepted(rule, arrivals, a.sender), a.time - rule.window;
            Passes(rule, arrivals, a)
            <==> (if rule.closed then Within(accepted, from, a.time) else After(accepted, from, a.time)) < rule.limit
  {
    hide *;
    MonotoneInit(arrivals, a);
    PassesIff(rule, arrivals, a);
    LatestIsEarlier(arrivals, a.time);
    StoredIsEnough(rule, arrivals, a.sender, a.time);
    AcceptedEarlier(rule, arrivals, a.sender, a.time);
    LiveAreRecent(rule, Accepted(rule, arrivals, a.sender), a.time);
  }

  lemma PassesIff(rule: Rule, arrivals: seq<Arrival>, a: Arrival)
    ensures Passes(rule, arrivals, a) <==> |Keep(rule, Times(FilterRun(rule, arrivals), a.sender), a.time)| < rule.limit
  {
    hide Keep, FilterRun, Times;
  }

  lemma LatestIsEarlier(arrivals: seq<Arrival>, now: real)
    requires forall i :: 0 <= i < |arrivals| ==> arrivals[i].time <= now
    ensures arrivals != [] ==> arrivals[|arrivals| - 1].time <= now
  {
  }

  /** How many times fall in the window that opens at `from`. */
  function InWindow(rule: Rule, ts: seq<real>, from: real): nat
  {
    if rule.closed then Within(ts, from, from + rule.window) else Until(ts, from, from + rule.window)
  }

  /** A window that has a time `now` in it has no more than the window that ends then. */
  lemma {:induction false} WindowIsRecent(rule: Rule, ts: seq<real>, from: real, now: real)
    requires now < from + rule.window || (rule.closed && now == from + rule.window)
    requires forall i :: 0 <= i < |ts| ==> ts[i] <= now
    ensures InWindow(rule, ts, from)
            <= if rule.closed then Within(ts, now - rule.window, now) else After(ts, now - rule.window, now)
  {
    if ts != [] {
      WindowIsRecent(rule, ts[..|ts| - 1], from, now);
    }
  }

  lemma WindowMore(rule: Rule, ts: seq<real>, t: real, from: real)
    ensures InWindow(rule, ts + [t], from) == InWindow(rule, ts, from)
            || (InWindow(rule, ts + [t], from) == InWindow(rule, ts, from) + 1
                && (t < from + rule.window || (rule.closed && t == from + rule.window)))
  {
    assert (ts + [t])[..|ts|] == ts;
  }

  lemma WindowTakesOne(rule: Rule, init: seq<Arrival>, last: Arrival, from: real)
    requires Monotone(init + [last]) && Passes(rule, init, last)
    ensures var before := Accepted(rule, init, last.sender);
            InWindow(rule, before + [last.time], from) <= InWindow(rule, before, from)
            || InWindow(rule, before + [last.time], from) <= rule.limit
  {
    MonotoneInit(init, last);
    RefusedIffFull(rule, init, last);
    AcceptedEarlier(rule, init, last.sender, last.time);
    hide *;
    var before := Accepted(rule, init, last.sender);
    WindowMore(rule, before, last.time, from);
    if last.time < from + rule.window || (rule.closed && last.time == from + rule.window) {
      WindowIsRecent(rule, before, from, last.time);
    }
  }

  /** Every window, wherever it opens, holds at most `limit` accepted messages of a sender. */
  lemma {:induction false} EveryWindowWithinLimit(rule: Rule, arrivals: seq<Arrival>, sender: string, from: real)
    requires Monotone(arrivals)
    ensures InWindow(rule, Accepted(rule, arrivals, sender), from) <= if rule.limit < 0 then 0 else rule.limit
  {
    if arrivals != [] {
      var init, last := arrivals[..|arrivals| - 1], arrivals[|arrivals| - 1];
      assert arrivals == init + [last];
      hide Keep, FilterRun, Accepted, FilterCheck, Passes, InWindow;
      MonotoneInit(init, last);
      EveryWindowWithinLimit(rule, init, sender, from);
      OneMore(rule, init, last, sender);
      var before := Accepted(rule, init, sender);
      hide Monotone;
      if last.sender == sender && Passes(rule, init, last) {
        WindowTakesOne(rule, init, last, from);
      } else {
        assert before + [] == before;
      }
    }
  }

  // The deque agrees with the filter.

  ghost predicate Ascending(ts: seq<real>, now: real)
  {
    && (forall i, j :: 0 <= i < j < |ts| ==> ts[i] <= ts[j])
    && (forall i :: 0 <= i < |ts| ==> ts[i] <= now)
  }

  lemma {:induction false} KeepAscending(rule: Rule, ts: seq<real>, now: real, clock: real)
    requires Ascending(ts, now)
    ensures Ascending(Keep(rule, ts, clock), now)
  {
    if ts != [] {
      KeepAscending(rule, ts[..|ts| - 1], now, clock);
      KeepBelow(rule, ts[..|ts| - 1], ts[|ts| - 1], clock);
    }
  }

  lemma {:induction false} KeepBelow(rule: Rule, ts: seq<real>, bound: real, clock: real)
    requires forall i :: 0 <= i < |ts| ==> ts[i] <= bound
    ensures forall i :: 0 <= i < |Keep(rule, ts, clock)| ==> Keep(rule, ts, clock)[i] <= bound
  {
    if ts != [] {
      KeepBelow(rule, ts[..|ts| - 1], bound, clock);
    }
  }

  lemma AscendingMore(ts: seq<real>, passed: seq<real>, t: real, now: real)
    requires Ascending(ts, t) && t <= now && (passed == [] || passed == [t])
    ensures Ascending(ts + passed, now)
  {
  }

  lemma {:induction false} StoredAscending(rule: Rule, arrivals: seq<Arrival>, sender: string, now: real)
    requires Monotone(arrivals) && (arrivals != [] ==> arrivals[|arrivals| - 1].time <= now)
    ensures Ascending(Times(FilterRun(rule, arrivals), sender), now)
  {
    if arrivals != [] {
      var init, last := arrivals[..|arrivals| - 1], arrivals[|arrivals| - 1];
      assert arrivals == init + [last];
      hide Keep, FilterRun, Accepted, Passes, Ascending;
      MonotoneInit(init, last);
      StoredAscending(rule, init, sender, last.time);
      OneMore(rule, init, last, sender);
      var ts := Times(FilterRun(rule, init), sender);
      KeepAscending(rule, ts, last.time, last.time);
      var passed := if last.sender == sender && Passes(rule, init, last) then [last.time] else [];
      AscendingMore(if last.sender == sender then Keep(rule, ts, last.time) else ts, passed, last.time, now);
    }
  }

  lemma AscendingDrop(rule: Rule, ts: seq<real>, now: real, clock: real)
    requires Ascending(ts, now)
    ensures Drop(rule, ts, clock) == Keep(rule, ts, clock)
  {
    DropIsKeepIff(rule, ts, clock);
  }

  /** Under a monotone clock the deque holds, admits and refuses what the filter does. */
  lemma {:induction false} DequeIsFilter(rule: Rule, arrivals: seq<Arrival>, sender: string)
    requires Monotone(arrivals)
    ensures DequeRun(rule, arrivals) == FilterRun(rule, arrivals)
    ensures AcceptedByDeque(rule, arrivals, sender) == Accepted(rule, arrivals, sender)
  {
    if arrivals != [] {
      var init, last := arrivals[..|arrivals| - 1], arrivals[|arrivals| - 1];
      assert arrivals == init + [last];
      MonotoneInit(init, last);
      DequeIsFilter(rule, init, sender);
      StoredAscending(rule, init, last.sender, last.time);
      AscendingDrop(rule, Times(FilterRun(rule, init), last.sender), last.time, last.time);
      hide Keep, Drop, Ascending, Monotone, Admit, Times;
    }
  }

  /** At the relay no second, both ends included, holds more than the configured number of one peer's messages. */
  lemma RelayWindow(maxMsgsPerSec: nat, arrivals: seq<Arrival>, peer: string, from: real)
    requires Monotone(arrivals)
    ensures Within(AcceptedByDeque(RelayRule(maxMsgsPerSec), arrivals, peer), from, from + 1.0) <= maxMsgsPerSec
  {
    DequeIsFilter(RelayRule(maxMsgsPerSec), arrivals, peer);
    EveryWindowWithinLimit(RelayRule(maxMsgsPerSec), arrivals, peer, from);
  }

  /** The relay refuses a message exactly when as many as configured were let through in the second up to now. */
  lemma RelayRefusesIff(maxMsgsPerSec: int, arrivals: seq<Arrival>, a: Arrival)
    requires Monotone(arrivals + [a])
    ensures var rule := RelayRule(maxMsgsPerSec);
            DequeCheck(rule, DequeRun(rule, arrivals), a).1
            <==> Within(AcceptedByDeque(rule, arrivals, a.sender), a.time - 1.0, a.time) < maxMsgsPerSec
  {
    var rule := RelayRule(maxMsgsPerSec);
    MonotoneInit(arrivals, a);
    DequeIsFilter(rule, arrivals, a.sender);
    RefusedIffFull(rule, arrivals, a);
    StoredAscending(rule, arrivals, a.sender, a.time);
    AscendingDrop(rule, Times(FilterRun(rule, arrivals), a.sender), a.time, a.time);
  }
}
