/**
 * The signature gate over whole runs (phase0/sig_gate.py:24-95): lists that change, messages that
 * pass or do not, and the counters it keeps of them.
 */
module GateHistory {
  import opened Wrappers
  import opened RateLimit

  function GateRun(rule: Rule, es: seq<GateEvent>): Gate
  {
    if es == [] then OPEN else GateStep(rule, GateRun(rule, es[..|es| - 1]), es[|es| - 1])
  }

  /** The list set last, if any, has this sender, who has never been denied. */
  ghost predicate Welcome(es: seq<GateEvent>, sender: string)
  {
    && (forall i :: 0 <= i < |es| ==> es[i] != Denied(sender))
    && (forall i :: 0 <= i < |es| && es[i].Allow? && (forall j :: i < j < |es| ==> !es[j].Allow?) ==>
          sender in es[i].dids)
  }

  lemma {:induction false} ListsRemember(rule: Rule, es: seq<GateEvent>, sender: string)
    ensures var g := GateRun(rule, es);
            && (sender in g.denylist <==> exists i :: 0 <= i < |es| && es[i] == Denied(sender))
            && (g.allowlist.None? ==> forall i :: 0 <= i < |es| ==> !es[i].Allow?)
            && (g.allowlist.Some? ==> exists i :: 0 <= i < |es| && es[i] == Allow(g.allowlist.value)
                                                  && forall j :: i < j < |es| ==> !es[j].Allow?)
  {
    if es != [] {
      var init, e := es[..|es| - 1], es[|es| - 1];
      ListsRemember(rule, init, sender);
      var g, g' := GateRun(rule, init), GateRun(rule, es);
      assert e == es[|init|] && forall i :: 0 <= i < |init| ==> init[i] == es[i];
      assert !e.Allow? ==> g'.allowlist == g.allowlist;
      hide Judged, Checked;
      if g.allowlist.Some? && !e.Allow? {
        var i :| 0 <= i < |init| && init[i] == Allow(g.allowlist.value) && forall j :: i < j < |init| ==> !init[j].Allow?;
        assert es[i] == Allow(g'.allowlist.value) && forall j :: i < j < |es| ==> !es[j].Allow?;
      }
    }
  }

  lemma WelcomeIff(rule: Rule, es: seq<GateEvent>, sender: string)
    ensures var g := GateRun(rule, es);
            Welcome(es, sender) <==> sender !in g.denylist && (g.allowlist.Some? ==> sender in g.allowlist.value)
  {
    ListsRemember(rule, es, sender);
    hide GateRun;
  }

  /** What the rate limit gets to see: the complete, verified messages of welcome senders. */
  ghost function Eligible(es: seq<GateEvent>): seq<Arrival>
  {
    if es == [] then []
    else
      var init, e := es[..|es| - 1], es[|es| - 1];
      Eligible(init)
      + (if IsEligible(init, e)
         then [Arrival(e.msg.value.from.value, e.now)] else [])
  }

  ghost predicate IsEligible(init: seq<GateEvent>, e: GateEvent)
  {
    e.Message? && Complete(e.msg) && e.verified && Welcome(init, e.msg.value.from.value)
  }

  lemma EligibleMore(init: seq<GateEvent>, e: GateEvent)
    ensures Eligible(init + [e])
            == Eligible(init) + (if IsEligible(init, e) then [Arrival(e.msg.value.from.value, e.now)] else [])
  {
    assert (init + [e])[..|init|] == init;
  }

  lemma CountersStep(rule: Rule, init: seq<GateEvent>, e: GateEvent)
    ensures var g := GateRun(rule, init);
            GateStep(rule, g, e).counters
            == if IsEligible(init, e) then FilterCheck(rule, g.counters, Arrival(e.msg.value.from.value, e.now)).0
               else g.counters
  {
    if e.Message? && Complete(e.msg) {
      WelcomeIff(rule, init, e.msg.value.from.value);
    }
    hide FilterCheck, Welcome, Count, GateRun;
  }

  lemma RunMore(rule: Rule, arrivals: seq<Arrival>, a: Arrival)
    ensures FilterRun(rule, arrivals + [a]) == FilterCheck(rule, FilterRun(rule, arrivals), a).0
  {
    hide FilterCheck;
    assert (arrivals + [a])[..|arrivals|] == arrivals;
  }

  lemma {:induction false} CountersFollow(rule: Rule, es: seq<GateEvent>)
    ensures GateRun(rule, es).counters == FilterRun(rule, Eligible(es))
  {
    if es != [] {
      var init, e := es[..|es| - 1], es[|es| - 1];
      CountersFollow(rule, init);
      CountersStep(rule, init, e);
      assert es == init + [e];
      hide FilterCheck, FilterRun, IsEligible, Eligible, GateStep;
      EligibleMore(init, e);
      if IsEligible(init, e) {
        RunMore(rule, Eligible(init), Arrival(e.msg.value.from.value, e.now));
      } else {
        assert Eligible(init) + [] == Eligible(init);
      }
    }
  }

  /** The times at which messages of `sender` have passed the gate. */
  function PassedAt(rule: Rule, es: seq<GateEvent>, sender: string): seq<real>
  {
    if es == [] then []
    else
      var init, e := es[..|es| - 1], es[|es| - 1];
      PassedAt(rule, init, sender)
      + (if e.Message? && Judged(rule, GateRun(rule, init), e.msg, e.verified, e.now) == Passed
            && e.msg.value.from.value == sender then [e.now] else [])
  }

  lemma PassedIff(rule: Rule, init: seq<GateEvent>, e: GateEvent)
    requires e.Message? && Complete(e.msg)
    ensures Judged(rule, GateRun(rule, init), e.msg, e.verified, e.now) == Passed
            <==> IsEligible(init, e)
                 && Passes(rule, Eligible(init), Arrival(e.msg.value.from.value, e.now))
  {
    WelcomeIff(rule, init, e.msg.value.from.value);
    CountersFollow(rule, init);
    hide FilterCheck, Welcome, GateRun, FilterRun, Eligible;
  }

  lemma AcceptedMore(rule: Rule, arrivals: seq<Arrival>, a: Arrival, sender: string)
    ensures Accepted(rule, arrivals + [a], sender)
            == Accepted(rule, arrivals, sender) + (if a.sender == sender && Passes(rule, arrivals, a) then [a.time] else [])
  {
    hide Passes;
    assert (arrivals + [a])[..|arrivals|] == arrivals;
  }

  lemma {:induction false} PassedFollow(rule: Rule, es: seq<GateEvent>, sender: string)
    ensures PassedAt(rule, es, sender) == Accepted(rule, Eligible(es), sender)
  {
    if es != [] {
      var init, e := es[..|es| - 1], es[|es| - 1];
      PassedFollow(rule, init, sender);
      assert es == init + [e];
      assert e.Message? && !Complete(e.msg) ==> Judged(rule, GateRun(rule, init), e.msg, e.verified, e.now) != Passed;
      hide Judged, Passes, Accepted, Eligible, GateRun;
      EligibleMore(init, e);
      var before := Accepted(rule, Eligible(init), sender);
      assert before + [] == before;
      if e.Message? && Complete(e.msg) {
        PassedIff(rule, init, e);
        AcceptedMore(rule, Eligible(init), Arrival(e.msg.value.from.value, e.now), sender);
      }
      hide IsEligible;
      assert Eligible(init) + [] == Eligible(init);
    }
  }

  /** The messages are timed by a clock that does not run backwards. */
  ghost predicate InOrder(es: seq<GateEvent>)
  {
    forall i, j :: 0 <= i < j < |es| && es[i].Message? && es[j].Message? ==> es[i].now <= es[j].now
  }

  lemma {:induction false} EligibleInOrder(es: seq<GateEvent>, now: real)
    requires InOrder(es) && forall i :: 0 <= i < |es| && es[i].Message? ==> es[i].now <= now
    ensures Monotone(Eligible(es)) && forall i :: 0 <= i < |Eligible(es)| ==> Eligible(es)[i].time <= now
  {
    if es != [] {
      var init, e := es[..|es| - 1], es[|es| - 1];
      assert e == es[|init|] && forall i :: 0 <= i < |init| ==> init[i] == es[i];
      EligibleInOrder(init, now);
      if e.Message? {
        EligibleInOrder(init, e.now);
      }
      hide Welcome;
    }
  }

  lemma QuotaLeftIff(rule: Rule, es: seq<GateEvent>, a: Arrival)
    requires !rule.closed && Monotone(Eligible(es) + [a])
    ensures FilterCheck(rule, GateRun(rule, es).counters, a).1
            <==> After(PassedAt(rule, es, a.sender), a.time - rule.window, a.time) < rule.limit
  {
    hide Eligible, GateRun, PassedAt, After, FilterCheck, FilterRun, Accepted, Monotone;
    CountersFollow(rule, es);
    PassedFollow(rule, es, a.sender);
    RefusedIffFull(rule, Eligible(es), a);
  }

  /**
   * The gate in full.  After any events under a monotone clock a message passes exactly when it is
   * complete, its signature holds, its sender is welcome, and fewer than the limit of its sender's
   * messages have passed since `window` ago; the rate limit is blamed only if nothing else is wrong,
   * the lists if the message is complete, and the signature otherwise.
   */
  lemma GateJudges(rateLimit: int, window: real, es: seq<GateEvent>, msg: Option<Envelope>, verified: bool, now: real)
    requires InOrder(es + [Message(msg, verified, now)])
    ensures var rule := Rule(rateLimit, window, false);
            var v := Judged(rule, GateRun(rule, es), msg, verified, now);
            if !Complete(msg) then v == RejectedSig
            else
              var from := msg.value.from.value;
              && (v == RejectedDeny <==> !Welcome(es, from))
              && (v == RejectedSig <==> Welcome(es, from) && !verified)
              && (v == Passed <==> && Welcome(es, from) && verified
                                   && After(PassedAt(rule, es, from), now - window, now) < rateLimit)
  {
    var rule := Rule(rateLimit, window, false);
    var all := es + [Message(msg, verified, now)];
    assert all[|es|] == Message(msg, verified, now) && forall i :: 0 <= i < |es| ==> all[i] == es[i];
    hide GateRun, Eligible, PassedAt, After, Welcome, Judged;
    EligibleInOrder(es, now);
    hide InOrder;
    if Complete(msg) {
      var from := msg.value.from.value;
      WelcomeIff(rule, es, from);
      QuotaLeftIff(rule, es, Arrival(from, now));
    }
    JudgedIs(rule, GateRun(rule, es), msg, verified, now);
  }

  lemma JudgedIs(rule: Rule, g: Gate, msg: Option<Envelope>, verified: bool, now: real)
    ensures var v := Judged(rule, g, msg, verified, now);
            if !Complete(msg) then v == RejectedSig
            else
              var from := msg.value.from.value;
              var welcome := from !in g.denylist && (g.allowlist.Some? ==> from in g.allowlist.value);
              && (v == RejectedDeny <==> !welcome)
              && (v == RejectedSig <==> welcome && !verified)
              && (v == Passed <==> welcome && verified && FilterCheck(rule, g.counters, Arrival(from, now)).1)
  {
    hide FilterCheck;
  }

  lemma WindowOfGate(rule: Rule, ts: seq<real>, from: real)
    requires !rule.closed
    ensures InWindow(rule, ts, from) == Until(ts, from, from + rule.window)
  {
  }

  /** No window that lasts `window` from its opening on lets more of one sender's messages pass than the limit. */
  lemma GateWindow(rateLimit: nat, window: real, es: seq<GateEvent>, sender: string, from: real)
    requires InOrder(es)
    ensures Until(PassedAt(Rule(rateLimit, window, false), es, sender), from, from + window) <= rateLimit
  {
    var rule := Rule(rateLimit, window, false);
    hide *;
    EligibleInOrder(es, LatestOf(es));
    PassedFollow(rule, es, sender);
    WindowOfGate(rule, PassedAt(rule, es, sender), from);
    EveryWindowWithinLimit(rule, Eligible(es), sender, from);
  }

  /** A time no message is later than. */
  ghost function LatestOf(es: seq<GateEvent>): (t: real)
    ensures forall i :: 0 <= i < |es| && es[i].Message? ==> es[i].now <= t
  {
    if es == [] then 0.0
    else
      var t, e := LatestOf(es[..|es| - 1]), es[|es| - 1];
      assert forall i :: 0 <= i < |es| - 1 ==> es[..|es| - 1][i] == es[i];
      if e.Message? && e.now > t then e.now else t
  }

  /** How many messages met with this verdict. */
  function Verdicts(rule: Rule, es: seq<GateEvent>, v: Verdict): nat
  {
    if es == [] then 0
    else
      var init, e := es[..|es| - 1], es[|es| - 1];
      Verdicts(rule, init, v)
      + (if e.Message? && Judged(rule, GateRun(rule, init), e.msg, e.verified, e.now) == v then 1 else 0)
  }

  /** The four counters are what they say, in every run. */
  lemma {:induction false} StatsAreVerdicts(rule: Rule, es: seq<GateEvent>)
    ensures GateRun(rule, es).stats == Stats(Verdicts(rule, es, Passed), Verdicts(rule, es, RejectedRate),
                                             Verdicts(rule, es, RejectedSig), Verdicts(rule, es, RejectedDeny))
  {
    if es != [] {
      StatsAreVerdicts(rule, es[..|es| - 1]);
      hide Judged;
    }
  }
}
