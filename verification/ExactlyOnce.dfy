/**
 * Exactly-once delivery (coordination/coordinator.py:129-155, coordination/dedup.py:72-105,
 * coordination/consumer_group.py:61-86): a stream of commits with repeats, in any order and
 * with clean-ups in between, against sending each message of a topic once, at its first occurrence.
 */
module ExactlyOnce {
  import opened Wrappers
  import opened StableSort
  import opened MicroRaftNode
  import opened ReorderBuffer
  import opened ConsumerGroups
  import opened Coordination
  import opened CoordinatorNode
  import opened NodeRun
  import Dedup

  // ----- The reference: no log, no clock -----

  /** The group after each message has been sent to it once. */
  function SendAll(ms: Group, topic: string, xs: seq<Msg>): (r: Group)
    ensures |r| == |ms|
  {
    if xs == [] then ms else Sent(SendAll(ms, topic, xs[..|xs| - 1]), topic, xs[|xs| - 1])
  }

  /** The first occurrence of a number, and when it was logged. */
  datatype First = First(msg: Msg, mark: real)

  predicate Known(fs: seq<First>, n: int) { exists i :: 0 <= i < |fs| && fs[i].msg.seqNo == n }

  /** The messages of a topic in the stream, each number at its first occurrence. */
  function Firsts(es: seq<Event>, topic: string): seq<First>
  {
    if es == [] then []
    else
      var before, e := Firsts(es[..|es| - 1], topic), es[|es| - 1];
      if IsOf(e, topic) && !Known(before, e.command.seqNo) then before + [First(MsgOf(e), e.mark)]
      else before
  }

  function Once(fs: seq<First>): seq<Msg>
  {
    seq(|fs|, i requires 0 <= i < |fs| => fs[i].msg)
  }

  // ----- Time -----

  /** The last clock reading. */
  function Latest(es: seq<Event>, from: real): real
  {
    if es == [] then from
    else
      match es[|es| - 1]
      case Commit(_, _, mark) => mark
      case CleanUp(now) => now
      case _ => Latest(es[..|es| - 1], from)
  }

  /**
   * The clock does not run backwards, and each repeat of a message of the topic is looked up
   * before the entry of its first occurrence expires.
   */
  ghost predicate InTime(es: seq<Event>, from: real, topic: string, ttl: real)
  {
    es == [] ||
    (var init, e := es[..|es| - 1], es[|es| - 1];
     && InTime(init, from, topic, ttl)
     && (e.Commit? ==> Latest(init, from) <= e.check <= e.mark)
     && (e.CleanUp? ==> Latest(init, from) <= e.now)
     && (IsOf(e, topic) ==>
           forall i :: 0 <= i < |Firsts(init, topic)| && Firsts(init, topic)[i].msg.seqNo == e.command.seqNo ==>
             e.check < Firsts(init, topic)[i].mark + ttl))
  }

  /** The log against the first occurrences: an entry stays until its expiry has passed. */
  ghost predicate Logged(table: Dedup.Table, fs: seq<First>, topic: string, latest: real, ttl: real)
  {
    && (forall n :: Dedup.MsgId(topic, n) in table ==> Known(fs, n))
    && (forall i :: 0 <= i < |fs| ==> Entry(table, fs[i], topic, latest, ttl))
  }

  ghost predicate Entry(table: Dedup.Table, f: First, topic: string, latest: real, ttl: real)
  {
    var id := Dedup.MsgId(topic, f.msg.seqNo);
    if id in table then table[id] == f.mark + ttl else f.mark + ttl < latest
  }

  lemma LoggedSkips(table: Dedup.Table, fs: seq<First>, topic: string, latest: real, ttl: real, n: int, check: real)
    requires Logged(table, fs, topic, latest, ttl) && latest <= check && Known(fs, n)
    requires forall i :: 0 <= i < |fs| && fs[i].msg.seqNo == n ==> check < fs[i].mark + ttl
    ensures Dedup.IsProcessed(table, Dedup.MsgId(topic, n), check)
  {
    var i :| 0 <= i < |fs| && fs[i].msg.seqNo == n;
    assert Entry(table, fs[i], topic, latest, ttl);
  }

  lemma LoggedMore(table: Dedup.Table, fs: seq<First>, topic: string, latest: real, ttl: real, f: First)
    requires Logged(table, fs, topic, latest, ttl) && !Known(fs, f.msg.seqNo) && latest <= f.mark
    ensures Logged(table[Dedup.MsgId(topic, f.msg.seqNo) := f.mark + ttl], fs + [f], topic, f.mark, ttl)
  {
    var id := Dedup.MsgId(topic, f.msg.seqNo);
    var table', more := table[id := f.mark + ttl], fs + [f];
    forall n | Dedup.MsgId(topic, n) in table' ensures Known(more, n) {
      if Dedup.MsgId(topic, n) == id {
        Dedup.MsgIdInjective(topic, n, topic, f.msg.seqNo);
        assert more[|fs|].msg.seqNo == n;
      } else {
        var i :| 0 <= i < |fs| && fs[i].msg.seqNo == n;
        assert more[i].msg.seqNo == n;
      }
    }
    forall i | 0 <= i < |more| ensures Entry(table', more[i], topic, f.mark, ttl) {
      if i < |fs| {
        assert Entry(table, fs[i], topic, latest, ttl);
        if Dedup.MsgId(topic, fs[i].msg.seqNo) == id {
          Dedup.MsgIdInjective(topic, fs[i].msg.seqNo, topic, f.msg.seqNo);
        }
      }
    }
  }

  lemma LoggedElsewhere(d: Delivery, e: Event, ttl: real, topic: string, fs: seq<First>, latest: real, latest': real)
    requires Logged(d.table, fs, topic, latest, ttl) && !IsOf(e, topic) && latest <= latest'
    requires e.CleanUp? ==> e.now <= latest'
    ensures Logged(Happens(d, e, ttl).table, fs, topic, latest', ttl)
  {
    var table' := Happens(d, e, ttl).table;
    forall n | Dedup.MsgId(topic, n) in table' ensures Known(fs, n) {
      IdsUntouched(d, e, ttl, topic, n);
    }
    forall i | 0 <= i < |fs| ensures Entry(table', fs[i], topic, latest', ttl) {
      IdsUntouched(d, e, ttl, topic, fs[i].msg.seqNo);
      assert Entry(d.table, fs[i], topic, latest, ttl);
    }
  }

  // ----- A group whose members are all subscribed -----

  function ReceivedBy(ms: Group, topic: string, xs: seq<Msg>): (r: Group)
    requires AllSubscribed(ms, topic)
    ensures AllSubscribed(r, topic) && |r| == |ms|
  {
    seq(|ms|, i requires 0 <= i < |ms| => ms[i].(consumer := ReceiveAll(ms[i].consumer, topic, xs)))
  }

  /** Nobody fails, and everybody receives. */
  lemma SentToSubscribed(ms: Group, topic: string, m: Msg)
    requires AllSubscribed(ms, topic)
    ensures Stop(ms, topic, m) == |ms| && AllSubscribed(Sent(ms, topic, m), topic)
    ensures forall i :: 0 <= i < |ms| ==>
              Sent(ms, topic, m)[i] == ms[i].(consumer := Receive(ms[i].consumer, topic, m))
  {
    assert forall i :: 0 <= i < |ms| ==> Subscribed(ms[i].consumer, topic) && !OnArrival(ms[i].consumer, topic, m).1;
    forall i | 0 <= i < |ms| ensures Subscribed(Receive(ms[i].consumer, topic, m), topic) {
      assert Receive(ms[i].consumer, topic, m) == ReceiveAll(ms[i].consumer, topic, [m]) by {
        assert [m][..0] == [];
      }
    }
    hide Receive;
  }

  lemma ReceivedMore(ms: Group, topic: string, xs: seq<Msg>, m: Msg)
    requires AllSubscribed(ms, topic)
    ensures Sent(ReceivedBy(ms, topic, xs), topic, m) == ReceivedBy(ms, topic, xs + [m])
    ensures Stop(ReceivedBy(ms, topic, xs), topic, m) == |ms|
  {
    var r := ReceivedBy(ms, topic, xs);
    SentToSubscribed(r, topic, m);
    assert |Sent(r, topic, m)| == |ms|;
    hide Receive, Sent, Stop;
    forall i | 0 <= i < |ms| ensures Sent(r, topic, m)[i] == ReceivedBy(ms, topic, xs + [m])[i] {
      ReceiveOneMore(ms[i].consumer, topic, xs, m);
    }
  }

  lemma ReceiveOneMore(c: Consumer, topic: string, xs: seq<Msg>, m: Msg)
    requires Subscribed(c, topic)
    ensures ReceiveAll(c, topic, xs + [m]) == Receive(ReceiveAll(c, topic, xs), topic, m)
  {
    hide Receive;
    assert (xs + [m])[..|xs|] == xs;
  }

  lemma {:induction false} SendAllIsReceived(ms: Group, topic: string, xs: seq<Msg>)
    requires AllSubscribed(ms, topic)
    ensures SendAll(ms, topic, xs) == ReceivedBy(ms, topic, xs)
  {
    hide Sent, Stop;
    if xs == [] {
      ReceivedNothing(ms, topic);
      assert Once([]) == [];
    } else {
      SendAllIsReceived(ms, topic, xs[..|xs| - 1]);
      ReceivedMore(ms, topic, xs[..|xs| - 1], xs[|xs| - 1]);
      assert xs == xs[..|xs| - 1] + [xs[|xs| - 1]];
      hide ReceivedBy, AllSubscribed;
    }
  }

  /** One event, with the group and the log as they should be. */
  lemma InvisibleStep(d: Delivery, e: Event, ttl: real, topic: string, ms: Group, fs: seq<First>, latest: real)
    requires GroupOf(topic) in d.groups && AllSubscribed(ms, topic) && Steady([e], GroupOf(topic))
    requires d.groups[GroupOf(topic)] == ReceivedBy(ms, topic, Once(fs))
    requires Logged(d.table, fs, topic, latest, ttl)
    requires e.Commit? ==> latest <= e.check <= e.mark
    requires e.CleanUp? ==> latest <= e.now
    requires IsOf(e, topic) ==>
               forall i :: 0 <= i < |fs| && fs[i].msg.seqNo == e.command.seqNo ==> e.check < fs[i].mark + ttl
    ensures var d', g := Happens(d, e, ttl), GroupOf(topic);
            var fs' := if IsOf(e, topic) && !Known(fs, e.command.seqNo) then fs + [First(MsgOf(e), e.mark)] else fs;
            var latest' := if e.Commit? then e.mark else if e.CleanUp? then e.now else latest;
            && g in d'.groups && d'.groups[g] == ReceivedBy(ms, topic, Once(fs')) && Logged(d'.table, fs', topic, latest', ttl)
  {
    hide Dedup.MsgId, Stop, Sent, ReceivedBy, AllSubscribed, Once;
    var latest' := if e.Commit? then e.mark else if e.CleanUp? then e.now else latest;
    if !IsOf(e, topic) {
      GroupUntouched(d, e, ttl, topic);
      LoggedElsewhere(d, e, ttl, topic, fs, latest, latest');
    } else if Known(fs, e.command.seqNo) {
      LoggedSkips(d.table, fs, topic, latest, ttl, e.command.seqNo, e.check);
      LoggedLater(d.table, fs, topic, latest, latest', ttl);
    } else {
      var f := First(MsgOf(e), e.mark);
      CommitBroadcasts(d, e, ttl, topic);
      OnceMore(fs, f);
      ReceivedMore(ms, topic, Once(fs), f.msg);
      LoggedMore(d.table, fs, topic, latest, ttl, f);
    }
  }

  lemma OnceMore(fs: seq<First>, f: First)
    ensures Once(fs + [f]) == Once(fs) + [f.msg]
  {
  }

  lemma LoggedLater(table: Dedup.Table, fs: seq<First>, topic: string, latest: real, latest': real, ttl: real)
    requires Logged(table, fs, topic, latest, ttl) && latest <= latest'
    ensures Logged(table, fs, topic, latest', ttl)
  {
    hide Dedup.MsgId;
    forall i | 0 <= i < |fs| ensures Entry(table, fs[i], topic, latest', ttl) {
      assert Entry(table, fs[i], topic, latest, ttl);
    }
  }

  /**
   * If every member of a topic's group is subscribed, a stream of any length with any repeats in
   * time, any order and any clean-ups leaves the group exactly as sending each of the topic's
   * messages once, at its first occurrence, whatever happens in other groups.
   */
  lemma {:induction false} RepeatsAreInvisible(groups: Groups, es: seq<Event>, from: real, ttl: real, topic: string)
    requires GroupOf(topic) in groups && AllSubscribed(groups[GroupOf(topic)], topic)
    requires Steady(es, GroupOf(topic)) && InTime(es, from, topic, ttl)
    ensures var d, g := HappenAll(Delivery(map[], groups), es, ttl), GroupOf(topic);
            && g in d.groups && d.groups[g] == ReceivedBy(groups[g], topic, Once(Firsts(es, topic)))
            && Logged(d.table, Firsts(es, topic), topic, Latest(es, from), ttl)
  {
    if es == [] {
      ReceivedNothing(groups[GroupOf(topic)], topic);
    } else {
      var init, e := es[..|es| - 1], es[|es| - 1];
      SteadyParts(es, GroupOf(topic));
      hide ReceivedBy, AllSubscribed, Once, Happens, Logged;
      RepeatsAreInvisible(groups, init, from, ttl, topic);
      InvisibleStep(HappenAll(Delivery(map[], groups), init, ttl), e, ttl, topic, groups[GroupOf(topic)],
                    Firsts(init, topic), Latest(init, from));
    }
  }

  lemma ReceivedNothing(ms: Group, topic: string)
    requires AllSubscribed(ms, topic)
    ensures ReceivedBy(ms, topic, Once([])) == ms
  {
    assert Once([]) == [];
  }

  lemma SteadyParts(es: seq<Event>, g: string)
    requires Steady(es, g) && es != []
    ensures Steady(es[..|es| - 1], g) && Steady([es[|es| - 1]], g)
  {
  }

  // ----- What one consumer sees -----

  /** A member of a topic's group as it is before anything is committed. */
  predicate FreshMember(c: Consumer, topic: string)
  {
    && Subscribed(c, topic) && ChannelOf(c, topic) == Channel(0, [])
    && forall k :: 0 <= k < |c.topics[topic]| ==> c.topics[topic][k] == []
  }

  lemma {:induction false} FirstsDistinct(es: seq<Event>, topic: string)
    ensures DistinctStream(Once(Firsts(es, topic)))
  {
    if es != [] {
      var init := es[..|es| - 1];
      FirstsDistinct(init, topic);
      var before, fs := Firsts(init, topic), Firsts(es, topic);
      forall i, j | 0 <= i < j < |fs| ensures Once(fs)[i].seqNo != Once(fs)[j].seqNo {
        if j < |before| {
          assert Once(before)[i].seqNo != Once(before)[j].seqNo;
        }
      }
    }
  }

  lemma HandedToFresh(c: Consumer, topic: string, ch: Channel, out: seq<Msg>)
    requires FreshMember(c, topic)
    ensures var inboxes := Moved(c, topic, ch, out).topics[topic];
            |inboxes| == |c.topics[topic]| && forall k :: 0 <= k < |inboxes| ==> inboxes[k] == Payloads(out)
  {
    assert [] + Payloads(out) == Payloads(out);
  }

  /**
   * If the numbers of a topic in the stream are 1 to `n`, in any order and with any repeats in time,
   * and the members of its group are all subscribed, then every callback of a member that was fresh
   * has been handed the payloads of 1 to `n`, once each and in order, and nothing waits.
   */
  lemma EveryConsumerExactlyOnce(groups: Groups, es: seq<Event>, from: real, ttl: real,
                                 topic: string, i: nat, n: nat)
    requires GroupOf(topic) in groups && AllSubscribed(groups[GroupOf(topic)], topic)
    requires Steady(es, GroupOf(topic)) && InTime(es, from, topic, ttl)
    requires i < |groups[GroupOf(topic)]| && FreshMember(groups[GroupOf(topic)][i].consumer, topic)
    requires forall k :: 0 < k <= n ==> Arrived(Once(Firsts(es, topic)), k)
    requires forall m :: m in Once(Firsts(es, topic)) ==> m.seqNo <= n
    ensures var groups', g := HappenAll(Delivery(map[], groups), es, ttl).groups, GroupOf(topic);
            var out := AcceptAll(Channel(0, []), Once(Firsts(es, topic))).1;
            && Consecutive(out, 0, n) && (forall m :: m in out ==> m in Once(Firsts(es, topic)))
            && g in groups' && |groups'[g]| == |groups[g]| && groups'[g][i].name == groups[g][i].name
            && var c := groups'[g][i].consumer;
            && Subscribed(c, topic) && ChannelOf(c, topic) == Channel(n, [])
            && |c.topics[topic]| == |groups[g][i].consumer.topics[topic]|
            && forall k :: 0 <= k < |c.topics[topic]| ==> c.topics[topic][k] == Payloads(out)
  {
    var ms, c := Once(Firsts(es, topic)), groups[GroupOf(topic)][i].consumer;
    RepeatsAreInvisible(groups, es, from, ttl, topic);
    FirstsDistinct(es, topic);
    AllArrived(0, ms, n);
    ReceiveAllFollowsChannel(c, topic, ms);
    var (ch, out) := AcceptAll(Channel(0, []), ms);
    HandedToFresh(c, topic, ch, out);
    hide HappenAll, AcceptAll, Moved, ReceiveAll, Firsts;
  }

  // ----- Exactly when repeats are invisible -----

  ghost predicate NoneSubscribed(ms: Group, topic: string)
  {
    forall i :: 0 <= i < |ms| ==> !Subscribed(ms[i].consumer, topic)
  }

  /** The subscribed members are as if each message of the topic had been sent once. */
  ghost predicate Invisible(groups: Groups, es: seq<Event>, ttl: real, topic: string)
    requires GroupOf(topic) in groups
  {
    var ms, groups' := groups[GroupOf(topic)], HappenAll(Delivery(map[], groups), es, ttl).groups;
    && GroupOf(topic) in groups' && |groups'[GroupOf(topic)]| == |ms|
    && forall i :: 0 <= i < |ms| && Subscribed(ms[i].consumer, topic) ==>
         groups'[GroupOf(topic)][i] == SendAll(ms, topic, Once(Firsts(es, topic)))[i]
  }

  ghost predicate AlwaysInvisible(groups: Groups, ttl: real, topic: string)
    requires GroupOf(topic) in groups
  {
    forall es, from :: Steady(es, GroupOf(topic)) && InTime(es, from, topic, ttl) ==> Invisible(groups, es, ttl, topic)
  }

  lemma {:induction false} GroupKeepsSize(groups: Groups, es: seq<Event>, ttl: real, topic: string)
    requires GroupOf(topic) in groups && Steady(es, GroupOf(topic))
    ensures var groups' := HappenAll(Delivery(map[], groups), es, ttl).groups;
            GroupOf(topic) in groups' && |groups'[GroupOf(topic)]| == |groups[GroupOf(topic)]|
  {
    if es != [] {
      var init, e := es[..|es| - 1], es[|es| - 1];
      SteadyParts(es, GroupOf(topic));
      GroupKeepsSize(groups, init, ttl, topic);
      var d := HappenAll(Delivery(map[], groups), init, ttl);
      if !IsOf(e, topic) {
        GroupUntouched(d, e, ttl, topic);
      }
    }
  }

  // A stream of commits that all fail.

  function Stream(topic: string, xs: seq<Msg>): seq<Event>
  {
    seq(|xs|, i requires 0 <= i < |xs| =>
      Commit(OrderedMessage(topic, xs[i].seqNo, xs[i].payload), 0.0, 0.0))
  }

  /** Sending `xs` to the group fails every time. */
  ghost predicate AllFail(ms: Group, topic: string, xs: seq<Msg>)
  {
    xs == [] ||
    (AllFail(ms, topic, xs[..|xs| - 1])
     && Stop(SendAll(ms, topic, xs[..|xs| - 1]), topic, xs[|xs| - 1]) < |ms|)
  }

  lemma StreamMore(topic: string, xs: seq<Msg>, m: Msg)
    ensures var es := Stream(topic, xs + [m]);
            var e := Commit(OrderedMessage(topic, m.seqNo, m.payload), 0.0, 0.0);
            |es| == |xs| + 1 && es[..|xs|] == Stream(topic, xs) && es[|xs|] == e && MsgOf(e) == m
  {
  }

  lemma {:induction false} StreamInTime(topic: string, xs: seq<Msg>, ttl: real)
    requires ttl > 0.0
    ensures Steady(Stream(topic, xs), GroupOf(topic)) && InTime(Stream(topic, xs), 0.0, topic, ttl)
    ensures Latest(Stream(topic, xs), 0.0) == 0.0
    ensures forall i :: 0 <= i < |Firsts(Stream(topic, xs), topic)| ==> Firsts(Stream(topic, xs), topic)[i].mark == 0.0
  {
    if xs != [] {
      var init := xs[..|xs| - 1];
      StreamInTime(topic, init, ttl);
      assert xs == init + [xs[|xs| - 1]];
      StreamMore(topic, init, xs[|xs| - 1]);
    }
  }

  /** Failing commits reach the group each time and leave the log empty. */
  lemma {:induction false} FailuresUnlogged(groups: Groups, topic: string, xs: seq<Msg>, ttl: real)
    requires GroupOf(topic) in groups && AllFail(groups[GroupOf(topic)], topic, xs)
    ensures HappenAll(Delivery(map[], groups), Stream(topic, xs), ttl)
            == Delivery(map[], groups[GroupOf(topic) := SendAll(groups[GroupOf(topic)], topic, xs)])
  {
    hide Sent, Stop;
    var g, ms := GroupOf(topic), groups[GroupOf(topic)];
    if xs == [] {
      assert groups[g := ms] == groups;
    } else {
      var init, m := xs[..|xs| - 1], xs[|xs| - 1];
      assert xs == init + [m];
      FailuresUnlogged(groups, topic, init, ttl);
      StreamMore(topic, init, m);
      hide Stream;
      CommitBroadcasts(Delivery(map[], groups[g := SendAll(ms, topic, init)]), Stream(topic, xs)[|init|], ttl, topic);
    }
  }

  lemma AllFailMore(ms: Group, topic: string, xs: seq<Msg>, m: Msg)
    requires AllFail(ms, topic, xs) && Stop(SendAll(ms, topic, xs), topic, m) < |ms|
    ensures AllFail(ms, topic, xs + [m])
  {
    hide SendAll, Stop;
    assert (xs + [m])[..|xs|] == xs;
  }

  /** One more message after nothing but failures is sent to the group whatever comes of it. */
  lemma OneAfterFailures(groups: Groups, topic: string, xs: seq<Msg>, m: Msg, ttl: real)
    requires GroupOf(topic) in groups && AllFail(groups[GroupOf(topic)], topic, xs)
    ensures var d := HappenAll(Delivery(map[], groups), Stream(topic, xs + [m]), ttl);
            d.groups == groups[GroupOf(topic) := SendAll(groups[GroupOf(topic)], topic, xs + [m])]
  {
    var g, ms := GroupOf(topic), groups[GroupOf(topic)];
    FailuresUnlogged(groups, topic, xs, ttl);
    StreamMore(topic, xs, m);
    assert (xs + [m])[..|xs|] == xs;
    hide Sent, Stop, AllFail;
    CommitBroadcasts(Delivery(map[], groups[g := SendAll(ms, topic, xs)]), Stream(topic, xs + [m])[|xs|], ttl, topic);
  }

  /** Each number at its first occurrence. */
  function Dedupe(xs: seq<Msg>): seq<Msg>
  {
    if xs == [] then []
    else
      var before, m := Dedupe(xs[..|xs| - 1]), xs[|xs| - 1];
      if exists i :: 0 <= i < |before| && before[i].seqNo == m.seqNo then before else before + [m]
  }

  lemma {:induction false} FirstsOfStream(topic: string, xs: seq<Msg>)
    ensures Once(Firsts(Stream(topic, xs), topic)) == Dedupe(xs)
  {
    if xs != [] {
      var init, m := xs[..|xs| - 1], xs[|xs| - 1];
      FirstsOfStream(topic, init);
      assert xs == init + [m];
      StreamMore(topic, init, m);
      var fs := Firsts(Stream(topic, init), topic);
      KnownOnce(fs, m.seqNo);
      OnceMore(fs, First(m, 0.0));
    }
  }

  lemma KnownOnce(fs: seq<First>, n: int)
    ensures Known(fs, n) <==> exists i :: 0 <= i < |Once(fs)| && Once(fs)[i].seqNo == n
  {
    if i :| 0 <= i < |fs| && fs[i].msg.seqNo == n {
      assert Once(fs)[i].seqNo == n;
    }
  }

  /** If sending `xs` once each leaves a subscribed member otherwise than the failing stream does, repeats show. */
  lemma DifferenceShows(groups: Groups, topic: string, xs: seq<Msg>, m: Msg, ttl: real, i: nat)
    requires ttl > 0.0 && GroupOf(topic) in groups && AllFail(groups[GroupOf(topic)], topic, xs)
    requires i < |groups[GroupOf(topic)]| && Subscribed(groups[GroupOf(topic)][i].consumer, topic)
    requires var ms := groups[GroupOf(topic)];
             SendAll(ms, topic, xs + [m])[i] != SendAll(ms, topic, Dedupe(xs + [m]))[i]
    ensures !AlwaysInvisible(groups, ttl, topic)
  {
    var es := Stream(topic, xs + [m]);
    StreamInTime(topic, xs + [m], ttl);
    OneAfterFailures(groups, topic, xs, m, ttl);
    FirstsOfStream(topic, xs + [m]);
    hide Stream, InTime, Steady, HappenAll, SendAll, Dedupe, Firsts, AllFail;
    assert !Invisible(groups, es, ttl, topic);
  }

  // ----- A subscribed member before the first that is not -----

  function OffsetOf(x: Member, topic: string): int { Get(x.consumer.offsets, topic, 0) }

  lemma Unsubscribed(x: Member, topic: string, m: Msg)
    requires !Subscribed(x.consumer, topic)
    ensures var (c, err) := OnArrival(x.consumer, topic, m);
            && (err <==> OffsetOf(x, topic) < m.seqNo) && !Subscribed(c, topic)
            && OffsetOf(Reached(x, topic, m), topic)
               == (if OffsetOf(x, topic) + 1 == m.seqNo then m.seqNo else OffsetOf(x, topic))
            && (m.seqNo <= OffsetOf(x, topic) || OffsetOf(x, topic) + 1 < m.seqNo ==> c == x.consumer)
  {
  }

  /** A number that is news to a subscribed consumer changes it. */
  lemma NewsMoves(c: Consumer, topic: string, m: Msg)
    requires Subscribed(c, topic) && m.seqNo > Get(c.offsets, topic, 0)
    ensures Receive(c, topic, m) != c
    ensures m.seqNo > Get(c.offsets, topic, 0) + 1 ==>
              var c' := Receive(c, topic, m);
              Subscribed(c', topic) && |c'.pending[topic]| == |c.pending[topic]| + 1
              && Get(c'.offsets, topic, 0) == Get(c.offsets, topic, 0)
  {
    var (ch, out) := Accept(ChannelOf(c, topic), m);
    AcceptGapFree(ChannelOf(c, topic), m);
    SortCorrect(SeqNo, c.pending[topic] + [m]);
    hide Flush, Sort;
    assert m.seqNo == Get(c.offsets, topic, 0) + 1 ==> out != [];
    if out != [] {
      assert Receive(c, topic, m).offsets[topic] == ch.offset;
    }
  }

  lemma TwoSends(ms: Group, topic: string, m: Msg)
    ensures SendAll(ms, topic, [m]) == Sent(ms, topic, m)
    ensures SendAll(ms, topic, [m] + [m]) == Sent(Sent(ms, topic, m), topic, m)
    ensures Dedupe([m] + [m]) == [m]
  {
    hide Sent;
    assert [m][..0] == [] && ([m] + [m])[..1] == [m];
    assert Dedupe([m]) == [] + [m];
    assert Dedupe([m])[0].seqNo == m.seqNo;
  }

  /** A future number is buffered twice by the first member when a later one fails on it. */
  lemma VisibleToFirst(groups: Groups, topic: string, ttl: real, f: nat)
    requires ttl > 0.0 && GroupOf(topic) in groups && f < |groups[GroupOf(topic)]|
    requires Subscribed(groups[GroupOf(topic)][0].consumer, topic)
    requires !Subscribed(groups[GroupOf(topic)][f].consumer, topic)
    ensures !AlwaysInvisible(groups, ttl, topic)
  {
    var ms := groups[GroupOf(topic)];
    var a, b := OffsetOf(ms[0], topic), OffsetOf(ms[f], topic);
    var m := Msg((if a < b then b else a) + 2, "");
    Unsubscribed(ms[f], topic, m);
    assert Stop(ms, topic, m) <= f;
    TwoSends(ms, topic, m);
    var once := Sent(ms, topic, m);
    NewsMoves(ms[0].consumer, topic, m);
    NewsMoves(once[0].consumer, topic, m);
    hide Receive;
    assert once[0].consumer == Receive(ms[0].consumer, topic, m);
    assert Sent(once, topic, m)[0].consumer == Receive(once[0].consumer, topic, m);
    assert AllFail(ms, topic, [m]) by {
      assert [m][..0] == [];
    }
    DifferenceShows(groups, topic, [m], m, ttl, 0);
  }

  // ----- Members that are not subscribed before the first that is -----

  /** The first `j` members are not subscribed, and have come as far as `reach`. */
  ghost predicate Barrier(ms: Group, topic: string, j: nat, reach: int)
  {
    j <= |ms| && forall u :: 0 <= u < j ==> !Subscribed(ms[u].consumer, topic) && OffsetOf(ms[u], topic) >= reach
  }

  /** A send that fails at the barrier moves only the member it fails at, and at most to its number. */
  lemma BlockedSend(ms: Group, topic: string, j: nat, reach: int, m: Msg)
    requires Barrier(ms, topic, j, reach) && Stop(ms, topic, m) < j
    ensures var next, f := Sent(ms, topic, m), Stop(ms, topic, m);
            && Barrier(next, topic, j, reach) && (forall i :: j <= i < |ms| ==> next[i] == ms[i])
            && OffsetOf(next[f], topic) <= m.seqNo
            && (reach == m.seqNo - 1 ==> Stop(next, topic, m) > f)
  {
    var next, f := Sent(ms, topic, m), Stop(ms, topic, m);
    hide OnArrival;
    forall u | 0 <= u < j
      ensures !Subscribed(next[u].consumer, topic) && OffsetOf(next[u], topic) >= OffsetOf(ms[u], topic)
      ensures u <= f && reach == m.seqNo - 1 ==> !OnArrival(next[u].consumer, topic, m).1
    {
      Unsubscribed(ms[u], topic, m);
      Unsubscribed(next[u], topic, m);
    }
    Unsubscribed(ms[f], topic, m);
  }

  lemma BarrierPassed(ms: Group, topic: string, j: nat, reach: int, m: Msg)
    requires Barrier(ms, topic, j, reach)
    ensures Stop(ms, topic, m) >= j <==> Barrier(ms, topic, j, m.seqNo)
  {
    hide OnArrival;
    forall u | 0 <= u < j ensures OnArrival(ms[u].consumer, topic, m).1 <==> OffsetOf(ms[u], topic) < m.seqNo {
      Unsubscribed(ms[u], topic, m);
    }
  }

  ghost predicate NonDecreasing(xs: seq<Msg>)
  {
    forall i, k :: 0 <= i < k < |xs| ==> xs[i].seqNo <= xs[k].seqNo
  }

  ghost predicate Within(xs: seq<Msg>, lo: int, hi: int)
  {
    forall i :: 0 <= i < |xs| ==> lo < xs[i].seqNo <= hi
  }

  /** A failing stream of numbers up to `hi` has brought the barrier to `reach`, and nobody behind it has noticed. */
  ghost predicate Climbed(ms: Group, topic: string, j: nat, xs: seq<Msg>, lo: int, hi: int, reach: int)
  {
    && AllFail(ms, topic, xs) && NonDecreasing(xs) && Within(xs, lo, hi)
    && Barrier(SendAll(ms, topic, xs), topic, j, reach)
    && forall i :: j <= i < |ms| ==> SendAll(ms, topic, xs)[i] == ms[i]
  }

  lemma SendOneMore(ms: Group, topic: string, xs: seq<Msg>, m: Msg)
    ensures SendAll(ms, topic, xs + [m]) == Sent(SendAll(ms, topic, xs), topic, m)
  {
    hide Sent;
    assert (xs + [m])[..|xs|] == xs;
  }

  lemma ClimbStep(ms: Group, topic: string, j: nat, xs: seq<Msg>, lo: int, m: Msg)
    requires Climbed(ms, topic, j, xs, lo, m.seqNo, m.seqNo - 1) && lo < m.seqNo
    requires Stop(SendAll(ms, topic, xs), topic, m) < j
    ensures Climbed(ms, topic, j, xs + [m], lo, m.seqNo, m.seqNo - 1)
    ensures Stop(SendAll(ms, topic, xs + [m]), topic, m) > Stop(SendAll(ms, topic, xs), topic, m)
  {
    hide Stop, SendAll, AllFail, Sent, Barrier;
    assert SendAll(ms, topic, xs) == SendAll(ms, topic, xs);
    BarrierSize(SendAll(ms, topic, xs), topic, j, m.seqNo - 1);
    BlockedSend(SendAll(ms, topic, xs), topic, j, m.seqNo - 1, m);
    SendOneMore(ms, topic, xs, m);
    AllFailMore(ms, topic, xs, m);
  }

  lemma BarrierSize(ms: Group, topic: string, j: nat, reach: int)
    requires Barrier(ms, topic, j, reach)
    ensures j <= |ms|
  {
  }

  /** Repeating one number takes every member of the barrier past it. */
  lemma {:induction false} Climb(ms: Group, topic: string, j: nat, xs: seq<Msg>, lo: int, k: int) returns (longer: seq<Msg>)
    requires Climbed(ms, topic, j, xs, lo, k, k - 1) && lo < k
    ensures Climbed(ms, topic, j, longer, lo, k, k)
    decreases |ms| - Stop(SendAll(ms, topic, xs), topic, Msg(k, ""))
  {
    var m := Msg(k, "");
    var cur := SendAll(ms, topic, xs);
    BarrierPassed(cur, topic, j, k - 1, m);
    hide Stop, SendAll, AllFail, Barrier, NonDecreasing, Within;
    if Stop(cur, topic, m) >= j {
      longer := xs;
    } else {
      ClimbStep(ms, topic, j, xs, lo, m);
      longer := Climb(ms, topic, j, xs + [m], lo, k);
    }
  }

  lemma {:induction false} ClimbTo(ms: Group, topic: string, j: nat, lo: int, n: int) returns (xs: seq<Msg>)
    requires Barrier(ms, topic, j, lo) && lo <= n
    ensures Climbed(ms, topic, j, xs, lo, n, n)
    decreases n - lo
  {
    if n == lo {
      xs := [];
    } else {
      var shorter := ClimbTo(ms, topic, j, lo, n - 1);
      hide AllFail, SendAll;
      xs := Climb(ms, topic, j, shorter, lo, n);
    }
  }

  lemma {:induction false} DedupeIncreases(xs: seq<Msg>, lo: int, hi: int)
    requires NonDecreasing(xs) && Within(xs, lo, hi)
    ensures StrictlySorted(SeqNo, Dedupe(xs)) && Within(Dedupe(xs), lo, hi)
    ensures xs != [] ==> Dedupe(xs) != [] && Dedupe(xs)[|Dedupe(xs)| - 1].seqNo == xs[|xs| - 1].seqNo
  {
    if xs != [] {
      var init, m := xs[..|xs| - 1], xs[|xs| - 1];
      DedupeIncreases(init, lo, hi);
      var before := Dedupe(init);
      assert init != [] ==> init[|init| - 1].seqNo <= m.seqNo;
      if before != [] && before[|before| - 1].seqNo == m.seqNo {
        assert Dedupe(xs) == before;
      } else {
        StrictlyMore(before, m);
        LastIsNew(before, m);
        assert Dedupe(xs) == before + [m];
      }
      hide Dedupe, StrictlySorted;
    }
  }

  lemma LastIsNew(ys: seq<Msg>, m: Msg)
    requires StrictlySorted(SeqNo, ys + [m])
    ensures forall i :: 0 <= i < |ys| ==> ys[i].seqNo != m.seqNo
  {
    var all := ys + [m];
    forall i | 0 <= i < |ys| ensures ys[i].seqNo != m.seqNo {
      assert SeqNo(all[i]) < SeqNo(all[|ys|]);
    }
  }

  ghost predicate Behind(ms: Group, topic: string, j: nat, n: int)
  {
    exists u :: 0 <= u < j <= |ms| && OffsetOf(ms[u], topic) < n
  }

  /** Sent once each in increasing order, the numbers never get past the barrier. */
  lemma {:induction false} OnceNeverPasses(ms: Group, topic: string, j: nat, reach: int, ys: seq<Msg>, n: int)
    requires Barrier(ms, topic, j, reach) && StrictlySorted(SeqNo, ys + [Msg(n, "")])
    requires Behind(ms, topic, j, (ys + [Msg(n, "")])[0].seqNo)
    ensures var r := SendAll(ms, topic, ys);
            && Barrier(r, topic, j, reach) && Behind(r, topic, j, n)
            && forall i :: j <= i < |ms| ==> r[i] == ms[i]
    decreases |ys|
  {
    if ys != [] {
      var init, m := ys[..|ys| - 1], ys[|ys| - 1];
      var shorter, whole := init + [Msg(m.seqNo, "")], ys + [Msg(n, "")];
      assert forall i :: 0 <= i < |ys| ==> shorter[i].seqNo == whole[i].seqNo;
      assert SeqNo(whole[|ys| - 1]) < SeqNo(whole[|ys|]);
      OnceNeverPasses(ms, topic, j, reach, init, m.seqNo);
      var cur := SendAll(ms, topic, init);
      BarrierPassed(cur, topic, j, reach, m);
      BlockedSend(cur, topic, j, reach, m);
    }
  }

  lemma {:induction false} LowestOf(ms: Group, topic: string, j: nat) returns (u: nat)
    requires 0 < j <= |ms| && forall i :: 0 <= i < j ==> !Subscribed(ms[i].consumer, topic)
    ensures u < j && Barrier(ms, topic, j, OffsetOf(ms[u], topic))
  {
    if j == 1 {
      u := 0;
    } else {
      u := LowestOf(ms, topic, j - 1);
      if OffsetOf(ms[j - 1], topic) < OffsetOf(ms[u], topic) {
        u := j - 1;
      }
    }
  }

  /** Behind a barrier a number never arrives if sent once, and arrives if repeated. */
  lemma VisibleBehind(groups: Groups, topic: string, ttl: real, j: nat)
    requires ttl > 0.0 && GroupOf(topic) in groups && 0 < j < |groups[GroupOf(topic)]|
    requires Subscribed(groups[GroupOf(topic)][j].consumer, topic)
    requires forall i :: 0 <= i < j ==> !Subscribed(groups[GroupOf(topic)][i].consumer, topic)
    ensures !AlwaysInvisible(groups, ttl, topic)
  {
    var ms := groups[GroupOf(topic)];
    var u := LowestOf(ms, topic, j);
    var lo, at := OffsetOf(ms[u], topic), OffsetOf(ms[j], topic);
    var n := (if lo < at then at else lo) + 1;
    var m := Msg(n, "");
    var xs := ClimbTo(ms, topic, j, lo, n);
    PassesRepeated(ms, topic, j, xs, lo, m);
    BlockedOnce(ms, topic, j, u, xs, m);
    hide AllFail, SendAll, Dedupe, Receive;
    NewsMoves(ms[j].consumer, topic, m);
    DifferenceShows(groups, topic, xs, m, ttl, j);
  }

  lemma PassesRepeated(ms: Group, topic: string, j: nat, xs: seq<Msg>, lo: int, m: Msg)
    requires Climbed(ms, topic, j, xs, lo, m.seqNo, m.seqNo) && j < |ms| && Subscribed(ms[j].consumer, topic)
    ensures SendAll(ms, topic, xs + [m])[j].consumer == Receive(ms[j].consumer, topic, m)
  {
    hide Receive;
    SendOneMore(ms, topic, xs, m);
    BarrierPassed(SendAll(ms, topic, xs), topic, j, m.seqNo, m);
  }

  lemma BlockedOnce(ms: Group, topic: string, j: nat, u: nat, xs: seq<Msg>, m: Msg)
    requires u < j < |ms| && Barrier(ms, topic, j, OffsetOf(ms[u], topic))
    requires NonDecreasing(xs) && Within(xs, OffsetOf(ms[u], topic), m.seqNo) && OffsetOf(ms[u], topic) < m.seqNo
    ensures SendAll(ms, topic, Dedupe(xs + [m]))[j] == ms[j]
  {
    var lo := OffsetOf(ms[u], topic);
    DedupeIncreases(xs + [m], lo, m.seqNo);
    var ys := Dedupe(xs + [m]);
    hide Dedupe, SendAll, Barrier;
    assert ys[|ys| - 1].seqNo == m.seqNo;
    var n := m.seqNo + 1;
    StrictlyMore(ys, Msg(n, ""));
    assert Behind(ms, topic, j, (ys + [Msg(n, "")])[0].seqNo);
    OnceNeverPasses(ms, topic, j, lo, ys, n);
  }

  lemma StrictlyMore(ys: seq<Msg>, m: Msg)
    requires StrictlySorted(SeqNo, ys) && (ys != [] ==> ys[|ys| - 1].seqNo < m.seqNo)
    ensures StrictlySorted(SeqNo, ys + [m])
  {
    forall i | 0 <= i < |ys| ensures SeqNo(ys[i]) < SeqNo(m) {
      assert i < |ys| - 1 ==> SeqNo(ys[i]) < SeqNo(ys[|ys| - 1]);
    }
  }

  /**
   * Exactly when repeats are invisible to the subscribed members of a topic's group, in every stream
   * in which they come in time: the group's members are all subscribed, or none is.
   */
  lemma RepeatsInvisibleIff(groups: Groups, ttl: real, topic: string)
    requires ttl > 0.0 && GroupOf(topic) in groups
    ensures AlwaysInvisible(groups, ttl, topic)
            <==> AllSubscribed(groups[GroupOf(topic)], topic) || NoneSubscribed(groups[GroupOf(topic)], topic)
  {
    var ms := groups[GroupOf(topic)];
    if AllSubscribed(ms, topic) || NoneSubscribed(ms, topic) {
      forall es, from | Steady(es, GroupOf(topic)) && InTime(es, from, topic, ttl)
        ensures Invisible(groups, es, ttl, topic)
      {
        GroupKeepsSize(groups, es, ttl, topic);
        if AllSubscribed(ms, topic) {
          RepeatsAreInvisible(groups, es, from, ttl, topic);
          SendAllIsReceived(ms, topic, Once(Firsts(es, topic)));
        }
      }
    } else {
      var f: nat :| f < |ms| && !Subscribed(ms[f].consumer, topic);
      if Subscribed(ms[0].consumer, topic) {
        VisibleToFirst(groups, topic, ttl, f);
      } else {
        var j := FirstSubscribed(ms, topic);
        VisibleBehind(groups, topic, ttl, j);
      }
    }
  }

  lemma {:induction false} FirstSubscribed(ms: Group, topic: string) returns (j: nat)
    requires !NoneSubscribed(ms, topic)
    ensures j < |ms| && Subscribed(ms[j].consumer, topic)
    ensures forall i :: 0 <= i < j ==> !Subscribed(ms[i].consumer, topic)
  {
    j := 0;
    while !Subscribed(ms[j].consumer, topic)
      invariant j < |ms| && forall i :: 0 <= i < j ==> !Subscribed(ms[i].consumer, topic)
      decreases |ms| - j
    {
      assert exists i :: j < i < |ms| && Subscribed(ms[i].consumer, topic);
      j := j + 1;
    }
  }

  // The smallest case.

  /** Two members: the first subscribed, with these messages waiting, the second not subscribed; both at the start. */
  ghost predicate Waiting(ms: Group, topic: string, waiting: seq<Msg>)
  {
    && |ms| == 2 && Subscribed(ms[0].consumer, topic) && !Subscribed(ms[1].consumer, topic)
    && OffsetOf(ms[0], topic) == 0 && OffsetOf(ms[1], topic) == 0 && ms[0].consumer.pending[topic] == waiting
  }

  /** Number 2 arrives twice: its id is never logged, and the subscribed member buffers it twice. */
  lemma RepeatBufferedTwice(groups: Groups, topic: string, m: Msg, ttl: real)
    requires GroupOf(topic) in groups && Waiting(groups[GroupOf(topic)], topic, []) && m.seqNo == 2
    ensures var d := HappenAll(Delivery(map[], groups), Stream(topic, [m] + [m]), ttl);
            d.table == map[] && GroupOf(topic) in d.groups && Waiting(d.groups[GroupOf(topic)], topic, [m, m])
  {
    hide SendAll, Stream, HappenAll, Waiting, AllFail;
    BothFail(groups[GroupOf(topic)], topic, m);
    FailuresUnlogged(groups, topic, [m] + [m], ttl);
  }

  lemma BothFail(ms: Group, topic: string, m: Msg)
    requires Waiting(ms, topic, []) && m.seqNo == 2
    ensures AllFail(ms, topic, [m] + [m]) && Waiting(SendAll(ms, topic, [m] + [m]), topic, [m, m])
  {
    var none: seq<Msg> := [];
    var once := Sent(ms, topic, m);
    BufferedAgain(ms, topic, m, none);
    assert none + [m] == [m];
    BufferedAgain(once, topic, m, [m]);
    assert [m] + [m] == [m, m];
    hide Sent, Waiting, SendAll, Stop, AllFail;
    TwoSends(ms, topic, m);
    TwoFail(ms, topic, m);
  }

  lemma TwoFail(ms: Group, topic: string, m: Msg)
    requires Stop(ms, topic, m) < |ms| && Stop(Sent(ms, topic, m), topic, m) < |ms|
    ensures AllFail(ms, topic, [m] + [m])
  {
    TwoSends(ms, topic, m);
    hide Sent, Stop;
    assert ([m] + [m])[..1] == [m] && [m][..0] == [];
    assert AllFail(ms, topic, [m]);
  }

  lemma BufferedAgain(ms: Group, topic: string, m: Msg, waiting: seq<Msg>)
    requires Waiting(ms, topic, waiting) && m.seqNo == 2 && forall i :: 0 <= i < |waiting| ==> waiting[i] == m
    ensures Waiting(Sent(ms, topic, m), topic, waiting + [m]) && Stop(ms, topic, m) == 1
    ensures |ms| == |Sent(ms, topic, m)| == 2
  {
    Unsubscribed(ms[1], topic, m);
    SortOfSorted(SeqNo, waiting + [m]);
    var c := ms[0].consumer;
    assert Accept(ChannelOf(c, topic), m) == (Channel(0, waiting + [m]), []);
    hide Sort;
    assert Receive(c, topic, m).offsets == c.offsets;
  }
}
