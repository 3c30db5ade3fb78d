/**
 * What one node's commits bring to a consumer that sits in a topic's group, while others join,
 * leave and subscribe (coordination/coordinator.py:129-166, coordination/consumer_group.py:52-189).
 */
module NodeDelivery {
  import opened Wrappers
  import opened MicroRaftNode
  import opened ReorderBuffer
  import opened ConsumerGroups
  import opened Coordination
  import opened CoordinatorNode
  import opened NodeRun
  import opened ExactlyOnce
  import Dedup

  /** The messages of a topic among the commands. */
  function TopicLog(cs: seq<Command>, topic: string): seq<Msg>
  {
    if cs == [] then []
    else
      var c := cs[|cs| - 1];
      TopicLog(cs[..|cs| - 1], topic)
      + (if c.OrderedMessage? && c.topic == topic then [Msg(c.seqNo, c.payload)] else [])
  }

  lemma TopicLogSnoc(cs: seq<Command>, c: Command, topic: string)
    ensures TopicLog(cs + [c], topic)
         == TopicLog(cs, topic) + (if c.OrderedMessage? && c.topic == topic then [Msg(c.seqNo, c.payload)] else [])
  {
    assert (cs + [c])[..|cs|] == cs;
  }

  // ----- A node's events -----

  /** The commands committed among the events, in order. */
  function CommitsOf(es: seq<Event>): seq<Command>
  {
    if es == [] then []
    else CommitsOf(es[..|es| - 1]) + (if es[|es| - 1].Commit? then [es[|es| - 1].command] else [])
  }

  /** `c` sits in group `g` under this name. */
  ghost predicate Sits(groups: Groups, g: string, name: string, c: Consumer)
  {
    && g in groups && PositionOf(Names(groups[g]), name) < |groups[g]|
    && groups[g][PositionOf(Names(groups[g]), name)].consumer == c
  }

  /**
   * The first `count` callbacks of a consumer have been handed exactly the payloads of the topic's
   * messages up to its offset, and what waits is among the messages so far.
   */
  ghost predicate HasPrefix(c: Consumer, topic: string, log: seq<Msg>, count: nat)
  {
    && Subscribed(c, topic)
    && var ch := ChannelOf(c, topic);
    && 0 <= ch.offset <= |log| && (forall x :: x in ch.pending ==> x in log)
    && |c.topics[topic]| >= count
    && forall k :: 0 <= k < count ==> c.topics[topic][k] == Payloads(log[..ch.offset])
  }

  /** Nothing is missing. */
  ghost predicate HasAll(c: Consumer, topic: string, log: seq<Msg>)
  {
    Subscribed(c, topic) && ChannelOf(c, topic) == Channel(|log|, [])
  }

  lemma DeliveredSlice(ch: Channel, log: seq<Msg>, m: Msg)
    requires 0 <= ch.offset <= |log| && (forall x :: x in ch.pending ==> x in log)
    requires Consecutive(log + [m], 0, |log| + 1)
    ensures var (ch', out) := Accept(ch, m);
            && ch.offset <= ch'.offset <= |log| + 1 && (forall x :: x in ch'.pending ==> x in log + [m])
            && (log + [m])[..ch'.offset] == log[..ch.offset] + out
  {
    var all := log + [m];
    AcceptGapFree(ch, m);
    var (ch', out) := Accept(ch, m);
    hide Accept;
    forall i | 0 <= i < |out| ensures ch.offset + i < |all| && out[i] == all[ch.offset + i] {
      assert out[i] in out && out[i] in all;
      var j :| 0 <= j < |all| && all[j] == out[i];
    }
    if out != [] {
      var last := out[|out| - 1];
      assert last == all[ch.offset + |out| - 1];
    }
  }

  /** Receiving the topic's next message keeps the prefix, and keeps up if nothing was missing. */
  lemma NextReceived(c: Consumer, topic: string, log: seq<Msg>, m: Msg, count: nat)
    requires HasPrefix(c, topic, log, count) && Consecutive(log + [m], 0, |log| + 1)
    ensures HasPrefix(Receive(c, topic, m), topic, log + [m], count)
    ensures HasAll(c, topic, log) ==> HasAll(Receive(c, topic, m), topic, log + [m])
  {
    var ch := ChannelOf(c, topic);
    var (ch', out) := Accept(ch, m);
    AcceptGapFree(ch, m);
    DeliveredSlice(ch, log, m);
    if HasAll(c, topic, log) {
      assert (log + [m])[|log|] == m;
      assert Flush(Channel(m.seqNo, [])).0 == Channel(m.seqNo, []);
    }
    hide Accept;
    MovedChannel(c, topic, ch', out);
    PayloadsAppend(log[..ch.offset], out);
  }

  lemma PayloadsAppend(a: seq<Msg>, b: seq<Msg>)
    ensures Payloads(a + b) == Payloads(a) + Payloads(b)
  {
  }

  lemma NextMissed(c: Consumer, topic: string, log: seq<Msg>, m: Msg, count: nat)
    requires HasPrefix(c, topic, log, count)
    ensures HasPrefix(c, topic, log + [m], count)
  {
    var n := ChannelOf(c, topic).offset;
    assert (log + [m])[..n] == log[..n];
  }

  lemma CallbackKeepsPrefix(c: Consumer, topic: string, log: seq<Msg>, count: nat, other: string)
    requires HasPrefix(c, topic, log, count)
    ensures HasPrefix(Subscribe(c, other), topic, log, count)
    ensures HasAll(c, topic, log) ==> HasAll(Subscribe(c, other), topic, log)
  {
  }

  // Positions in the group.

  lemma SentPosition(ms: Group, topic: string, m: Msg, name: string)
    ensures Names(Sent(ms, topic, m)) == Names(ms)
  {
    hide OnArrival, Stop;
  }

  lemma {:induction false} PositionIs(names: seq<string>, name: string, n: nat)
    requires n < |names| && names[n] == name && forall i :: 0 <= i < n ==> names[i] != name
    ensures PositionOf(names, name) == n
  {
  }

  lemma JoinKeepsSeat(groups: Groups, g: string, name: string, c: Consumer, h: string, other: string)
    requires Sits(groups, g, name, c)
    ensures Sits(JoinTo(groups, h, other), g, name, c)
  {
    if h == g {
      var ms, n := groups[g], PositionOf(Names(groups[g]), name);
      var more := ms + [Member(other, NEWCOMER)];
      assert forall i :: 0 <= i < |ms| ==> Names(more)[i] == Names(ms)[i];
      PositionIs(Names(more), name, n);
    }
  }

  lemma LeaveKeepsSeat(groups: Groups, g: string, name: string, c: Consumer, h: string, other: string)
    requires Sits(groups, g, name, c) && !(h == g && other == name)
    ensures Sits(LeaveFrom(groups, h, other), g, name, c)
  {
    if h == g {
      var ms, n, k := groups[g], PositionOf(Names(groups[g]), name), PositionOf(Names(groups[g]), other);
      if k < |ms| {
        var rest := Without(ms, k);
        assert forall i :: 0 <= i < |rest| ==> Names(rest)[i] == Names(ms)[if i < k then i else i + 1];
        PositionIs(Names(rest), name, if n < k then n else n - 1);
      }
    }
  }

  lemma SubscribeKeepsSeat(groups: Groups, g: string, name: string, c: Consumer, h: string, other: string, topic: string)
    requires Sits(groups, g, name, c)
    ensures Sits(SubscribeIn(groups, h, other, topic), g, name, if h == g && other == name then Subscribe(c, topic) else c)
  {
    hide Subscribe;
    if h == g {
      var ms, k := groups[g], PositionOf(Names(groups[g]), other);
      if k < |ms| {
        var ms' := ms[k := ms[k].(consumer := Subscribe(ms[k].consumer, topic))];
        assert Names(ms') == Names(ms);
      }
    }
  }

  /** In a group, a message of its topic reaches the member or does not; it does if all are subscribed. */
  lemma SentKeepsSeat(groups: Groups, topic: string, name: string, c: Consumer, m: Msg)
    requires Sits(groups, GroupOf(topic), name, c) && Subscribed(c, topic)
    ensures var ms := groups[GroupOf(topic)];
            var groups' := groups[GroupOf(topic) := Sent(ms, topic, m)];
            var reached := Receive(c, topic, m);
            && (Sits(groups', GroupOf(topic), name, c) || Sits(groups', GroupOf(topic), name, reached))
            && (AllSubscribed(ms, topic) ==> Sits(groups', GroupOf(topic), name, reached))
  {
    var ms := groups[GroupOf(topic)];
    SentPosition(ms, topic, m, name);
    if AllSubscribed(ms, topic) {
      SentToSubscribed(ms, topic, m);
    }
    hide Receive, Stop;
  }

  // ----- One event, and all of them -----

  /** The log holds no id of a message of the topic that has not been committed. */
  ghost predicate NoneAhead(table: Dedup.Table, topic: string, n: nat)
  {
    forall k :: Dedup.MsgId(topic, k) in table ==> k <= n
  }

  /** At the commit of a message of the topic all members of its group are subscribed. */
  ghost predicate Punctual(d: Delivery, e: Event, topic: string)
  {
    IsOf(e, topic) && GroupOf(topic) in d.groups ==> AllSubscribed(d.groups[GroupOf(topic)], topic)
  }

  ghost predicate Served(d: Delivery, topic: string, name: string, log: seq<Msg>, count: nat, all: bool)
  {
    && NoneAhead(d.table, topic, |log|)
    && exists c :: Sits(d.groups, GroupOf(topic), name, c) && HasPrefix(c, topic, log, count)
                   && (all ==> HasAll(c, topic, log))
  }

  lemma NoneAheadStep(d: Delivery, e: Event, ttl: real, topic: string, n: nat)
    requires NoneAhead(d.table, topic, n) && !IsOf(e, topic)
    ensures NoneAhead(Happens(d, e, ttl).table, topic, n)
  {
    forall k | Dedup.MsgId(topic, k) in Happens(d, e, ttl).table ensures k <= n {
      IdsUntouched(d, e, ttl, topic, k);
    }
  }

  lemma NoneAheadMore(table: Dedup.Table, topic: string, n: nat, until: real)
    requires NoneAhead(table, topic, n)
    ensures NoneAhead(table[Dedup.MsgId(topic, n + 1) := until], topic, n + 1) && NoneAhead(table, topic, n + 1)
  {
    forall k | Dedup.MsgId(topic, k) in table[Dedup.MsgId(topic, n + 1) := until] ensures k <= n + 1 {
      if Dedup.MsgId(topic, k) == Dedup.MsgId(topic, n + 1) {
        Dedup.MsgIdInjective(topic, k, topic, n + 1);
      }
    }
  }

  lemma ServedElsewhere(d: Delivery, e: Event, ttl: real, topic: string, name: string, log: seq<Msg>, count: nat, all: bool)
    requires Served(d, topic, name, log, count, all) && !IsOf(e, topic)
    requires e != Leave(GroupOf(topic), name)
    ensures Served(Happens(d, e, ttl), topic, name, log, count, all)
  {
    var g, groups' := GroupOf(topic), Happens(d, e, ttl).groups;
    var c :| Sits(d.groups, g, name, c) && HasPrefix(c, topic, log, count) && (all ==> HasAll(c, topic, log));
    NoneAheadStep(d, e, ttl, topic, |log|);
    hide HasPrefix, HasAll, NoneAhead, Sits, Dedup.MsgId, Sent, Stop, Subscribe;
    match e
    case Commit(_, _, _) => CommitKeepsSeat(d, e, ttl, topic, name, c);
    case CleanUp(_) => assert groups' == d.groups;
    case Join(h, other) => JoinKeepsSeat(d.groups, g, name, c, h, other);
    case Leave(h, other) => LeaveKeepsSeat(d.groups, g, name, c, h, other);
    case AddCallback(h, other, t) =>
      SubscribeKeepsSeat(d.groups, g, name, c, h, other, t);
      CallbackKeepsPrefix(c, topic, log, count, t);
  }

  lemma CommitKeepsSeat(d: Delivery, e: Event, ttl: real, topic: string, name: string, c: Consumer)
    requires e.Commit? && !IsOf(e, topic) && Sits(d.groups, GroupOf(topic), name, c)
    ensures Sits(Happens(d, e, ttl).groups, GroupOf(topic), name, c)
  {
    assert Steady([e], GroupOf(topic));
    GroupUntouched(d, e, ttl, topic);
  }

  lemma ServedNext(d: Delivery, e: Event, ttl: real, topic: string, name: string, log: seq<Msg>, count: nat, all: bool)
    requires Served(d, topic, name, log, count, all) && IsOf(e, topic) && e.command.seqNo == |log| + 1
    requires Consecutive(log, 0, |log|) && (all ==> Punctual(d, e, topic))
    ensures Served(Happens(d, e, ttl), topic, name, log + [MsgOf(e)], count, all)
  {
    var g, m := GroupOf(topic), MsgOf(e);
    var c :| Sits(d.groups, g, name, c) && HasPrefix(c, topic, log, count) && (all ==> HasAll(c, topic, log));
    assert Dedup.MsgId(topic, |log| + 1) !in d.table;
    assert Consecutive(log + [m], 0, |log| + 1);
    assert Subscribed(c, topic) && g in d.groups && (all ==> AllSubscribed(d.groups[g], topic));
    hide HasPrefix, HasAll, NoneAhead, Sits, Dedup.MsgId, Sent, Stop, Receive, Happens, AllSubscribed, Subscribed, Punctual;
    NextReceived(c, topic, log, m, count);
    NextMissed(c, topic, log, m, count);
    hide Consecutive;
    CommitBroadcasts(d, e, ttl, topic);
    NoneAheadMore(d.table, topic, |log|, e.mark + ttl);
    SentKeepsSeat(d.groups, topic, name, c, m);
    ServedBy(Happens(d, e, ttl), topic, name, log + [m], count, all, c, Receive(c, topic, m));
  }

  lemma ServedBy(d: Delivery, topic: string, name: string, log: seq<Msg>, count: nat, all: bool, a: Consumer, b: Consumer)
    requires NoneAhead(d.table, topic, |log|)
    requires Sits(d.groups, GroupOf(topic), name, a) || Sits(d.groups, GroupOf(topic), name, b)
    requires HasPrefix(a, topic, log, count) && HasPrefix(b, topic, log, count)
    requires all ==> Sits(d.groups, GroupOf(topic), name, b) && HasAll(b, topic, log)
    ensures Served(d, topic, name, log, count, all)
  {
    hide NoneAhead, Sits, HasPrefix, HasAll;
  }

  /** Nobody by this name leaves the group. */
  ghost predicate Stays(es: seq<Event>, g: string, name: string)
  {
    forall i :: 0 <= i < |es| ==> es[i] != Leave(g, name)
  }

  ghost predicate AlwaysPunctual(d: Delivery, es: seq<Event>, ttl: real, topic: string)
  {
    forall i :: 0 <= i < |es| ==> Punctual(HappenAll(d, es[..i], ttl), es[i], topic)
  }

  lemma PunctualParts(d: Delivery, es: seq<Event>, ttl: real, topic: string)
    requires AlwaysPunctual(d, es, ttl, topic) && es != []
    ensures var init := es[..|es| - 1];
            AlwaysPunctual(d, init, ttl, topic) && Punctual(HappenAll(d, init, ttl), es[|es| - 1], topic)
  {
    hide Punctual, HappenAll;
    var init := es[..|es| - 1];
    assert forall i :: 0 <= i < |init| ==> es[..i] == init[..i] && es[i] == init[i];
  }

  lemma {:induction false} ServedRun(d: Delivery, es: seq<Event>, ttl: real, topic: string, name: string, count: nat, all: bool)
    requires Served(d, topic, name, [], count, all) && Stays(es, GroupOf(topic), name)
    requires all ==> AlwaysPunctual(d, es, ttl, topic)
    requires var log := TopicLog(CommitsOf(es), topic); Consecutive(log, 0, |log|)
    ensures Served(HappenAll(d, es, ttl), topic, name, TopicLog(CommitsOf(es), topic), count, all)
  {
    hide Served, Punctual, AlwaysPunctual, Happens, TopicLog, CommitsOf;
    if es == [] {
      NoCommits(topic);
    } else {
      var init, e := es[..|es| - 1], es[|es| - 1];
      if all {
        PunctualParts(d, es, ttl, topic);
      }
      var before, log := TopicLog(CommitsOf(init), topic), TopicLog(CommitsOf(es), topic);
      assert es == init + [e];
      LogOfEvents(init, e, topic);
      assert before + [] == before && before <= log;
      assert forall i :: 0 <= i < |before| ==> log[i] == before[i];
      assert Consecutive(before, 0, |before|);
      assert e == es[|init|] && forall i :: 0 <= i < |init| ==> init[i] == es[i];
      assert Stays(init, GroupOf(topic), name) && e != Leave(GroupOf(topic), name);
      ServedRun(d, init, ttl, topic, name, count, all);
      if IsOf(e, topic) {
        assert log[|before|] == MsgOf(e);
        ServedNext(HappenAll(d, init, ttl), e, ttl, topic, name, before, count, all);
      } else {
        ServedElsewhere(HappenAll(d, init, ttl), e, ttl, topic, name, before, count, all);
      }
    }
  }

  lemma NoCommits(topic: string)
    ensures TopicLog(CommitsOf([]), topic) == []
  {
  }

  lemma LogOfEvents(init: seq<Event>, e: Event, topic: string)
    ensures TopicLog(CommitsOf(init + [e]), topic)
            == TopicLog(CommitsOf(init), topic) + (if IsOf(e, topic) then [MsgOf(e)] else [])
  {
    assert (init + [e])[..|init|] == init;
    if e.Commit? {
      TopicLogSnoc(CommitsOf(init), e.command, topic);
    } else {
      assert CommitsOf(init) + [] == CommitsOf(init);
      assert TopicLog(CommitsOf(init), topic) + [] == TopicLog(CommitsOf(init), topic);
    }
  }

  lemma FreshIsServed(groups: Groups, topic: string, name: string, c: Consumer)
    requires Sits(groups, GroupOf(topic), name, c) && FreshMember(c, topic)
    ensures Served(Delivery(map[], groups), topic, name, [], |c.topics[topic]|, true)
  {
    assert HasPrefix(c, topic, [], |c.topics[topic]|) && HasAll(c, topic, []);
  }

  // ----- Who sits in a group -----

  lemma JoinsAndSubscribes(d: Delivery, g: string, name: string, topic: string, ttl: real)
    ensures HappenAll(d, [Join(g, name), AddCallback(g, name, topic)], ttl)
            == d.(groups := SubscribeIn(JoinTo(d.groups, g, name), g, name, topic))
  {
    var none: seq<Event> := [];
    var first := none + [Join(g, name)];
    var both := first + [AddCallback(g, name, topic)];
    assert both == [Join(g, name), AddCallback(g, name, topic)];
    assert both[..1] == first && first[..0] == none;
    hide JoinTo, SubscribeIn;
    assert HappenAll(d, none, ttl) == d;
    assert HappenAll(d, first, ttl) == Happens(d, Join(g, name), ttl);
    assert HappenAll(d, both, ttl) == Happens(HappenAll(d, first, ttl), AddCallback(g, name, topic), ttl);
  }

  lemma {:induction false} HappenInParts(d: Delivery, a: seq<Event>, b: seq<Event>, ttl: real)
    ensures HappenAll(d, a + b, ttl) == HappenAll(HappenAll(d, a, ttl), b, ttl)
  {
    hide Happens;
    if b == [] {
      assert a + b == a;
    } else {
      HappenInParts(d, a, b[..|b| - 1], ttl);
      assert (a + b)[..|a + b| - 1] == a + b[..|b| - 1];
    }
  }

  /** Whoever joins under a new name is seated last, and with one callback has missed nothing. */
  lemma NewcomerIsFresh(groups: Groups, g: string, name: string, topic: string, ttl: real) returns (c: Consumer)
    requires var ms := Get(groups, g, []); PositionOf(Names(ms), name) == |ms|
    ensures var groups' := HappenAll(Delivery(map[], groups), [Join(g, name), AddCallback(g, name, topic)], ttl).groups;
            && HappenAll(Delivery(map[], groups), [Join(g, name), AddCallback(g, name, topic)], ttl).table == map[]
            && Sits(groups', g, name, c) && FreshMember(c, topic) && c.topics == map[topic := [[]]]
            && Names(groups'[g]) == Names(Get(groups, g, [])) + [name]
            && forall h :: h in groups && h != g ==> h in groups' && groups'[h] == groups[h]
  {
    var ms := Get(groups, g, []);
    var joined := JoinTo(groups, g, name);
    JoinsAndSubscribes(Delivery(map[], groups), g, name, topic, ttl);
    c := Subscribe(NEWCOMER, topic);
    assert Get(NEWCOMER.topics, topic, []) + [[]] == [[]];
    assert joined == groups[g := ms + [Member(name, NEWCOMER)]];
    assert Names(joined[g]) == Names(ms) + [name];
    PositionIs(Names(joined[g]), name, |ms|);
    assert Sits(joined, g, name, NEWCOMER);
    SubscribeKeepsSeat(joined, g, name, NEWCOMER, g, name, topic);
    var groups' := SubscribeIn(joined, g, name, topic);
    assert Names(groups'[g]) == Names(joined[g]);
  }

  /** Joining again changes nothing. */
  lemma RejoinChangesNothing(groups: Groups, g: string, name: string, c: Consumer)
    requires Sits(groups, g, name, c)
    ensures JoinTo(groups, g, name) == groups
  {
  }

  /** Whoever leaves is gone, if the group's names were distinct. */
  lemma LeaverIsGone(d: Delivery, g: string, name: string, ttl: real)
    requires var ms := Get(d.groups, g, []); forall i, j :: 0 <= i < j < |ms| ==> ms[i].name != ms[j].name
    ensures var ms := Get(Happens(d, Leave(g, name), ttl).groups, g, []);
            forall i :: 0 <= i < |ms| ==> ms[i].name != name
  {
    var groups := d.groups;
    var ms, n := Get(groups, g, []), PositionOf(Names(Get(groups, g, [])), name);
    if g in groups && n < |ms| {
      assert ms[n].name == name;
      assert forall i :: 0 <= i < |Without(ms, n)| ==> Without(ms, n)[i] == ms[if i < n then i else i + 1];
    } else {
      assert forall i :: 0 <= i < |ms| ==> Names(ms)[i] == ms[i].name;
    }
  }
}
