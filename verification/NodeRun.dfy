/**
 * Everything that befalls one node's deliveries: commits, clean-ups of the idempotency log, and
 * consumers that join, leave and subscribe in between (coordination/coordinator.py:129-166).
 */
module NodeRun {
  import opened Wrappers
  import opened MicroRaftNode
  import opened ReorderBuffer
  import opened ConsumerGroups
  import opened Coordination
  import opened CoordinatorNode
  import Dedup

  datatype Event =
    | Commit(command: Command, check: real, mark: real)
    | CleanUp(now: real)
    | Join(group: string, name: string)
    | Leave(group: string, name: string)
    | AddCallback(group: string, name: string, topic: string)

  /** A KeyError of the commit callback is swallowed by the log. */
  function Happens(d: Delivery, e: Event, ttl: real): Delivery
  {
    match e
    case Commit(command, check, mark) => OnCommit(d, command, check, mark, ttl).0
    case CleanUp(now) => d.(table := Dedup.Cleanup(d.table, now))
    case Join(g, name) => d.(groups := JoinTo(d.groups, g, name))
    case Leave(g, name) => d.(groups := LeaveFrom(d.groups, g, name))
    case AddCallback(g, name, topic) => d.(groups := SubscribeIn(d.groups, g, name, topic))
  }

  function HappenAll(d: Delivery, es: seq<Event>, ttl: real): Delivery
  {
    if es == [] then d else Happens(HappenAll(d, es[..|es| - 1], ttl), es[|es| - 1], ttl)
  }

  /** The event is the commit of a message of `topic`. */
  predicate IsOf(e: Event, topic: string)
  {
    e.Commit? && e.command.OrderedMessage? && e.command.topic == topic
  }

  function MsgOf(e: Event): Msg
    requires e.Commit? && e.command.OrderedMessage?
  {
    Msg(e.command.seqNo, e.command.payload)
  }

  /** Nobody joins, leaves or subscribes in group `g`. */
  ghost predicate Steady(es: seq<Event>, g: string)
  {
    forall i :: 0 <= i < |es| ==> match es[i]
                                  case Join(h, _) => h != g
                                  case Leave(h, _) => h != g
                                  case AddCallback(h, _, _) => h != g
                                  case _ => true
  }

  lemma GroupOfInjective(a: string, b: string)
    requires GroupOf(a) == GroupOf(b)
    ensures a == b
  {
    assert GroupOf(a)[3..] == a && GroupOf(b)[3..] == b;
  }

  /** An event that is neither a commit of the topic nor a change of its group leaves the group alone. */
  lemma GroupUntouched(d: Delivery, e: Event, ttl: real, topic: string)
    requires Steady([e], GroupOf(topic)) && !IsOf(e, topic) && GroupOf(topic) in d.groups
    ensures GroupOf(topic) in Happens(d, e, ttl).groups
    ensures Happens(d, e, ttl).groups[GroupOf(topic)] == d.groups[GroupOf(topic)]
  {
    assert [e][0] == e;
    if e.Commit? && e.command.OrderedMessage? && GroupOf(e.command.topic) == GroupOf(topic) {
      GroupOfInjective(e.command.topic, topic);
    }
  }

  /** A commit of another topic, and a clean-up, add no id of this topic to the log. */
  lemma IdsUntouched(d: Delivery, e: Event, ttl: real, topic: string, n: int)
    requires !IsOf(e, topic)
    ensures var id, table := Dedup.MsgId(topic, n), Happens(d, e, ttl).table;
            (id in table ==> id in d.table && table[id] == d.table[id])
            && (id in d.table && id !in table ==> e.CleanUp? && d.table[id] < e.now)
  {
    if e.Commit? && e.command.OrderedMessage? {
      if Dedup.MsgId(e.command.topic, e.command.seqNo) == Dedup.MsgId(topic, n) {
        Dedup.MsgIdInjective(e.command.topic, e.command.seqNo, topic, n);
      }
    }
  }

  /** A commit whose id is not logged is broadcast to the group, and logged unless that fails. */
  lemma CommitBroadcasts(d: Delivery, e: Event, ttl: real, topic: string)
    requires IsOf(e, topic) && GroupOf(topic) in d.groups
    requires Dedup.MsgId(topic, e.command.seqNo) !in d.table
    ensures var ms, m := d.groups[GroupOf(topic)], MsgOf(e);
            Happens(d, e, ttl)
            == Delivery(if Stop(ms, topic, m) < |ms| then d.table
                        else d.table[Dedup.MsgId(topic, m.seqNo) := e.mark + ttl],
                        d.groups[GroupOf(topic) := Sent(ms, topic, m)])
  {
    hide Dedup.MsgId, Stop, Sent;
  }

  /** A message for a topic without a group is logged all the same, and no group comes of it. */
  lemma CommitWithoutGroup(d: Delivery, e: Event, ttl: real, topic: string)
    requires IsOf(e, topic) && "cg:" + topic !in d.groups
    ensures var d', id := Happens(d, e, ttl), Dedup.MsgId(topic, e.command.seqNo);
            d'.groups == d.groups && id in d'.table && d'.table[id] == (if id in d.table then d.table[id] else e.mark + ttl)
  {
    hide Dedup.MsgId;
  }

  /** A clean-up forgets the ids whose time has passed, and nothing else happens. */
  lemma CleanUpForgets(d: Delivery, now: real, ttl: real, id: string)
    ensures var d' := Happens(d, CleanUp(now), ttl);
            && d'.groups == d.groups
            && (id in d'.table <==> id in d.table && d.table[id] >= now)
            && (id in d'.table ==> d'.table[id] == d.table[id])
  {
  }

  /**
   * A commit ends in a KeyError exactly when it is a message not yet processed and some member of its
   * topic's group is not subscribed and has not come as far as this number.
   */
  lemma CommitFailsIff(d: Delivery, command: Command, check: real, mark: real, ttl: real)
    ensures OnCommit(d, command, check, mark, ttl).1
            <==> && command.OrderedMessage?
                 && !Dedup.IsProcessed(d.table, Dedup.MsgId(command.topic, command.seqNo), check)
                 && exists i :: 0 <= i < |Get(d.groups, "cg:" + command.topic, [])|
                                && Lags(Get(d.groups, "cg:" + command.topic, [])[i].consumer, command.topic, command.seqNo)
  {
    if command.OrderedMessage? {
      var ms, m := Get(d.groups, "cg:" + command.topic, []), Msg(command.seqNo, command.payload);
      hide Dedup.IsProcessed, Dedup.MsgId, OnArrival, Sent;
      forall i | 0 <= i < |ms|
        ensures OnArrival(ms[i].consumer, command.topic, m).1 <==> Lags(ms[i].consumer, command.topic, command.seqNo)
      {
        ArrivalFailsIff(ms[i].consumer, command.topic, m);
      }
      var n := Stop(ms, command.topic, m);
      hide Stop, Lags;
      if n < |ms| {
        assert Lags(ms[n].consumer, command.topic, command.seqNo);
      }
    }
  }

  predicate Lags(c: Consumer, topic: string, n: int)
  {
    !Subscribed(c, topic) && n > Get(c.offsets, topic, 0)
  }
}
