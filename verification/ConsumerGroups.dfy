/**
 * Consumers and their groups (coordination/consumer_group.py).
 *
 * A registered callback is represented by its inbox: the payloads it has been called with.
 * `Consumer` is the value of one ConsumerGroup object's fields.
 */
module ConsumerGroups {
  import opened Wrappers
  import opened StableSort
  import opened ReorderBuffer

  datatype Consumer = Consumer(
    topics: map<string, seq<seq<string>>>,
    offsets: map<string, int>,
    pending: map<string, seq<Msg>>)

  /** What get_state saves and load_state restores. */
  datatype Saved = Saved(groupId: string, consumerId: string, offsets: map<string, int>)

  function Payloads(ms: seq<Msg>): seq<string>
  {
    seq(|ms|, i requires 0 <= i < |ms| => ms[i].payload)
  }

  /** Every callback of a topic is handed the same payloads. */
  function HandOut(inboxes: seq<seq<string>>, payloads: seq<string>): seq<seq<string>>
  {
    seq(|inboxes|, i requires 0 <= i < |inboxes| => inboxes[i] + payloads)
  }

  predicate Subscribed(c: Consumer, topic: string)
  {
    topic in c.topics && topic in c.pending
  }

  function ChannelOf(c: Consumer, topic: string): Channel
    requires Subscribed(c, topic)
  {
    Channel(Get(c.offsets, topic, 0), c.pending[topic])
  }

  /** The consumer after its channel moved to `ch` and delivered `out`. */
  function Moved(c: Consumer, topic: string, ch: Channel, out: seq<Msg>): Consumer
    requires Subscribed(c, topic)
  {
    Consumer(c.topics[topic := HandOut(c.topics[topic], Payloads(out))],
             if out == [] then c.offsets else c.offsets[topic := ch.offset],
             c.pending[topic := ch.pending])
  }

  function Receive(c: Consumer, topic: string, m: Msg): Consumer
    requires Subscribed(c, topic)
  {
    var (ch, out) := Accept(ChannelOf(c, topic), m);
    Moved(c, topic, ch, out)
  }

  /**
   * Any message at all, and whether handling it ends in a KeyError.  Without a buffer for the topic
   * a stale number is ignored, an expected one is recorded before the buffer is missed, and a
   * future one fails at once.  (Nothing is delivered: the topics with callbacks have buffers.)
   */
  function OnArrival(c: Consumer, topic: string, m: Msg): (Consumer, bool)
  {
    var expected := Get(c.offsets, topic, 0) + 1;
    if Subscribed(c, topic) then (Receive(c, topic, m), false)
    else if m.seqNo < expected then (c, false)
    else if m.seqNo > expected then (c, true)
    else (c.(offsets := c.offsets[topic := m.seqNo]), true)
  }

  function Subscribe(c: Consumer, topic: string): Consumer
  {
    Consumer(c.topics[topic := Get(c.topics, topic, []) + [[]]],
             c.offsets,
             if topic in c.pending then c.pending else c.pending[topic := []])
  }

  /**
   * A subscribed consumer never fails.  One that is not fails on every number beyond its offset,
   * hands nothing out and keeps nothing; but its offset follows the numbers that come in order.
   */
  lemma ArrivalFailsIff(c: Consumer, topic: string, m: Msg)
    ensures var (c', keyError) := OnArrival(c, topic, m);
            && (keyError <==> !Subscribed(c, topic) && m.seqNo > Get(c.offsets, topic, 0))
            && (!Subscribed(c, topic) ==>
                  && c'.topics == c.topics && c'.pending == c.pending
                  && Get(c'.offsets, topic, 0)
                     == Get(c.offsets, topic, 0) + (if m.seqNo == Get(c.offsets, topic, 0) + 1 then 1 else 0)
                  && forall t :: t != topic ==> (t in c'.offsets <==> t in c.offsets)
                                                && Get(c'.offsets, t, 0) == Get(c.offsets, t, 0))
  {
    hide Receive;
  }

  // ----- The consumer object -----

  class ConsumerGroup {
    const groupId: string
    const consumerId: string
    var topics: map<string, seq<seq<string>>>
    var offsets: map<string, int>
    var pending: map<string, seq<Msg>>

    function State(): Consumer
      reads this
    {
      Consumer(topics, offsets, pending)
    }

    constructor (groupId: string, consumerId: string, offsetStore: map<string, int>)
      ensures this.groupId == groupId && this.consumerId == consumerId
      ensures State() == Consumer(map[], offsetStore, map[]) && Consistent()
    {
      this.groupId, this.consumerId := groupId, consumerId;
      topics, offsets, pending := map[], offsetStore, map[];
    }

    method AddCallback(topic: string)
      modifies this
      ensures State() == Subscribe(old(State()), topic)
      ensures old(Consistent()) ==> Consistent()
    {
      if topic !in topics {
        topics := topics[topic := []];
      }
      topics := topics[topic := topics[topic] + [[]]];
      if topic !in pending {
        pending := pending[topic := []];
      }
    }

    /** Buffers and callback lists come together. */
    ghost predicate Consistent()
      reads this
    {
      pending.Keys == topics.Keys
    }

    method OnMessage(topic: string, seqNo: int, payload: string) returns (keyError: bool)
      requires Consistent()
      modifies this
      ensures Consistent()
      ensures State() == OnArrival(old(State()), topic, Msg(seqNo, payload)).0
      ensures keyError == OnArrival(old(State()), topic, Msg(seqNo, payload)).1
    {
      var expected := Get(offsets, topic, 0) + 1;
      if seqNo == expected {
        Deliver(topic, payload);
        offsets := offsets[topic := seqNo];
        if topic !in pending {
          return true;
        }
        FlushBuffer(topic);
        MovedTwice(old(State()), topic, Msg(seqNo, payload));
      } else if seqNo > expected {
        if topic !in pending {
          return true;
        }
        pending := pending[topic := pending[topic] + [Msg(seqNo, payload)]];
        pending := pending[topic := Sort(SeqNo, pending[topic])];
        NothingHandedOut(old(State()), topic);
        assert pending == old(pending)[topic := Sort(SeqNo, old(pending)[topic] + [Msg(seqNo, payload)])];
        assert topics == old(topics)[topic := old(topics)[topic]];
      } else if topic in pending {
        NothingHandedOut(old(State()), topic);
      }
      keyError := false;
    }

    method FlushBuffer(topic: string)
      requires Subscribed(State(), topic) && topic in offsets
      modifies this
      ensures var (ch, out) := Flush(old(ChannelOf(State(), topic)));
              State() == Moved(old(State()), topic, ch, out)
    {
      hide Flush, Moved, HandOut, Payloads;
      ghost var whole := Flush(ChannelOf(State(), topic));
      ghost var done: seq<Msg> := [];
      var expected := Get(offsets, topic, 0) + 1;
      NothingHandedOut(State(), topic);
      while pending[topic] != [] && pending[topic][0].seqNo == expected
        invariant Subscribed(State(), topic) && topic in offsets && expected == offsets[topic] + 1
        invariant done == [] ==> offsets[topic] == old(offsets)[topic]
        invariant whole.1 == done + Flush(ChannelOf(State(), topic)).1
        invariant whole.0 == Flush(ChannelOf(State(), topic)).0
        invariant State() == Moved(old(State()), topic, ChannelOf(State(), topic), done)
        decreases |pending[topic]|
      {
        ghost var before := ChannelOf(State(), topic);
        FlushStep(before);
        MovedChannel(old(State()), topic, before, done);
        MoveOne(Moved(old(State()), topic, before, done), topic, pending[topic][0],
                Channel(expected, pending[topic][1..]));
        var msg := pending[topic][0];
        pending := pending[topic := pending[topic][1..]];
        Deliver(topic, msg.payload);
        offsets := offsets[topic := expected];
        expected := expected + 1;
        MoveMove(old(State()), topic, before, done, ChannelOf(State(), topic), [msg]);
        assert done + [msg] + Flush(ChannelOf(State(), topic)).1 == done + ([msg] + Flush(ChannelOf(State(), topic)).1);
        done := done + [msg];
      }
      FlushStops(ChannelOf(State(), topic));
      assert done + [] == done;
    }

    /** Call every callback of the topic, in registration order. */
    method Deliver(topic: string, payload: string)
      modifies this
      ensures topics == if topic in old(topics)
                        then old(topics)[topic := HandOut(old(topics)[topic], [payload])] else old(topics)
      ensures offsets == old(offsets) && pending == old(pending)
    {
      if topic in topics {
        var callbacks := topics[topic];
        for i := 0 to |callbacks|
          invariant |callbacks| == |old(topics)[topic]|
          invariant forall j :: 0 <= j < i ==> callbacks[j] == old(topics)[topic][j] + [payload]
          invariant forall j :: i <= j < |callbacks| ==> callbacks[j] == old(topics)[topic][j]
        {
          callbacks := callbacks[i := callbacks[i] + [payload]];
        }
        assert callbacks == HandOut(topics[topic], [payload]);
        topics := topics[topic := callbacks];
      }
    }

    method CommitOffset(topic: string, seqNo: int)
      modifies this
      ensures topics == old(topics) && pending == old(pending)
      ensures offsets == if seqNo > Get(old(offsets), topic, 0)
                         then old(offsets)[topic := seqNo] else old(offsets)
    {
      if seqNo > Get(offsets, topic, 0) {
        offsets := offsets[topic := seqNo];
      }
    }

    method GetState() returns (saved: Saved)
      ensures saved == Saved(groupId, consumerId, offsets)
    {
      saved := Saved(groupId, consumerId, offsets);
    }

    static method LoadState(saved: Saved) returns (c: ConsumerGroup)
      ensures fresh(c) && c.State() == Consumer(map[], saved.offsets, map[]) && c.Consistent()
      ensures c.groupId == saved.groupId && c.consumerId == saved.consumerId
    {
      c := new ConsumerGroup(saved.groupId, saved.consumerId, saved.offsets);
    }
  }

  // ----- Lemmas used by the class -----

  lemma HandOutTwice(inboxes: seq<seq<string>>, a: seq<Msg>, b: seq<Msg>)
    ensures HandOut(HandOut(inboxes, Payloads(a)), Payloads(b)) == HandOut(inboxes, Payloads(a + b))
    ensures forall m :: a == [m] ==> Payloads(a) == [m.payload]
    ensures forall m :: b == [m] ==> Payloads(b) == [m.payload]
  {
    assert Payloads(a + b) == Payloads(a) + Payloads(b);
    forall i | 0 <= i < |inboxes|
      ensures inboxes[i] + Payloads(a) + Payloads(b) == inboxes[i] + (Payloads(a) + Payloads(b))
    {
    }
  }

  lemma NothingHandedOut(c: Consumer, topic: string)
    requires Subscribed(c, topic)
    ensures HandOut(c.topics[topic], Payloads([])) == c.topics[topic]
    ensures Moved(c, topic, ChannelOf(c, topic), []) == c
  {
    var t := HandOut(c.topics[topic], Payloads([]));
    assert Payloads([]) == [];
    assert forall i :: 0 <= i < |t| ==> c.topics[topic][i] + [] == c.topics[topic][i];
    assert t == c.topics[topic];
    assert c.topics[topic := t] == c.topics;
    assert c.pending[topic := c.pending[topic]] == c.pending;
  }

  lemma FlushStep(ch: Channel)
    requires ch.pending != [] && ch.pending[0].seqNo == ch.offset + 1
    ensures var next := Channel(ch.offset + 1, ch.pending[1..]);
            Flush(ch).0 == Flush(next).0 && Flush(ch).1 == [ch.pending[0]] + Flush(next).1
  {
  }

  lemma FlushStops(ch: Channel)
    requires ch.pending == [] || ch.pending[0].seqNo != ch.offset + 1
    ensures Flush(ch).0 == ch && Flush(ch).1 == []
  {
  }

  /** Two moves of the channel are one move that delivers both outputs. */
  lemma MoveMove(c: Consumer, topic: string, ch1: Channel, o1: seq<Msg>, ch2: Channel, o2: seq<Msg>)
    requires Subscribed(c, topic)
    requires o2 == [] ==> ch2.offset == ch1.offset
    ensures Moved(Moved(c, topic, ch1, o1), topic, ch2, o2) == Moved(c, topic, ch2, o1 + o2)
    ensures o1 != [] ==> ChannelOf(Moved(c, topic, ch1, o1), topic) == ch1
  {
    HandOutTwice(c.topics[topic], o1, o2);
    hide HandOut, Payloads;
    assert o1 + o2 == [] <==> o1 == [] && o2 == [];
    UpdateTwice(c.topics, topic, HandOut(c.topics[topic], Payloads(o1)), HandOut(c.topics[topic], Payloads(o1 + o2)));
    UpdateTwice(c.pending, topic, ch1.pending, ch2.pending);
    UpdateTwice(c.offsets, topic, ch1.offset, ch2.offset);
  }

  lemma UpdateTwice<V>(m: map<string, V>, k: string, v: V, w: V)
    ensures m[k := v][k := w] == m[k := w]
  {
  }

  /** A move that delivers one message, written out. */
  lemma MoveOne(c: Consumer, topic: string, m: Msg, ch: Channel)
    requires Subscribed(c, topic)
    ensures Moved(c, topic, ch, [m])
         == Consumer(c.topics[topic := HandOut(c.topics[topic], [m.payload])],
                     c.offsets[topic := ch.offset], c.pending[topic := ch.pending])
  {
    assert Payloads([m]) == [m.payload];
  }

  lemma MovedChannel(c: Consumer, topic: string, ch: Channel, out: seq<Msg>)
    requires Subscribed(c, topic) && (out == [] ==> ch.offset == ChannelOf(c, topic).offset)
    ensures Subscribed(Moved(c, topic, ch, out), topic)
    ensures ChannelOf(Moved(c, topic, ch, out), topic) == ch
  {
  }

  /** Delivering the expected message and then draining is one move of the channel. */
  lemma MovedTwice(c: Consumer, topic: string, m: Msg)
    requires Subscribed(c, topic) && m.seqNo == ChannelOf(c, topic).offset + 1
    ensures var c1 := Consumer(c.topics[topic := HandOut(c.topics[topic], [m.payload])],
                               c.offsets[topic := m.seqNo], c.pending);
            var (ch, out) := Flush(ChannelOf(c1, topic));
            Moved(c1, topic, ch, out) == Receive(c, topic, m)
  {
    var next := Channel(m.seqNo, c.pending[topic]);
    var (ch, out) := Flush(next);
    FlushGapFree(next);
    hide Flush;
    MoveOne(c, topic, m, next);
    assert c.pending[topic := c.pending[topic]] == c.pending;
    MoveMove(c, topic, next, [m], ch, out);
  }

  // ----- Whole streams -----

  function ReceiveAll(c: Consumer, topic: string, ms: seq<Msg>): (c': Consumer)
    requires Subscribed(c, topic)
    ensures Subscribed(c', topic)
  {
    if ms == [] then c else Receive(ReceiveAll(c, topic, ms[..|ms| - 1]), topic, ms[|ms| - 1])
  }

  /**
   * The consumer follows its channel: after any stream, every callback has been handed
   * exactly the payloads the channel delivered, and nothing else has changed.
   */
  lemma {:induction false} ReceiveAllFollowsChannel(c: Consumer, topic: string, ms: seq<Msg>)
    requires Subscribed(c, topic)
    ensures var (ch, out) := AcceptAll(ChannelOf(c, topic), ms);
            && ChannelOf(ReceiveAll(c, topic, ms), topic) == ch
            && ReceiveAll(c, topic, ms) == Moved(c, topic, ch, out)
  {
    NothingHandedOut(c, topic);
    if ms != [] {
      var init, last := ms[..|ms| - 1], ms[|ms| - 1];
      ReceiveAllFollowsChannel(c, topic, init);
      var (c1, o1) := AcceptAll(ChannelOf(c, topic), init);
      var (c2, o2) := Accept(c1, last);
      AcceptGapFree(c1, last);
      GapFree(ChannelOf(c, topic), ms);
      hide Accept, Moved;
      MoveMove(c, topic, c1, o1, c2, o2);
      MovedChannel(c, topic, c2, o1 + o2);
    }
  }

  /**
   * A consumer saved, restored and subscribed again resumes where the saved offset says:
   * over both lives its first callback sees the next numbers once each and in order.
   */
  lemma RestoredConsumerResumes(c: Consumer, topic: string, before: seq<Msg>, after: seq<Msg>)
    requires Subscribed(c, topic)
    ensures var c1 := ReceiveAll(c, topic, before);
            var restored := Subscribe(Consumer(map[], c1.offsets, map[]), topic);
            var c2 := ReceiveAll(restored, topic, after);
            var (ch1, o1) := AcceptAll(ChannelOf(c, topic), before);
            var (ch2, o2) := AcceptAll(Channel(ch1.offset, []), after);
            && c1.topics[topic] == HandOut(c.topics[topic], Payloads(o1))
            && c2.topics[topic] == [Payloads(o2)]
            && Consecutive(o1 + o2, Get(c.offsets, topic, 0), ch2.offset)
            && Get(c2.offsets, topic, 0) == ch2.offset
  {
    var c1 := ReceiveAll(c, topic, before);
    var restored := Subscribe(Consumer(map[], c1.offsets, map[]), topic);
    ReceiveAllFollowsChannel(c, topic, before);
    ReceiveAllFollowsChannel(restored, topic, after);
    RestartGapFree(ChannelOf(c, topic), before, after);
    var o2 := AcceptAll(ChannelOf(restored, topic), after).1;
    assert restored.topics[topic] == [[]];
    assert [] + Payloads(o2) == Payloads(o2);
  }
}
