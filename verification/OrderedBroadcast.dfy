/**
 * Ordered broadcast end to end: one coordinator publishes through the replicated log, and every
 * node delivers what it has applied to its own consumer groups, whose members come and go
 * (coordination/coordinator.py:93-155 over coordination/raft.py and consumer_group.py).
 */
module OrderedBroadcast {
  import opened Wrappers
  import opened MicroRaftNode
  import opened Replication
  import opened ReorderBuffer
  import opened ConsumerGroups
  import opened Coordination
  import opened CoordinatorNode
  import opened NodeRun
  import opened ExactlyOnce
  import opened NodeDelivery

  /** The cluster and the publishing coordinator's counters. */
  datatype System = System(cluster: Cluster, topicSeqs: map<string, nat>)

  datatype Action =
    | Publish(topic: string, payload: string)   // ordered_broadcast at the leader
    | Other(step: Step)                         // anything else the cluster does

  /** Sequenced messages enter the log only through `Publish`. */
  predicate Plain(a: Action)
  {
    a.Other? && a.step.Command? ==> a.step.command.OtherCommand?
  }

  function Act(s: System, lead: NodeId, a: Action): (s': System)
    requires lead in s.cluster.servers
    ensures s'.cluster.servers.Keys == s.cluster.servers.Keys
  {
    match a
    case Publish(topic, payload) =>
      if s.cluster.servers[lead].role != Leader then s
      else
        var n := NextSeq(s.topicSeqs, topic);
        System(Next(s.cluster, lead, Command(OrderedMessage(topic, n, payload))), s.topicSeqs[topic := n])
    case Other(step) => s.(cluster := Next(s.cluster, lead, step))
  }

  ghost function Acts(s: System, lead: NodeId, acts: seq<Action>): (s': System)
    requires lead in s.cluster.servers
    ensures s'.cluster.servers.Keys == s.cluster.servers.Keys
  {
    if acts == [] then s else Act(Acts(s, lead, acts[..|acts| - 1]), lead, acts[|acts| - 1])
  }

  // ----- The numbers in the log -----

  /** Each topic's messages carry the numbers 1, 2, 3, ... up to its counter. */
  ghost predicate Numbered(cs: seq<Command>, topicSeqs: map<string, nat>)
  {
    forall topic :: Consecutive(TopicLog(cs, topic), 0, Get(topicSeqs, topic, 0))
  }

  lemma NumberedMore(cs: seq<Command>, topicSeqs: map<string, nat>, topic: string, payload: string)
    requires Numbered(cs, topicSeqs)
    ensures var n := NextSeq(topicSeqs, topic);
            Numbered(cs + [OrderedMessage(topic, n, payload)], topicSeqs[topic := n])
  {
    hide TopicLog;
    var n := NextSeq(topicSeqs, topic);
    var c := OrderedMessage(topic, n, payload);
    forall t ensures Consecutive(TopicLog(cs + [c], t), 0, Get(topicSeqs[topic := n], t, 0)) {
      TopicLogSnoc(cs, c, t);
      assert Consecutive(TopicLog(cs, t), 0, Get(topicSeqs, t, 0));
    }
  }

  lemma NumberedOther(cs: seq<Command>, topicSeqs: map<string, nat>, c: Command)
    requires Numbered(cs, topicSeqs) && c.OtherCommand?
    ensures Numbered(cs + [c], topicSeqs)
  {
    forall t ensures Consecutive(TopicLog(cs + [c], t), 0, Get(topicSeqs, t, 0)) {
      TopicLogSnoc(cs, c, t);
      assert Consecutive(TopicLog(cs, t), 0, Get(topicSeqs, t, 0));
      assert TopicLog(cs, t) + [] == TopicLog(cs, t);
    }
  }

  function LeaderCommands(s: System, lead: NodeId): seq<Command>
    requires lead in s.cluster.servers
  {
    Commands(s.cluster.servers[lead].log)
  }

  /** Only a proposal at a leading node extends the leader's log. */
  lemma LogStep(c: Cluster, lead: NodeId, step: Step)
    requires Inv(c, lead)
    ensures var l, l' := c.servers[lead].log, Next(c, lead, step).servers[lead].log;
            if step.Command? && c.servers[lead].role == Leader
            then Commands(l') == Commands(l) + [step.command] else l' == l
  {
    var s := c.servers[lead];
    match step
    case Command(command) =>
      if s.role == Leader {
        ProposeLog(s, command);
      }
    case Deliver(to, rpc) =>
      if to == lead && (rpc.AppendEntries? ==> rpc in c.sent) {
        HandleSynced(s, rpc, s.log, s.commitIndex);
      }
    case Receive(ack) => OnReplySynced(s, ack.from, ack.success);
    case Heartbeat =>
    case Timeout(_) =>
    case Win =>
    case Lose(_) =>
  }

  lemma ProposeLog(s: Server, command: Command)
    requires s.role == Leader
    ensures Commands(Propose(s, command).0.log) == Commands(s.log) + [command]
  {
    var e := Entry(s.term, |s.log| + 1, command);
    assert Propose(s, command).0.log == s.log + [e];
    assert Commands(s.log + [e]) == Commands(s.log) + [command];
  }

  lemma {:induction false} LogIsNumbered(s: System, lead: NodeId, acts: seq<Action>)
    requires Initial(s.cluster, lead) && s.topicSeqs == map[]
    requires forall i :: 0 <= i < |acts| ==> Plain(acts[i])
    ensures var s' := Acts(s, lead, acts);
            Inv(s'.cluster, lead) && Numbered(LeaderCommands(s', lead), s'.topicSeqs)
  {
    if acts == [] {
      InvRun(s.cluster, lead, []);
      assert LeaderCommands(s, lead) == [];
    } else {
      var init, a := acts[..|acts| - 1], acts[|acts| - 1];
      LogIsNumbered(s, lead, init);
      NumberedAct(Acts(s, lead, init), lead, a);
    }
  }

  lemma NumberedAct(s: System, lead: NodeId, a: Action)
    requires Inv(s.cluster, lead) && Numbered(LeaderCommands(s, lead), s.topicSeqs) && Plain(a)
    ensures var s' := Act(s, lead, a);
            Inv(s'.cluster, lead) && Numbered(LeaderCommands(s', lead), s'.topicSeqs)
  {
    hide Inv, Next, Numbered, Commands;
    match a
    case Publish(topic, payload) =>
      var c := OrderedMessage(topic, NextSeq(s.topicSeqs, topic), payload);
      InvStep(s.cluster, lead, Command(c));
      LogStep(s.cluster, lead, Command(c));
      NumberedMore(LeaderCommands(s, lead), s.topicSeqs, topic, payload);
    case Other(step) =>
      InvStep(s.cluster, lead, step);
      LogStep(s.cluster, lead, step);
      if step.Command? {
        NumberedOther(LeaderCommands(s, lead), s.topicSeqs, step.command);
      }
  }

  // ----- What a node has applied -----

  lemma {:induction false} TopicLogOfPrefix(cs: seq<Command>, k: nat, topic: string)
    requires k <= |cs|
    ensures TopicLog(cs[..k], topic) <= TopicLog(cs, topic)
    decreases |cs|
  {
    if k == |cs| {
      assert cs[..k] == cs;
    } else {
      var n := |cs| - 1;
      TopicLogOfPrefix(cs[..n], k, topic);
      assert cs[..n][..k] == cs[..k];
      TopicLogSnoc(cs[..n], cs[n], topic);
      assert cs == cs[..n] + [cs[n]];
    }
  }

  lemma PrefixConsecutive(a: seq<Msg>, b: seq<Msg>, n: nat)
    requires a <= b && Consecutive(b, 0, n)
    ensures Consecutive(a, 0, |a|)
  {
  }

  lemma AppliedIsPrefix(c: Cluster, lead: NodeId, n: NodeId)
    requires Inv(c, lead) && n in c.servers
    ensures var l, f := c.servers[lead], c.servers[n];
            && f.commitIndex <= l.commitIndex <= |l.log|
            && |Commands(l.log)| == |l.log| && |Commands(l.log[..l.commitIndex])| == l.commitIndex
            && f.applied == Commands(l.log)[..f.commitIndex]
            && f.applied == Commands(l.log[..l.commitIndex])[..f.commitIndex]
  {
    var l, f := c.servers[lead], c.servers[n];
    assert Synced(f, l.log, l.commitIndex) && Synced(l, l.log, l.commitIndex);
    assert f.log[..f.commitIndex] == l.log[..f.commitIndex];
  }

  /** Commands that a node has applied are distinctly and consecutively numbered in every topic. */
  lemma AppliedIsNumbered(s: System, lead: NodeId, acts: seq<Action>, n: NodeId)
    requires Initial(s.cluster, lead) && s.topicSeqs == map[] && n in s.cluster.servers
    requires forall i :: 0 <= i < |acts| ==> Plain(acts[i])
    ensures var s' := Acts(s, lead, acts);
            var l, applied := s'.cluster.servers[lead], s'.cluster.servers[n].applied;
            && l.commitIndex <= |l.log|
            && forall topic ::
                 && Consecutive(TopicLog(applied, topic), 0, |TopicLog(applied, topic)|)
                 && TopicLog(applied, topic) <= TopicLog(Commands(l.log[..l.commitIndex]), topic)
  {
    LogIsNumbered(s, lead, acts);
    var s' := Acts(s, lead, acts);
    var l, f := s'.cluster.servers[lead], s'.cluster.servers[n];
    AppliedIsPrefix(s'.cluster, lead, n);
    hide *;
    NumberedPrefix(Commands(l.log), Commands(l.log[..l.commitIndex]), f.commitIndex, s'.topicSeqs);
  }

  lemma NumberedPrefix(whole: seq<Command>, committed: seq<Command>, k: nat, topicSeqs: map<string, nat>)
    requires Numbered(whole, topicSeqs)
    requires k <= |whole| && k <= |committed| && committed[..k] == whole[..k]
    ensures forall topic ::
              && Consecutive(TopicLog(whole[..k], topic), 0, |TopicLog(whole[..k], topic)|)
              && TopicLog(whole[..k], topic) <= TopicLog(committed, topic)
  {
    hide TopicLog;
    forall topic
      ensures Consecutive(TopicLog(whole[..k], topic), 0, |TopicLog(whole[..k], topic)|)
      ensures TopicLog(whole[..k], topic) <= TopicLog(committed, topic)
    {
      TopicLogOfPrefix(whole, k, topic);
      TopicLogOfPrefix(committed, k, topic);
      PrefixConsecutive(TopicLog(whole[..k], topic), TopicLog(whole, topic), Get(topicSeqs, topic, 0));
    }
  }

  // ----- Main results -----

  /**
   * Ordered broadcast: in every run with one publisher, on every node, and whatever consumers join,
   * leave and subscribe there meanwhile, every callback a consumer had when it was fresh in the
   * topic's group has been handed exactly a prefix of the payloads of the topic's applied messages,
   * once each and in order, as long as that consumer does not leave; and these messages are numbered
   * 1, 2, 3, ... and are a prefix of what the publisher has committed for that topic.
   */
  lemma EveryConsumerGetsAPrefix(s: System, lead: NodeId, acts: seq<Action>, n: NodeId,
                                 groups: Groups, es: seq<Event>, ttl: real,
                                 topic: string, name: string, c: Consumer) returns (c': Consumer)
    requires Initial(s.cluster, lead) && s.topicSeqs == map[] && n in s.cluster.servers
    requires forall k :: 0 <= k < |acts| ==> Plain(acts[k])
    requires CommitsOf(es) == Acts(s, lead, acts).cluster.servers[n].applied
    requires Sits(groups, "cg:" + topic, name, c) && FreshMember(c, topic) && Stays(es, "cg:" + topic, name)
    ensures var l := Acts(s, lead, acts).cluster.servers[lead];
            var log := TopicLog(CommitsOf(es), topic);
            && l.commitIndex <= |l.log|
            && Consecutive(log, 0, |log|) && log <= TopicLog(Commands(l.log[..l.commitIndex]), topic)
            && Sits(HappenAll(Delivery(map[], groups), es, ttl).groups, "cg:" + topic, name, c')
            && HasPrefix(c', topic, log, |c.topics[topic]|)
  {
    AppliedIsNumbered(s, lead, acts, n);
    FreshIsServed(groups, topic, name, c);
    assert Served(Delivery(map[], groups), topic, name, [], |c.topics[topic]|, false);
    ServedRun(Delivery(map[], groups), es, ttl, topic, name, |c.topics[topic]|, false);
    c' :| Sits(HappenAll(Delivery(map[], groups), es, ttl).groups, "cg:" + topic, name, c')
          && HasPrefix(c', topic, TopicLog(CommitsOf(es), topic), |c.topics[topic]|);
  }

  /**
   * If moreover at each commit of the topic all members of its group are subscribed, nothing is
   * missing: those callbacks have been handed all payloads of the topic's applied messages.
   */
  lemma EveryConsumerGetsAll(s: System, lead: NodeId, acts: seq<Action>, n: NodeId,
                             groups: Groups, es: seq<Event>, ttl: real,
                             topic: string, name: string, c: Consumer) returns (c': Consumer)
    requires Initial(s.cluster, lead) && s.topicSeqs == map[] && n in s.cluster.servers
    requires forall k :: 0 <= k < |acts| ==> Plain(acts[k])
    requires CommitsOf(es) == Acts(s, lead, acts).cluster.servers[n].applied
    requires Sits(groups, "cg:" + topic, name, c) && FreshMember(c, topic) && Stays(es, "cg:" + topic, name)
    requires AlwaysPunctual(Delivery(map[], groups), es, ttl, topic)
    ensures var log := TopicLog(CommitsOf(es), topic);
            && Sits(HappenAll(Delivery(map[], groups), es, ttl).groups, "cg:" + topic, name, c')
            && HasAll(c', topic, log) && |c'.topics[topic]| >= |c.topics[topic]|
            && forall k :: 0 <= k < |c.topics[topic]| ==> c'.topics[topic][k] == Payloads(log)
  {
    AppliedIsNumbered(s, lead, acts, n);
    FreshIsServed(groups, topic, name, c);
    ServedRun(Delivery(map[], groups), es, ttl, topic, name, |c.topics[topic]|, true);
    var log := TopicLog(CommitsOf(es), topic);
    c' :| Sits(HappenAll(Delivery(map[], groups), es, ttl).groups, "cg:" + topic, name, c')
          && HasPrefix(c', topic, log, |c.topics[topic]|) && HasAll(c', topic, log);
    assert log[..|log|] == log;
  }

  /** So it is for whoever joins a topic's group, and adds a callback, before anything is committed. */
  lemma NewcomerGetsAll(s: System, lead: NodeId, acts: seq<Action>, n: NodeId,
                        groups: Groups, es: seq<Event>, ttl: real, topic: string, name: string) returns (c: Consumer)
    requires Initial(s.cluster, lead) && s.topicSeqs == map[] && n in s.cluster.servers
    requires forall k :: 0 <= k < |acts| ==> Plain(acts[k])
    requires CommitsOf(es) == Acts(s, lead, acts).cluster.servers[n].applied
    requires var ms := Get(groups, "cg:" + topic, []); PositionOf(Names(ms), name) == |ms|
    requires Stays(es, "cg:" + topic, name)
    requires var start := [Join("cg:" + topic, name), AddCallback("cg:" + topic, name, topic)];
             AlwaysPunctual(HappenAll(Delivery(map[], groups), start, ttl), es, ttl, topic)
    ensures var start := [Join("cg:" + topic, name), AddCallback("cg:" + topic, name, topic)];
            && Sits(HappenAll(Delivery(map[], groups), start + es, ttl).groups, "cg:" + topic, name, c)
            && Subscribed(c, topic) && |c.topics[topic]| >= 1
            && c.topics[topic][0] == Payloads(TopicLog(CommitsOf(es), topic))
  {
    hide *;
    var start := [Join("cg:" + topic, name), AddCallback("cg:" + topic, name, topic)];
    var d := HappenAll(Delivery(map[], groups), start, ttl);
    var newcomer := NewcomerIsFresh(groups, "cg:" + topic, name, topic, ttl);
    assert d == Delivery(map[], d.groups);
    c := EveryConsumerGetsAll(s, lead, acts, n, d.groups, es, ttl, topic, name, newcomer);
    AllIsSubscribed(c, topic, TopicLog(CommitsOf(es), topic));
    HappenInParts(Delivery(map[], groups), start, es, ttl);
  }

  lemma AllIsSubscribed(c: Consumer, topic: string, log: seq<Msg>)
    requires HasAll(c, topic, log)
    ensures Subscribed(c, topic)
  {
  }
}
