/**
 * What the leader's acknowledgement bookkeeping means (coordination/raft.py:374-403).
 *
 * A success answer is credited with the length of the leader's log when the answer
 * arrives, not when the snapshot was sent.  If the log has not changed in between, the
 * match index is truthful and every commit is held by a majority; `EarlyCommit` is a run
 * in which it has changed.
 */
module MajorityCommit {
  import opened Wrappers
  import opened MicroRaftNode
  import opened LogRepair
  import opened Replication

  /** `lead` lists every other member, once. */
  ghost predicate PeersAreTheOthers(c: Cluster, lead: NodeId)
  {
    && lead in c.servers
    && var ps := c.servers[lead].peers;
    && (forall i, j :: 0 <= i < j < |ps| ==> ps[i] != ps[j])
    && (set p | p in ps) == c.servers.Keys - {lead}
  }

  /** The leader's log is as long as when the acknowledged snapshot was sent. */
  ghost predicate TimelyStep(c: Cluster, lead: NodeId, step: Step)
    requires lead in c.servers
  {
    step.Receive? && step.ack in c.acks && step.ack.success && step.ack.request.AppendEntries? ==>
      |c.servers[lead].log| == step.ack.request.prevLogIndex + |step.ack.request.entries|
  }

  ghost predicate Timely(c: Cluster, lead: NodeId, steps: seq<Step>)
    requires lead in c.servers
  {
    forall i :: 0 <= i < |steps| ==> TimelyStep(Run(c, lead, steps[..i]), lead, steps[i])
  }

  /** The nodes that hold the first `k` entries of the leader's log. */
  ghost function Holders(c: Cluster, lead: NodeId, k: nat): set<NodeId>
    requires lead in c.servers && k <= |c.servers[lead].log|
  {
    set n | n in c.servers && c.servers[lead].log[..k] <= c.servers[n].log
  }

  ghost predicate HeldByMajority(c: Cluster, lead: NodeId, k: nat)
    requires lead in c.servers && k <= |c.servers[lead].log|
  {
    2 * |Holders(c, lead, k)| > |c.servers|
  }

  ghost predicate AcksTruthful(c: Cluster)
  {
    forall a :: a in c.acks ==>
      && a.from in c.servers && a.request.AppendEntries?
      && (a.success ==> a.request.prevLogIndex + |a.request.entries| <= |c.servers[a.from].log|)
  }

  /** No match index exceeds what that peer really shares with the leader. */
  ghost predicate MatchTruthful(c: Cluster, lead: NodeId)
    requires lead in c.servers
  {
    var l := c.servers[lead];
    forall p :: p in l.matchIndex ==>
      p in c.servers && l.matchIndex[p] <= CommonPrefix(c.servers[p].log, l.log)
  }

  ghost predicate MajorityInv(c: Cluster, lead: NodeId)
  {
    && Inv(c, lead) && PeersAreTheOthers(c, lead) && AcksTruthful(c) && MatchTruthful(c, lead)
    && c.servers[lead].commitIndex <= |c.servers[lead].log|
    && HeldByMajority(c, lead, c.servers[lead].commitIndex)
  }

  // ----- Counting -----

  ghost function Acked(peers: seq<NodeId>, matchIndex: map<NodeId, nat>, n: nat): set<NodeId>
  {
    set p | p in peers && Get(matchIndex, p, 0) >= n
  }

  lemma AckedSnoc(init: seq<NodeId>, last: NodeId, matchIndex: map<NodeId, nat>, n: nat)
    requires last !in init
    ensures |Acked(init + [last], matchIndex, n)|
         == |Acked(init, matchIndex, n)| + (if Get(matchIndex, last, 0) >= n then 1 else 0)
  {
    if Get(matchIndex, last, 0) >= n {
      assert Acked(init + [last], matchIndex, n) == Acked(init, matchIndex, n) + {last};
    } else {
      assert Acked(init + [last], matchIndex, n) == Acked(init, matchIndex, n);
    }
  }

  lemma {:induction false} AckCountIsSetSize(peers: seq<NodeId>, matchIndex: map<NodeId, nat>, n: nat)
    requires forall i, j :: 0 <= i < j < |peers| ==> peers[i] != peers[j]
    ensures AckCount(peers, matchIndex, n) == |Acked(peers, matchIndex, n)|
  {
    hide Get;
    if peers == [] {
      assert Acked(peers, matchIndex, n) == {};
    } else {
      var init, last := peers[..|peers| - 1], peers[|peers| - 1];
      AckCountIsSetSize(init, matchIndex, n);
      assert peers == init + [last];
      AckedSnoc(init, last, matchIndex, n);
    }
  }

  /** In a reachable state a node shares all of its log with the leader. */
  lemma SharedPrefixIsLog(c: Cluster, lead: NodeId, n: NodeId)
    requires Inv(c, lead) && n in c.servers
    ensures CommonPrefix(c.servers[n].log, c.servers[lead].log) == |c.servers[n].log|
  {
    var f, l := c.servers[n].log, c.servers[lead].log;
    assert f == l[..|f|];
    CommonPrefixUnique(f, l, |f|);
  }

  /** A node whose log reaches `k` holds the first `k` entries. */
  lemma LongEnoughHolds(c: Cluster, lead: NodeId, n: NodeId, k: nat)
    requires Inv(c, lead) && n in c.servers
    requires k <= |c.servers[n].log|
    ensures k <= |c.servers[lead].log| && n in Holders(c, lead, k)
  {
    var f, l := c.servers[n].log, c.servers[lead].log;
    assert f == l[..|f|];
    assert l[..k] == f[..k];
  }

  /** Truthful match indices turn the leader's count into a majority of holders. */
  lemma CommittableIsHeld(c: Cluster, lead: NodeId, k: nat)
    requires Inv(c, lead) && PeersAreTheOthers(c, lead) && MatchTruthful(c, lead)
    requires 1 <= k <= |c.servers[lead].log| && Committable(c.servers[lead], k)
    ensures HeldByMajority(c, lead, k)
  {
    var l := c.servers[lead];
    AckCountIsSetSize(l.peers, l.matchIndex, k);
    MemberCount(c, lead);
    var acked := Acked(l.peers, l.matchIndex, k);
    assert |acked| + 1 >= Majority(|l.peers|);
    assert lead !in acked by {
      assert lead !in (set p | p in l.peers);
    }
    hide AckCount, Committable;
    AckedHold(c, lead, k);
    SubsetSize(acked + {lead}, Holders(c, lead, k));
  }

  lemma MemberCount(c: Cluster, lead: NodeId)
    requires PeersAreTheOthers(c, lead)
    ensures |c.servers| == |c.servers[lead].peers| + 1
  {
    DistinctSize(c.servers[lead].peers);
    assert c.servers.Keys == (c.servers.Keys - {lead}) + {lead};
    assert |c.servers| == |c.servers.Keys|;
  }

  lemma AckedHold(c: Cluster, lead: NodeId, k: nat)
    requires Inv(c, lead) && PeersAreTheOthers(c, lead) && MatchTruthful(c, lead)
    requires 1 <= k <= |c.servers[lead].log|
    ensures Acked(c.servers[lead].peers, c.servers[lead].matchIndex, k) + {lead} <= Holders(c, lead, k)
  {
    hide CommonPrefix, Holders;
    var l := c.servers[lead];
    LongEnoughHolds(c, lead, lead, k);
    forall p | p in Acked(l.peers, l.matchIndex, k) ensures p in Holders(c, lead, k) {
      SharedPrefixIsLog(c, lead, p);
      LongEnoughHolds(c, lead, p, k);
    }
  }

  // ----- Preservation -----

  lemma HeldLater(c: Cluster, c': Cluster, lead: NodeId, k: nat)
    requires Inv(c, lead) && Inv(c', lead) && Grows(c, c', lead)
    requires k <= |c.servers[lead].log| && HeldByMajority(c, lead, k)
    ensures HeldByMajority(c', lead, k)
  {
    forall n | n in Holders(c, lead, k) ensures n in Holders(c', lead, k) {
      LongEnoughHolds(c', lead, n, k);
    }
    SubsetSize(Holders(c, lead, k), Holders(c', lead, k));
    assert |c.servers| == |c.servers.Keys| && |c'.servers| == |c'.servers.Keys|;
  }

  lemma AcksStayTruthful(c: Cluster, lead: NodeId, step: Step)
    requires Inv(c, lead) && AcksTruthful(c)
    ensures AcksTruthful(Next(c, lead, step))
  {
    InvStep(c, lead, step);
    var c' := Next(c, lead, step);
    if step.Deliver? && step.to in c.servers && (step.rpc.AppendEntries? ==> step.rpc in c.sent) {
      HandleSynced(c.servers[step.to], step.rpc, c.servers[lead].log, c.servers[lead].commitIndex);
    }
    forall a | a in c'.acks
      ensures a.from in c'.servers && a.request.AppendEntries?
      ensures a.success ==> a.request.prevLogIndex + |a.request.entries| <= |c'.servers[a.from].log|
    {
      if a in c.acks {
        assert Forward(c.servers[a.from], c'.servers[a.from]);
      }
    }
  }

  lemma ProposeKeeps(s: Server, command: Command)
    ensures Propose(s, command).0.matchIndex == s.matchIndex
  {
  }

  /** Where a step can change the leader's match index. */
  lemma MatchIndexStep(c: Cluster, lead: NodeId, step: Step)
    requires Inv(c, lead)
    ensures var l, l' := c.servers[lead], Next(c, lead, step).servers[lead];
            || l'.matchIndex == l.matchIndex
            || (step.Win? && l'.matchIndex == SetAll(l.matchIndex, l.peers, 0))
            || (step.Receive? && step.ack in c.acks && step.ack.success
                && l'.matchIndex == l.matchIndex[step.ack.from := |l.log|])
  {
    hide Handle, OnReply, Synced, InFlight, BuildAppend, SetAll, WellIndexed, Propose, Snapshots;
    var l := c.servers[lead];
    if step.Deliver? && step.to == lead && (step.rpc.AppendEntries? ==> step.rpc in c.sent) {
      HandleSynced(l, step.rpc, l.log, l.commitIndex);
    } else if step.Receive? {
      OnReplyKeeps(l, step.ack.from, step.ack.success);
    } else if step.Command? {
      ProposeKeeps(l, step.command);
    }
  }

  lemma MatchStaysTruthful(c: Cluster, lead: NodeId, step: Step)
    requires Inv(c, lead) && PeersAreTheOthers(c, lead) && AcksTruthful(c) && MatchTruthful(c, lead)
    requires TimelyStep(c, lead, step)
    ensures MatchTruthful(Next(c, lead, step), lead)
  {
    InvStep(c, lead, step);
    var c' := Next(c, lead, step);
    forall p | p in c'.servers[lead].matchIndex
      ensures p in c'.servers
      ensures c'.servers[lead].matchIndex[p] <= CommonPrefix(c'.servers[p].log, c'.servers[lead].log)
    {
      MatchOfPeer(c, lead, step, p);
      SharedPrefixIsLog(c', lead, p);
    }
  }

  lemma MatchOfPeer(c: Cluster, lead: NodeId, step: Step, p: NodeId)
    requires Inv(c, lead) && PeersAreTheOthers(c, lead) && AcksTruthful(c) && MatchTruthful(c, lead)
    requires TimelyStep(c, lead, step)
    requires p in Next(c, lead, step).servers[lead].matchIndex
    ensures p in c.servers
    ensures Next(c, lead, step).servers[lead].matchIndex[p] <= |Next(c, lead, step).servers[p].log|
  {
    hide Next, Inv, CommonPrefix;
    InvStep(c, lead, step);
    MatchIndexStep(c, lead, step);
    var c' := Next(c, lead, step);
    var l := c.servers[lead];
    if p in l.matchIndex {
      assert p in c.servers;
      SharedPrefixIsLog(c, lead, p);
    } else if step.Win? {
      assert p in (set q | q in l.peers);
      assert p in c.servers.Keys - {lead};
    } else {
      assert step.ack.from == p && step.ack in c.acks;
      assert p in c.servers;
    }
    assert Forward(c.servers[p], c'.servers[p]);
  }

  lemma CommitOnReply(l: Server, peer: NodeId)
    requires l.commitIndex <= |l.log|
    ensures var l' := OnReply(l, peer, true);
            || l'.commitIndex == l.commitIndex
            || (1 <= l'.commitIndex <= |l'.log| && Committable(l', l'.commitIndex))
  {
    hide AckCount;
    var s1 := l.(matchIndex := l.matchIndex[peer := |l.log|], nextIndex := l.nextIndex[peer := |l.log| + 1]);
    var n := GreatestCommittable(s1, |s1.log|);
    hide GreatestCommittable;
    assert OnReply(l, peer, true) == CommitUpTo(s1, |s1.log|);
    assert n > l.commitIndex ==> Committable(s1, n);
  }

  lemma CommitOnPropose(l: Server, command: Command)
    ensures var l' := Propose(l, command).0;
            || l'.commitIndex == l.commitIndex
            || (1 <= l'.commitIndex <= |l'.log| && l'.peers == [])
  {
  }

  /** A step commits either nothing new, or an index that is committable afterwards. */
  lemma CommitStep(c: Cluster, lead: NodeId, step: Step)
    requires Inv(c, lead) && PeersAreTheOthers(c, lead)
    ensures var l, l' := c.servers[lead], Next(c, lead, step).servers[lead];
            || l'.commitIndex == l.commitIndex
            || (1 <= l'.commitIndex <= |l'.log| && (Committable(l', l'.commitIndex) || l'.peers == []))
  {
    hide Handle, OnReply, Propose, Committable, Snapshots, BuildAppend, WellIndexed, IsSnapshot, PeersAreTheOthers, SetAll;
    var l := c.servers[lead];
    assert Synced(l, l.log, l.commitIndex);
    match step
    case Command(command) => CommitOnPropose(l, command);
    case Heartbeat =>
    case Deliver(to, rpc) =>
      if to == lead && (rpc.AppendEntries? ==> rpc in c.sent) {
        HandleSynced(l, rpc, l.log, l.commitIndex);
      }
    case Receive(ack) =>
      if ack.success {
        CommitOnReply(l, ack.from);
      } else {
        RefusalCommitsNothing(l, ack.from);
      }
    case Timeout(_) =>
    case Win =>
    case Lose(_) =>
  }

  lemma RefusalCommitsNothing(l: Server, peer: NodeId)
    ensures OnReply(l, peer, false).commitIndex == l.commitIndex
  {
  }

  /** A leader without peers is the whole cluster. */
  lemma LoneLeaderHolds(c: Cluster, lead: NodeId, k: nat)
    requires Inv(c, lead) && PeersAreTheOthers(c, lead)
    requires c.servers[lead].peers == [] && k <= |c.servers[lead].log|
    ensures HeldByMajority(c, lead, k)
  {
    assert c.servers.Keys == {lead} by {
      assert c.servers.Keys - {lead} == {};
    }
    LongEnoughHolds(c, lead, lead, k);
    SubsetSize({lead}, Holders(c, lead, k));
    assert |c.servers| == |c.servers.Keys|;
  }

  lemma MajorityStep(c: Cluster, lead: NodeId, step: Step)
    requires MajorityInv(c, lead) && TimelyStep(c, lead, step)
    ensures MajorityInv(Next(c, lead, step), lead)
  {
    hide Next, Committable, HeldByMajority;
    var c' := Next(c, lead, step);
    InvStep(c, lead, step);
    AcksStayTruthful(c, lead, step);
    MatchStaysTruthful(c, lead, step);
    assert PeersAreTheOthers(c', lead) by {
      assert Forward(c.servers[lead], c'.servers[lead]);
    }
    CommitStep(c, lead, step);
    var l, l' := c.servers[lead], c'.servers[lead];
    if l'.commitIndex == l.commitIndex {
      HeldLater(c, c', lead, l.commitIndex);
    } else if l'.peers == [] {
      LoneLeaderHolds(c', lead, l'.commitIndex);
    } else {
      CommittableIsHeld(c', lead, l'.commitIndex);
    }
  }

  /** Majority commit: what the leader has committed is in the logs of a strict majority. */
  lemma {:induction false} CommittedIsHeldByMajority(c: Cluster, lead: NodeId, steps: seq<Step>)
    requires Initial(c, lead) && PeersAreTheOthers(c, lead) && Timely(c, lead, steps)
    ensures MajorityInv(Run(c, lead, steps), lead)
  {
    if steps == [] {
      LongEnoughHolds(c, lead, lead, 0);
      forall n | n in c.servers.Keys ensures n in Holders(c, lead, 0) {
        LongEnoughHolds(c, lead, n, 0);
      }
      SubsetSize(c.servers.Keys, Holders(c, lead, 0));
      SubsetSize({lead}, c.servers.Keys);
      assert |c.servers| == |c.servers.Keys|;
    } else {
      var init := steps[..|steps| - 1];
      forall i | 0 <= i < |init| ensures TimelyStep(Run(c, lead, init[..i]), lead, init[i]) {
        assert steps[..i] == init[..i];
      }
      CommittedIsHeldByMajority(c, lead, init);
      MajorityStep(Run(c, lead, init), lead, steps[|steps| - 1]);
    }
  }

  /**
   * Exactly when crediting one success answer is truthful: the answering peer must hold
   * the leader's whole log by the time the answer is processed.
   */
  lemma CreditTruthfulIff(c: Cluster, lead: NodeId, ack: Ack)
    requires Inv(c, lead) && AcksTruthful(c) && MatchTruthful(c, lead)
    requires ack in c.acks && ack.success
    ensures MatchTruthful(Next(c, lead, Receive(ack)), lead)
            <==> c.servers[ack.from].log == c.servers[lead].log
  {
    var l, p := c.servers[lead], ack.from;
    var c' := Next(c, lead, Receive(ack));
    assert l.log <= l.log && c.servers[p].log == l.log[..|c.servers[p].log|];
    ReceiveEffect(c, lead, ack);
    hide Next, Inv, CommonPrefix;
    assert c'.servers[lead].matchIndex == l.matchIndex[p := |l.log|];
    if c.servers[p].log == l.log {
      forall q | q in c'.servers[lead].matchIndex
        ensures q in c'.servers
        ensures c'.servers[lead].matchIndex[q] <= CommonPrefix(c'.servers[q].log, c'.servers[lead].log)
      {
        if q != p {
          SharedPrefixIsLog(c, lead, q);
        }
      }
    } else {
      assert c'.servers[lead].matchIndex[p] > CommonPrefix(c'.servers[p].log, c'.servers[lead].log);
    }
  }

  lemma ReceiveEffect(c: Cluster, lead: NodeId, ack: Ack)
    requires Inv(c, lead) && ack in c.acks && ack.success
    ensures var c' := Next(c, lead, Receive(ack));
            && c'.servers.Keys == c.servers.Keys
            && c'.servers[lead].matchIndex == c.servers[lead].matchIndex[ack.from := |c.servers[lead].log|]
            && forall n :: n in c.servers ==>
                 CommonPrefix(c'.servers[n].log, c'.servers[lead].log) == |c.servers[n].log|
  {
    OnReplyKeeps(c.servers[lead], ack.from, true);
    InvStep(c, lead, Receive(ack));
    var c' := Next(c, lead, Receive(ack));
    assert forall n :: n in c.servers ==> c'.servers[n].log == c.servers[n].log;
    hide Next, Inv, CommonPrefix;
    forall n | n in c.servers
      ensures CommonPrefix(c'.servers[n].log, c'.servers[lead].log) == |c.servers[n].log|
    {
      SharedPrefixIsLog(c', lead, n);
    }
  }

  /** A success answer to a snapshot that ended at `k` reaches a leader whose log has `n` entries. */
  ghost predicate Answered(c: Cluster, lead: NodeId, ack: Ack, k: nat, n: nat)
  {
    && Inv(c, lead) && PeersAreTheOthers(c, lead) && AcksTruthful(c) && MatchTruthful(c, lead)
    && |c.servers[lead].log| == n
    && ack in c.acks && ack.success && ack.request.AppendEntries?
    && ack.request.prevLogIndex + |ack.request.entries| == k
  }

  ghost predicate AlwaysTruthful(k: nat, n: nat)
  {
    forall c, lead, ack :: Answered(c, lead, ack, k, n) ==> MatchTruthful(Next(c, lead, Receive(ack)), lead)
  }

  /**
   * What the leader itself can compare: crediting the answer is safe exactly when its log still
   * ends where the acknowledged snapshot ended.
   */
  lemma CreditGuardIff(k: nat, n: nat)
    requires k <= n
    ensures AlwaysTruthful(k, n) <==> k == n
  {
    if k == n {
      forall c, lead, ack | Answered(c, lead, ack, k, n)
        ensures MatchTruthful(Next(c, lead, Receive(ack)), lead)
      {
        HoldsWhole(c, lead, ack);
        CreditTruthfulIff(c, lead, ack);
      }
    } else {
      LaggingAnswered(k, n);
      hide Answered, Inv, Next, Run;
      assert !MatchTruthful(Next(Run(TWO, "a", Lag(k, n)), "a", Receive(LaggingAck(k))), "a");
    }
  }

  lemma LaggingAnswered(k: nat, n: nat)
    requires k < n
    ensures "a" in TWO.servers && Answered(Run(TWO, "a", Lag(k, n)), "a", LaggingAck(k), k, n)
    ensures "a" in Run(TWO, "a", Lag(k, n)).servers
    ensures !MatchTruthful(Next(Run(TWO, "a", Lag(k, n)), "a", Receive(LaggingAck(k))), "a")
  {
    LagRun(k, n);
    LagIsTimely(k, n);
    CommittedIsHeldByMajority(TWO, "a", Lag(k, n));
    hide Inv, Next, CommonPrefix, Run, Lag, Initial, PeersAreTheOthers, Timely, MatchTruthful, AcksTruthful;
    CreditTruthfulIff(Run(TWO, "a", Lag(k, n)), "a", LaggingAck(k));
    assert |Entries(k)| != |Entries(n)|;
  }

  lemma HoldsWhole(c: Cluster, lead: NodeId, ack: Ack)
    requires lead in c.servers && Answered(c, lead, ack, |c.servers[lead].log|, |c.servers[lead].log|)
    ensures ack.from in c.servers && c.servers[ack.from].log == c.servers[lead].log
  {
    assert Synced(c.servers[ack.from], c.servers[lead].log, c.servers[lead].commitIndex);
  }

  function Entries(n: nat): seq<Entry>
  {
    seq(n, i requires 0 <= i < n => Entry(1, i + 1, OtherCommand("")))
  }

  // The two-node run that shows the other direction.

  /** The leader of two, in term 1, with `n` entries of which none is acknowledged. */
  function President(n: nat): Server
  {
    Server("a", ["b"], 1, None, Entries(n), 0, 0, map["b" := 1], map["b" := 0], Leader, [])
  }

  const TWO: Cluster := Cluster(map["a" := Fresh("a", ["b"]), "b" := Fresh("b", ["a"])], {}, {})

  function Commands1(n: nat): seq<Step> { seq(n, _ => Command(OtherCommand(""))) }

  function Snapshot(k: nat): Rpc { AppendEntries(1, "a", 0, 0, Entries(k), 0) }

  /** a wins, takes `k` commands and replicates them to b, and takes commands up to `n` before the answer comes. */
  function Lag(k: nat, n: nat): seq<Step>
    requires k <= n
  {
    [Timeout("a"), Win] + Commands1(k) + [Heartbeat, Deliver("b", Snapshot(k))] + Commands1(n - k)
  }

  function LaggingAck(k: nat): Ack { Ack("b", Snapshot(k), true) }

  /** a leads with `n` entries, b holds the first `k`. */
  ghost predicate Lags(c: Cluster, k: nat, n: nat)
  {
    c.servers.Keys == {"a", "b"} && c.servers["a"] == President(n) && c.servers["b"].log == Entries(k)
  }

  lemma ProposedEntry(n: nat)
    ensures Propose(President(n), OtherCommand("")).0 == President(n + 1)
  {
    assert Entries(n) + [Entry(1, n + 1, OtherCommand(""))] == Entries(n + 1);
  }

  lemma {:induction false} CommandsRun(c: Cluster, k: nat, n: nat, j: nat)
    requires Lags(c, k, n)
    ensures var c' := Run(c, "a", Commands1(j));
            Lags(c', k, n + j) && c'.servers["b"] == c.servers["b"] && c'.acks == c.acks
  {
    hide Propose, President, Entries;
    if j == 0 {
      assert Commands1(0) == [];
    } else {
      CommandsRun(c, k, n, j - 1);
      assert Commands1(j)[..j - 1] == Commands1(j - 1);
      ProposedEntry(n + j - 1);
      assert President(n + j - 1).role == Leader by {
        IsPresident(n + j - 1);
      }
    }
  }

  lemma IsPresident(n: nat)
    ensures President(n).role == Leader && President(n).peers == ["b"] && President(n).id == "a"
    ensures BuildAppend(President(n), "b") == Snapshot(n)
  {
    assert Entries(n)[0..] == Entries(n);
  }

  lemma Elected()
    ensures Lags(Run(TWO, "a", [Timeout("a"), Win]), 0, 0)
    ensures Run(TWO, "a", [Timeout("a"), Win]).servers["b"] == Fresh("b", ["a"])
  {
    var steps := [Timeout("a"), Win];
    var l := BeginElection(TWO.servers["a"]);
    assert steps[..1] == [Timeout("a")] && steps[..1][..0] == [];
    assert Run(TWO, "a", steps[..1]) == TWO.(servers := TWO.servers["a" := l]);
    assert BecomeLeader(l) == President(0) by {
      assert l.peers[..0] == [];
      assert Entries(0) == [];
    }
  }

  /** A fresh node takes the whole snapshot. */
  lemma SnapshotTaken(k: nat)
    ensures var (s, reply) := Handle(Fresh("b", ["a"]), Snapshot(k));
            s.log == Entries(k) && reply.AppendReply? && reply.success
  {
    var f, l := Fresh("b", ["a"]), Entries(k);
    assert l[0..k] == l && l[..k] == l && l[..0] == [];
    PrefixMatches(l, 0);
    AppendMeaning(f, Snapshot(k), l, 0);
  }

  lemma BeatAndTake(c: Cluster, k: nat)
    requires Lags(c, 0, k) && c.servers["b"] == Fresh("b", ["a"])
    ensures var c' := Run(c, "a", [Heartbeat, Deliver("b", Snapshot(k))]);
            Lags(c', k, k) && LaggingAck(k) in c'.acks
  {
    var steps := [Heartbeat, Deliver("b", Snapshot(k))];
    IsPresident(k);
    SnapshotTaken(k);
    hide Handle, BuildAppend, President, Snapshot, Fresh, Entries;
    assert steps[..1] == [Heartbeat] && steps[..1][..0] == [];
    var ps := c.servers["a"].peers;
    assert ps[0] in ps;
    assert Snapshot(k) in Snapshots(c.servers["a"]);
    assert Run(c, "a", steps[..1]) == c.(sent := c.sent + Snapshots(c.servers["a"]));
  }

  lemma LagRun(k: nat, n: nat)
    requires k <= n
    ensures Lags(Run(TWO, "a", Lag(k, n)), k, n) && LaggingAck(k) in Run(TWO, "a", Lag(k, n)).acks
  {
    hide Run, Lags;
    var s1, s2, s3 := [Timeout("a"), Win], Commands1(k), [Heartbeat, Deliver("b", Snapshot(k))];
    Elected();
    assert "a" in TWO.servers;
    LagsHas(Run(TWO, "a", s1), 0, 0);
    CommandsRun(Run(TWO, "a", s1), 0, 0, k);
    RunAppend(TWO, "a", s1, s2);
    BeatAndTake(Run(TWO, "a", s1 + s2), k);
    RunAppend(TWO, "a", s1 + s2, s3);
    CommandsRun(Run(TWO, "a", s1 + s2 + s3), k, k, n - k);
    RunAppend(TWO, "a", s1 + s2 + s3, Commands1(n - k));
  }

  lemma LagsHas(c: Cluster, k: nat, n: nat)
    requires Lags(c, k, n)
    ensures "a" in c.servers && "b" in c.servers
  {
  }

  lemma LagIsTimely(k: nat, n: nat)
    requires k <= n
    ensures Initial(TWO, "a") && PeersAreTheOthers(TWO, "a") && Timely(TWO, "a", Lag(k, n))
  {
    hide Run;
    var ps := TWO.servers["a"].peers;
    assert ps[0] in ps;
    assert (set p | p in ps) == {"b"} == TWO.servers.Keys - {"a"};
    forall i | 0 <= i < |Lag(k, n)| ensures !Lag(k, n)[i].Receive? {
    }
  }

  /** The answer makes the leader commit all `n` entries, and it alone holds them. */
  lemma LagCommits(c: Cluster, k: nat, n: nat)
    requires Lags(c, k, n) && LaggingAck(k) in c.acks && k < n
    ensures var end := Next(c, "a", Receive(LaggingAck(k)));
            && "a" in end.servers && end.servers["a"].commitIndex == n == |end.servers["a"].log|
            && !HeldByMajority(end, "a", n)
  {
    var l := President(n);
    var s1 := l.(matchIndex := l.matchIndex["b" := n], nextIndex := l.nextIndex["b" := n + 1]);
    assert s1.peers[..0] == [];
    assert AckCount(s1.peers, s1.matchIndex, n) == 1;
    assert Committable(s1, n);
    OnReplyKeeps(l, "b", true);
    var end := Next(c, "a", Receive(LaggingAck(k)));
    assert end.servers == c.servers["a" := OnReply(l, "b", true)];
    assert OnReply(l, "b", true) == CommitUpTo(s1, n);
    assert Holders(end, "a", n) <= {"a"};
    SubsetSize(Holders(end, "a", n), {"a"});
    assert |end.servers| == |end.servers.Keys|;
  }

  // From the credit to the commit.

  /** After a timely run, a success answer to a snapshot that ended at `k` is waiting, and the leader's log has `n` entries. */
  ghost predicate Waiting(c: Cluster, lead: NodeId, steps: seq<Step>, ack: Ack, k: nat, n: nat)
  {
    && Initial(c, lead) && PeersAreTheOthers(c, lead) && Timely(c, lead, steps)
    && var now := Run(c, lead, steps);
    && |now.servers[lead].log| == n && ack in now.acks && ack.success && ack.request.AppendEntries?
    && ack.request.prevLogIndex + |ack.request.entries| == k
  }

  ghost predicate CommittedHeld(c: Cluster, lead: NodeId)
  {
    && lead in c.servers && c.servers[lead].commitIndex <= |c.servers[lead].log|
    && HeldByMajority(c, lead, c.servers[lead].commitIndex)
  }

  ghost predicate AlwaysHeld(k: nat, n: nat)
  {
    forall c, lead, steps, ack :: Waiting(c, lead, steps, ack, k, n) ==>
      CommittedHeld(Next(Run(c, lead, steps), lead, Receive(ack)), lead)
  }

  /**
   * Exactly when processing the answer leaves everything committed in the logs of a majority, after
   * every timely run: when the leader's log still ends where the acknowledged snapshot ended.
   */
  lemma CommitGuardIff(k: nat, n: nat)
    requires k <= n
    ensures AlwaysHeld(k, n) <==> k == n
  {
    if k == n {
      forall c, lead, steps, ack | Waiting(c, lead, steps, ack, k, n)
        ensures CommittedHeld(Next(Run(c, lead, steps), lead, Receive(ack)), lead)
      {
        CommittedIsHeldByMajority(c, lead, steps);
        MajorityStep(Run(c, lead, steps), lead, Receive(ack));
        hide Run, Next, HeldByMajority, Initial, Timely;
      }
    } else {
      LagRun(k, n);
      LagIsTimely(k, n);
      LagCommits(Run(TWO, "a", Lag(k, n)), k, n);
      LagsWaits(k, n);
      hide Run, Next, HeldByMajority, Waiting, Lag, Lags;
      assert !CommittedHeld(Next(Run(TWO, "a", Lag(k, n)), "a", Receive(LaggingAck(k))), "a");
    }
  }

  lemma LagsWaits(k: nat, n: nat)
    requires k <= n
    ensures "a" in TWO.servers && Waiting(TWO, "a", Lag(k, n), LaggingAck(k), k, n)
  {
    LagRun(k, n);
    LagIsTimely(k, n);
    hide Run, Lag, Initial, PeersAreTheOthers, Timely;
  }

  // ----- An early commit -----

  const THREE: Cluster := Cluster(map["a" := Fresh("a", ["b", "c"]),
                                      "b" := Fresh("b", ["a", "c"]),
                                      "c" := Fresh("c", ["a", "b"])], {}, {})

  const BEAT: Rpc := AppendEntries(1, "a", 0, 0, [], 0)

  /** b answers an empty heartbeat; a command is proposed before the answer is processed. */
  const EARLY: seq<Step> := [Timeout("a"), Win, Heartbeat, Deliver("b", BEAT),
                             Command(OtherCommand("x")), Receive(Ack("b", BEAT, true))]

  lemma RunSnoc(c: Cluster, lead: NodeId, steps: seq<Step>, i: nat)
    requires lead in c.servers && i < |steps|
    ensures Run(c, lead, steps[..i + 1]) == Next(Run(c, lead, steps[..i]), lead, steps[i])
  {
    hide Next;
    assert steps[..i + 1][..i] == steps[..i];
  }

  const ELECTED: Server := Server("a", ["b", "c"], 1, None, [], 0, 0, map["b" := 1, "c" := 1],
                                  map["b" := 0, "c" := 0], Leader, [])

  const PROPOSED: Server := ELECTED.(log := [Entry(1, 1, OtherCommand("x"))])

  const STANDING: Server := Server("a", ["b", "c"], 1, Some("a"), [], 0, 0, map[], map[], Candidate, [])

  lemma EarlyStand()
    ensures BeginElection(THREE.servers["a"]) == STANDING && THREE.servers["a"].role == Follower
  {
  }

  lemma SetBoth<V>(ps: seq<NodeId>, v: V)
    requires ps == ["b", "c"]
    ensures SetAll(map[], ps, v) == map["b" := v, "c" := v]
  {
    assert forall p :: p in ps <==> p == "b" || p == "c" by {
      assert ps[0] in ps && ps[1] in ps;
    }
    hide SetAll;
    var m := SetAll(map[], ps, v);
    assert m.Keys == {"b", "c"};
  }

  lemma EarlyElected()
    ensures BecomeLeader(STANDING) == ELECTED
  {
    hide SetAll;
    var one: Index, zero: nat := 1, 0;
    SetBoth(STANDING.peers, one);
    SetBoth(STANDING.peers, zero);
  }

  lemma EarlyWin()
    ensures var c := Run(THREE, "a", EARLY[..2]);
            c.servers == THREE.servers["a" := ELECTED] && c.sent == {} && c.acks == {}
  {
    hide Run, BecomeLeader, BeginElection;
    EarlyStand();
    EarlyElected();
    NothingRun(THREE, "a");
    RunSnoc(THREE, "a", EARLY, 0);
    RunSnoc(THREE, "a", EARLY, 1);
    assert EARLY[..0] == [];
    var c1 := Run(THREE, "a", EARLY[..1]);
    assert c1 == THREE.(servers := THREE.servers["a" := STANDING]);
    assert THREE.servers["a" := STANDING]["a" := ELECTED] == THREE.servers["a" := ELECTED];
  }

  lemma NothingRun(c: Cluster, lead: NodeId)
    requires lead in c.servers
    ensures Run(c, lead, []) == c
  {
  }

  lemma EarlySnapshot(s: Server, peer: NodeId)
    requires s == ELECTED && Get(s.nextIndex, peer, 1) == 1
    ensures BuildAppend(s, peer) == BEAT
  {
  }

  lemma EarlyBeat()
    ensures Snapshots(ELECTED) == {BEAT}
  {
    hide BuildAppend;
    var ps := ELECTED.peers;
    assert ps[0] in ps;
    EarlySnapshot(ELECTED, "b");
    EarlySnapshot(ELECTED, "c");
    assert forall p :: p in ps ==> p == "b" || p == "c";
  }

  lemma EarlyAnswer()
    ensures Handle(THREE.servers["b"], BEAT) == (THREE.servers["b"].(term := 1), AppendReply(1, true))
  {
  }

  lemma EarlyPropose()
    ensures Propose(ELECTED, OtherCommand("x")).0 == PROPOSED
  {
  }

  lemma EarlyAcked()
    ensures var c := Run(THREE, "a", EARLY[..4]);
            && c.servers.Keys == {"a", "b", "c"} && c.servers["a"] == ELECTED
            && c.servers["b"].log == [] && c.servers["c"].log == []
            && Ack("b", BEAT, true) in c.acks
  {
    hide Run, Handle, Propose, OnReply, Snapshots, BecomeLeader;
    EarlyWin();
    EarlyBeat();
    EarlyAnswer();
    RunSnoc(THREE, "a", EARLY, 2);
    RunSnoc(THREE, "a", EARLY, 3);
  }

  lemma EarlyEnd()
    ensures var c := Run(THREE, "a", EARLY);
            && c.servers.Keys == {"a", "b", "c"} && c.servers["a"] == OnReply(PROPOSED, "b", true)
            && c.servers["b"].log == [] && c.servers["c"].log == []
  {
    hide Run, Handle, Propose, OnReply, Snapshots, BecomeLeader;
    EarlyAcked();
    EarlyPropose();
    RunSnoc(THREE, "a", EARLY, 4);
    RunSnoc(THREE, "a", EARLY, 5);
    assert EARLY[..6] == EARLY;
  }

  /** Without timeliness the claim is false: entry 1 is committed although only a holds it. */
  lemma EarlyCommit()
    ensures Initial(THREE, "a") && PeersAreTheOthers(THREE, "a")
    ensures var c := Run(THREE, "a", EARLY);
            && c.servers["a"].commitIndex == 1 && |c.servers["a"].log| == 1
            && !HeldByMajority(c, "a", 1)
  {
    hide Run, OnReply, HeldByMajority, Initial, PeersAreTheOthers;
    ThreeIsValid();
    EarlyEnd();
    EarlyReply(PROPOSED);
    OneHolder(Run(THREE, "a", EARLY));
  }

  lemma ThreeIsValid()
    ensures Initial(THREE, "a") && PeersAreTheOthers(THREE, "a")
  {
    var ps := THREE.servers["a"].peers;
    assert ps[0] in ps && ps[1] in ps;
    assert (set p | p in ps) == {"b", "c"};
  }

  lemma OneHolder(c: Cluster)
    requires c.servers.Keys == {"a", "b", "c"} && |c.servers["a"].log| == 1
    requires c.servers["b"].log == [] && c.servers["c"].log == []
    ensures !HeldByMajority(c, "a", 1)
  {
    assert Holders(c, "a", 1) == {"a"};
    assert |c.servers| == |c.servers.Keys|;
  }

  lemma EarlyReply(a: Server)
    requires a.log == [Entry(1, 1, OtherCommand("x"))] && a.term == 1 && a.commitIndex == 0
    requires a.peers == ["b", "c"] && a.lastApplied == 0
    ensures var a' := OnReply(a, "b", true); a'.commitIndex == 1 && a'.log == a.log
  {
    OnReplyKeeps(a, "b", true);
    var a1 := a.(matchIndex := a.matchIndex["b" := 1], nextIndex := a.nextIndex["b" := 2]);
    assert a.peers[..1] == ["b"] && a.peers[..1][..0] == [];
    assert AckCount(["b"], a1.matchIndex, 1) == 1;
    assert Committable(a1, 1);
  }
}
