/**
 * What an AppendEntries snapshot does to a follower's log (coordination/raft.py:198-226),
 * and why resending it from an ever smaller next index repairs the follower.
 */
module LogRepair {
  import opened Wrappers
  import opened MicroRaftNode

  ghost predicate WellIndexed(log: seq<Entry>)
  {
    forall i :: 0 <= i < |log| ==> log[i].index == i + 1
  }

  /** Equal terms at a position imply equal logs up to that position. */
  ghost predicate LogMatching(f: seq<Entry>, l: seq<Entry>)
  {
    forall i :: 0 <= i < |f| && i < |l| && f[i].term == l[i].term ==> f[..i + 1] == l[..i + 1]
  }

  /** The logs agree on exactly the first `k` entries. */
  ghost predicate ShareExactly(f: seq<Entry>, l: seq<Entry>, k: nat)
  {
    && k <= |f| && k <= |l|
    && (forall i :: 0 <= i < k ==> f[i] == l[i])
    && (k < |f| && k < |l| ==> f[k] != l[k])
  }

  /** The length of the longest prefix the two logs share. */
  ghost function CommonPrefix(f: seq<Entry>, l: seq<Entry>): (k: nat)
    ensures ShareExactly(f, l, k)
  {
    if f == [] || l == [] || f[0] != l[0] then 0
    else
      var k := CommonPrefix(f[1..], l[1..]);
      assert forall i :: 1 <= i < k + 1 ==> f[i] == f[1..][i - 1] && l[i] == l[1..][i - 1];
      k + 1
  }

  lemma CommonPrefixUnique(f: seq<Entry>, l: seq<Entry>, k: nat)
    requires ShareExactly(f, l, k)
    ensures k == CommonPrefix(f, l)
  {
  }

  /** `m` carries a stretch of `l` and the term just before it. */
  ghost predicate IsSnapshot(m: Rpc, l: seq<Entry>)
  {
    && m.AppendEntries?
    && m.prevLogIndex + |m.entries| <= |l|
    && m.entries == l[m.prevLogIndex..m.prevLogIndex + |m.entries|]
    && (m.prevLogIndex > 0 ==> m.prevLogTerm == l[m.prevLogIndex - 1].term)
  }

  /** Snapshots of an earlier, shorter leader log stay snapshots of the current one. */
  lemma SnapshotOfLongerLog(m: Rpc, l: seq<Entry>, l': seq<Entry>)
    requires IsSnapshot(m, l) && l <= l'
    ensures IsSnapshot(m, l')
  {
    assert l == l'[..|l|];
    var hi := m.prevLogIndex + |m.entries|;
    assert l'[m.prevLogIndex..hi] == l'[..|l|][m.prevLogIndex..hi];
  }

  /** Appending the leader's next entry, where the two logs agree on all before it. */
  lemma AppendOneMeaning(f: seq<Entry>, l: seq<Entry>, c: nat, k: nat)
    requires WellIndexed(l) && LogMatching(f, l) && ShareExactly(f, l, c)
    requires k < |l| && k <= c
    ensures AppendOne(f, l[k]) == if k < c then f else l[..k + 1]
  {
    if k == c {
      assert f[..k] == l[..k];
      assert l[..k + 1] == l[..k] + [l[k]];
    }
  }

  lemma AppendBeyond(l: seq<Entry>, k: nat)
    requires WellIndexed(l) && k < |l|
    ensures AppendOne(l[..k], l[k]) == l[..k + 1]
  {
  }

  /**
   * The append loop, exactly: a stretch inside the shared prefix changes nothing, and
   * any other stretch leaves the follower with precisely the leader's log up to its end.
   */
  lemma {:induction false} AppendAllMeaning(f: seq<Entry>, l: seq<Entry>, c: nat, prev: nat, n: nat)
    requires WellIndexed(l) && LogMatching(f, l) && ShareExactly(f, l, c)
    requires prev + n <= |l| && prev <= c
    ensures AppendAll(f, l[prev..prev + n]) == if prev + n <= c then f else l[..prev + n]
    decreases n
  {
    hide WellIndexed, LogMatching, ShareExactly, AppendOne;
    if n > 0 {
      AppendAllMeaning(f, l, c, prev, n - 1);
      var es, last: nat := l[prev..prev + n], prev + n - 1;
      assert es[..n - 1] == l[prev..last] && es[n - 1] == l[last];
      if last <= c {
        AppendOneMeaning(f, l, c, last);
      } else {
        AppendBeyond(l, last);
      }
    }
  }

  /** The previous-entry check passes exactly when the snapshot starts inside the shared prefix. */
  lemma PrevCheckMeaning(f: seq<Entry>, l: seq<Entry>, c: nat, m: Rpc)
    requires IsSnapshot(m, l) && LogMatching(f, l) && ShareExactly(f, l, c)
    ensures PrevMatches(f, m.prevLogIndex, m.prevLogTerm) <==> m.prevLogIndex <= c
  {
    var p := m.prevLogIndex;
    if p > 0 && PrevMatches(f, p, m.prevLogTerm) {
      assert f[..p - 1 + 1] == l[..p - 1 + 1];
      assert forall i :: 0 <= i < p ==> f[i] == f[..p][i] && l[i] == l[..p][i];
    }
  }

  lemma HandleAppendLog(s: Server, m: Rpc)
    requires m.AppendEntries?
    ensures var (s', reply) := Handle(s, m);
            var ok := PrevMatches(s.log, m.prevLogIndex, m.prevLogTerm);
            && s'.id == s.id
            && s'.log == (if ok then AppendAll(s.log, m.entries) else s.log)
            && reply.AppendReply? && reply.success == ok
  {
  }

  /** What one AppendEntries does to any follower whose log matches the leader's. */
  lemma AppendMeaning(s: Server, m: Rpc, l: seq<Entry>, c: nat)
    requires WellIndexed(l) && IsSnapshot(m, l) && LogMatching(s.log, l) && ShareExactly(s.log, l, c)
    ensures var hi := m.prevLogIndex + |m.entries|;
            var (s', reply) := Handle(s, m);
            && reply.AppendReply?
            && (reply.success <==> m.prevLogIndex <= c)
            && s'.log == (if m.prevLogIndex <= c < hi then l[..hi] else s.log)
            && s'.id == s.id
  {
    hide WellIndexed, LogMatching, ShareExactly, AppendAll, Handle, PrevMatches;
    HandleAppendLog(s, m);
    PrevCheckMeaning(s.log, l, c, m);
    if m.prevLogIndex <= c {
      AppendAllMeaning(s.log, l, c, m.prevLogIndex, |m.entries|);
    }
  }

  lemma PrefixMatches(l: seq<Entry>, hi: nat)
    requires hi <= |l|
    ensures LogMatching(l[..hi], l) && ShareExactly(l[..hi], l, hi)
  {
  }

  /** One late, stale or repeated snapshot keeps log matching and never shortens the shared prefix. */
  lemma LateAppendHarmless(s: Server, m: Rpc, l: seq<Entry>)
    requires WellIndexed(l) && IsSnapshot(m, l) && LogMatching(s.log, l)
    ensures var s' := Handle(s, m).0;
            LogMatching(s'.log, l) && CommonPrefix(s.log, l) <= CommonPrefix(s'.log, l)
  {
    var c, hi := CommonPrefix(s.log, l), m.prevLogIndex + |m.entries|;
    AppendMeaning(s, m, l, c);
    if m.prevLogIndex <= c < hi {
      PrefixMatches(l, hi);
      CommonPrefixUnique(l[..hi], l, hi);
    }
  }

  function DeliverAll(s: Server, ms: seq<Rpc>): Server
  {
    if ms == [] then s else Handle(DeliverAll(s, ms[..|ms| - 1]), ms[|ms| - 1]).0
  }

  /** The same for any stream of snapshots, in any order and with any repetitions. */
  lemma {:induction false} LateAppendsHarmless(s: Server, ms: seq<Rpc>, l: seq<Entry>)
    requires WellIndexed(l) && LogMatching(s.log, l)
    requires forall i :: 0 <= i < |ms| ==> IsSnapshot(ms[i], l)
    ensures var s' := DeliverAll(s, ms);
            LogMatching(s'.log, l) && CommonPrefix(s.log, l) <= CommonPrefix(s'.log, l)
  {
    if ms != [] {
      LateAppendsHarmless(s, ms[..|ms| - 1], l);
      LateAppendHarmless(DeliverAll(s, ms[..|ms| - 1]), ms[|ms| - 1], l);
    }
  }

  // ----- Repairing one follower -----

  /** One round: snapshot, follower's answer, leader's reaction. */
  function Exchange(lead: Server, f: Server): (Server, Server, bool)
  {
    var (f', reply) := Handle(f, BuildAppend(lead, f.id));
    var ok := reply.AppendReply? && reply.success;
    (OnReply(lead, f.id, ok), f', ok)
  }

  /** At most `rounds` rounds, stopping at the first success. */
  function Exchanges(lead: Server, f: Server, rounds: nat): (Server, Server, bool)
    decreases rounds
  {
    if rounds == 0 then (lead, f, false)
    else
      var (lead', f', ok) := Exchange(lead, f);
      if ok then (lead', f', true) else Exchanges(lead', f', rounds - 1)
  }

  lemma BuildAppendIsSnapshot(s: Server, peer: NodeId)
    requires Get(s.nextIndex, peer, 1) <= |s.log| + 1
    ensures IsSnapshot(BuildAppend(s, peer), s.log)
    ensures BuildAppend(s, peer).prevLogIndex + 1 == Get(s.nextIndex, peer, 1)
    ensures BuildAppend(s, peer).prevLogIndex + |BuildAppend(s, peer).entries| == |s.log|
  {
  }

  /** A reply touches neither the leader's log nor the other peers' indices. */
  lemma OnReplyKeeps(s: Server, peer: NodeId, success: bool)
    ensures var s' := OnReply(s, peer, success);
            && s'.log == s.log && s'.id == s.id && s'.peers == s.peers && s'.term == s.term
            && s'.role == s.role
            && s'.matchIndex == (if success then s.matchIndex[peer := |s.log|] else s.matchIndex)
            && (success ==> s'.nextIndex == s.nextIndex[peer := |s.log| + 1])
            && (!success ==> s'.nextIndex == s.nextIndex
                             || (Get(s.nextIndex, peer, 1) > 1
                                 && s'.nextIndex == s.nextIndex[peer := Get(s.nextIndex, peer, 1) - 1]))
  {
  }

  /** One round: success exactly when the next index is within one of the shared prefix. */
  lemma ExchangeMeaning(lead: Server, f: Server)
    requires WellIndexed(lead.log) && LogMatching(f.log, lead.log)
    requires Get(lead.nextIndex, f.id, 1) <= |lead.log| + 1
    ensures var (lead', f', ok) := Exchange(lead, f);
            var next := Get(lead.nextIndex, f.id, 1);
            && (ok <==> next <= CommonPrefix(f.log, lead.log) + 1)
            && lead'.log == lead.log && f'.id == f.id
            && (ok ==> lead.log <= f'.log && LogMatching(f'.log, lead.log)
                       && lead'.matchIndex == lead.matchIndex[f.id := |lead.log|])
            && (!ok ==> f'.log == f.log && lead'.matchIndex == lead.matchIndex
                        && lead'.nextIndex == lead.nextIndex[f.id := next - 1])
  {
    var m, c := BuildAppend(lead, f.id), CommonPrefix(f.log, lead.log);
    BuildAppendIsSnapshot(lead, f.id);
    AppendMeaning(f, m, lead.log, c);
    LateAppendHarmless(f, m, lead.log);
    OnReplyKeeps(lead, f.id, m.prevLogIndex <= c);
    assert lead.log[..|lead.log|] == lead.log;
  }

  /**
   * Repair terminates and succeeds: as many rounds as the next index exceeds the shared
   * prefix (and never more than the next index) end in success, with the leader's log
   * untouched, the follower's log starting with all of it, and the match index at its end.
   */
  lemma {:induction false} RepairSucceeds(lead: Server, f: Server, rounds: nat)
    requires WellIndexed(lead.log) && LogMatching(f.log, lead.log)
    requires Get(lead.nextIndex, f.id, 1) <= |lead.log| + 1
    requires rounds >= 1 && rounds + CommonPrefix(f.log, lead.log) >= Get(lead.nextIndex, f.id, 1)
    ensures var (lead', f', ok) := Exchanges(lead, f, rounds);
            ok && lead'.log == lead.log && lead.log <= f'.log && LogMatching(f'.log, lead.log)
            && lead'.matchIndex == lead.matchIndex[f.id := |lead.log|]
    decreases rounds
  {
    hide Exchange;
    ExchangeMeaning(lead, f);
    var (lead', f', ok) := Exchange(lead, f);
    if !ok {
      RepairSucceeds(lead', f', rounds - 1);
    }
  }

  /** The bound of the protocol: the next index itself is always enough. */
  lemma RepairWithinNextIndex(lead: Server, f: Server)
    requires WellIndexed(lead.log) && LogMatching(f.log, lead.log)
    requires Get(lead.nextIndex, f.id, 1) <= |lead.log| + 1
    ensures var (lead', f', ok) := Exchanges(lead, f, Get(lead.nextIndex, f.id, 1));
            ok && lead'.log == lead.log && lead.log <= f'.log
  {
    RepairSucceeds(lead, f, Get(lead.nextIndex, f.id, 1));
  }
}
