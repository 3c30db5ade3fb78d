/**
 * The Merkle root of a write-ahead log and the diff computed from it (depin/merkle_sync.py:52-112, 148-205).
 *
 * A hash is symbolic: the digest of a message, or the digest of two digests put together.
 * Digests of different things are therefore different, and no message looks like a pair of digests.
 */
module Merkle {
  import opened Wrappers

  type Message = seq<bv8>

  datatype Hash = Leaf(msg: Message) | Node(left: Hash, right: Hash)

  /** The bytes hashed for an empty log. */
  const EMPTY: Message := [0x65, 0x6D, 0x70, 0x74, 0x79]

  function Leaves(ms: seq<Message>): seq<Hash>
  {
    seq(|ms|, i requires 0 <= i < |ms| => Leaf(ms[i]))
  }

  /** Neighbours are paired; an odd last node is paired with itself. */
  function NextLevel(level: seq<Hash>): seq<Hash>
  {
    seq((|level| + 1) / 2, i requires 0 <= i < (|level| + 1) / 2 =>
      Node(level[2 * i], if 2 * i + 1 < |level| then level[2 * i + 1] else level[2 * i]))
  }

  function RootOf(level: seq<Hash>): Hash
    requires |level| > 0
    decreases |level|
  {
    if |level| == 1 then level[0] else RootOf(NextLevel(level))
  }

  function Root(ms: seq<Message>): Hash
  {
    if ms == [] then Leaf(EMPTY) else RootOf(Leaves(ms))
  }

  /** The messages a remote is sent; a negative slice longer than the list takes all of it. */
  function Diff(local: seq<Message>, remoteRoot: Hash, remoteCount: int): seq<Message>
  {
    if remoteRoot == Root(local) then []
    else if remoteCount == 0 then local
    else
      var count := |local| - remoteCount;
      if count > |local| then local
      else if count > 0 then local[|local| - count..]
      else []
  }

  /** The root of nothing is the digest of the word "empty". */
  lemma EmptyRoot()
    ensures Root([]) == Leaf([0x65, 0x6D, 0x70, 0x74, 0x79])
  {
  }

  /**
   * A remote with the same root is sent nothing; any other is sent what follows its first `count`
   * messages, everything if it claims none or fewer, and nothing if it claims as many or more.
   */
  lemma DiffIsSuffix(local: seq<Message>, remoteRoot: Hash, count: int)
    ensures var d := Diff(local, remoteRoot, count);
            if remoteRoot == Root(local) || count >= |local| > 0 then d == []
            else if count <= 0 then d == local
            else count <= |local| ==> d == local[count..]
    ensures local == [] ==> Diff(local, remoteRoot, count) == []
  {
    hide Root;
    if 0 < count <= |local| {
      assert |local| - (|local| - count) == count;
    }
  }

  // ----- The objects -----

  class MerkleTree {
    const messages: seq<Message>
    var leaves: seq<Hash>
    var root: Hash

    constructor (messages: seq<Message>)
      ensures this.messages == messages
      ensures leaves == Leaves(messages) && root == Root(messages)
    {
      this.messages := messages;
      this.leaves := [];
      this.root := Leaf(EMPTY);
      new;
      if messages != [] {
        Build(messages);
      }
    }

    method Build(messages: seq<Message>)
      requires messages != []
      modifies this
      ensures leaves == Leaves(messages) && root == Root(messages)
    {
      leaves := [];
      for i := 0 to |messages|
        invariant leaves == Leaves(messages)[..i]
      {
        leaves := leaves + [Leaf(messages[i])];
      }
      assert leaves == Leaves(messages);
      var level := leaves;
      while |level| > 1
        invariant |level| > 0 && RootOf(level) == Root(messages)
        invariant leaves == Leaves(messages)
        decreases |level|
      {
        var nextLevel := [];
        var i := 0;
        while i < |level|
          invariant i % 2 == 0 && 0 <= i <= |level| + 1
          invariant nextLevel == NextLevel(level)[..i / 2]
        {
          var left := level[i];
          var right := if i + 1 < |level| then level[i + 1] else left;
          nextLevel := nextLevel + [Node(left, right)];
          i := i + 2;
        }
        assert nextLevel == NextLevel(level);
        level := nextLevel;
      }
      root := level[0];
    }

    method RootHash() returns (h: Hash)
      ensures h == root
    {
      h := root;
    }
  }

  class MerkleSync {
    const localTree: MerkleTree
    const localWal: seq<Message>

    ghost predicate Valid()
      reads localTree
    {
      localTree.root == Root(localWal)
    }

    constructor (localWal: seq<Message>)
      ensures Valid() && this.localWal == localWal && fresh(localTree)
    {
      var tree := new MerkleTree(localWal);
      this.localTree, this.localWal := tree, localWal;
    }

    method ComputeDiff(remoteRootHash: Hash, remoteLeafCount: int) returns (diff: seq<Message>)
      requires Valid()
      ensures diff == Diff(localWal, remoteRootHash, remoteLeafCount)
    {
      var localRoot := localTree.RootHash();
      if remoteRootHash == localRoot {
        return [];
      }
      if remoteLeafCount == 0 {
        return localWal;
      }
      var diffCount := |localWal| - remoteLeafCount;
      if diffCount > 0 {
        return LastOf(localWal, diffCount);
      }
      return [];
    }
  }

  /** `s[-n:]` for a positive `n`. */
  function LastOf<T>(s: seq<T>, n: nat): seq<T>
  {
    if n > |s| then s else s[|s| - n..]
  }

  // ----- What a root stands for -----

  /** The number of leaves of the full tree over `n` leaves. */
  function FullSize(n: nat): (size: nat)
    requires n > 0
    ensures size >= n
    decreases n
  {
    if n == 1 then 1 else 2 * FullSize((n + 1) / 2)
  }

  /** Which of `n` leaves stands at position `i` of the full tree, duplicates included. */
  function Source(n: nat, i: nat): (k: nat)
    requires n > 0
    ensures k < n
    decreases n
  {
    if n == 1 then 0
    else
      var k := 2 * Source((n + 1) / 2, i / 2) + i % 2;
      if k < n then k else k - 1
  }

  function Padded<T>(xs: seq<T>): (r: seq<T>)
    requires |xs| > 0
    ensures |r| == FullSize(|xs|)
  {
    seq(FullSize(|xs|), i requires 0 <= i < FullSize(|xs|) => xs[Source(|xs|, i)])
  }

  /** The leaves of the full tree behind a root; an empty log counts as the one message hashed for it. */
  function Standing(ms: seq<Message>): seq<Message>
  {
    if ms == [] then [EMPTY] else Padded(ms)
  }

  /** The first `n` positions hold the leaves themselves. */
  lemma {:induction false} SourceSelf(n: nat, i: nat)
    requires i < n
    ensures Source(n, i) == i
    decreases n
  {
    if n > 1 {
      SourceSelf((n + 1) / 2, i / 2);
    }
  }

  // Building level by level, duplicating as it goes, is building the full tree over the padded leaves.

  predicate PowerOfTwo(n: nat)
    decreases n
  {
    n == 1 || (n > 1 && n % 2 == 0 && PowerOfTwo(n / 2))
  }

  function Pairs(xs: seq<Hash>): seq<Hash>
  {
    seq(|xs| / 2, i requires 0 <= i < |xs| / 2 => Node(xs[2 * i], xs[2 * i + 1]))
  }

  function FullTree(xs: seq<Hash>): Hash
    requires PowerOfTwo(|xs|)
    decreases |xs|
  {
    if |xs| == 1 then xs[0] else FullTree(Pairs(xs))
  }

  lemma {:induction false} FullSizePower(n: nat)
    requires n > 0
    ensures PowerOfTwo(FullSize(n))
    decreases n
  {
    if n > 1 {
      FullSizePower((n + 1) / 2);
    }
  }

  lemma PairsOfPadded(level: seq<Hash>)
    requires |level| > 1
    ensures Pairs(Padded(level)) == Padded(NextLevel(level))
  {
    var n, p, q := |level|, Padded(level), Padded(NextLevel(level));
    forall i: nat | i < |p| / 2 ensures Pairs(p)[i] == q[i] {
      var k := Source((n + 1) / 2, i);
      assert (2 * i) / 2 == i && (2 * i + 1) / 2 == i;
      assert Source(n, 2 * i) == 2 * k;
      assert Source(n, 2 * i + 1) == if 2 * k + 1 < n then 2 * k + 1 else 2 * k;
    }
  }

  lemma {:induction false} RootIsFullTree(level: seq<Hash>)
    requires |level| > 0
    ensures PowerOfTwo(FullSize(|level|)) && RootOf(level) == FullTree(Padded(level))
    decreases |level|
  {
    FullSizePower(|level|);
    if |level| == 1 {
      assert Padded(level)[0] == level[0];
    } else {
      RootIsFullTree(NextLevel(level));
      PairsOfPadded(level);
    }
  }

  function Depth(h: Hash): nat
  {
    if h.Leaf? then 0 else 1 + Depth(h.left)
  }

  ghost predicate AllAtDepth(xs: seq<Hash>, d: nat)
  {
    forall i :: 0 <= i < |xs| ==> Depth(xs[i]) == d
  }

  /** Full trees over equally deep leaves are equal only over the same leaves. */
  lemma {:induction false} FullTreeInjective(xs: seq<Hash>, ys: seq<Hash>, d: nat)
    requires PowerOfTwo(|xs|) && PowerOfTwo(|ys|) && AllAtDepth(xs, d) && AllAtDepth(ys, d)
    requires FullTree(xs) == FullTree(ys)
    ensures xs == ys
    decreases |xs|
  {
    if |xs| == 1 || |ys| == 1 {
      FullTreeDeeper(xs, d);
      FullTreeDeeper(ys, d);
    } else {
      FullTreeInjective(Pairs(xs), Pairs(ys), d + 1);
      forall i | 0 <= i < |xs| ensures xs[i] == ys[i] {
        assert Pairs(xs)[i / 2] == Pairs(ys)[i / 2];
      }
    }
  }

  lemma {:induction false} FullTreeDeeper(xs: seq<Hash>, d: nat)
    requires PowerOfTwo(|xs|) && AllAtDepth(xs, d)
    ensures Depth(FullTree(xs)) >= d && (Depth(FullTree(xs)) == d <==> |xs| == 1)
    decreases |xs|
  {
    if |xs| > 1 {
      FullTreeDeeper(Pairs(xs), d + 1);
    }
  }

  lemma LeavesOfPadded(ms: seq<Message>)
    requires ms != []
    ensures Padded(Leaves(ms)) == Leaves(Padded(ms))
  {
  }

  lemma LeavesInjective(a: seq<Message>, b: seq<Message>)
    requires Leaves(a) == Leaves(b)
    ensures a == b
  {
    forall i | 0 <= i < |a| ensures |a| == |b| && a[i] == b[i] {
      assert |Leaves(a)| == |Leaves(b)| && Leaves(a)[i] == Leaves(b)[i];
    }
    assert |Leaves(a)| == |Leaves(b)|;
  }

  lemma RootStandsFor(ms: seq<Message>)
    ensures PowerOfTwo(|Standing(ms)|) && Root(ms) == FullTree(Leaves(Standing(ms)))
  {
    if ms == [] {
      assert Leaves([EMPTY])[0] == Leaf(EMPTY);
    } else {
      RootIsFullTree(Leaves(ms));
      LeavesOfPadded(ms);
    }
  }

  /** Two logs have the same root exactly when their padded leaves are the same. */
  lemma SameRootIff(a: seq<Message>, b: seq<Message>)
    ensures Root(a) == Root(b) <==> Standing(a) == Standing(b)
  {
    RootStandsFor(a);
    RootStandsFor(b);
    hide Root, Standing;
    if Root(a) == Root(b) {
      FullTreeInjective(Leaves(Standing(a)), Leaves(Standing(b)), 0);
      LeavesInjective(Standing(a), Standing(b));
    }
  }

  lemma StandingPrefix(ms: seq<Message>)
    requires ms != []
    ensures |ms| <= |Standing(ms)| && Standing(ms)[..|ms|] == ms
  {
    forall i | 0 <= i < |ms| ensures Standing(ms)[i] == ms[i] {
      SourceSelf(|ms|, i);
    }
  }

  /** Among logs of one length the root identifies the log. */
  lemma RootIdentifiesEqualLength(a: seq<Message>, b: seq<Message>)
    requires |a| == |b|
    ensures Root(a) == Root(b) <==> a == b
  {
    SameRootIff(a, b);
    if a != [] {
      StandingPrefix(a);
      StandingPrefix(b);
    }
  }

  /** A longer log that shares the root of a shorter one repeats a message. */
  lemma LongerRepeats(a: seq<Message>, b: seq<Message>)
    requires 0 < |a| < |b| && Root(a) == Root(b)
    ensures !NoRepeats(b)
  {
    SameRootIff(a, b);
    var n := |a|;
    var k := Source(n, n);
    StandingPrefix(b);
    StandingPrefix(a);
    assert Standing(b)[n] == b[n] && Standing(b)[k] == b[k];
    assert Standing(a)[n] == a[k] && Standing(a)[k] == a[k];
  }

  /** Only the log holding just the bytes hashed for an empty log shares its root. */
  lemma RootOfEmpty(ms: seq<Message>)
    requires NoRepeats(ms)
    ensures Root(ms) == Root([]) <==> ms == [] || ms == [EMPTY]
  {
    SameRootIff(ms, []);
    if ms != [] {
      StandingPrefix(ms);
      if Standing(ms) == [EMPTY] {
        assert ms == Standing(ms)[..|ms|] && |ms| <= 1;
      }
    }
    if ms == [EMPTY] {
      assert Standing(ms) == [EMPTY];
    }
  }

  /** Without repeated messages the root identifies the log, whatever the lengths. */
  lemma RootIdentifiesNoRepeats(a: seq<Message>, b: seq<Message>)
    requires NoRepeats(a) && NoRepeats(b)
    ensures Root(a) == Root(b) <==> a == b || (a == [] && b == [EMPTY]) || (a == [EMPTY] && b == [])
  {
    if a == [] {
      RootOfEmpty(b);
    } else if b == [] {
      RootOfEmpty(a);
    } else if |a| == |b| {
      RootIdentifiesEqualLength(a, b);
    } else if Root(a) == Root(b) {
      if |a| < |b| {
        LongerRepeats(a, b);
      } else {
        LongerRepeats(b, a);
      }
    }
  }

  /** An odd log and the log that repeats its last message cannot be told apart. */
  lemma OddLogAmbiguous(ms: seq<Message>)
    requires |ms| % 2 == 1 && |ms| > 1
    ensures Root(ms) == Root(ms + [ms[|ms| - 1]])
  {
    var longer := ms + [ms[|ms| - 1]];
    assert NextLevel(Leaves(ms)) == NextLevel(Leaves(longer));
  }

  // ----- The diff -----

  /**
   * Appending the diff to any remote log gives the local log exactly when the remote is a prefix
   * of the local one and, unless both are equally long, the roots differ.
   */
  lemma DiffCompletesIff(local: seq<Message>, remote: seq<Message>)
    ensures remote + Diff(local, Root(remote), |remote|) == local
            <==> remote <= local && (|remote| == |local| || Root(remote) != Root(local))
  {
    hide Root;
    var diff := Diff(local, Root(remote), |remote|);
    if remote + diff == local {
      assert remote == local[..|remote|];
    }
    if remote <= local && |remote| == |local| {
      assert remote == local;
    }
    if remote <= local && |remote| < |local| && Root(remote) != Root(local) {
      assert diff == local[|remote|..];
      assert local == local[..|remote|] + local[|remote|..];
    }
  }

  /** A prefix of a log without repeated messages is always completed. */
  lemma DiffCompletesNoRepeats(local: seq<Message>, remote: seq<Message>)
    requires remote <= local && NoRepeats(local) && local != [EMPTY]
    ensures remote + Diff(local, Root(remote), |remote|) == local
  {
    DiffCompletesIff(local, remote);
    if |remote| < |local| && Root(remote) == Root(local) {
      if remote == [] {
        RootOfEmpty(local);
      } else {
        LongerRepeats(remote, local);
      }
    }
  }

  /** Where it fails: the repeated last message of an even log is never sent. */
  lemma RepeatNeverSent(ms: seq<Message>)
    requires |ms| % 2 == 1 && |ms| > 1
    ensures var local := ms + [ms[|ms| - 1]];
            ms <= local && Diff(local, Root(ms), |ms|) == [] && ms + Diff(local, Root(ms), |ms|) != local
  {
    OddLogAmbiguous(ms);
  }
}
