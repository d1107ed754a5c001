/** The chain that the canister's documentation describes, the longest one whose tip has no
    other block at its height, against the chain that it computes. */
module Tips {
  import opened Bitcoin
  import opened BlockTrees
  import opened CurrentChain
  import opened ForestSteps

  // `c` starts a path, and every path as long as `c` has the last block of `c` at its height.
  ghost predicate UncontestedTip(ps: seq<seq<Block>>, c: seq<Block>)
    requires c != []
  {
    && (exists p :: p in ps && c <= p)
    && forall p: seq<Block> | p in ps && |c| <= |p| :: p[|c| - 1] == c[|c| - 1]
  }

  // On the first `n` levels of the descent, each tree off the chain ends before level `n`.
  ghost predicate Outgrown(ts: seq<BlockTree>, n: nat)
    decreases n
  {
    n == 0 ||
    exists i: nat ::
      && UniqueDeepest(ts, i)
      && (forall j | 0 <= j < |ts| && j != i :: 1 + Depth(ts[j]) < n)
      && Outgrown(ts[i].children, n - 1)
  }

  // The longest chain with an uncontested tip, if there is one.
  ghost predicate IsDocumentedChain(ps: seq<seq<Block>>, c: seq<Block>) {
    && (c != [] ==> UncontestedTip(ps, c))
    && forall d | d != [] && UncontestedTip(ps, d) :: |d| <= |c|
  }

  // ---- Blocks of different trees ----

  lemma {:induction false} OnTreeWithin(t: BlockTree, p: seq<Block>)
    requires OnTree(t, p)
    ensures |p| <= 1 + Depth(t)
    ensures forall b | b in p :: b in Blocks([t])
  {
    assert [t][0] == t;
    PathOnSomeTree([t], p);
    PathsWithin([t], p);
    Single(t, 0);
  }

  lemma {:induction false} InOneTree(ts: seq<BlockTree>, i: nat, j: nat, b: Block)
    requires UniqueHashes(ts) && i < j < |ts| && b in Blocks([ts[i]])
    ensures b !in Blocks([ts[j]])
  {
    var rest := Without(ts, i);
    assert rest[j - 1] == ts[j];
    SplitCount(ts, i, b.Hash());
    SplitCount(rest, j - 1, b.Hash());
    BlockHasHash([ts[i]], b);
    BlockHasHash([ts[j]], b);
    assert Count(ts, b.Hash()) <= 1;
  }

  // Paths of different trees share no block.
  lemma {:induction false} PathsDiffer(ts: seq<BlockTree>, i: nat, j: nat, p: seq<Block>, q: seq<Block>, k: nat)
    requires UniqueHashes(ts) && i < |ts| && j < |ts| && i != j
    requires OnTree(ts[i], p) && OnTree(ts[j], q) && k < |p| && k < |q|
    ensures p[k] != q[k]
  {
    OnTreeWithin(ts[i], p);
    OnTreeWithin(ts[j], q);
    assert p[k] in p && q[k] in q;
    if i < j {
      InOneTree(ts, i, j, p[k]);
    } else {
      InOneTree(ts, j, i, q[k]);
    }
  }

  lemma {:induction false} PathThrough(ts: seq<BlockTree>, i: nat, q: seq<Block>)
    requires i < |ts|
    requires if ts[i].children == [] then q == [] else q in Paths(ts[i].children)
    ensures OnTree(ts[i], [ts[i].root] + q) && [ts[i].root] + q in Paths(ts)
  {
    assert ([ts[i].root] + q)[1..] == q;
    PathOnSomeTree(ts, [ts[i].root] + q);
  }

  lemma {:induction false} DeepPath(ts: seq<BlockTree>, i: nat) returns (p: seq<Block>)
    requires i < |ts|
    ensures p in Paths(ts) && OnTree(ts[i], p) && |p| == 1 + Depth(ts[i])
  {
    var q := [];
    if ts[i].children != [] {
      q := PathOfHeight(ts[i].children);
    }
    PathThrough(ts, i, q);
    p := [ts[i].root] + q;
  }

  // ---- An uncontested tip is on the descent ----

  // The tree that a chain with an uncontested tip runs through is deeper than all others.
  lemma {:induction false} OthersEnd(ts: seq<BlockTree>, c: seq<Block>, p: seq<Block>, i: nat)
    requires UniqueHashes(ts) && c != [] && UncontestedTip(Paths(ts), c)
    requires p in Paths(ts) && c <= p && i < |ts| && OnTree(ts[i], p)
    ensures UniqueDeepest(ts, i) && forall j | 0 <= j < |ts| && j != i :: 1 + Depth(ts[j]) < |c|
  {
    OnTreeWithin(ts[i], p);
    forall j | 0 <= j < |ts| && j != i ensures 1 + Depth(ts[j]) < |c| {
      var q := DeepPath(ts, j);
      if |c| <= |q| {
        PathsDiffer(ts, i, j, p, q, |c| - 1);
      }
    }
  }

  lemma {:induction false} TipBelow(ts: seq<BlockTree>, c: seq<Block>, p: seq<Block>, i: nat)
    requires 1 < |c| && UncontestedTip(Paths(ts), c)
    requires p in Paths(ts) && c <= p && i < |ts| && OnTree(ts[i], p)
    ensures ts[i].children != [] && UncontestedTip(Paths(ts[i].children), c[1..])
  {
    var below := Paths(ts[i].children);
    assert p[1..] in below && c[1..] <= p[1..];
    forall q: seq<Block> | q in below && |c[1..]| <= |q| ensures q[|c[1..]| - 1] == c[1..][|c[1..]| - 1] {
      PathThrough(ts, i, q);
      assert ([ts[i].root] + q)[|c| - 1] == c[|c| - 1];
    }
  }

  lemma {:induction false} UncontestedDescends(ts: seq<BlockTree>, c: seq<Block>)
    requires UniqueHashes(ts) && c != [] && UncontestedTip(Paths(ts), c)
    ensures c <= Descend(ts)
    decreases |c|
  {
    var i := TipTree(ts, c);
    if |c| == 1 {
    } else {
      UniqueBelow(ts, i);
      UncontestedDescends(ts[i].children, c[1..]);
    }
    PrefixAbove(ts, i, c);
  }

  lemma {:induction false} UncontestedOutgrown(ts: seq<BlockTree>, c: seq<Block>, n: nat)
    requires UniqueHashes(ts) && 0 < n == |c| && UncontestedTip(Paths(ts), c)
    ensures Outgrown(ts, n)
    decreases n, 1
  {
    var i := TipTree(ts, c);
    OutgrownFrom(ts, i, c, n);
  }

  lemma {:induction false} OutgrownFrom(ts: seq<BlockTree>, i: nat, c: seq<Block>, n: nat)
    requires UniqueHashes(ts) && 0 < n == |c| && UniqueDeepest(ts, i)
    requires forall j | 0 <= j < |ts| && j != i :: 1 + Depth(ts[j]) < n
    requires 1 < n ==> UncontestedTip(Paths(ts[i].children), c[1..])
    ensures Outgrown(ts, n)
    decreases n, 0
  {
    if n == 1 {
    } else {
      UniqueBelow(ts, i);
      UncontestedOutgrown(ts[i].children, c[1..], n - 1);
    }
    OutgrownAbove(ts, i, n);
  }

  lemma {:induction false} TipTree(ts: seq<BlockTree>, c: seq<Block>) returns (i: nat)
    requires UniqueHashes(ts) && c != [] && UncontestedTip(Paths(ts), c)
    ensures UniqueDeepest(ts, i) && c[0] == ts[i].root
    ensures forall j | 0 <= j < |ts| && j != i :: 1 + Depth(ts[j]) < |c|
    ensures 1 < |c| ==> UncontestedTip(Paths(ts[i].children), c[1..])
  {
    var p :| p in Paths(ts) && c <= p;
    PathOnSomeTree(ts, p);
    i :| i < |ts| && OnTree(ts[i], p);
    OthersEnd(ts, c, p, i);
    if 1 < |c| {
      TipBelow(ts, c, p, i);
    }
  }

  lemma {:induction false} PrefixAbove(ts: seq<BlockTree>, i: nat, c: seq<Block>)
    requires UniqueDeepest(ts, i) && c != [] && c[0] == ts[i].root
    requires 1 < |c| ==> c[1..] <= Descend(ts[i].children)
    ensures c <= Descend(ts)
  {
    DeepestUnique(ts, i);
    PrefixFromTail(c, Descend(ts));
  }

  lemma {:induction false} OutgrownAbove(ts: seq<BlockTree>, i: nat, n: nat)
    requires 0 < n && UniqueDeepest(ts, i) && forall j | 0 <= j < |ts| && j != i :: 1 + Depth(ts[j]) < n
    requires 1 < n ==> Outgrown(ts[i].children, n - 1)
    ensures Outgrown(ts, n)
  {
    assert Outgrown(ts[i].children, n - 1);
  }

  lemma {:induction false} PrefixFromTail(c: seq<Block>, d: seq<Block>)
    requires c != [] && d != [] && c[0] == d[0] && (|c| > 1 ==> c[1..] <= d[1..])
    ensures c <= d
  {
    assert |c| > 1 ==> c == [c[0]] + c[1..] && d == [d[0]] + d[1..];
    assert |c| == 1 ==> c == d[..1];
  }

  // ---- And the descent is uncontested as far as the others are outgrown ----

  lemma {:induction false} DescentUncontested(ts: seq<BlockTree>, c: seq<Block>, n: nat)
    requires 0 < n == |c| && c <= Descend(ts) && Outgrown(ts, n)
    ensures UncontestedTip(Paths(ts), c)
    decreases n, 1
  {
    var i := OutgrownLevel(ts, n);
    PrefixBelow(ts, i, c);
    DescentFrom(ts, i, c, n);
  }

  lemma {:induction false} DescentFrom(ts: seq<BlockTree>, i: nat, c: seq<Block>, n: nat)
    requires 0 < n == |c| && i < |ts| && c[0] == ts[i].root && c[1..] <= Descend(ts[i].children)
    requires Outgrown(ts[i].children, n - 1) && forall j | 0 <= j < |ts| && j != i :: 1 + Depth(ts[j]) < n
    ensures UncontestedTip(Paths(ts), c)
    decreases n, 0
  {
    if n == 1 {
      TipAtRoot(ts, i, c);
    } else {
      DescentUncontested(ts[i].children, c[1..], n - 1);
      TipAbove(ts, i, c);
    }
  }

  lemma {:induction false} PrefixBelow(ts: seq<BlockTree>, i: nat, c: seq<Block>)
    requires UniqueDeepest(ts, i) && c != [] && c <= Descend(ts)
    ensures c[0] == ts[i].root && c[1..] <= Descend(ts[i].children)
  {
    DeepestUnique(ts, i);
    TailBelow(c, ts[i].root, Descend(ts[i].children));
  }

  lemma {:induction false} OutgrownLevel(ts: seq<BlockTree>, n: nat) returns (i: nat)
    requires 0 < n && Outgrown(ts, n)
    ensures UniqueDeepest(ts, i) && Outgrown(ts[i].children, n - 1)
    ensures forall j | 0 <= j < |ts| && j != i :: 1 + Depth(ts[j]) < n
  {
    i :|
      && UniqueDeepest(ts, i)
      && (forall j | 0 <= j < |ts| && j != i :: 1 + Depth(ts[j]) < n)
      && Outgrown(ts[i].children, n - 1);
  }

  lemma {:induction false} TipAtRoot(ts: seq<BlockTree>, i: nat, c: seq<Block>)
    requires i < |ts| && |c| == 1 && c[0] == ts[i].root
    requires forall j | 0 <= j < |ts| && j != i :: 1 + Depth(ts[j]) < 1
    ensures UncontestedTip(Paths(ts), c)
  {
    var w := DeepPath(ts, i);
    assert c <= w;
    forall p: seq<Block> | p in Paths(ts) && 1 <= |p| ensures p[0] == c[0] {
      LongPathOnDeepest(ts, i, p, 1);
    }
  }

  lemma {:induction false} TailBelow(c: seq<Block>, root: Block, d: seq<Block>)
    requires c != [] && c <= [root] + d
    ensures c[1..] <= d
  {
    assert ([root] + d)[1..] == d;
    assert c[1..] == ([root] + d)[1..|c|] == d[..|c| - 1];
  }

  lemma {:induction false} TipAbove(ts: seq<BlockTree>, i: nat, c: seq<Block>)
    requires i < |ts| && 1 < |c| && c[0] == ts[i].root && UncontestedTip(Paths(ts[i].children), c[1..])
    requires forall j | 0 <= j < |ts| && j != i :: 1 + Depth(ts[j]) < |c|
    ensures UncontestedTip(Paths(ts), c)
  {
    var below := Paths(ts[i].children);
    var q :| q in below && c[1..] <= q;
    PathsEmpty(ts[i].children);
    PathThrough(ts, i, q);
    assert ([ts[i].root] + q)[1..] == q;
    PrefixFromTail(c, [ts[i].root] + q);
    forall p: seq<Block> | p in Paths(ts) && |c| <= |p| ensures p[|c| - 1] == c[|c| - 1] {
      LongPathOnDeepest(ts, i, p, |c|);
      assert p[1..][|c| - 2] == c[1..][|c| - 2];
    }
  }

  lemma {:induction false} LongPathOnDeepest(ts: seq<BlockTree>, i: nat, p: seq<Block>, n: nat)
    requires i < |ts| && p in Paths(ts) && n <= |p|
    requires forall j | 0 <= j < |ts| && j != i :: 1 + Depth(ts[j]) < n
    ensures OnTree(ts[i], p)
  {
    PathOnSomeTree(ts, p);
    var j: nat :| j < |ts| && OnTree(ts[j], p);
    OnTreeWithin(ts[j], p);
  }

  // ---- The documented chain ----

  // A chain has an uncontested tip if and only if it is a prefix of the computed chain and, at
  // every level, the trees off the chain end before its tip.
  lemma {:induction false} UncontestedIff(ts: seq<BlockTree>, c: seq<Block>)
    requires UniqueHashes(ts) && c != []
    ensures UncontestedTip(Paths(ts), c) <==> c <= Descend(ts) && Outgrown(ts, |c|)
  {
    if UncontestedTip(Paths(ts), c) {
      UncontestedDescends(ts, c);
      UncontestedOutgrown(ts, c, |c|);
    }
    if c <= Descend(ts) && Outgrown(ts, |c|) {
      DescentUncontested(ts, c, |c|);
    }
  }

  lemma {:induction false} LongestOutgrown(ts: seq<BlockTree>, n: nat) returns (m: nat)
    ensures m <= n && Outgrown(ts, m) && forall k: nat | m < k <= n :: !Outgrown(ts, k)
  {
    m := n;
    if !Outgrown(ts, n) {
      m := LongestOutgrown(ts, n - 1);
    }
  }

  // There is a documented chain.
  lemma {:induction false} SomeDocumentedChain(ts: seq<BlockTree>) returns (c: seq<Block>)
    requires UniqueHashes(ts)
    ensures IsDocumentedChain(Paths(ts), c)
  {
    var d := Descend(ts);
    var m := LongestOutgrown(ts, |d|);
    c := d[..m];
    if c != [] {
      UncontestedIff(ts, c);
    }
    forall e | e != [] && UncontestedTip(Paths(ts), e) ensures |e| <= |c| {
      UncontestedIff(ts, e);
    }
  }

  // The documented chain is always a prefix of the one that the canister computes, and is the
  // same if and only if, at every level of the computed chain, the trees off the chain end
  // before its tip.
  lemma {:induction false} DocumentedIsPrefix(ts: seq<BlockTree>, anchor: BlockHash, c: seq<Block>)
    requires UniqueHashes(ts) && IsDocumentedChain(Paths(Attached(ts, anchor)), c)
    ensures c <= Chain(ts, anchor)
    ensures c == Chain(ts, anchor) <==> Outgrown(Attached(ts, anchor), |Chain(ts, anchor)|)
  {
    var attached := Attached(ts, anchor);
    var d := Chain(ts, anchor);
    AttachedUnique(ts, anchor);
    ChainIsDescent(attached);
    if c != [] {
      UncontestedIff(attached, c);
    }
    if d != [] {
      UncontestedIff(attached, d);
    }
    assert |c| == |d| && c <= d ==> c == d;
  }

  // The tip of the computed chain has no other block at its height under the same condition.
  lemma {:induction false} TipUncontestedIff(ts: seq<BlockTree>, anchor: BlockHash)
    requires UniqueHashes(ts) && Chain(ts, anchor) != []
    ensures UncontestedTip(Paths(Attached(ts, anchor)), Chain(ts, anchor)) <==>
            Outgrown(Attached(ts, anchor), |Chain(ts, anchor)|)
  {
    AttachedUnique(ts, anchor);
    ChainIsDescent(Attached(ts, anchor));
    UncontestedIff(Attached(ts, anchor), Chain(ts, anchor));
  }
}
