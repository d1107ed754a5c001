/** What pushing and popping a block do to the trees of a forest, and what they keep. */
module ForestSteps {
  import opened Bitcoin
  import opened BlockTrees
  import opened CurrentChain

  // ---- Pushing ----

  // The number of trees whose root waits for the block with hash `h`.
  function Waiting(ts: seq<BlockTree>, h: BlockHash): nat {
    |Attached(ts, h)|
  }

  // The position of the first tree waiting for `h`.
  function FirstWaiting(ts: seq<BlockTree>, h: BlockHash): (r: Option<nat>)
    ensures r.Some? ==> r.value < |ts|
  {
    if ts == [] then None
    else if ts[0].root.Prev() == h then Some(0)
    else match FirstWaiting(ts[1..], h)
      case Some(i) => Some(i + 1)
      case None => None
  }

  // The trees that remain once the first one waiting for `h` is taken out.
  function Rest(ts: seq<BlockTree>, h: BlockHash): seq<BlockTree> {
    match FirstWaiting(ts, h)
    case Some(i) => Without(ts, i)
    case None => ts
  }

  // The tree taken out, if any.
  function Taken(ts: seq<BlockTree>, h: BlockHash): seq<BlockTree> {
    match FirstWaiting(ts, h)
    case Some(i) => [ts[i]]
    case None => []
  }

  // Hangs the trees `below` from the node with hash `h` of the tree `t`.
  function HangBelow(t: BlockTree, h: BlockHash, below: seq<BlockTree>): seq<BlockTree> {
    if below == [] then [t]
    else match AddUnder([t], h, below[0])
      case Some(r) => r
      case None => [t]
  }

  // The tree `t` with `b` in it and the tree `below` hanging from `b`, if `t` has `b` or its
  // predecessor.
  ghost function AttachOne(t: BlockTree, b: Block, below: seq<BlockTree>): Option<seq<BlockTree>> {
    if Has([t], b.Hash()) then Some(HangBelow(t, b.Hash(), below))
    else AddUnder([t], b.Prev(), Node(b, below))
  }

  // Puts `b` into the first tree that takes it, or else into a tree of its own at the end.
  ghost function Attach(ts: seq<BlockTree>, b: Block, below: seq<BlockTree>): seq<BlockTree> {
    if ts == [] then [Node(b, below)]
    else match AttachOne(ts[0], b, below)
      case Some(r) => r + ts[1..]
      case None => [ts[0]] + Attach(ts[1..], b, below)
  }

  ghost function Pushed(ts: seq<BlockTree>, b: Block): seq<BlockTree> {
    Attach(Rest(ts, b.Hash()), b, Taken(ts, b.Hash()))
  }

  // ---- Popping ----

  // The tree at `i` is at least `delta` deep, and at least `delta` deeper than any other.
  ghost predicate StableTree(ts: seq<BlockTree>, delta: nat, i: nat) {
    && i < |ts| && delta <= Depth(ts[i])
    && forall j | 0 <= j < |ts| && j != i :: Depth(ts[j]) + delta <= Depth(ts[i])
  }

  // The last of the deepest trees.
  function LastDeepest(ts: seq<BlockTree>): (i: nat)
    requires ts != []
    ensures i < |ts|
  {
    if |ts| == 1 then 0
    else
      var k := LastDeepest(ts[1..]);
      if Depth(ts[1..][k]) < Depth(ts[0]) then 0 else k + 1
  }

  // The trees in order of depth; equally deep trees keep their order.
  function SortByDepth(ts: seq<BlockTree>): seq<BlockTree> {
    if ts == [] then [] else InsertByDepth(ts[0], SortByDepth(ts[1..]))
  }

  function InsertByDepth(t: BlockTree, ts: seq<BlockTree>): seq<BlockTree> {
    if ts == [] || Depth(t) <= Depth(ts[0]) then [t] + ts
    else [ts[0]] + InsertByDepth(t, ts[1..])
  }

  // Removes the root of the deepest attached tree, and the other attached trees, if that tree
  // is stable; reorders the trees otherwise.
  ghost function Popped(ts: seq<BlockTree>, anchor: BlockHash, delta: nat): (Option<Block>, seq<BlockTree>) {
    var attached := Attached(ts, anchor);
    if attached != [] && StableTree(attached, delta, LastDeepest(attached)) then
      var t := attached[LastDeepest(attached)];
      (Some(t.root), Detached(ts, anchor) + t.children)
    else
      (None, SortByDepth(attached) + Detached(ts, anchor))
  }

  // ---- Attached and detached trees ----

  lemma {:induction false} AttachedAppend(a: seq<BlockTree>, b: seq<BlockTree>, h: BlockHash)
    ensures Attached(a + b, h) == Attached(a, h) + Attached(b, h)
  {
    if a == [] {
      assert a + b == b;
    } else {
      assert (a + b)[1..] == a[1..] + b;
      AttachedAppend(a[1..], b, h);
    }
  }

  lemma {:induction false} DetachedAppend(a: seq<BlockTree>, b: seq<BlockTree>, h: BlockHash)
    ensures Detached(a + b, h) == Detached(a, h) + Detached(b, h)
  {
    if a == [] {
      assert a + b == b;
    } else {
      assert (a + b)[1..] == a[1..] + b;
      DetachedAppend(a[1..], b, h);
    }
  }

  lemma {:induction false} AttachedAll(ts: seq<BlockTree>, h: BlockHash)
    requires RootsFollow(ts, h)
    ensures Attached(ts, h) == ts && Detached(ts, h) == []
  {
    if ts == [] {
    } else {
      AttachedAll(ts[1..], h);
    }
  }

  lemma {:induction false} AttachedNone(ts: seq<BlockTree>, h: BlockHash)
    requires forall i | 0 <= i < |ts| :: ts[i].root.Prev() != h
    ensures Attached(ts, h) == [] && Detached(ts, h) == ts
  {
    if ts == [] {
    } else {
      AttachedNone(ts[1..], h);
    }
  }

  lemma {:induction false} AttachedMembers(ts: seq<BlockTree>, h: BlockHash)
    ensures forall t :: t in Attached(ts, h) <==> t in ts && t.root.Prev() == h
    ensures forall t :: t in Detached(ts, h) <==> t in ts && t.root.Prev() != h
  {
    if ts == [] {
    } else {
      AttachedMembers(ts[1..], h);
    }
  }

  lemma {:induction false} AttachedCount(ts: seq<BlockTree>, h: BlockHash, k: BlockHash)
    ensures Count(ts, k) == Count(Attached(ts, h), k) + Count(Detached(ts, h), k)
  {
    if ts == [] {
    } else {
      AttachedCount(ts[1..], h, k);
      if ts[0].root.Prev() == h {
        AppendCount([ts[0]], Attached(ts[1..], h), k);
      } else {
        AppendCount([ts[0]], Detached(ts[1..], h), k);
      }
      Single(ts[0], k);
    }
  }

  lemma {:induction false} AttachedBlocks(ts: seq<BlockTree>, h: BlockHash)
    ensures Blocks(ts) == Blocks(Attached(ts, h)) + Blocks(Detached(ts, h))
  {
    forall b ensures Blocks(ts)[b] == Blocks(Attached(ts, h))[b] + Blocks(Detached(ts, h))[b] {
      AttachedOccurrences(ts, h, b);
      BlocksAt(ts, b);
      BlocksAt(Attached(ts, h), b);
      BlocksAt(Detached(ts, h), b);
    }
  }

  lemma {:induction false} AttachedOccurrences(ts: seq<BlockTree>, h: BlockHash, b: Block)
    ensures Occurrences(ts, b) == Occurrences(Attached(ts, h), b) + Occurrences(Detached(ts, h), b)
  {
    if ts == [] {
    } else {
      AttachedOccurrences(ts[1..], h, b);
      var a, d := Attached(ts[1..], h), Detached(ts[1..], h);
      assert ([ts[0]] + a)[1..] == a && ([ts[0]] + d)[1..] == d;
    }
  }

  // How often a block occurs in a forest, with its first tree taken apart.
  lemma {:induction false} FirstBlocks(t: BlockTree, ts: seq<BlockTree>, b: Block)
    ensures Blocks([t] + ts)[b] == Blocks([t])[b] + Blocks(ts)[b]
  {
    AppendBlocks([t], ts);
  }

  lemma {:induction false} AttachedLinked(ts: seq<BlockTree>, h: BlockHash)
    ensures Linked(ts) <==> Linked(Attached(ts, h)) && Linked(Detached(ts, h))
  {
    if ts == [] {
    } else {
      AttachedLinked(ts[1..], h);
    }
  }

  lemma {:induction false} AttachedUnique(ts: seq<BlockTree>, h: BlockHash)
    requires UniqueHashes(ts)
    ensures UniqueHashes(Attached(ts, h)) && UniqueHashes(Detached(ts, h))
  {
    forall k ensures Count(Attached(ts, h), k) <= 1 && Count(Detached(ts, h), k) <= 1 {
      AttachedCount(ts, h, k);
      assert Count(ts, k) <= 1;
    }
  }

  // ---- Sorting ----

  lemma {:induction false} InsertAtEnd(t: BlockTree, ts: seq<BlockTree>)
    requires forall u | u in ts :: Depth(u) < Depth(t)
    ensures InsertByDepth(t, ts) == ts + [t]
  {
    if ts == [] {
    } else {
      InsertAtEnd(t, ts[1..]);
    }
  }

  lemma {:induction false} InsertBefore(t: BlockTree, ts: seq<BlockTree>, last: BlockTree)
    requires Depth(t) <= Depth(last)
    ensures InsertByDepth(t, ts + [last]) == InsertByDepth(t, ts) + [last]
  {
    if ts == [] {
      assert ts + [last] == [last];
    } else {
      assert (ts + [last])[1..] == ts[1..] + [last];
      InsertBefore(t, ts[1..], last);
      assert [ts[0]] + (InsertByDepth(t, ts[1..]) + [last]) == ([ts[0]] + InsertByDepth(t, ts[1..])) + [last];
    }
  }

  lemma {:induction false} InsertPermutes(t: BlockTree, ts: seq<BlockTree>)
    ensures multiset(InsertByDepth(t, ts)) == multiset{t} + multiset(ts)
  {
    if ts == [] || Depth(t) <= Depth(ts[0]) {
    } else {
      InsertPermutes(t, ts[1..]);
      assert ts == [ts[0]] + ts[1..];
    }
  }

  lemma {:induction false} SortPermutes(ts: seq<BlockTree>)
    ensures multiset(SortByDepth(ts)) == multiset(ts)
    ensures |SortByDepth(ts)| == |ts|
  {
    if ts == [] {
    } else {
      SortPermutes(ts[1..]);
      InsertPermutes(ts[0], SortByDepth(ts[1..]));
      assert ts == [ts[0]] + ts[1..];
    }
    assert |multiset(SortByDepth(ts))| == |SortByDepth(ts)|;
  }

  lemma {:induction false} InsertAscends(t: BlockTree, ts: seq<BlockTree>, bound: nat)
    requires Ascends(ts) && bound <= Depth(t) && forall i | 0 <= i < |ts| :: bound <= Depth(ts[i])
    ensures Ascends(InsertByDepth(t, ts))
    ensures forall i | 0 <= i < |InsertByDepth(t, ts)| :: bound <= Depth(InsertByDepth(t, ts)[i])
  {
    if ts == [] || Depth(t) <= Depth(ts[0]) {
    } else {
      InsertAscends(t, ts[1..], Depth(ts[0]));
    }
  }

  ghost predicate Ascends(ts: seq<BlockTree>) {
    forall i, j | 0 <= i < j < |ts| :: Depth(ts[i]) <= Depth(ts[j])
  }

  // The trees of a given depth, in order.
  function OfDepth(ts: seq<BlockTree>, d: nat): seq<BlockTree> {
    if ts == [] then []
    else if Depth(ts[0]) == d then [ts[0]] + OfDepth(ts[1..], d)
    else OfDepth(ts[1..], d)
  }

  lemma {:induction false} InsertIsStable(t: BlockTree, ts: seq<BlockTree>, d: nat)
    ensures OfDepth(InsertByDepth(t, ts), d) == (if Depth(t) == d then [t] else []) + OfDepth(ts, d)
  {
    if ts == [] || Depth(t) <= Depth(ts[0]) {
      assert ([t] + ts)[1..] == ts;
    } else {
      InsertIsStable(t, ts[1..], d);
    }
  }

  // The sort puts shallow trees first, and keeps the order of trees of one depth.
  lemma {:induction false} SortSorts(ts: seq<BlockTree>, d: nat)
    ensures Ascends(SortByDepth(ts)) && OfDepth(SortByDepth(ts), d) == OfDepth(ts, d)
  {
    if ts == [] {
    } else {
      SortSorts(ts[1..], d);
      InsertAscends(ts[0], SortByDepth(ts[1..]), 0);
      InsertIsStable(ts[0], SortByDepth(ts[1..]), d);
    }
  }

  lemma {:induction false} LastDeepestIsDeepest(ts: seq<BlockTree>, j: nat)
    requires j < |ts|
    ensures Depth(ts[j]) <= Depth(ts[LastDeepest(ts)])
  {
    if j == 0 {
    } else {
      LastDeepestIsDeepest(ts[1..], j - 1);
    }
  }

  lemma {:induction false} InsertDeepest(t: BlockTree, r: seq<BlockTree>)
    requires r != [] && Depth(r[LastDeepest(r)]) < Depth(t)
    ensures InsertByDepth(t, SortByDepth(r)) == SortByDepth(r) + [t]
  {
    SortPermutes(r);
    forall u | u in SortByDepth(r) ensures Depth(u) < Depth(t) {
      assert u in multiset(SortByDepth(r));
      var j :| 0 <= j < |r| && r[j] == u;
      LastDeepestIsDeepest(r, j);
    }
    InsertAtEnd(t, SortByDepth(r));
  }

  lemma {:induction false} WithoutLater(ts: seq<BlockTree>, k: nat)
    requires k + 1 < |ts|
    ensures Without(ts, k + 1) == [ts[0]] + Without(ts[1..], k)
    ensures Without(ts, k + 1)[1..] == Without(ts[1..], k)
  {
  }

  // Sorting puts the last deepest tree at the end, after the others in order.
  lemma {:induction false} SortEndsDeepest(ts: seq<BlockTree>)
    requires ts != []
    ensures SortByDepth(ts) == SortByDepth(Without(ts, LastDeepest(ts))) + [ts[LastDeepest(ts)]]
  {
    if |ts| == 1 {
      assert ts == [ts[0]] && Without(ts, 0) == [];
    } else if LastDeepest(ts) == 0 {
      FirstEnds(ts);
    } else {
      SortEndsDeepest(ts[1..]);
      LaterEnds(ts, LastDeepest(ts[1..]), LastDeepest(ts));
    }
  }

  lemma {:induction false} FirstEnds(ts: seq<BlockTree>)
    requires |ts| > 1 && LastDeepest(ts) == 0
    ensures SortByDepth(ts) == SortByDepth(Without(ts, 0)) + [ts[0]]
  {
    InsertDeepest(ts[0], ts[1..]);
    assert Without(ts, 0) == ts[1..];
  }

  lemma {:induction false} LaterEnds(ts: seq<BlockTree>, k: nat, d: nat)
    requires k + 1 < |ts| && d == k + 1 && Depth(ts[0]) <= Depth(ts[d])
    requires SortByDepth(ts[1..]) == SortByDepth(Without(ts[1..], k)) + [ts[1..][k]]
    ensures SortByDepth(ts) == SortByDepth(Without(ts, d)) + [ts[d]]
  {
    InsertBefore(ts[0], SortByDepth(Without(ts[1..], k)), ts[d]);
    SortLater(ts, k);
  }

  lemma {:induction false} SortLater(ts: seq<BlockTree>, k: nat)
    requires k + 1 < |ts|
    ensures SortByDepth(Without(ts, k + 1)) == InsertByDepth(ts[0], SortByDepth(Without(ts[1..], k)))
  {
    WithoutLater(ts, k);
  }

  // Sorting leaves a second deepest tree next to the end.
  lemma {:induction false} SecondDeepest(ts: seq<BlockTree>) returns (second: nat)
    requires |ts| >= 2
    ensures second < |ts| && second != LastDeepest(ts)
    ensures |SortByDepth(ts)| == |ts| && SortByDepth(ts)[|ts| - 2] == ts[second]
    ensures forall j | 0 <= j < |ts| && j != LastDeepest(ts) :: Depth(ts[j]) <= Depth(ts[second])
  {
    var d := LastDeepest(ts);
    SortEndsDeepest(ts);
    SortPermutes(ts);
    var e := DeepestOther(ts, d);
    second := if e < d then e else e + 1;
  }

  lemma {:induction false} DeepestOther(ts: seq<BlockTree>, d: nat) returns (e: nat)
    requires d < |ts| && |ts| >= 2
    ensures var others := Without(ts, d);
            && e < |others| == |SortByDepth(others)| && SortByDepth(others)[|others| - 1] == others[e]
            && others[e] == ts[if e < d then e else e + 1]
            && forall j | 0 <= j < |ts| && j != d :: Depth(ts[j]) <= Depth(others[e])
  {
    var others := Without(ts, d);
    e := LastDeepest(others);
    SortEndsDeepest(others);
    SortPermutes(others);
    forall j | 0 <= j < |ts| && j != d ensures Depth(ts[j]) <= Depth(others[e]) {
      OtherAt(ts, d, j);
      LastDeepestIsDeepest(others, if j < d then j else j - 1);
    }
    OtherAt(ts, d, if e < d then e else e + 1);
  }

  // Where the other trees are once one is left out.
  lemma {:induction false} OtherAt(ts: seq<BlockTree>, d: nat, j: nat)
    requires d < |ts| && j < |ts| && j != d
    ensures |Without(ts, d)| == |ts| - 1 && Without(ts, d)[if j < d then j else j - 1] == ts[j]
  {
  }

  // The deepest tree is stable exactly when it is deep enough and far enough from the second
  // deepest, so looking at two trees decides.
  lemma {:induction false} TwoDeepestDecide(ts: seq<BlockTree>, delta: nat)
    requires ts != []
    ensures var sorted := SortByDepth(ts);
            && |sorted| == |ts| && sorted[|ts| - 1] == ts[LastDeepest(ts)]
            && (|ts| >= 2 ==> Depth(sorted[|ts| - 2]) <= Depth(sorted[|ts| - 1]))
            && (StableTree(ts, delta, LastDeepest(ts)) <==>
                delta <= Depth(sorted[|ts| - 1]) &&
                (|ts| >= 2 ==> delta <= Depth(sorted[|ts| - 1]) - Depth(sorted[|ts| - 2])))
  {
    SortPermutes(ts);
    SortEndsDeepest(ts);
    if |ts| >= 2 {
      var second := SecondDeepest(ts);
      LastDeepestIsDeepest(ts, second);
    }
  }
}
