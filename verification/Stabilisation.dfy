/** Popping a stable block: when it happens, what it keeps, and when the current chain shows it. */
module Stabilisation {
  import opened Bitcoin
  import opened BlockTrees
  import opened CurrentChain
  import opened ForestSteps

  // ---- When a block is popped ----

  // Looking at the last of the deepest trees finds a stable tree whenever there is one.
  lemma {:induction false} StableIsDeepest(ts: seq<BlockTree>, delta: nat, i: nat)
    requires StableTree(ts, delta, i)
    ensures StableTree(ts, delta, LastDeepest(ts))
    ensures 1 <= delta ==> i == LastDeepest(ts)
  {
    var d := LastDeepest(ts);
    LastDeepestIsDeepest(ts, i);
    forall j | 0 <= j < |ts| && j != d ensures Depth(ts[j]) + delta <= Depth(ts[d]) {
      LastDeepestIsDeepest(ts, j);
      if i != d {
        assert Depth(ts[d]) + delta <= Depth(ts[i]);
      }
    }
  }

  // A block is popped exactly when an attached tree is delta-stable; it is that tree's root,
  // and there is only one such tree when delta is positive.
  lemma {:induction false} PopsExactlyStable(ts: seq<BlockTree>, anchor: BlockHash, delta: nat)
    ensures var attached := Attached(ts, anchor);
            && (Popped(ts, anchor, delta).0.Some? <==> exists i: nat :: StableTree(attached, delta, i))
            && (Popped(ts, anchor, delta).0.Some? ==>
                exists i: nat :: StableTree(attached, delta, i) && attached[i].root == Popped(ts, anchor, delta).0.value)
            && (1 <= delta ==> forall i: nat, j: nat ::
                  StableTree(attached, delta, i) && StableTree(attached, delta, j) ==> i == j)
  {
    var attached := Attached(ts, anchor);
    forall i: nat | StableTree(attached, delta, i)
      ensures StableTree(attached, delta, LastDeepest(attached))
      ensures 1 <= delta ==> i == LastDeepest(attached)
    {
      StableIsDeepest(attached, delta, i);
    }
  }

  // The popped block follows the anchor.
  lemma {:induction false} PoppedFollowsAnchor(ts: seq<BlockTree>, anchor: BlockHash, delta: nat)
    requires Popped(ts, anchor, delta).0.Some?
    ensures Popped(ts, anchor, delta).0.value.Prev() == anchor
  {
    var attached := Attached(ts, anchor);
    AttachedMembers(ts, anchor);
    assert attached[LastDeepest(attached)] in attached;
  }

  // ---- What a pop keeps ----

  lemma {:induction false} InsertKeeps(t: BlockTree, ts: seq<BlockTree>, h: BlockHash)
    ensures Count(InsertByDepth(t, ts), h) == Count([t], h) + Count(ts, h)
    ensures Linked(InsertByDepth(t, ts)) <==> Linked([t]) && Linked(ts)
  {
    if ts == [] || Depth(t) <= Depth(ts[0]) {
      AppendCount([t], ts, h);
      AppendLinked([t], ts);
    } else {
      InsertKeeps(t, ts[1..], h);
      var rest := InsertByDepth(t, ts[1..]);
      AppendCount([ts[0]], rest, h);
      AppendLinked([ts[0]], rest);
      assert ts == [ts[0]] + ts[1..];
      AppendCount([ts[0]], ts[1..], h);
      AppendLinked([ts[0]], ts[1..]);
    }
  }

  lemma {:induction false} SortKeeps(ts: seq<BlockTree>, h: BlockHash)
    ensures Count(SortByDepth(ts), h) == Count(ts, h)
    ensures Linked(SortByDepth(ts)) <==> Linked(ts)
  {
    if ts == [] {
    } else {
      SortKeeps(ts[1..], h);
      InsertKeeps(ts[0], SortByDepth(ts[1..]), h);
      assert ts == [ts[0]] + ts[1..];
      AppendCount([ts[0]], ts[1..], h);
      AppendLinked([ts[0]], ts[1..]);
    }
  }

  lemma {:induction false} SortMembers(ts: seq<BlockTree>, t: BlockTree)
    ensures t in SortByDepth(ts) <==> t in ts
  {
    SortPermutes(ts);
    assert t in multiset(SortByDepth(ts)) <==> t in multiset(ts);
  }

  lemma {:induction false} MultisetOfParts(ts: seq<BlockTree>, h: BlockHash)
    ensures multiset(Attached(ts, h)) + multiset(Detached(ts, h)) == multiset(ts)
  {
    if ts == [] {
    } else {
      MultisetOfParts(ts[1..], h);
      assert ts == [ts[0]] + ts[1..];
    }
  }

  // A pop that returns nothing only reorders the trees, and keeps the forest well formed.
  lemma {:induction false} PopNothing(ts: seq<BlockTree>, anchor: BlockHash, delta: nat)
    requires Popped(ts, anchor, delta).0.None?
    ensures var r := Popped(ts, anchor, delta).1;
            && multiset(r) == multiset(ts)
            && (forall h :: Count(r, h) == Count(ts, h))
            && (WellFormed(ts) ==> WellFormed(r))
            && Attached(r, anchor) == SortByDepth(Attached(ts, anchor))
  {
    var r := Popped(ts, anchor, delta).1;
    var attached, detached := Attached(ts, anchor), Detached(ts, anchor);
    SortPermutes(attached);
    MultisetOfParts(ts, anchor);
    forall h ensures Count(r, h) == Count(ts, h) && (Linked(r) <==> Linked(ts)) {
      SortKeeps(attached, h);
      AppendCount(SortByDepth(attached), detached, h);
      AppendLinked(SortByDepth(attached), detached);
      AttachedCount(ts, anchor, h);
      AttachedLinked(ts, anchor);
    }
    forall i | 0 <= i < |r| ensures r[i] in ts {
      assert r[i] in multiset(r);
    }
    if WellFormed(ts) {
      KeptClosed(ts, r);
    }
    AttachedMembers(ts, anchor);
    forall i | 0 <= i < |attached| ensures SortByDepth(attached)[i].root.Prev() == anchor {
      SortMembers(attached, SortByDepth(attached)[i]);
    }
    AttachedAll(SortByDepth(attached), anchor);
    AttachedNone(detached, anchor);
    AttachedAppend(SortByDepth(attached), detached, anchor);
  }

  lemma {:induction false} KeptClosed(ts: seq<BlockTree>, r: seq<BlockTree>)
    requires Closed(ts) && UniqueHashes(ts) && (forall i | 0 <= i < |r| :: r[i] in ts)
    requires forall h :: Count(r, h) == Count(ts, h)
    ensures Closed(r) && UniqueHashes(r)
  {
    forall h ensures Count(r, h) <= 1 {
      assert Count(ts, h) <= 1;
    }
    forall i | 0 <= i < |r| ensures !Has(r, r[i].root.Prev()) {
      assert r[i] in ts;
      var j :| 0 <= j < |ts| && ts[j] == r[i];
      assert Count(r, r[i].root.Prev()) == Count(ts, ts[j].root.Prev());
    }
  }

  // How many blocks with hash `h` remain when the tree at `i` of the attached ones loses its
  // root and the other attached trees go.
  lemma {:induction false} CountAfterPop(ts: seq<BlockTree>, anchor: BlockHash, i: nat, h: BlockHash)
    requires i < |Attached(ts, anchor)|
    ensures var t := Attached(ts, anchor)[i];
            Count(Detached(ts, anchor) + t.children, h) + (if t.root.Hash() == h then 1 else 0) <= Count(ts, h)
  {
    var attached := Attached(ts, anchor);
    AttachedCount(ts, anchor, h);
    SplitCount(attached, i, h);
    Single(attached[i], h);
    AppendCount(Detached(ts, anchor), attached[i].children, h);
  }

  lemma {:induction false} PopClosed(ts: seq<BlockTree>, anchor: BlockHash, i: nat)
    requires WellFormed(ts) && i < |Attached(ts, anchor)|
    ensures var t := Attached(ts, anchor)[i];
            && Closed(Detached(ts, anchor) + t.children)
            && (forall u | u in Detached(ts, anchor) :: u.root.Prev() != t.root.Hash())
  {
    var attached, detached := Attached(ts, anchor), Detached(ts, anchor);
    var t := attached[i];
    var r := detached + t.children;
    AttachedMembers(ts, anchor);
    CountAfterPop(ts, anchor, i, t.root.Hash());
    forall u | u in detached ensures !Has(ts, u.root.Prev()) {
      assert u in ts;
    }
    AttachedLinked(ts, anchor);
    SplitLinked(attached, i);
    forall k | 0 <= k < |r| ensures !Has(r, r[k].root.Prev()) {
      CountAfterPop(ts, anchor, i, r[k].root.Prev());
      assert Count(ts, r[k].root.Prev()) <= 1;
      if k < |detached| {
        assert r[k] in detached;
      }
    }
  }

  // A pop that returns a block leaves a well-formed forest; the block becomes an anchor that
  // is not in it, and the trees attached to it are the ones that were below it.
  lemma {:induction false} PopSomething(ts: seq<BlockTree>, anchor: BlockHash, delta: nat)
    requires WellFormed(ts) && Popped(ts, anchor, delta).0.Some?
    ensures var (b, r) := Popped(ts, anchor, delta);
            && WellFormed(r) && !Has(r, b.value.Hash())
            && (forall h :: Count(r, h) <= Count(ts, h))
            && Attached(r, b.value.Hash()) == Attached(ts, anchor)[LastDeepest(Attached(ts, anchor))].children
  {
    var attached, detached := Attached(ts, anchor), Detached(ts, anchor);
    var i := LastDeepest(attached);
    var t := attached[i];
    var r := detached + t.children;
    var b := t.root.Hash();
    forall h ensures Count(r, h) + (if b == h then 1 else 0) <= Count(ts, h) <= 1 {
      CountAfterPop(ts, anchor, i, h);
      assert Count(ts, h) <= 1;
    }
    PopClosed(ts, anchor, i);
    AttachedLinked(ts, anchor);
    SplitLinked(attached, i);
    AppendLinked(detached, t.children);
    AttachedAll(t.children, b);
    AttachedNone(detached, b);
    AttachedAppend(detached, t.children, b);
  }

  // The trees after a pop that returns a block are the trees that do not follow the anchor, and
  // those that were below the block.
  lemma {:induction false} PopTrees(ts: seq<BlockTree>, anchor: BlockHash, delta: nat, t: BlockTree)
    requires Popped(ts, anchor, delta).0.Some?
    ensures t in Popped(ts, anchor, delta).1 <==>
            (t in ts && t.root.Prev() != anchor) || t in Attached(ts, anchor)[LastDeepest(Attached(ts, anchor))].children
  {
    AttachedMembers(ts, anchor);
  }

  // They keep their number and their order.
  lemma {:induction false} PopKeepsOthers(ts: seq<BlockTree>, anchor: BlockHash, delta: nat) returns (i: nat)
    requires Popped(ts, anchor, delta).0.Some?
    ensures i < |ts| && ts[i].root.Prev() == anchor && Popped(ts, anchor, delta).0.value == ts[i].root
    ensures Popped(ts, anchor, delta).1 == NotFollowing(ts, anchor) + ts[i].children
    ensures forall j | 0 <= j < |ts| && ts[j].root.Prev() == anchor && j != i :: Depth(ts[j]) + delta <= Depth(ts[i])
  {
    var attached := Attached(ts, anchor);
    var at := Positions(ts, anchor);
    PositionsAttached(ts, anchor);
    i := at[LastDeepest(attached)];
    NotFollowingIsDetached(ts, anchor);
    forall j | 0 <= j < |ts| && ts[j].root.Prev() == anchor && j != i ensures Depth(ts[j]) + delta <= Depth(ts[i]) {
      var k :| 0 <= k < |at| && at[k] == j;
      assert attached[k] == ts[j];
    }
  }

  // What is left of a forest without the trees that follow the anchor, read from the right.
  function NotFollowing(ts: seq<BlockTree>, anchor: BlockHash): seq<BlockTree> {
    if ts == [] then []
    else
      var n := |ts| - 1;
      if ts[n].root.Prev() != anchor then NotFollowing(ts[..n], anchor) + [ts[n]] else NotFollowing(ts[..n], anchor)
  }

  lemma {:induction false} NotFollowingIsDetached(ts: seq<BlockTree>, anchor: BlockHash)
    ensures NotFollowing(ts, anchor) == Detached(ts, anchor)
  {
    if ts == [] {
    } else {
      var n := |ts| - 1;
      NotFollowingIsDetached(ts[..n], anchor);
      assert ts == ts[..n] + [ts[n]];
      DetachedAppend(ts[..n], [ts[n]], anchor);
      assert [ts[n]][1..] == [];
    }
  }

  // Where the trees that follow the anchor stand.
  function Positions(ts: seq<BlockTree>, anchor: BlockHash): seq<nat> {
    if ts == [] then []
    else
      var n := |ts| - 1;
      Positions(ts[..n], anchor) + if ts[n].root.Prev() == anchor then [n] else []
  }

  lemma {:induction false} PositionsAttached(ts: seq<BlockTree>, anchor: BlockHash)
    ensures var at := Positions(ts, anchor);
            && |at| == |Attached(ts, anchor)|
            && (forall k | 0 <= k < |at| :: at[k] < |ts| && ts[at[k]].root.Prev() == anchor && Attached(ts, anchor)[k] == ts[at[k]])
            && (forall j | 0 <= j < |ts| && ts[j].root.Prev() == anchor :: j in at)
  {
    if ts == [] {
    } else {
      var n := |ts| - 1;
      PositionsAttached(ts[..n], anchor);
      assert ts == ts[..n] + [ts[n]];
      AttachedAppend(ts[..n], [ts[n]], anchor);
      assert [ts[n]][1..] == [];
    }
  }

  // The blocks before a pop are those after it, the popped block, and those of the other trees
  // that followed the anchor; without a result they stay.
  lemma {:induction false} PopAccount(ts: seq<BlockTree>, anchor: BlockHash, delta: nat)
    ensures var attached := Attached(ts, anchor);
            match Popped(ts, anchor, delta)
            case (Some(b), r) => Blocks(ts) == Blocks(r) + multiset{b} + Blocks(Without(attached, LastDeepest(attached)))
            case (None, r) => Blocks(ts) == Blocks(r)
  {
    var attached := Attached(ts, anchor);
    AttachedBlocks(ts, anchor);
    if Popped(ts, anchor, delta).0.Some? {
      BlocksWithout(Detached(ts, anchor), attached, LastDeepest(attached));
    } else {
      SortBlocks(attached);
      AppendBlocks(SortByDepth(attached), Detached(ts, anchor));
    }
  }

  lemma {:induction false} BlocksWithout(detached: seq<BlockTree>, attached: seq<BlockTree>, i: nat)
    requires i < |attached|
    ensures Blocks(attached) + Blocks(detached) ==
            Blocks(detached + attached[i].children) + multiset{attached[i].root} + Blocks(Without(attached, i))
  {
    SplitBlocks(attached, i);
    AppendBlocks(detached, attached[i].children);
  }

  lemma {:induction false} InsertBlocks(t: BlockTree, ts: seq<BlockTree>)
    ensures Blocks(InsertByDepth(t, ts)) == Blocks([t]) + Blocks(ts)
  {
    if ts == [] || Depth(t) <= Depth(ts[0]) {
      AppendBlocks([t], ts);
    } else {
      InsertBlocks(t, ts[1..]);
    }
  }

  lemma {:induction false} SortBlocks(ts: seq<BlockTree>)
    ensures Blocks(SortByDepth(ts)) == Blocks(ts)
  {
    if ts == [] {
    } else {
      SortBlocks(ts[1..]);
      InsertBlocks(ts[0], SortByDepth(ts[1..]));
      Single(ts[0], 0);
    }
  }

  // ---- The current chain does not notice ----

  // Reordering trees does not change their current chain.
  lemma {:induction false} SortedChain(ts: seq<BlockTree>)
    requires UniqueHashes(ts)
    ensures AgreedByLongest(Paths(SortByDepth(ts))) == AgreedByLongest(Paths(ts))
  {
    var us := SortByDepth(ts);
    forall h ensures Count(us, h) <= 1 {
      SortKeeps(ts, h);
      assert Count(ts, h) <= 1;
    }
    forall p ensures p in Paths(ts) <==> p in Paths(us) {
      PathOnSomeTree(ts, p);
      PathOnSomeTree(us, p);
      if i :| 0 <= i < |ts| && OnTree(ts[i], p) {
        SortMembers(ts, ts[i]);
      }
      if i :| 0 <= i < |us| && OnTree(us[i], p) {
        SortMembers(ts, us[i]);
      }
    }
    ChainIsDescent(ts);
    ChainIsDescent(us);
    SamePathsSameChain(Paths(ts), Paths(us), AgreedByLongest(Paths(ts)));
    CurrentChainUnique(Paths(us), AgreedByLongest(Paths(ts)), AgreedByLongest(Paths(us)));
  }

  lemma {:induction false} TieEndsDescent(ts: seq<BlockTree>)
    requires ts != [] && !UniqueDeepest(ts, LastDeepest(ts))
    ensures Descend(ts) == []
  {
    var d := LastDeepest(ts);
    forall i: nat ensures !UniqueDeepest(ts, i) {
      if i < |ts| {
        LastDeepestIsDeepest(ts, i);
        assert UniqueDeepest(ts, i) ==> i == d;
      }
    }
  }

  // Seen from the new anchor the current chain loses exactly the popped block, if and only if
  // the popped tree was strictly deepest; a positive delta guarantees that. If nothing is
  // popped, the chain stays.
  lemma {:induction false} StabilisationIsInvisible(ts: seq<BlockTree>, anchor: BlockHash, delta: nat)
    requires WellFormed(ts)
    ensures var (popped, r) := Popped(ts, anchor, delta);
            var attached := Attached(ts, anchor);
            match popped
            case Some(b) =>
              && (Chain(ts, anchor) == [b] + Chain(r, b.Hash()) <==> UniqueDeepest(attached, LastDeepest(attached)))
              && (1 <= delta ==> UniqueDeepest(attached, LastDeepest(attached)))
            case None => Chain(ts, anchor) == Chain(r, anchor)
  {
    var attached := Attached(ts, anchor);
    AttachedUnique(ts, anchor);
    match Popped(ts, anchor, delta).0 {
      case Some(b) =>
        var i := LastDeepest(attached);
        PopSomething(ts, anchor, delta);
        UniqueBelow(attached, i);
        ChainIsDescent(attached);
        ChainIsDescent(attached[i].children);
        if UniqueDeepest(attached, i) {
          DeepestUnique(attached, i);
        } else {
          TieEndsDescent(attached);
        }
      case None =>
        PopNothing(ts, anchor, delta);
        SortedChain(attached);
    }
  }

  // ---- Popping a block that trees are waiting for ----

  lemma {:induction false} AttachedElsewhere(ts: seq<BlockTree>, anchor: BlockHash, h: BlockHash)
    requires h != anchor
    ensures Attached(Detached(ts, anchor), h) == Attached(ts, h)
  {
    if ts == [] {
    } else {
      AttachedElsewhere(ts[1..], anchor, h);
      if ts[0].root.Prev() != anchor {
        assert Detached(ts, anchor)[1..] == Detached(ts[1..], anchor);
      }
    }
  }

  // In a forest that need not be closed, a pop attaches the trees that waited for the popped
  // block to the new anchor, before the trees below the block.
  lemma {:induction false} PopTakesWaiting(ts: seq<BlockTree>, anchor: BlockHash, delta: nat)
    requires Linked(ts) && Popped(ts, anchor, delta).0.Some?
    requires Popped(ts, anchor, delta).0.value.Hash() != anchor
    ensures var (b, r) := Popped(ts, anchor, delta);
            Attached(r, b.value.Hash()) ==
            Attached(ts, b.value.Hash()) + Attached(ts, anchor)[LastDeepest(Attached(ts, anchor))].children
  {
    var attached := Attached(ts, anchor);
    var t := attached[LastDeepest(attached)];
    var h := t.root.Hash();
    AttachedLinked(ts, anchor);
    SplitLinked(attached, LastDeepest(attached));
    AttachedAppend(Detached(ts, anchor), t.children, h);
    AttachedElsewhere(ts, anchor, h);
    AttachedAll(t.children, h);
  }

  // Whether no tree is deeper than all others.
  ghost predicate Tied(ts: seq<BlockTree>) {
    forall i: nat :: !UniqueDeepest(ts, i)
  }

  lemma {:induction false} TiedIffStops(ts: seq<BlockTree>)
    ensures Tied(ts) <==> Descend(ts) == []
  {
    if i: nat :| UniqueDeepest(ts, i) {
      DeepestUnique(ts, i);
    }
  }

  // The deepest tree of two forests side by side, when the second one is deeper.
  lemma {:induction false} DeeperSide(ws: seq<BlockTree>, cs: seq<BlockTree>, i: nat)
    requires Height(ws) < Height(cs)
    ensures UniqueDeepest(cs, i) <==> UniqueDeepest(ws + cs, |ws| + i)
    ensures forall k: nat | k < |ws| :: !UniqueDeepest(ws + cs, k)
  {
    var d := SomeDeepest(cs);
    var all := ws + cs;
    assert all[|ws| + d] == cs[d];
    forall j | 0 <= j < |all| ensures j < |ws| ==> Depth(all[j]) < Depth(cs[d]) {
      if j < |ws| {
        HeightBounds(ws, j);
      }
    }
    assert forall j | 0 <= j < |cs| :: all[|ws| + j] == cs[j];
    if UniqueDeepest(cs, i) {
      assert Depth(cs[d]) <= Depth(cs[i]);
      forall j | 0 <= j < |all| && j != |ws| + i ensures Depth(all[j]) < Depth(all[|ws| + i]) {
        assert |ws| <= j ==> all[j] == cs[j - |ws|];
      }
    }
    if UniqueDeepest(all, |ws| + i) {
      forall j | 0 <= j < |cs| && j != i ensures Depth(cs[j]) < Depth(cs[i]) {
        assert all[|ws| + j] == cs[j];
      }
    }
  }

  lemma {:induction false} DescendDeeperSide(ws: seq<BlockTree>, cs: seq<BlockTree>)
    requires Height(ws) < Height(cs)
    ensures Descend(ws + cs) == Descend(cs)
  {
    if i: nat :| UniqueDeepest(cs, i) {
      DeeperSide(ws, cs, i);
      DeepestUnique(cs, i);
      DeepestUnique(ws + cs, |ws| + i);
    } else {
      forall k: nat ensures !UniqueDeepest(ws + cs, k) {
        DeeperSide(ws, cs, if k < |ws| then 0 else k - |ws|);
      }
      TiedIffStops(ws + cs);
      TiedIffStops(cs);
    }
  }

  // Trees beside a forest leave its descent alone if and only if they are less deep, or the
  // descent stops at once with and without them.
  lemma {:induction false} DescendBeside(ws: seq<BlockTree>, cs: seq<BlockTree>)
    requires UniqueHashes(ws + cs)
    ensures Descend(ws + cs) == Descend(cs) <==> Height(ws) < Height(cs) || (Tied(cs) && Tied(ws + cs))
  {
    TiedIffStops(cs);
    TiedIffStops(ws + cs);
    if Height(ws) < Height(cs) {
      DescendDeeperSide(ws, cs);
    } else if !Tied(cs) && !Tied(ws + cs) {
      DescendElsewhere(ws, cs);
    }
  }

  lemma {:induction false} DescendElsewhere(ws: seq<BlockTree>, cs: seq<BlockTree>)
    requires UniqueHashes(ws + cs) && Height(cs) <= Height(ws) && !Tied(cs) && !Tied(ws + cs)
    ensures Descend(ws + cs) != Descend(cs)
  {
    var i: nat :| UniqueDeepest(cs, i);
    var k: nat :| UniqueDeepest(ws + cs, k);
    DeepestUnique(cs, i);
    DeepestUnique(ws + cs, k);
    if |ws| <= k {
      NotDeepestBehind(ws, cs, k);
    }
    assert (ws + cs)[|ws| + i] == cs[i];
    RootsDiffer(ws + cs, k, |ws| + i);
    assert Descend(ws + cs)[0] == (ws + cs)[k].root && Descend(cs)[0] == cs[i].root;
  }

  lemma {:induction false} NotDeepestBehind(ws: seq<BlockTree>, cs: seq<BlockTree>, k: nat)
    requires Height(cs) <= Height(ws) && |ws| <= k < |ws| + |cs|
    ensures !UniqueDeepest(ws + cs, k)
  {
    HeightBounds(cs, k - |ws|);
    var d := SomeDeepest(ws);
    assert (ws + cs)[d] == ws[d] && (ws + cs)[k] == cs[k - |ws|];
  }

  // The descent below the last deepest tree, with other trees beside.
  lemma {:induction false} DescendBelow(ts: seq<BlockTree>, ws: seq<BlockTree>)
    requires ts != [] && UniqueHashes(ws + ts[LastDeepest(ts)].children)
    ensures var t := ts[LastDeepest(ts)];
            Descend(ts) == [t.root] + Descend(ws + t.children) <==>
            && UniqueDeepest(ts, LastDeepest(ts))
            && (Height(ws) < Height(t.children) || (Tied(t.children) && Tied(ws + t.children)))
  {
    var i := LastDeepest(ts);
    DescendBeside(ws, ts[i].children);
    if UniqueDeepest(ts, i) {
      DeepestUnique(ts, i);
      SameTail(ts[i].root, Descend(ts[i].children), Descend(ws + ts[i].children));
    } else {
      TieEndsDescent(ts);
    }
  }

  lemma {:induction false} SameTail(b: Block, p: seq<Block>, q: seq<Block>)
    ensures [b] + p == [b] + q <==> p == q
  {
    assert ([b] + p)[1..] == p && ([b] + q)[1..] == q;
  }

  // With trees waiting for the popped block, the current chain loses exactly that block if and
  // only if its tree was strictly deepest and the waiting trees are less deep than the trees
  // below the block, or leave a tie where there was one.
  lemma {:induction false} StabilisationWithWaiting(ts: seq<BlockTree>, anchor: BlockHash, delta: nat)
    requires Linked(ts) && UniqueHashes(ts) && Popped(ts, anchor, delta).0.Some?
    requires Popped(ts, anchor, delta).0.value.Hash() != anchor
    ensures var (b, r) := Popped(ts, anchor, delta);
            var attached, waiting := Attached(ts, anchor), Attached(ts, b.value.Hash());
            var below := attached[LastDeepest(attached)].children;
            Chain(ts, anchor) == [b.value] + Chain(r, b.value.Hash()) <==>
            && UniqueDeepest(attached, LastDeepest(attached))
            && (Height(waiting) < Height(below) || (Tied(below) && Tied(waiting + below)))
  {
    var attached := Attached(ts, anchor);
    var h := Popped(ts, anchor, delta).0.value.Hash();
    ChainsAroundPop(ts, anchor, delta);
    DescendBelow(attached, Attached(ts, h));
  }

  lemma {:induction false} ChainsAroundPop(ts: seq<BlockTree>, anchor: BlockHash, delta: nat)
    requires Linked(ts) && UniqueHashes(ts) && Popped(ts, anchor, delta).0.Some?
    requires Popped(ts, anchor, delta).0.value.Hash() != anchor
    ensures var (b, r) := Popped(ts, anchor, delta);
            var attached, waiting := Attached(ts, anchor), Attached(ts, b.value.Hash());
            var below := attached[LastDeepest(attached)].children;
            && UniqueHashes(waiting + below)
            && Chain(ts, anchor) == Descend(attached)
            && Chain(r, b.value.Hash()) == Descend(waiting + below)
  {
    var attached := Attached(ts, anchor);
    var r := Popped(ts, anchor, delta).1;
    PopTakesWaiting(ts, anchor, delta);
    AttachedUnique(ts, anchor);
    UniqueAfterPop(ts, anchor, LastDeepest(attached));
    AttachedUnique(r, Popped(ts, anchor, delta).0.value.Hash());
    ChainIsDescent(attached);
    ChainIsDescent(Attached(r, Popped(ts, anchor, delta).0.value.Hash()));
  }

  lemma {:induction false} UniqueAfterPop(ts: seq<BlockTree>, anchor: BlockHash, i: nat)
    requires UniqueHashes(ts) && i < |Attached(ts, anchor)|
    ensures UniqueHashes(Detached(ts, anchor) + Attached(ts, anchor)[i].children)
  {
    forall h ensures Count(Detached(ts, anchor) + Attached(ts, anchor)[i].children, h) <= 1 {
      CountAfterPop(ts, anchor, i, h);
      assert Count(ts, h) <= 1;
    }
  }
}
