/** The structure that holds all unstable blocks. */
module BlockForests {
  import opened Bitcoin
  import opened BlockTrees
  import opened CurrentChain
  import opened ForestSteps
  import opened TreeWalks

  class BlockForest {
    const delta: nat
    var trees: seq<BlockTree>

    constructor (delta: nat)
      ensures this.delta == delta && trees == []
    {
      this.delta := delta;
      trees := [];
    }

    /** Takes out the first tree whose root follows the block with the given hash. */
    method TakeTree(h: BlockHash) returns (r: Option<BlockTree>)
      modifies this
      ensures trees == Rest(old(trees), h)
      ensures Taken(old(trees), h) == if r.Some? then [r.value] else []
    {
      var i := 0;
      while i < |trees|
        invariant i <= |trees| && trees == old(trees)
        invariant forall j | 0 <= j < i :: trees[j].root.Prev() != h
      {
        if trees[i].root.Prev() == h {
          FirstWaitingAt(trees, h, i);
          r := Some(trees[i]);
          trees := trees[..i] + trees[i + 1..];
          return;
        }
        i := i + 1;
      }
      NoneWaiting(trees, h);
      r := None;
    }

    /** Pushes a new block into the forest. */
    method Push(b: Block)
      modifies this
      ensures trees == Pushed(old(trees), b)
    {
      var successor := TakeTree(b.Hash());
      ghost var below := if successor.Some? then [successor.value] else [];
      ghost var rest := trees;
      var i := 0;
      while i < |trees|
        invariant i <= |trees| && trees == rest
        invariant Attach(rest, b, below) == rest[..i] + Attach(rest[i..], b, below)
      {
        var t := ExtendAndHang(trees[i], b, successor);
        AttachAt(rest, i, b, below);
        if t.Some? {
          trees := trees[i := t.value];
          return;
        }
        i := i + 1;
      }
      var tree := Node(b, []);
      if successor.Some? {
        tree := Node(b, tree.children + [successor.value]);
      }
      assert tree.children == below;
      trees := trees + [tree];
    }

    /** Pops the successor of the anchor, if one is stable. */
    method Pop(anchor: BlockHash) returns (r: Option<Block>)
      modifies this
      ensures (r, trees) == Popped(old(trees), anchor, delta)
    {
      var attached, detached := Attached(trees, anchor), Detached(trees, anchor);
      if attached != [] {
        TwoDeepestDecide(attached, delta);
        SortEndsDeepest(attached);
      }
      attached := SortByDepth(attached);
      if attached == [] {
        trees := attached + detached;
        return None;
      }
      var deepest := attached[|attached| - 1];
      if Depth(deepest) < delta {
        trees := attached + detached;
        return None;
      }
      if |attached| >= 2 {
        var lead: nat := Depth(deepest) - Depth(attached[|attached| - 2]);
        if lead < delta {
          trees := attached + detached;
          return None;
        }
      }
      trees := detached + deepest.children;
      return Some(deepest.root);
    }

    /** The best guess on the current blockchain above the anchor. */
    method GetCurrentChain(anchor: BlockHash) returns (chain: seq<Block>)
      ensures chain == Chain(trees, anchor)
    {
      var chains: seq<seq<Block>> := [];
      for i := 0 to |trees|
        invariant chains == Paths(Attached(trees[..i], anchor))
      {
        AttachedPathsSnoc(trees, i, anchor);
        if trees[i].root.Prev() == anchor {
          var more := Blockchains(trees[i]);
          chains := chains + more;
        }
      }
      All(trees);
      if chains == [] {
        return [];
      }
      var n := LongestLength(chains);
      var longest := Filter(chains, n);
      OfLengthMembers(chains, n);
      ghost var w := SomeLongest(chains);
      assert w in longest;
      chain := CommonBlocks(longest, n);
    }
  }

  lemma {:induction false} AttachedPathsSnoc(ts: seq<BlockTree>, i: nat, anchor: BlockHash)
    requires i < |ts|
    ensures Paths(Attached(ts[..i + 1], anchor)) ==
            Paths(Attached(ts[..i], anchor)) + if ts[i].root.Prev() == anchor then Paths([ts[i]]) else []
  {
    assert ts[..i + 1] == ts[..i] + [ts[i]];
    AttachedAppend(ts[..i], [ts[i]], anchor);
    AppendPaths(Attached(ts[..i], anchor), Attached([ts[i]], anchor));
    assert [ts[i]][1..] == [];
  }

  // The i-th tree takes the block, or the search goes on behind it.
  lemma {:induction false} AttachAt(ts: seq<BlockTree>, i: nat, b: Block, below: seq<BlockTree>)
    requires i < |ts| && Attach(ts, b, below) == ts[..i] + Attach(ts[i..], b, below)
    ensures match AttachOne(ts[i], b, below)
            case Some(r) => |r| == 1 ==> Attach(ts, b, below) == ts[i := r[0]]
            case None => Attach(ts, b, below) == ts[..i + 1] + Attach(ts[i + 1..], b, below)
  {
    var rest := ts[i..];
    assert rest[0] == ts[i] && rest[1..] == ts[i + 1..];
    match AttachOne(ts[i], b, below) {
      case Some(r) =>
        if |r| == 1 {
          assert r == [r[0]];
          assert ts[..i] + ([r[0]] + ts[i + 1..]) == ts[i := r[0]];
        }
      case None =>
        var after := Attach(ts[i + 1..], b, below);
        assert ts[..i] + ([ts[i]] + after) == ts[..i + 1] + after;
    }
  }

  lemma {:induction false} FirstWaitingAt(ts: seq<BlockTree>, h: BlockHash, i: nat)
    requires i < |ts| && ts[i].root.Prev() == h && forall j | 0 <= j < i :: ts[j].root.Prev() != h
    ensures FirstWaiting(ts, h) == Some(i)
  {
    if i == 0 {
    } else {
      FirstWaitingAt(ts[1..], h, i - 1);
    }
  }

  lemma {:induction false} NoneWaiting(ts: seq<BlockTree>, h: BlockHash)
    requires forall j | 0 <= j < |ts| :: ts[j].root.Prev() != h
    ensures FirstWaiting(ts, h) == None
  {
    if ts == [] {
    } else {
      NoneWaiting(ts[1..], h);
    }
  }
}
