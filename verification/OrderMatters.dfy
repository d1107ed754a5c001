/** A block that is pushed after two of its successors takes only the first of them, and the
    current chain then depends on the order of pushing. */
module OrderMatters {
  import opened Bitcoin
  import opened BlockTrees
  import opened CurrentChain
  import opened ForestSteps
  import opened Pushing
  import opened PushOrder
  import opened TreeWalks

  // `x` and `y` both follow `p`, which follows none of the three.
  ghost predicate Fork(p: Block, x: Block, y: Block) {
    && x.Prev() == p.Hash() == y.Prev()
    && x.Hash() != y.Hash() && x.Hash() != p.Hash() && y.Hash() != p.Hash()
    && p.Prev() != p.Hash() && p.Prev() != x.Hash() && p.Prev() != y.Hash()
  }

  lemma {:induction false} PushOne(b: Block)
    ensures PushAll([b]) == [Node(b, [])]
  {
    assert [b][..0] == [];
    assert PushAll([]) == [];
  }

  lemma {:induction false} PushLast(before: seq<Block>, b: Block)
    ensures PushAll(before + [b]) == Pushed(PushAll(before), b)
  {
    assert (before + [b])[..|before|] == before;
  }

  lemma {:induction false} LeafCount(b: Block, h: BlockHash)
    ensures Count([Node(b, [])], h) == if b.Hash() == h then 1 else 0
  {
    Single(Node(b, []), h);
  }

  // Pushing a successor of the only root.
  lemma {:induction false} PushUnderRoot(r: Block, cs: seq<BlockTree>, b: Block)
    requires r.Hash() == b.Prev() && r.Prev() != b.Hash() && !Has([Node(r, cs)], b.Hash())
    ensures Pushed([Node(r, cs)], b) == [Node(r, cs + [Node(b, [])])]
  {
    var ts := [Node(r, cs)];
    assert ts[1..] == [];
    AddUnderSingle(ts[0], b.Prev(), Node(b, []));
  }

  // Pushing a block that follows nothing in the forest.
  lemma {:induction false} PushApart(ts: seq<BlockTree>, b: Block)
    requires !Has(ts, b.Hash()) && !Has(ts, b.Prev())
    ensures Pushed(ts, b) == Rest(ts, b.Hash()) + [Node(b, Taken(ts, b.Hash()))]
  {
    RestCount(ts, b.Hash(), b.Hash());
    RestCount(ts, b.Hash(), b.Prev());
    AttachRoots(Rest(ts, b.Hash()), b, Taken(ts, b.Hash()));
  }

  // Parent first: both successors hang from the block.
  lemma {:induction false} ParentFirst(p: Block, x: Block, y: Block)
    requires Fork(p, x, y)
    ensures PushAll([p] + [x] + [y]) == [Node(p, [Node(x, []), Node(y, [])])]
  {
    PushOne(p);
    PushLast([p], x);
    PushLast([p] + [x], y);
    LeafCount(p, x.Hash());
    PushUnderRoot(p, [], x);
    assert [] + [Node(x, [])] == [Node(x, [])];
    Single(Node(p, [Node(x, [])]), y.Hash());
    LeafCount(x, y.Hash());
    PushUnderRoot(p, [Node(x, [])], y);
    assert [Node(x, [])] + [Node(y, [])] == [Node(x, []), Node(y, [])];
  }

  // Parent last: the second successor is left waiting for a block that is there.
  lemma {:induction false} ParentLast(p: Block, x: Block, y: Block)
    requires Fork(p, x, y)
    ensures PushAll([x] + [y] + [p]) == [Node(y, []), Node(p, [Node(x, [])])]
  {
    var one, two := [Node(x, [])], [Node(x, []), Node(y, [])];
    PushOne(x);
    PushLast([x], y);
    PushLast([x] + [y], p);
    forall h ensures Count(two, h) == Count(one, h) + Count([Node(y, [])], h) {
      assert two == one + [Node(y, [])];
      AppendCount(one, [Node(y, [])], h);
      LeafCount(x, h);
      LeafCount(y, h);
    }
    LeafCount(x, y.Hash());
    LeafCount(x, y.Prev());
    assert one[1..] == [];
    PushApart(one, y);
    assert one + [Node(y, [])] == two;
    LeafCount(x, p.Hash());
    LeafCount(y, p.Hash());
    LeafCount(x, p.Prev());
    LeafCount(y, p.Prev());
    PushApart(two, p);
    assert Without(two, 0) == [Node(y, [])];
    assert [Node(y, [])] + [Node(p, [Node(x, [])])] == [Node(y, []), Node(p, [Node(x, [])])];
  }

  lemma {:induction false} PartTwo(s: BlockTree, t: BlockTree, h: BlockHash)
    requires s.root.Prev() != h && t.root.Prev() == h
    ensures Attached([s, t], h) == [t] && Detached([s, t], h) == [s]
  {
    AttachedNone([s], h);
    AttachedAll([t], h);
    assert [s, t] == [s] + [t];
    AttachedAppend([s], [t], h);
    DetachedAppend([s], [t], h);
  }

  // The tree that waits comes first, and is hung below the root of the other.
  lemma {:induction false} PushTakesFirst(s: BlockTree, p: Block, cs: seq<BlockTree>)
    requires s.root.Prev() == p.Hash()
    ensures Pushed([s, Node(p, cs)], p) == [Node(p, cs + [s])]
  {
    var ts, t := [s, Node(p, cs)], Node(p, cs);
    assert Without(ts, 0) == [t];
    assert [t][1..] == [];
    Single(t, p.Hash());
    AddUnderSingle(t, p.Hash(), s);
  }

  lemma {:induction false} Stranded(p: Block, x: Block, y: Block)
    requires Fork(p, x, y)
    ensures !Closed([Node(y, []), Node(p, [Node(x, [])])])
  {
    var ts := [Node(y, []), Node(p, [Node(x, [])])];
    RootInBlocks(ts, 1);
    assert Has(ts, ts[0].root.Prev());
  }

  // Pushing the parent again takes the second successor in.
  lemma {:induction false} ParentAgain(p: Block, x: Block, y: Block)
    requires Fork(p, x, y)
    ensures var ts := PushAll([x] + [y] + [p]);
            !Closed(ts) && Pushed(ts, p) == PushAll([p] + [x] + [y]) && Closed(Pushed(ts, p))
  {
    ParentLast(p, x, y);
    ParentFirst(p, x, y);
    Stranded(p, x, y);
    PushTakesFirst(Node(y, []), p, [Node(x, [])]);
    assert [Node(x, [])] + [Node(y, [])] == [Node(x, []), Node(y, [])];
    ForkClosed(p, x, y);
  }

  lemma {:induction false} ForkClosed(p: Block, x: Block, y: Block)
    requires Fork(p, x, y)
    ensures Closed([Node(p, [Node(x, []), Node(y, [])])])
  {
    ForkTree(p, x, y);
  }

  lemma {:induction false} PopOfFork(p: Block, x: Block, y: Block)
    requires Fork(p, x, y)
    ensures Popped([Node(y, []), Node(p, [Node(x, [])])], p.Prev(), 1) == (Some(p), [Node(y, []), Node(x, [])])
  {
    var t := Node(p, [Node(x, [])]);
    PartTwo(Node(y, []), t, p.Prev());
    Single(Node(x, []), 0);
    assert StableTree([t], 1, 0);
    assert [Node(y, [])] + t.children == [Node(y, []), Node(x, [])];
  }

  // Popping the parent attaches it too, and then the pop shows: the chain loses more than the
  // popped block.
  lemma {:induction false} ParentPopped(p: Block, x: Block, y: Block)
    requires Fork(p, x, y)
    ensures var ts := PushAll([x] + [y] + [p]);
            var (popped, r) := Popped(ts, p.Prev(), 1);
            && popped == Some(p) && r == [Node(y, []), Node(x, [])]
            && Chain(ts, p.Prev()) == [p, x] && Chain(r, p.Hash()) == []
  {
    ParentLast(p, x, y);
    StraightChain(p, x, y);
    PopOfFork(p, x, y);
    AttachedAll([Node(y, []), Node(x, [])], p.Hash());
    TiedLeaves(y, x);
  }

  lemma {:induction false} TiedLeaves(x: Block, y: Block)
    requires x.Hash() != y.Hash()
    ensures AgreedByLongest(Paths([Node(x, []), Node(y, [])])) == []
  {
    var ts := [Node(x, []), Node(y, [])];
    forall h ensures Count(ts, h) <= 1 {
      assert ts == [Node(x, [])] + [Node(y, [])];
      AppendCount([Node(x, [])], [Node(y, [])], h);
      LeafCount(x, h);
      LeafCount(y, h);
    }
    ChainIsDescent(ts);
    forall i: nat ensures !UniqueDeepest(ts, i) {
      assert Depth(ts[0]) == 0 == Depth(ts[1]);
      if i < 2 {
        assert !(Depth(ts[1 - i]) < Depth(ts[i]));
      }
    }
  }

  // The same three blocks give different current chains.
  lemma {:induction false} OrderMayMatter(p: Block, x: Block, y: Block)
    requires Fork(p, x, y)
    ensures Ready([p] + [x] + [y]) && !Ready([x] + [y] + [p])
    ensures Chain(PushAll([p] + [x] + [y]), p.Prev()) == [p]
    ensures Chain(PushAll([x] + [y] + [p]), p.Prev()) == [p, x]
  {
    ParentFirst(p, x, y);
    ParentLast(p, x, y);
    ReadyOrders(p, x, y);
    ForkedChain(p, x, y);
    StraightChain(p, x, y);
  }

  lemma {:induction false} ReadyOrders(p: Block, x: Block, y: Block)
    requires Fork(p, x, y)
    ensures Ready([p] + [x] + [y]) && !Ready([x] + [y] + [p])
  {
    ReadyThree(p, x, y);
    ReadyThree(x, y, p);
  }

  // Of three blocks, only the last can come after two successors.
  lemma {:induction false} ReadyThree(a: Block, b: Block, c: Block)
    ensures Ready([a] + [b] + [c]) <==> a.Prev() != c.Hash() || b.Prev() != c.Hash()
  {
    ReadyLast([], a);
    assert [] + [a] == [a];
    ReadyLast([a], b);
    ReadyLast([a] + [b], c);
    assert ([a] + [b])[0] == a && ([a] + [b])[1] == b;
  }

  lemma {:induction false} ReadyLast(before: seq<Block>, b: Block)
    ensures Ready(before + [b]) <==> Ready(before) && AtMostOneSuccessor(before, b.Hash())
  {
    assert (before + [b])[..|before|] == before;
  }

  // The fork of `x` and `y` above `p`: a tie, and no hash twice.
  lemma {:induction false} ForkTree(p: Block, x: Block, y: Block)
    requires Fork(p, x, y)
    ensures var below := [Node(x, []), Node(y, [])];
            && Descend(below) == [] && Height(below) == 1
            && forall h :: Count([Node(p, below)], h) == if h == p.Hash() || h == x.Hash() || h == y.Hash() then 1 else 0
  {
    var below := [Node(x, []), Node(y, [])];
    assert below[1..] == [Node(y, [])] && below[1..][1..] == [];
    forall h ensures Count([Node(p, below)], h) == if h == p.Hash() || h == x.Hash() || h == y.Hash() then 1 else 0 {
      Single(Node(p, below), h);
      assert below == [Node(x, [])] + [Node(y, [])];
      AppendCount([Node(x, [])], [Node(y, [])], h);
      LeafCount(x, h);
      LeafCount(y, h);
    }
    forall i: nat ensures !UniqueDeepest(below, i) {
      assert Depth(below[0]) == 0 == Depth(below[1]);
      if i < 2 {
        assert !(Depth(below[1 - i]) < Depth(below[i]));
      }
    }
  }

  lemma {:induction false} ForkedChain(p: Block, x: Block, y: Block)
    requires Fork(p, x, y)
    ensures Chain([Node(p, [Node(x, []), Node(y, [])])], p.Prev()) == [p]
  {
    var ts := [Node(p, [Node(x, []), Node(y, [])])];
    ForkTree(p, x, y);
    assert ts[1..] == [] && Attached(ts, p.Prev()) == ts;
    ChainIsDescent(ts);
    assert UniqueDeepest(ts, 0);
    DeepestUnique(ts, 0);
  }

  lemma {:induction false} StraightChain(p: Block, x: Block, y: Block)
    requires Fork(p, x, y)
    ensures Chain([Node(y, []), Node(p, [Node(x, [])])], p.Prev()) == [p, x]
  {
    var leaf := [Node(x, [])];
    var ts := [Node(p, leaf)];
    var all := [Node(y, []), Node(p, leaf)];
    assert all[1..] == ts && ts[1..] == [] && leaf[1..] == [];
    assert y.Prev() != p.Prev();
    assert Attached(ts, p.Prev()) == ts;
    assert Attached(all, p.Prev()) == Attached(ts, p.Prev());
    forall h ensures Count(ts, h) <= 1 {
      Single(ts[0], h);
      LeafCount(x, h);
    }
    ChainIsDescent(ts);
    assert UniqueDeepest(ts, 0) && UniqueDeepest(leaf, 0);
    DeepestUnique(ts, 0);
    DeepestUnique(leaf, 0);
    assert Descend([]) == [] by {
      forall i: nat ensures !UniqueDeepest([], i) {}
    }
  }

  // The tip may have a block of another, shorter fork at its height: only the longest paths
  // contest it.
  lemma {:induction false} ShorterForkIsIgnored(p: Block, x: Block, y: Block, q: Block)
    requires Fork(p, x, y) && q.Prev() == p.Prev()
    requires q.Hash() != p.Hash() && q.Hash() != x.Hash() && q.Hash() != y.Hash()
    ensures Chain([Node(p, [Node(x, []), Node(y, [])]), Node(q, [])], p.Prev()) == [p]
  {
    var fork := Node(p, [Node(x, []), Node(y, [])]);
    var ts := [fork, Node(q, [])];
    ForkTree(p, x, y);
    AttachedAll(ts, p.Prev());
    forall h ensures Count(ts, h) <= 1 {
      assert ts == [fork] + [Node(q, [])];
      AppendCount([fork], [Node(q, [])], h);
      LeafCount(q, h);
    }
    ChainIsDescent(ts);
    assert Depth(ts[0]) == 1 && Depth(ts[1]) == 0;
    assert UniqueDeepest(ts, 0);
    DeepestUnique(ts, 0);
  }
}
