/** Pushing a whole collection of blocks: which orders build the forest of all links, and that
    the current chain then depends on the set of blocks only. */
module PushOrder {
  import opened Bitcoin
  import opened BlockTrees
  import opened CurrentChain
  import opened ForestSteps
  import opened Pushing

  // ---- Orders ----

  ghost function PushAll(order: seq<Block>): seq<BlockTree> {
    if order == [] then [] else Pushed(PushAll(order[..|order| - 1]), order[|order| - 1])
  }

  // The blocks have different hashes, and each ranks above its predecessor.
  ghost predicate Distinct(order: seq<Block>, rank: BlockHash -> nat) {
    && (forall i, j | 0 <= i < j < |order| :: order[i].Hash() != order[j].Hash())
    && (forall i | 0 <= i < |order| :: rank(order[i].Prev()) < rank(order[i].Hash()))
  }

  ghost predicate AtMostOneSuccessor(bs: seq<Block>, h: BlockHash) {
    forall j, k | 0 <= j < k < |bs| :: bs[j].Prev() != h || bs[k].Prev() != h
  }

  // No block comes after two of its successors.
  ghost predicate Ready(order: seq<Block>) {
    order == [] ||
    var n := |order| - 1;
    Ready(order[..n]) && AtMostOneSuccessor(order[..n], order[n].Hash())
  }

  // ---- What every order keeps ----

  lemma {:induction false} PushAllKeeps(order: seq<Block>, rank: BlockHash -> nat)
    requires Distinct(order, rank)
    ensures Linked(PushAll(order)) && UniqueHashes(PushAll(order))
    ensures Blocks(PushAll(order)) == multiset(order)
  {
    if order == [] {
    } else {
      PushAllKeeps(order[..|order| - 1], rank);
      LastIsFresh(order, rank);
      PushConserves(PushAll(order[..|order| - 1]), order[|order| - 1]);
      LastAdded(order);
    }
  }

  lemma {:induction false} LastAdded(order: seq<Block>)
    requires order != []
    ensures multiset(order) == multiset(order[..|order| - 1]) + multiset{order[|order| - 1]}
  {
    assert order == order[..|order| - 1] + [order[|order| - 1]];
  }

  lemma {:induction false} PushAllRanked(order: seq<Block>, rank: BlockHash -> nat)
    requires Distinct(order, rank)
    ensures Ranked(PushAll(order), rank)
  {
    PushAllKeeps(order, rank);
    forall b | b in Blocks(PushAll(order)) ensures rank(b.Prev()) < rank(b.Hash()) {
      assert b in multiset(order);
    }
  }

  lemma {:induction false} LastIsFresh(order: seq<Block>, rank: BlockHash -> nat)
    requires order != [] && Distinct(order, rank)
    requires Blocks(PushAll(order[..|order| - 1])) == multiset(order[..|order| - 1])
    ensures !Has(PushAll(order[..|order| - 1]), order[|order| - 1].Hash())
  {
    var n := |order| - 1;
    var ts := PushAll(order[..n]);
    if Has(ts, order[n].Hash()) {
      var i := PushedAt(ts, order[..n], order[n].Hash());
    }
  }

  // A hash of the forest is that of a pushed block.
  lemma {:induction false} PushedAt(ts: seq<BlockTree>, order: seq<Block>, h: BlockHash) returns (i: nat)
    requires Blocks(ts) == multiset(order) && Has(ts, h)
    ensures i < |order| && order[i].Hash() == h
  {
    var b := HashOfBlock(ts, h);
    assert b in order;
    i :| 0 <= i < |order| && order[i] == b;
  }

  // The taken tree does not hold the predecessor of the pushed block: that would be a cycle.
  lemma {:induction false} NoCycle(ts: seq<BlockTree>, b: Block, rank: BlockHash -> nat)
    requires Linked(ts) && Ranked(ts, rank) && rank(b.Prev()) < rank(b.Hash())
    ensures b.Prev() != b.Hash() && !Has(Taken(ts, b.Hash()), b.Prev())
  {
    var taken := Taken(ts, b.Hash());
    RestLinked(ts, b.Hash());
    RestBlocks(ts, b.Hash());
    RestMembers(ts, b.Hash());
    if Has(taken, b.Prev()) {
      RanksAbove(taken, b.Hash(), b.Prev(), rank);
    }
  }

  // ---- Which orders leave no tree stranded ----

  // Two trees wait for a missing block exactly when two of its successors were pushed.
  lemma {:induction false} WaitingIsPushedSuccessors(ts: seq<BlockTree>, order: seq<Block>, h: BlockHash)
    requires Linked(ts) && UniqueHashes(ts) && Blocks(ts) == multiset(order) && !Has(ts, h)
    requires forall i, j | 0 <= i < j < |order| :: order[i].Hash() != order[j].Hash()
    ensures Waiting(ts, h) <= 1 <==> AtMostOneSuccessor(order, h)
  {
    if 2 <= Waiting(ts, h) {
      var j, k := TwoPushed(ts, order, h);
    }
    if j, k :| 0 <= j < k < |order| && order[j].Prev() == h && order[k].Prev() == h {
      TwoWaiting(ts, order, h, j, k);
    }
  }

  lemma {:induction false} TwoWaiting(ts: seq<BlockTree>, order: seq<Block>, h: BlockHash, j: nat, k: nat)
    requires Linked(ts) && Blocks(ts) == multiset(order) && !Has(ts, h)
    requires j < |order| && k < |order| && order[j] != order[k] && order[j].Prev() == h == order[k].Prev()
    ensures 2 <= Waiting(ts, h)
  {
    var s := RootOf(ts, order, j, h);
    var t := RootOf(ts, order, k, h);
    AttachedMembers(ts, h);
    assert s in Attached(ts, h) && t in Attached(ts, h);
  }

  lemma {:induction false} RootOf(ts: seq<BlockTree>, order: seq<Block>, j: nat, h: BlockHash) returns (t: BlockTree)
    requires Linked(ts) && Blocks(ts) == multiset(order) && !Has(ts, h)
    requires j < |order| && order[j].Prev() == h
    ensures t in ts && t.root == order[j]
  {
    assert order[j] in multiset(order);
    RootOrChild(ts, order[j]);
    var i :| 0 <= i < |ts| && ts[i].root == order[j];
    t := ts[i];
  }

  lemma {:induction false} TwoPushed(ts: seq<BlockTree>, order: seq<Block>, h: BlockHash) returns (j: nat, k: nat)
    requires UniqueHashes(ts) && Blocks(ts) == multiset(order) && 2 <= Waiting(ts, h)
    ensures j < k < |order| && order[j].Prev() == h == order[k].Prev()
  {
    var attached := Attached(ts, h);
    AttachedUnique(ts, h);
    AttachedBlocks(ts, h);
    AttachedMembers(ts, h);
    RootsDiffer(attached, 0, 1);
    RootInBlocks(attached, 0);
    RootInBlocks(attached, 1);
    var a, b := attached[0].root, attached[1].root;
    assert attached[0] in attached && attached[1] in attached;
    assert a in multiset(order) && b in multiset(order);
    j :| 0 <= j < |order| && order[j] == a;
    k :| 0 <= k < |order| && order[k] == b;
    if k < j {
      j, k := k, j;
    }
  }

  // One more push keeps the forest closed if and only if at most one successor was pushed.
  lemma {:induction false} ClosedStep(order: seq<Block>, rank: BlockHash -> nat)
    requires order != [] && Distinct(order, rank)
    ensures var n := |order| - 1;
            Closed(PushAll(order)) <==>
            Closed(PushAll(order[..n])) && AtMostOneSuccessor(order[..n], order[n].Hash())
  {
    var n := |order| - 1;
    var ts, b := PushAll(order[..n]), order[n];
    PushAllKeeps(order[..n], rank);
    PushAllRanked(order[..n], rank);
    LastIsFresh(order, rank);
    NoCycle(ts, b, rank);
    WaitingIsPushedSuccessors(ts, order[..n], b.Hash());
    PushKeepsClosed(ts, b);
  }

  // An order of different blocks leaves no tree waiting for a pushed block if and only if no
  // block comes after two of its successors.
  lemma {:induction false} ClosedIffReady(order: seq<Block>, rank: BlockHash -> nat)
    requires Distinct(order, rank)
    ensures Closed(PushAll(order)) <==> Ready(order)
  {
    if order == [] {
    } else {
      var n := |order| - 1;
      ClosedIffReady(order[..n], rank);
      ClosedStep(order, rank);
    }
  }

  // ---- Paths are the maximal chains of the set ----

  // `p` starts after `h`, each block follows the one before, and no block follows the last.
  ghost predicate MaximalPath(bs: multiset<Block>, h: BlockHash, p: seq<Block>)
    decreases |p|
  {
    && p != [] && p[0] in bs && p[0].Prev() == h
    && if |p| == 1 then forall c | c in bs :: c.Prev() != p[0].Hash()
       else MaximalPath(bs, p[0].Hash(), p[1..])
  }

  // The forest `us` hangs from `h` and holds every block of `bs` that follows `h` or one of
  // its own blocks.
  ghost predicate Complete(us: seq<BlockTree>, h: BlockHash, bs: multiset<Block>) {
    && Linked(us) && RootsFollow(us, h) && UniqueHashes(us) && !Has(us, h)
    && (forall c | c in Blocks(us) :: c in bs)
    && (forall c: Block | c in bs && (c.Prev() == h || Has(us, c.Prev())) :: c in Blocks(us))
  }

  lemma {:induction false} AttachedComplete(ts: seq<BlockTree>, anchor: BlockHash)
    requires WellFormed(ts) && !Has(ts, anchor)
    ensures Complete(Attached(ts, anchor), anchor, Blocks(ts))
  {
    var us, ds := Attached(ts, anchor), Detached(ts, anchor);
    AttachedLinked(ts, anchor);
    AttachedUnique(ts, anchor);
    AttachedBlocks(ts, anchor);
    AttachedMembers(ts, anchor);
    AttachedCount(ts, anchor, anchor);
    forall i | 0 <= i < |us| ensures us[i].root.Prev() == anchor {
      assert us[i] in us;
    }
    forall c: Block | c in Blocks(ts) && (c.Prev() == anchor || Has(us, c.Prev())) ensures c in Blocks(us) {
      AttachedCount(ts, anchor, c.Prev());
      if c in Blocks(ds) {
        DetachedElsewhere(ts, anchor, c);
      }
      assert Count(ts, c.Prev()) <= 1;
    }
  }

  // A block of a detached tree follows another block of the detached trees, or no block that
  // the forest has.
  lemma {:induction false} DetachedElsewhere(ts: seq<BlockTree>, anchor: BlockHash, c: Block)
    requires Linked(ts) && Closed(ts) && c in Blocks(Detached(ts, anchor))
    ensures Has(Detached(ts, anchor), c.Prev()) || (c.Prev() != anchor && !Has(ts, c.Prev()))
  {
    var ds := Detached(ts, anchor);
    AttachedLinked(ts, anchor);
    AttachedMembers(ts, anchor);
    RootOrChild(ds, c);
    if i :| 0 <= i < |ds| && ds[i].root == c {
      assert ds[i] in ds;
      var j :| 0 <= j < |ts| && ts[j] == ds[i];
    }
  }

  lemma {:induction false} CompleteBelow(us: seq<BlockTree>, h: BlockHash, bs: multiset<Block>, i: nat)
    requires Complete(us, h, bs) && i < |us|
    ensures us[i].root in bs && Complete(us[i].children, us[i].root.Hash(), bs)
  {
    var t := us[i];
    SplitLinked(us, i);
    SplitBlocks(us, i);
    UniqueBelow(us, i);
    CountAt(us, i, t.root.Hash());
    forall c: Block | c in bs && (c.Prev() == t.root.Hash() || Has(t.children, c.Prev()))
      ensures c in Blocks(t.children)
    {
      CountAt(us, i, c.Prev());
      SuccessorBelow(us, h, i, c);
    }
  }

  lemma {:induction false} FollowsWithin(us: seq<BlockTree>, h: BlockHash, c: Block)
    requires Linked(us) && RootsFollow(us, h) && c in Blocks(us)
    ensures c.Prev() == h || Has(us, c.Prev())
  {
    RootOrChild(us, c);
  }

  // A successor of a block of one tree is in no other tree.
  lemma {:induction false} SuccessorNotElsewhere(us: seq<BlockTree>, h: BlockHash, i: nat, c: Block)
    requires Linked(us) && RootsFollow(us, h) && UniqueHashes(us) && !Has(us, h) && i < |us|
    requires c.Prev() == us[i].root.Hash() || Has(us[i].children, c.Prev())
    ensures c !in Blocks(Without(us, i))
  {
    var rest := Without(us, i);
    assert RootsFollow(rest, h);
    SplitLinked(us, i);
    if c in Blocks(rest) {
      FollowsWithin(rest, h, c);
    }
    CountAt(us, i, c.Prev());
  }

  // A successor of a block of one tree is in that tree, below its root.
  lemma {:induction false} SuccessorBelow(us: seq<BlockTree>, h: BlockHash, i: nat, c: Block)
    requires Linked(us) && RootsFollow(us, h) && UniqueHashes(us) && !Has(us, h) && i < |us|
    requires c in Blocks(us) && (c.Prev() == us[i].root.Hash() || Has(us[i].children, c.Prev()))
    ensures c in Blocks(us[i].children)
  {
    SuccessorNotElsewhere(us, h, i, c);
    SplitBlocks(us, i);
    CountAt(us, i, c.Prev());
  }

  lemma {:induction false} CountAt(us: seq<BlockTree>, i: nat, k: BlockHash)
    requires UniqueHashes(us) && i < |us|
    ensures Count(Without(us, i), k) + (if us[i].root.Hash() == k then 1 else 0) + Count(us[i].children, k)
            == Count(us, k) <= 1
  {
    SplitCount(us, i, k);
    Single(us[i], k);
    assert Count(us, k) <= 1;
  }

  lemma {:induction false} NoSuccessorNoTree(us: seq<BlockTree>, h: BlockHash, bs: multiset<Block>)
    requires Complete(us, h, bs) && forall c | c in bs :: c.Prev() != h
    ensures us == []
  {
    if us != [] {
      RootInBlocks(us, 0);
    }
  }

  lemma {:induction false} PathsAreMaximal(us: seq<BlockTree>, h: BlockHash, bs: multiset<Block>, p: seq<Block>)
    requires Complete(us, h, bs)
    ensures p in Paths(us) <==> MaximalPath(bs, h, p)
    decreases |p|
  {
    PathOnSomeTree(us, p);
    if i :| 0 <= i < |us| && OnTree(us[i], p) {
      PathOnTreeIsMaximal(us, h, bs, p, i);
      if |p| > 1 {
        PathsAreMaximal(us[i].children, p[0].Hash(), bs, p[1..]);
      }
    }
    if MaximalPath(bs, h, p) {
      RootOrChild(us, p[0]);
      var i :| 0 <= i < |us| && us[i].root == p[0];
      CompleteBelow(us, h, bs, i);
      var below := us[i].children;
      if |p| == 1 {
        NoSuccessorNoTree(below, p[0].Hash(), bs);
      } else {
        PathsAreMaximal(below, p[0].Hash(), bs, p[1..]);
        PathsEmpty(below);
      }
      assert OnTree(us[i], p);
    }
  }

  lemma {:induction false} PathOnTreeIsMaximal(us: seq<BlockTree>, h: BlockHash, bs: multiset<Block>, p: seq<Block>, i: nat)
    requires Complete(us, h, bs) && i < |us| && OnTree(us[i], p)
    ensures p[0] in bs && p[0].Prev() == h
    ensures |p| == 1 ==> forall c | c in bs :: c.Prev() != p[0].Hash()
    ensures |p| > 1 ==> p[1..] in Paths(us[i].children) && Complete(us[i].children, p[0].Hash(), bs)
  {
    CompleteBelow(us, h, bs, i);
    if us[i].children == [] {
      assert Blocks(us[i].children) == multiset{};
    } else {
      PathsWithin(us[i].children, p[1..]);
    }
  }

  // ---- The current chain is a function of the set ----

  // In a well-formed forest the attached paths are the maximal chains of its blocks.
  lemma {:induction false} AttachedPathsAreMaximal(ts: seq<BlockTree>, anchor: BlockHash, p: seq<Block>)
    requires WellFormed(ts) && !Has(ts, anchor)
    ensures p in Paths(Attached(ts, anchor)) <==> MaximalPath(Blocks(ts), anchor, p)
  {
    AttachedComplete(ts, anchor);
    PathsAreMaximal(Attached(ts, anchor), anchor, Blocks(ts), p);
  }

  // So two well-formed forests of the same blocks have the same current chain.
  lemma {:induction false} SameBlocksSameChain(ts: seq<BlockTree>, us: seq<BlockTree>, anchor: BlockHash)
    requires WellFormed(ts) && WellFormed(us) && Blocks(ts) == Blocks(us)
    requires !Has(ts, anchor) && !Has(us, anchor)
    ensures Chain(ts, anchor) == Chain(us, anchor)
  {
    var ps, qs := Paths(Attached(ts, anchor)), Paths(Attached(us, anchor));
    forall p ensures p in ps <==> p in qs {
      AttachedPathsAreMaximal(ts, anchor, p);
      AttachedPathsAreMaximal(us, anchor, p);
    }
    AttachedUnique(ts, anchor);
    AttachedUnique(us, anchor);
    ChainIsDescent(Attached(ts, anchor));
    ChainIsDescent(Attached(us, anchor));
    SamePathsSameChain(ps, qs, AgreedByLongest(ps));
    CurrentChainUnique(qs, AgreedByLongest(ps), AgreedByLongest(qs));
  }

  // Push order does not matter, as long as no block comes after two of its successors.
  lemma {:induction false} OrderDoesNotMatter(first: seq<Block>, second: seq<Block>, anchor: BlockHash, rank: BlockHash -> nat)
    requires Distinct(first, rank) && Distinct(second, rank) && multiset(first) == multiset(second)
    requires Ready(first) && Ready(second)
    requires forall b | b in first :: b.Hash() != anchor
    ensures Chain(PushAll(first), anchor) == Chain(PushAll(second), anchor)
  {
    forall b | b in second ensures b.Hash() != anchor {
      assert b in multiset(first);
    }
    BuildsLinks(first, anchor, rank);
    BuildsLinks(second, anchor, rank);
    SameBlocksSameChain(PushAll(first), PushAll(second), anchor);
  }

  // A ready order builds a well-formed forest of its blocks, without the anchor.
  lemma {:induction false} BuildsLinks(order: seq<Block>, anchor: BlockHash, rank: BlockHash -> nat)
    requires Distinct(order, rank) && Ready(order) && forall b | b in order :: b.Hash() != anchor
    ensures WellFormed(PushAll(order)) && Blocks(PushAll(order)) == multiset(order) && !Has(PushAll(order), anchor)
  {
    PushAllKeeps(order, rank);
    ClosedIffReady(order, rank);
    if Has(PushAll(order), anchor) {
      var i := PushedAt(PushAll(order), order, anchor);
    }
  }
}
