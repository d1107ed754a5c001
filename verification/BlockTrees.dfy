/** Trees of connected blocks. A node owns its children, so a tree is a value. Specifications
    recurse over a forest, the sequence of trees that hang from one place. */
module BlockTrees {
  import opened Bitcoin

  datatype BlockTree = Node(root: Block, children: seq<BlockTree>)

  // ---- What a forest holds ----

  // The number of blocks on the longest root-to-leaf path.
  function Height(ts: seq<BlockTree>): nat
    decreases ts
  {
    if ts == [] then 0 else Max(1 + Height(ts[0].children), Height(ts[1..]))
  }

  // The depth of a tree: the number of blocks below its root on the longest path.
  function Depth(t: BlockTree): nat {
    Height(t.children)
  }

  function Max(a: nat, b: nat): nat {
    if a < b then b else a
  }

  ghost function Blocks(ts: seq<BlockTree>): multiset<Block>
    decreases ts
  {
    if ts == [] then multiset{}
    else multiset{ts[0].root} + Blocks(ts[0].children) + Blocks(ts[1..])
  }

  // How often the block occurs in the forest.
  ghost function Occurrences(ts: seq<BlockTree>, b: Block): nat
    decreases ts
  {
    if ts == [] then 0
    else (if ts[0].root == b then 1 else 0) + Occurrences(ts[0].children, b) + Occurrences(ts[1..], b)
  }

  // How many blocks of the forest have hash `h`.
  ghost function Count(ts: seq<BlockTree>, h: BlockHash): nat
    decreases ts
  {
    if ts == [] then 0
    else (if ts[0].root.Hash() == h then 1 else 0) + Count(ts[0].children, h) + Count(ts[1..], h)
  }

  ghost predicate Has(ts: seq<BlockTree>, h: BlockHash) {
    0 < Count(ts, h)
  }

  // All root-to-leaf paths, from left to right.
  ghost function Paths(ts: seq<BlockTree>): seq<seq<Block>>
    decreases ts
  {
    if ts == [] then [] else PathsOf(ts[0].root, Paths(ts[0].children)) + Paths(ts[1..])
  }

  ghost function PathsOf(root: Block, below: seq<seq<Block>>): seq<seq<Block>> {
    if below == [] then [[root]] else PrependAll(root, below)
  }

  ghost function PrependAll(b: Block, ps: seq<seq<Block>>): seq<seq<Block>> {
    seq(|ps|, i requires 0 <= i < |ps| => [b] + ps[i])
  }

  // ---- Invariants of a forest ----

  // Every root follows the block with hash `h`.
  ghost predicate RootsFollow(ts: seq<BlockTree>, h: BlockHash) {
    forall i | 0 <= i < |ts| :: ts[i].root.Prev() == h
  }

  // Every child follows its parent.
  ghost predicate Linked(ts: seq<BlockTree>)
    decreases ts
  {
    ts == [] || (RootsFollow(ts[0].children, ts[0].root.Hash()) && Linked(ts[0].children) && Linked(ts[1..]))
  }

  ghost predicate UniqueHashes(ts: seq<BlockTree>) {
    forall h :: Count(ts, h) <= 1
  }

  // No tree waits for a block that is already in the forest.
  ghost predicate Closed(ts: seq<BlockTree>) {
    forall i | 0 <= i < |ts| :: !Has(ts, ts[i].root.Prev())
  }

  ghost predicate WellFormed(ts: seq<BlockTree>) {
    Linked(ts) && UniqueHashes(ts) && Closed(ts)
  }

  // A rank that grows from every block's predecessor to the block: hash chains have no cycle.
  ghost predicate Ranked(ts: seq<BlockTree>, rank: BlockHash -> nat) {
    forall b | b in Blocks(ts) :: rank(b.Prev()) < rank(b.Hash())
  }

  lemma {:induction false} BlocksAt(ts: seq<BlockTree>, b: Block)
    ensures Blocks(ts)[b] == Occurrences(ts, b)
  {
    if ts == [] {
    } else {
      BlocksAt(ts[0].children, b);
      BlocksAt(ts[1..], b);
    }
  }

  // ---- Forests side by side ----

  lemma {:induction false} AppendHeight(a: seq<BlockTree>, b: seq<BlockTree>)
    ensures Height(a + b) == Max(Height(a), Height(b))
  {
    if a == [] {
      assert a + b == b;
    } else {
      assert (a + b)[1..] == a[1..] + b;
      AppendHeight(a[1..], b);
    }
  }

  lemma {:induction false} AppendBlocks(a: seq<BlockTree>, b: seq<BlockTree>)
    ensures Blocks(a + b) == Blocks(a) + Blocks(b)
  {
    if a == [] {
      assert a + b == b;
    } else {
      assert (a + b)[1..] == a[1..] + b;
      AppendBlocks(a[1..], b);
    }
  }

  lemma {:induction false} AppendCount(a: seq<BlockTree>, b: seq<BlockTree>, h: BlockHash)
    ensures Count(a + b, h) == Count(a, h) + Count(b, h)
  {
    if a == [] {
      assert a + b == b;
    } else {
      assert (a + b)[1..] == a[1..] + b;
      AppendCount(a[1..], b, h);
    }
  }

  lemma {:induction false} AppendPaths(a: seq<BlockTree>, b: seq<BlockTree>)
    ensures Paths(a + b) == Paths(a) + Paths(b)
  {
    if a == [] {
      assert a + b == b;
    } else {
      assert (a + b)[1..] == a[1..] + b;
      AppendPaths(a[1..], b);
      var first := PathsOf(a[0].root, Paths(a[0].children));
      assert first + (Paths(a[1..]) + Paths(b)) == (first + Paths(a[1..])) + Paths(b);
    }
  }

  lemma {:induction false} AppendLinked(a: seq<BlockTree>, b: seq<BlockTree>)
    ensures Linked(a + b) <==> Linked(a) && Linked(b)
  {
    if a == [] {
      assert a + b == b;
    } else {
      assert (a + b)[1..] == a[1..] + b;
      AppendLinked(a[1..], b);
    }
  }

  // The forest without its i-th tree.
  function Without(ts: seq<BlockTree>, i: nat): seq<BlockTree>
    requires i < |ts|
  {
    ts[..i] + ts[i + 1..]
  }

  // One tree of the forest, taken apart from the others.
  lemma {:induction false} SplitBlocks(ts: seq<BlockTree>, i: nat)
    requires i < |ts|
    ensures Blocks(ts) == Blocks(Without(ts, i)) + (multiset{ts[i].root} + Blocks(ts[i].children))
  {
    assert ts == ts[..i] + ts[i..];
    AppendBlocks(ts[..i], ts[i..]);
    AppendBlocks(ts[..i], ts[i + 1..]);
    assert ts[i..][1..] == ts[i + 1..];
  }

  lemma {:induction false} SplitCount(ts: seq<BlockTree>, i: nat, h: BlockHash)
    requires i < |ts|
    ensures Count(ts, h) == Count(Without(ts, i), h) + Count([ts[i]], h)
  {
    assert ts == ts[..i] + ts[i..];
    AppendCount(ts[..i], ts[i..], h);
    AppendCount(ts[..i], ts[i + 1..], h);
    Single(ts[i], h);
    assert ts[i..][1..] == ts[i + 1..];
  }

  lemma {:induction false} SplitLinked(ts: seq<BlockTree>, i: nat)
    requires i < |ts|
    ensures Linked(ts) <==>
            Linked(Without(ts, i)) && RootsFollow(ts[i].children, ts[i].root.Hash()) && Linked(ts[i].children)
  {
    assert ts == ts[..i] + ts[i..];
    AppendLinked(ts[..i], ts[i..]);
    AppendLinked(ts[..i], ts[i + 1..]);
    assert ts[i..][1..] == ts[i + 1..];
  }

  lemma {:induction false} Single(t: BlockTree, h: BlockHash)
    ensures Height([t]) == 1 + Depth(t)
    ensures Blocks([t]) == multiset{t.root} + Blocks(t.children)
    ensures Count([t], h) == (if t.root.Hash() == h then 1 else 0) + Count(t.children, h)
    ensures Linked([t]) <==> RootsFollow(t.children, t.root.Hash()) && Linked(t.children)
  {
    assert [t][1..] == [];
  }

  // ---- Members of a forest ----

  // A hash belongs to the forest exactly when it is the hash of one of its blocks.
  lemma {:induction false} HashOfBlock(ts: seq<BlockTree>, h: BlockHash) returns (b: Block)
    requires Has(ts, h)
    ensures b in Blocks(ts) && b.Hash() == h
  {
    if ts[0].root.Hash() == h {
      b := ts[0].root;
    } else if Has(ts[0].children, h) {
      b := HashOfBlock(ts[0].children, h);
    } else {
      b := HashOfBlock(ts[1..], h);
    }
  }

  lemma {:induction false} RootInBlocks(ts: seq<BlockTree>, i: nat)
    requires i < |ts|
    ensures ts[i].root in Blocks(ts) && Has(ts, ts[i].root.Hash())
  {
    if i == 0 {
    } else {
      RootInBlocks(ts[1..], i - 1);
    }
  }

  lemma {:induction false} BlockHasHash(ts: seq<BlockTree>, b: Block)
    ensures Blocks(ts)[b] <= Count(ts, b.Hash())
  {
    if ts == [] {
    } else {
      BlockHasHash(ts[0].children, b);
      BlockHasHash(ts[1..], b);
    }
  }

  // With unique hashes, a hash identifies the block.
  lemma {:induction false} SameHashSameBlock(ts: seq<BlockTree>, a: Block, b: Block)
    requires UniqueHashes(ts) && a in Blocks(ts) && b in Blocks(ts) && a.Hash() == b.Hash()
    ensures a == b
  {
    if a != b {
      TwoBlocksTwoHashes(ts, a, b);
    }
  }

  lemma {:induction false} TwoBlocksTwoHashes(ts: seq<BlockTree>, a: Block, b: Block)
    requires a != b && a.Hash() == b.Hash()
    ensures Blocks(ts)[a] + Blocks(ts)[b] <= Count(ts, a.Hash())
  {
    if ts == [] {
    } else {
      TwoBlocksTwoHashes(ts[0].children, a, b);
      TwoBlocksTwoHashes(ts[1..], a, b);
    }
  }

  // A block of a linked forest is a root, or its parent is in the forest too.
  lemma {:induction false} RootOrChild(ts: seq<BlockTree>, b: Block)
    requires Linked(ts) && b in Blocks(ts)
    ensures Has(ts, b.Prev()) || exists i :: 0 <= i < |ts| && ts[i].root == b
  {
    if b == ts[0].root {
    } else if b in Blocks(ts[0].children) {
      RootOrChild(ts[0].children, b);
    } else {
      RootOrChild(ts[1..], b);
      if !Has(ts, b.Prev()) {
        var i :| 0 <= i < |ts[1..]| && ts[1..][i].root == b;
        assert ts[i + 1].root == b;
      }
    }
  }

  // In a linked forest whose roots follow `p`, every block ranks above `p`.
  lemma {:induction false} RanksAbove(ts: seq<BlockTree>, p: BlockHash, h: BlockHash, rank: BlockHash -> nat)
    requires Linked(ts) && RootsFollow(ts, p) && Ranked(ts, rank) && Has(ts, h)
    ensures rank(p) < rank(h)
  {
    var t := ts[0];
    assert t.root in Blocks(ts);
    if Has(t.children, h) {
      RanksAbove(t.children, t.root.Hash(), h, rank);
    } else if Has(ts[1..], h) {
      RanksAbove(ts[1..], p, h, rank);
    }
  }

  // ---- Operations on one tree ----

  /** Adds `sub` to the children of the first node, in preorder, whose hash is `h`. */
  function AddUnder(ts: seq<BlockTree>, h: BlockHash, sub: BlockTree): Option<seq<BlockTree>>
    decreases ts
  {
    if ts == [] then None
    else if ts[0].root.Hash() == h then
      Some([Node(ts[0].root, ts[0].children + [sub])] + ts[1..])
    else
      match AddUnder(ts[0].children, h, sub)
      case Some(cs) => Some([Node(ts[0].root, cs)] + ts[1..])
      case None =>
        match AddUnder(ts[1..], h, sub)
        case Some(rest) => Some([ts[0]] + rest)
        case None => None
  }

  // The node is found exactly when its hash is present; the forest then keeps its roots and
  // gains the blocks of `sub` and nothing else.
  lemma {:induction false} AddUnderCount(ts: seq<BlockTree>, h: BlockHash, sub: BlockTree, k: BlockHash)
    ensures AddUnder(ts, h, sub).Some? <==> Has(ts, h)
    ensures Has(ts, h) ==> Count(AddUnder(ts, h, sub).value, k) == Count(ts, k) + Count([sub], k)
  {
    if ts == [] {
    } else {
      AddUnderCount(ts[0].children, h, sub, k);
      AddUnderCount(ts[1..], h, sub, k);
      AppendCount(ts[0].children, [sub], k);
    }
  }

  lemma {:induction false} AddUnderBlocks(ts: seq<BlockTree>, h: BlockHash, sub: BlockTree)
    requires AddUnder(ts, h, sub).Some?
    ensures Blocks(AddUnder(ts, h, sub).value) == Blocks(ts) + Blocks([sub])
  {
    AppendBlocks(ts[0].children, [sub]);
    if ts[0].root.Hash() != h {
      if AddUnder(ts[0].children, h, sub).Some? {
        AddUnderBlocks(ts[0].children, h, sub);
      } else {
        AddUnderBlocks(ts[1..], h, sub);
      }
    }
  }

  lemma {:induction false} AddUnderRoots(ts: seq<BlockTree>, h: BlockHash, sub: BlockTree)
    requires AddUnder(ts, h, sub).Some?
    ensures var r := AddUnder(ts, h, sub).value;
            |r| == |ts| && forall i | 0 <= i < |ts| :: r[i].root == ts[i].root
  {
    if ts[0].root.Hash() != h && AddUnder(ts[0].children, h, sub).None? {
      AddUnderRoots(ts[1..], h, sub);
    }
  }

  lemma {:induction false} AddUnderLinked(ts: seq<BlockTree>, h: BlockHash, sub: BlockTree)
    requires AddUnder(ts, h, sub).Some? && Linked(ts) && Linked([sub]) && sub.root.Prev() == h
    ensures Linked(AddUnder(ts, h, sub).value)
  {
    var r := AddUnder(ts, h, sub).value;
    if ts[0].root.Hash() == h {
      AppendLinked(ts[0].children, [sub]);
      assert r[1..] == ts[1..];
    } else if AddUnder(ts[0].children, h, sub).Some? {
      AddUnderLinked(ts[0].children, h, sub);
      AddUnderRoots(ts[0].children, h, sub);
      assert r[1..] == ts[1..];
    } else {
      AddUnderLinked(ts[1..], h, sub);
      assert r[1..] == AddUnder(ts[1..], h, sub).value;
    }
  }

  // Adding a bare block and then hanging a tree below it is the same as adding it with the
  // tree already below it.
  lemma {:induction false} AddUnderTwice(ts: seq<BlockTree>, h: BlockHash, b: Block, sub: BlockTree)
    requires AddUnder(ts, h, Node(b, [])).Some? && !Has(ts, b.Hash())
    ensures AddUnder(AddUnder(ts, h, Node(b, [])).value, b.Hash(), sub) == AddUnder(ts, h, Node(b, [sub]))
  {
    var r := AddUnder(ts, h, Node(b, [])).value;
    if ts[0].root.Hash() == h {
      AddUnderAtEnd(ts[0].children, b, sub);
      assert r[1..] == ts[1..];
    } else if AddUnder(ts[0].children, h, Node(b, [])).Some? {
      AddUnderTwice(ts[0].children, h, b, sub);
      AddUnderCount(ts[0].children, h, Node(b, []), b.Hash());
      AddUnderCount(ts[0].children, h, Node(b, [sub]), b.Hash());
      assert r[1..] == ts[1..];
    } else {
      AddUnderTwice(ts[1..], h, b, sub);
      AddUnderCount(ts[0].children, b.Hash(), sub, b.Hash());
      AddUnderCount(ts[0].children, h, Node(b, []), b.Hash());
      AddUnderCount(ts[0].children, h, Node(b, [sub]), b.Hash());
      assert r[1..] == AddUnder(ts[1..], h, Node(b, [])).value;
    }
  }

  lemma {:induction false} AddUnderAtEnd(ts: seq<BlockTree>, b: Block, sub: BlockTree)
    requires !Has(ts, b.Hash())
    ensures AddUnder(ts + [Node(b, [])], b.Hash(), sub) == Some(ts + [Node(b, [sub])])
  {
    var r := ts + [Node(b, [])];
    if ts == [] {
      assert r[0].children + [sub] == [sub];
      assert [Node(b, [sub])] + r[1..] == ts + [Node(b, [sub])];
    } else {
      AddUnderCount(ts[0].children, b.Hash(), sub, b.Hash());
      AddUnderAtEnd(ts[1..], b, sub);
      assert r[1..] == ts[1..] + [Node(b, [])];
      assert [ts[0]] + (ts[1..] + [Node(b, [sub])]) == ts + [Node(b, [sub])];
    }
  }
}
