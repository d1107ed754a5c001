/** The canister's walks over one block tree: loops over the children with a local
    accumulator, and a recursive call for each child. */
module TreeWalks {
  import opened Bitcoin
  import opened BlockTrees
  import opened CurrentChain
  import opened ForestSteps

  lemma {:induction false} Snoc(ts: seq<BlockTree>, i: nat, h: BlockHash)
    requires i < |ts|
    ensures ts[..i + 1] == ts[..i] + [ts[i]]
    ensures Height(ts[..i + 1]) == Max(Height(ts[..i]), 1 + Depth(ts[i]))
    ensures Count(ts[..i + 1], h) == Count(ts[..i], h) + Count([ts[i]], h)
    ensures Paths(ts[..i + 1]) == Paths(ts[..i]) + Paths([ts[i]])
  {
    assert ts[..i + 1] == ts[..i] + [ts[i]];
    AppendHeight(ts[..i], [ts[i]]);
    AppendCount(ts[..i], [ts[i]], h);
    AppendPaths(ts[..i], [ts[i]]);
    Single(ts[i], h);
  }

  lemma {:induction false} All(ts: seq<BlockTree>)
    ensures ts[..|ts|] == ts
  {
  }

  /** The depth of a tree. */
  method ComputeDepth(t: BlockTree) returns (depth: nat)
    ensures depth == Depth(t)
    decreases t
  {
    if t.children == [] {
      return 0;
    }
    depth := 0;
    for i := 0 to |t.children|
      invariant depth == Height(t.children[..i])
    {
      var d := ComputeDepth(t.children[i]);
      Snoc(t.children, i, 0);
      depth := if depth < 1 + d then 1 + d else depth;
    }
    All(t.children);
  }

  /** Whether a block with the hash of `b` is in the tree. */
  method Contains(t: BlockTree, b: Block) returns (found: bool)
    ensures found <==> Has([t], b.Hash())
    decreases t
  {
    Single(t, b.Hash());
    if t.root.Hash() == b.Hash() {
      return true;
    }
    for i := 0 to |t.children|
      invariant !Has(t.children[..i], b.Hash())
    {
      var inChild := Contains(t.children[i], b);
      Snoc(t.children, i, b.Hash());
      if inChild {
        assert t.children == t.children[..i + 1] + t.children[i + 1..];
        AppendCount(t.children[..i + 1], t.children[i + 1..], b.Hash());
        return true;
      }
    }
    All(t.children);
    return false;
  }

  lemma {:induction false} PrependAllAppend(b: Block, ps: seq<seq<Block>>, qs: seq<seq<Block>>)
    ensures PrependAll(b, ps + qs) == PrependAll(b, ps) + PrependAll(b, qs)
  {
  }

  /** All the blockchains of the tree, from its root to its tips. */
  method Blockchains(t: BlockTree) returns (chains: seq<seq<Block>>)
    ensures chains == Paths([t])
    decreases t
  {
    assert Paths([t]) == PathsOf(t.root, Paths(t.children)) by {
      assert [t][1..] == [];
      assert PathsOf(t.root, Paths(t.children)) + [] == PathsOf(t.root, Paths(t.children));
    }
    PathsEmpty(t.children);
    if t.children == [] {
      return [[t.root]];
    }
    chains := [];
    for i := 0 to |t.children|
      invariant chains == PrependAll(t.root, Paths(t.children[..i]))
    {
      var below := Blockchains(t.children[i]);
      Snoc(t.children, i, 0);
      PrependAllAppend(t.root, Paths(t.children[..i]), below);
      chains := chains + seq(|below|, j requires 0 <= j < |below| => [t.root] + below[j]);
    }
    All(t.children);
  }

  lemma {:induction false} AddUnderSingle(t: BlockTree, h: BlockHash, sub: BlockTree)
    ensures AddUnder([t], h, sub) ==
            if t.root.Hash() == h then Some([Node(t.root, t.children + [sub])])
            else match AddUnder(t.children, h, sub)
              case Some(cs) => Some([Node(t.root, cs)])
              case None => None
  {
    assert [t][1..] == [];
    assert [Node(t.root, t.children + [sub])] + [] == [Node(t.root, t.children + [sub])];
    match AddUnder(t.children, h, sub) {
      case Some(cs) => assert [Node(t.root, cs)] + [] == [Node(t.root, cs)];
      case None =>
    }
  }

  // When no tree before the i-th has the hash, the child is hung within the i-th.
  lemma {:induction false} AddUnderAt(ts: seq<BlockTree>, i: nat, h: BlockHash, sub: BlockTree, r: BlockTree)
    requires i < |ts| && !Has(ts[..i], h) && AddUnder([ts[i]], h, sub) == Some([r])
    ensures AddUnder(ts, h, sub) == Some(ts[i := r])
  {
    AddUnderSingle(ts[0], h, sub);
    if i == 0 {
      assert ts[0 := r] == [r] + ts[1..];
    } else {
      var before := ts[..i];
      assert before[0] == ts[0] && before[1..] == ts[1..][..i - 1];
      AddUnderCount(ts[0].children, h, sub, h);
      AddUnderAt(ts[1..], i - 1, h, sub, r);
      assert [ts[0]] + ts[1..][i - 1 := r] == ts[i := r];
    }
  }

  /** Finds the first node with hash `h` and pushes `sub` onto its children. */
  method PushChild(t: BlockTree, h: BlockHash, sub: BlockTree) returns (r: Option<BlockTree>)
    ensures match r
            case Some(u) => AddUnder([t], h, sub) == Some([u])
            case None => AddUnder([t], h, sub) == None && !Has([t], h)
    decreases t
  {
    AddUnderSingle(t, h, sub);
    Single(t, h);
    if t.root.Hash() == h {
      return Some(Node(t.root, t.children + [sub]));
    }
    for i := 0 to |t.children|
      invariant !Has(t.children[..i], h)
    {
      var inChild := PushChild(t.children[i], h, sub);
      if inChild.Some? {
        AddUnderAt(t.children, i, h, sub, inChild.value);
        return Some(Node(t.root, t.children[i := inChild.value]));
      }
      Snoc(t.children, i, h);
    }
    All(t.children);
    AddUnderCount(t.children, h, sub, h);
    return None;
  }

  /** Extends the tree with a block that it has already or that follows one of its blocks;
      `None` means that the block is not part of the tree. */
  method Extend(t: BlockTree, b: Block) returns (r: Option<BlockTree>)
    ensures Has([t], b.Hash()) ==> r == Some(t)
    ensures !Has([t], b.Hash()) ==>
              match r
              case Some(u) => AddUnder([t], b.Prev(), Node(b, [])) == Some([u])
              case None => AddUnder([t], b.Prev(), Node(b, [])) == None
  {
    var present := Contains(t, b);
    if present {
      return Some(t);
    }
    r := PushChild(t, b.Prev(), Node(b, []));
  }

  /** Extends the tree with a block and hangs the tree that waited for the block below it. */
  method ExtendAndHang(t: BlockTree, b: Block, successor: Option<BlockTree>) returns (r: Option<BlockTree>)
    ensures AttachOne(t, b, if successor.Some? then [successor.value] else []) ==
            if r.Some? then Some([r.value]) else None
  {
    r := Extend(t, b);
    AddUnderCount([t], b.Prev(), Node(b, []), b.Hash());
    AddUnderCount([t], b.Prev(), Node(b, if successor.Some? then [successor.value] else []), b.Hash());
    if r.Some? && successor.Some? {
      ExtendThenHang(t, b, r.value, successor.value);
      r := PushChild(r.value, b.Hash(), successor.value);
    }
  }

  // Extending a tree by a block and then hanging a tree below the block.
  lemma {:induction false} ExtendThenHang(t: BlockTree, b: Block, u: BlockTree, sub: BlockTree)
    requires if Has([t], b.Hash()) then u == t else AddUnder([t], b.Prev(), Node(b, [])) == Some([u])
    ensures Has([u], b.Hash()) && AddUnder([u], b.Hash(), sub).Some?
    ensures AttachOne(t, b, [sub]) == AddUnder([u], b.Hash(), sub)
  {
    if !Has([t], b.Hash()) {
      AddUnderTwice([t], b.Prev(), b, sub);
      AddUnderCount([t], b.Prev(), Node(b, []), b.Hash());
      Single(Node(b, []), b.Hash());
    }
    AddUnderCount([u], b.Hash(), sub, b.Hash());
  }

  /** The length of the longest of the blockchains. */
  method LongestLength(chains: seq<seq<Block>>) returns (n: nat)
    ensures n == MaxLength(chains)
  {
    n := 0;
    for i := 0 to |chains|
      invariant n == MaxLength(chains[..i])
    {
      MaxLengthSnoc(chains, i);
      n := if n < |chains[i]| then |chains[i]| else n;
    }
    assert chains[..|chains|] == chains;
  }

  /** The blockchains of the given length. */
  method Filter(chains: seq<seq<Block>>, n: nat) returns (longest: seq<seq<Block>>)
    ensures longest == OfLength(chains, n)
  {
    longest := [];
    for i := 0 to |chains|
      invariant longest == OfLength(chains[..i], n)
    {
      OfLengthSnoc(chains, i, n);
      if |chains[i]| == n {
        longest := longest + [chains[i]];
      }
    }
    assert chains[..|chains|] == chains;
  }

  /** The blocks, from the first on, that all the blockchains of length `n` agree on. */
  method CommonBlocks(longest: seq<seq<Block>>, n: nat) returns (chain: seq<Block>)
    requires longest != [] && forall p | p in longest :: |p| == n
    ensures chain == Agreed(longest, 0)
  {
    chain := [];
    assert longest[0] in longest;
    for k := 0 to n
      invariant chain + Agreed(longest, k) == Agreed(longest, 0)
    {
      var block := longest[0][k];
      for j := 1 to |longest|
        invariant forall i | 0 <= i < j :: longest[i][k].Hash() == block.Hash()
      {
        assert longest[j] in longest;
        if longest[j][k].Hash() != block.Hash() {
          assert !AgreeAt(longest, k);
          return chain;
        }
      }
      assert AgreeAt(longest, k);
      chain := chain + [block];
    }
  }

  lemma {:induction false} MaxLengthAppend(ps: seq<seq<Block>>, qs: seq<seq<Block>>)
    ensures MaxLength(ps + qs) == Max(MaxLength(ps), MaxLength(qs))
  {
    if ps == [] {
      assert ps + qs == qs;
    } else {
      assert (ps + qs)[1..] == ps[1..] + qs;
      MaxLengthAppend(ps[1..], qs);
    }
  }

  lemma {:induction false} MaxLengthSnoc(ps: seq<seq<Block>>, i: nat)
    requires i < |ps|
    ensures MaxLength(ps[..i + 1]) == Max(MaxLength(ps[..i]), |ps[i]|)
  {
    assert ps[..i + 1] == ps[..i] + [ps[i]];
    MaxLengthAppend(ps[..i], [ps[i]]);
  }

  lemma {:induction false} OfLengthAppend(ps: seq<seq<Block>>, qs: seq<seq<Block>>, n: nat)
    ensures OfLength(ps + qs, n) == OfLength(ps, n) + OfLength(qs, n)
  {
    if ps == [] {
      assert ps + qs == qs;
    } else {
      assert (ps + qs)[1..] == ps[1..] + qs;
      OfLengthAppend(ps[1..], qs, n);
    }
  }

  lemma {:induction false} OfLengthSnoc(ps: seq<seq<Block>>, i: nat, n: nat)
    requires i < |ps|
    ensures OfLength(ps[..i + 1], n) == OfLength(ps[..i], n) + if |ps[i]| == n then [ps[i]] else []
  {
    assert ps[..i + 1] == ps[..i] + [ps[i]];
    OfLengthAppend(ps[..i], [ps[i]], n);
  }
}
