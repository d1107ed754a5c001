/** The "current" chain of a forest: what all its longest root-to-leaf paths agree on. Three
    views of it are proved equal: the enumeration of paths that the canister performs, the
    longest common prefix of the longest paths, and a descent by depth. */
module CurrentChain {
  import opened Bitcoin
  import opened BlockTrees

  // ---- The enumeration ----

  ghost function MaxLength(ps: seq<seq<Block>>): nat {
    if ps == [] then 0 else Max(|ps[0]|, MaxLength(ps[1..]))
  }

  ghost function OfLength(ps: seq<seq<Block>>, n: nat): seq<seq<Block>> {
    if ps == [] then []
    else if |ps[0]| == n then [ps[0]] + OfLength(ps[1..], n)
    else OfLength(ps[1..], n)
  }

  // Whether all paths have a block with the same hash at index `k`.
  ghost predicate AgreeAt(ps: seq<seq<Block>>, k: nat)
    requires ps != [] && k < |ps[0]|
  {
    forall p: seq<Block> | p in ps :: k < |p| && p[k].Hash() == ps[0][k].Hash()
  }

  // The blocks of the first path from index `k` up to the first disagreement.
  ghost function Agreed(ps: seq<seq<Block>>, k: nat): seq<Block>
    requires ps != []
    decreases |ps[0]| - k
  {
    if k < |ps[0]| && AgreeAt(ps, k) then [ps[0][k]] + Agreed(ps, k + 1) else []
  }

  ghost function AgreedByLongest(ps: seq<seq<Block>>): seq<Block> {
    var longest := OfLength(ps, MaxLength(ps));
    if longest == [] then [] else Agreed(longest, 0)
  }

  // The trees whose root follows the anchor.
  function Attached(ts: seq<BlockTree>, anchor: BlockHash): seq<BlockTree> {
    if ts == [] then []
    else if ts[0].root.Prev() == anchor then [ts[0]] + Attached(ts[1..], anchor)
    else Attached(ts[1..], anchor)
  }

  function Detached(ts: seq<BlockTree>, anchor: BlockHash): seq<BlockTree> {
    if ts == [] then []
    else if ts[0].root.Prev() == anchor then Detached(ts[1..], anchor)
    else [ts[0]] + Detached(ts[1..], anchor)
  }

  ghost function Chain(ts: seq<BlockTree>, anchor: BlockHash): seq<Block> {
    AgreedByLongest(Paths(Attached(ts, anchor)))
  }

  // ---- The specification ----

  ghost predicate Longest(ps: seq<seq<Block>>, p: seq<Block>) {
    p in ps && forall q | q in ps :: |q| <= |p|
  }

  ghost predicate CommonPrefix(ps: seq<seq<Block>>, c: seq<Block>) {
    forall p | Longest(ps, p) :: c <= p
  }

  // `c` is the longest sequence of blocks that every longest path starts with.
  ghost predicate IsCurrentChain(ps: seq<seq<Block>>, c: seq<Block>) {
    if ps == [] then c == []
    else CommonPrefix(ps, c) && forall d | CommonPrefix(ps, d) :: |d| <= |c|
  }

  lemma {:induction false} SomeLongest(ps: seq<seq<Block>>) returns (p: seq<Block>)
    requires ps != []
    ensures Longest(ps, p) && |p| == MaxLength(ps)
  {
    p := ps[0];
    if ps[1..] != [] {
      var q := SomeLongest(ps[1..]);
      if |p| < |q| {
        p := q;
      }
    }
  }

  lemma {:induction false} CurrentChainUnique(ps: seq<seq<Block>>, c: seq<Block>, d: seq<Block>)
    requires IsCurrentChain(ps, c) && IsCurrentChain(ps, d)
    ensures c == d
  {
    if ps != [] {
      var p := SomeLongest(ps);
      assert c == p[..|c|] && d == p[..|d|];
    }
  }

  // The specification depends on the set of paths, not on their order or repetition.
  lemma {:induction false} SamePathsSameChain(ps: seq<seq<Block>>, qs: seq<seq<Block>>, c: seq<Block>)
    requires forall p :: p in ps <==> p in qs
    requires IsCurrentChain(ps, c)
    ensures IsCurrentChain(qs, c)
  {
    assert ps == [] <==> qs == [] by {
      if ps != [] { assert ps[0] in qs; }
      if qs != [] { assert qs[0] in ps; }
    }
    assert forall p :: Longest(ps, p) <==> Longest(qs, p);
    assert forall d :: CommonPrefix(ps, d) <==> CommonPrefix(qs, d);
  }

  // ---- The descent ----

  // The i-th tree is strictly deeper than every other.
  ghost predicate UniqueDeepest(ts: seq<BlockTree>, i: nat) {
    i < |ts| && forall j | 0 <= j < |ts| && j != i :: Depth(ts[j]) < Depth(ts[i])
  }

  // Follows the unique deepest tree, and stops at a tie.
  ghost function Descend(ts: seq<BlockTree>): seq<Block>
    decreases ts
  {
    if i: nat :| UniqueDeepest(ts, i) then [ts[i].root] + Descend(ts[i].children) else []
  }

  // ---- Paths of a forest ----

  lemma {:induction false} PathsEmpty(ts: seq<BlockTree>)
    ensures Paths(ts) == [] <==> ts == []
  {
    if ts == [] {
    } else {
      PathsEmpty(ts[0].children);
      assert PathsOf(ts[0].root, Paths(ts[0].children)) != [];
    }
  }

  // `p` runs from the root of `t` to one of its leaves.
  ghost predicate OnTree(t: BlockTree, p: seq<Block>) {
    p != [] && p[0] == t.root && if t.children == [] then |p| == 1 else p[1..] in Paths(t.children)
  }

  lemma {:induction false} PathOfTree(t: BlockTree, p: seq<Block>)
    ensures p in PathsOf(t.root, Paths(t.children)) <==> OnTree(t, p)
  {
    PathsEmpty(t.children);
    var below := Paths(t.children);
    if p in PathsOf(t.root, below) && below != [] {
      var i :| 0 <= i < |below| && PrependAll(t.root, below)[i] == p;
      assert p[1..] == below[i];
    }
    if OnTree(t, p) {
      assert p == [t.root] + p[1..];
      if below == [] {
        assert p == [t.root];
      } else {
        var i :| 0 <= i < |below| && below[i] == p[1..];
        assert PrependAll(t.root, below)[i] == p;
      }
    }
  }

  lemma {:induction false} PathOnSomeTree(ts: seq<BlockTree>, p: seq<Block>)
    ensures p in Paths(ts) <==> exists i :: 0 <= i < |ts| && OnTree(ts[i], p)
  {
    if ts == [] {
    } else {
      PathOfTree(ts[0], p);
      PathOnSomeTree(ts[1..], p);
      if i :| 0 <= i < |ts| && OnTree(ts[i], p) {
        assert i > 0 ==> ts[1..][i - 1] == ts[i];
      }
      if i :| 0 <= i < |ts[1..]| && OnTree(ts[1..][i], p) {
        assert ts[i + 1] == ts[1..][i];
      }
    }
  }

  lemma {:induction false} PathsWithin(ts: seq<BlockTree>, p: seq<Block>)
    requires p in Paths(ts)
    ensures 1 <= |p| <= Height(ts)
    ensures forall b | b in p :: b in Blocks(ts)
  {
    PathOfTree(ts[0], p);
    if OnTree(ts[0], p) {
      if ts[0].children != [] {
        PathsWithin(ts[0].children, p[1..]);
      }
      assert p == [p[0]] + p[1..];
    } else {
      PathsWithin(ts[1..], p);
    }
  }

  lemma {:induction false} PathOfHeight(ts: seq<BlockTree>) returns (p: seq<Block>)
    requires ts != []
    ensures p in Paths(ts) && |p| == Height(ts)
  {
    if ts[1..] != [] && 1 + Depth(ts[0]) < Height(ts[1..]) {
      p := PathOfHeight(ts[1..]);
    } else {
      if ts[0].children == [] {
        p := [ts[0].root];
      } else {
        var q := PathOfHeight(ts[0].children);
        p := [ts[0].root] + q;
        assert p[1..] == q;
      }
      PathOfTree(ts[0], p);
    }
  }

  // A longest path has one block more than the depth of the deepest tree.
  lemma {:induction false} LongestIsHeight(ts: seq<BlockTree>)
    requires ts != []
    ensures forall p :: Longest(Paths(ts), p) <==> p in Paths(ts) && |p| == Height(ts)
    ensures MaxLength(Paths(ts)) == Height(ts)
  {
    PathsEmpty(ts);
    var w := PathOfHeight(ts);
    forall p | p in Paths(ts) ensures |p| <= Height(ts) {
      PathsWithin(ts, p);
    }
    var m := SomeLongest(Paths(ts));
  }

  lemma {:induction false} HeightBounds(ts: seq<BlockTree>, j: nat)
    requires j < |ts|
    ensures 1 + Depth(ts[j]) <= Height(ts)
  {
    if j == 0 {
    } else {
      HeightBounds(ts[1..], j - 1);
    }
  }

  lemma {:induction false} SomeDeepest(ts: seq<BlockTree>) returns (i: nat)
    requires ts != []
    ensures i < |ts| && 1 + Depth(ts[i]) == Height(ts)
  {
    i := 0;
    if ts[1..] != [] && 1 + Depth(ts[0]) < Height(ts[1..]) {
      i := SomeDeepest(ts[1..]);
      i := i + 1;
    }
  }

  // A longest path of one of the deepest trees.
  lemma {:induction false} PathOfDeepest(ts: seq<BlockTree>, i: nat) returns (p: seq<Block>)
    requires i < |ts| && 1 + Depth(ts[i]) == Height(ts)
    ensures Longest(Paths(ts), p) && p[0] == ts[i].root
  {
    if ts[i].children == [] {
      p := [ts[i].root];
    } else {
      var q := PathOfHeight(ts[i].children);
      p := [ts[i].root] + q;
      assert p[1..] == q;
    }
    assert OnTree(ts[i], p);
    PathOnSomeTree(ts, p);
    LongestIsHeight(ts);
  }

  // ---- The descent meets the specification ----

  // No two trees of the forest share their root block.
  lemma {:induction false} RootsDiffer(ts: seq<BlockTree>, i: nat, j: nat)
    requires UniqueHashes(ts) && i < j < |ts|
    ensures ts[i].root.Hash() != ts[j].root.Hash()
  {
    var h := ts[i].root.Hash();
    var rest := Without(ts, i);
    SplitCount(ts, i, h);
    Single(ts[i], h);
    assert rest[j - 1] == ts[j];
    SplitCount(rest, j - 1, h);
    Single(ts[j], h);
    assert Count(ts, h) <= 1;
  }

  lemma {:induction false} UniqueBelow(ts: seq<BlockTree>, i: nat)
    requires UniqueHashes(ts) && i < |ts|
    ensures UniqueHashes(ts[i].children)
  {
    forall h ensures Count(ts[i].children, h) <= 1 {
      SplitCount(ts, i, h);
      Single(ts[i], h);
      assert Count(ts, h) <= 1;
    }
  }

  // When one tree is strictly deepest, the longest paths are those through its root.
  lemma {:induction false} LongestThroughDeepest(ts: seq<BlockTree>, i: nat, p: seq<Block>)
    requires UniqueDeepest(ts, i)
    ensures Longest(Paths(ts), p) <==>
            p != [] && p[0] == ts[i].root &&
            if ts[i].children == [] then |p| == 1 else Longest(Paths(ts[i].children), p[1..])
  {
    var m := SomeDeepest(ts);
    HeightBounds(ts, i);
    assert m == i;
    LongestIsHeight(ts);
    if ts[i].children != [] {
      LongestIsHeight(ts[i].children);
    }
    PathOnSomeTree(ts, p);
    if Longest(Paths(ts), p) {
      var j :| 0 <= j < |ts| && OnTree(ts[j], p);
      if ts[j].children != [] {
        PathsWithin(ts[j].children, p[1..]);
      }
      assert |p| <= 1 + Depth(ts[j]);
      assert j == i;
    }
  }

  lemma {:induction false} DescendIsCurrentChain(ts: seq<BlockTree>)
    requires UniqueHashes(ts)
    ensures IsCurrentChain(Paths(ts), Descend(ts))
    decreases ts
  {
    PathsEmpty(ts);
    if i: nat :| UniqueDeepest(ts, i) {
      DeepestUnique(ts, i);
      UniqueBelow(ts, i);
      DescendIsCurrentChain(ts[i].children);
      DescendStep(ts, i);
    } else if ts != [] {
      var i := SomeDeepest(ts);
      assert !UniqueDeepest(ts, i);
      var j :| 0 <= j < |ts| && j != i && !(Depth(ts[j]) < Depth(ts[i]));
      HeightBounds(ts, j);
      RootsDiffer(ts, if i < j then i else j, if i < j then j else i);
      var p := PathOfDeepest(ts, i);
      var q := PathOfDeepest(ts, j);
      forall d | CommonPrefix(Paths(ts), d) ensures d == [] {
        assert d <= p && d <= q;
      }
    }
  }

  lemma {:induction false} DeepestUnique(ts: seq<BlockTree>, i: nat)
    requires UniqueDeepest(ts, i)
    ensures Descend(ts) == [ts[i].root] + Descend(ts[i].children)
  {
    forall j: nat | UniqueDeepest(ts, j) ensures j == i {
      var dj, di := Depth(ts[j]), Depth(ts[i]);
      assert j != i ==> dj < di;
      assert j != i ==> di < dj;
    }
  }

  lemma {:induction false} DescendStep(ts: seq<BlockTree>, i: nat)
    requires UniqueDeepest(ts, i)
    requires IsCurrentChain(Paths(ts[i].children), Descend(ts[i].children))
    ensures IsCurrentChain(Paths(ts), [ts[i].root] + Descend(ts[i].children))
  {
    var root, below := ts[i].root, ts[i].children;
    var c := [root] + Descend(below);
    PathsEmpty(ts);
    PathsEmpty(below);
    forall p | Longest(Paths(ts), p) ensures c <= p {
      LongestThroughDeepest(ts, i, p);
      PrefixCons(Descend(below), p, root);
    }
    forall d | CommonPrefix(Paths(ts), d) ensures |d| <= |c| {
      CommonPrefixBelow(ts, i, d);
    }
  }

  lemma {:induction false} PrefixCons(c: seq<Block>, p: seq<Block>, b: Block)
    requires p != [] && p[0] == b && c <= p[1..]
    ensures [b] + c <= p
  {
    assert p == ([b] + c) + p[1..][|c|..];
  }

  lemma {:induction false} PrefixTail(d: seq<Block>, q: seq<Block>, b: Block)
    requires d != [] && d <= [b] + q
    ensures d[1..] <= q
  {
    assert ([b] + q)[1..] == q;
    assert ([b] + q)[..|d|][1..] == ([b] + q)[1..][..|d| - 1];
  }

  // A longest path of the unique deepest tree's children, continued up to its root.
  lemma {:induction false} LongestCons(ts: seq<BlockTree>, i: nat, q: seq<Block>)
    requires UniqueDeepest(ts, i)
    requires if ts[i].children == [] then q == [] else Longest(Paths(ts[i].children), q)
    ensures Longest(Paths(ts), [ts[i].root] + q)
  {
    assert ([ts[i].root] + q)[1..] == q;
    LongestThroughDeepest(ts, i, [ts[i].root] + q);
  }

  lemma {:induction false} CommonPrefixBelow(ts: seq<BlockTree>, i: nat, d: seq<Block>)
    requires UniqueDeepest(ts, i)
    requires CommonPrefix(Paths(ts), d)
    ensures if ts[i].children == [] then |d| <= 1
            else d != [] ==> CommonPrefix(Paths(ts[i].children), d[1..])
  {
    var root, below := ts[i].root, Paths(ts[i].children);
    if ts[i].children == [] {
      LongestCons(ts, i, []);
    } else if d != [] {
      forall q | Longest(below, q) ensures d[1..] <= q {
        LongestCons(ts, i, q);
        PrefixTail(d, q, root);
      }
    }
  }

  // ---- The enumeration meets the specification ----

  lemma {:induction false} OfLengthMembers(ps: seq<seq<Block>>, n: nat)
    ensures forall p :: p in OfLength(ps, n) <==> p in ps && |p| == n
  {
    if ps == [] {
    } else {
      OfLengthMembers(ps[1..], n);
    }
  }

  lemma {:induction false} MaxLengthBounds(ps: seq<seq<Block>>)
    ensures forall p | p in ps :: |p| <= MaxLength(ps)
  {
    if ps == [] {
    } else {
      MaxLengthBounds(ps[1..]);
    }
  }

  lemma {:induction false} AgreedExtent(ps: seq<seq<Block>>, k: nat)
    requires ps != [] && k <= |ps[0]|
    ensures var n := k + |Agreed(ps, k)|;
            && n <= |ps[0]| && Agreed(ps, k) == ps[0][k..n]
            && (forall j | k <= j < n :: AgreeAt(ps, j))
            && (n < |ps[0]| ==> !AgreeAt(ps, n))
    decreases |ps[0]| - k
  {
    if k < |ps[0]| && AgreeAt(ps, k) {
      AgreedExtent(ps, k + 1);
      assert ps[0][k..] == [ps[0][k]] + ps[0][k + 1..];
    }
  }

  // No hash stands for two different blocks of the paths.
  ghost predicate HashesIdentify(ps: seq<seq<Block>>) {
    forall p: seq<Block>, q: seq<Block>, i, j | p in ps && q in ps && 0 <= i < |p| && 0 <= j < |q| ::
      p[i].Hash() == q[j].Hash() ==> p[i] == q[j]
  }

  // Then comparing hashes is as good as comparing blocks.
  lemma {:induction false} AgreedIsCurrentChain(ps: seq<seq<Block>>)
    requires HashesIdentify(ps)
    ensures IsCurrentChain(ps, AgreedByLongest(ps))
  {
    if ps != [] {
      var longest := OfLength(ps, MaxLength(ps));
      OfLengthMembers(ps, MaxLength(ps));
      MaxLengthBounds(ps);
      var w := SomeLongest(ps);
      assert w in longest;
      assert longest[0] in longest;
      var c := Agreed(longest, 0);
      forall p | p in longest ensures Longest(ps, p) {}
      forall p | Longest(ps, p) ensures c <= p {
        AgreedIsPrefix(ps, longest, p);
      }
      forall d | CommonPrefix(ps, d) ensures |d| <= |c| {
        AgreedIsLongestPrefix(ps, longest, d);
      }
    }
  }

  lemma {:induction false} AgreedIsLongestPrefix(ps: seq<seq<Block>>, longest: seq<seq<Block>>, d: seq<Block>)
    requires longest != [] && (forall p | p in longest :: Longest(ps, p)) && CommonPrefix(ps, d)
    ensures |d| <= |Agreed(longest, 0)|
  {
    if |Agreed(longest, 0)| < |d| {
      AgreeWithin(ps, longest, d, |Agreed(longest, 0)|);
    }
    AgreedExtent(longest, 0);
  }

  lemma {:induction false} AgreeWithin(ps: seq<seq<Block>>, longest: seq<seq<Block>>, d: seq<Block>, n: nat)
    requires longest != [] && (forall p | p in longest :: Longest(ps, p)) && CommonPrefix(ps, d) && n < |d|
    ensures n < |longest[0]| && AgreeAt(longest, n)
  {
    assert longest[0] in longest;
    assert d <= longest[0];
    forall p: seq<Block> | p in longest ensures n < |p| && p[n].Hash() == longest[0][n].Hash() {
      assert d <= p;
      assert p[n] == d[n] == longest[0][n];
    }
  }

  lemma {:induction false} AgreedIsPrefix(ps: seq<seq<Block>>, longest: seq<seq<Block>>, p: seq<Block>)
    requires HashesIdentify(ps) && p in longest && forall q | q in longest :: q in ps
    ensures Agreed(longest, 0) <= p
  {
    var c, first := Agreed(longest, 0), longest[0];
    AgreedExtent(longest, 0);
    assert first in ps;
    forall k | 0 <= k < |c| ensures k < |p| && p[k] == c[k] {
      assert AgreeAt(longest, k);
      assert c[k] == first[k];
    }
    assert |p| < |c| ==> AgreeAt(longest, |p|);
    assert c == p[..|c|];
  }

  // ---- The three views agree ----

  lemma {:induction false} UniqueHashesIdentify(ts: seq<BlockTree>)
    requires UniqueHashes(ts)
    ensures HashesIdentify(Paths(ts))
  {
    var ps := Paths(ts);
    forall p: seq<Block>, q: seq<Block>, i, j
      | p in ps && q in ps && 0 <= i < |p| && 0 <= j < |q| && p[i].Hash() == q[j].Hash()
      ensures p[i] == q[j]
    {
      PathsWithin(ts, p);
      PathsWithin(ts, q);
      SameHashSameBlock(ts, p[i], q[j]);
    }
  }

  // Enumerating all paths and intersecting the longest gives the longest common prefix of the
  // longest paths, and so does following the unique deepest tree until a tie.
  lemma {:induction false} ChainIsDescent(ts: seq<BlockTree>)
    requires UniqueHashes(ts)
    ensures IsCurrentChain(Paths(ts), AgreedByLongest(Paths(ts)))
    ensures AgreedByLongest(Paths(ts)) == Descend(ts)
  {
    UniqueHashesIdentify(ts);
    AgreedIsCurrentChain(Paths(ts));
    DescendIsCurrentChain(ts);
    CurrentChainUnique(Paths(ts), AgreedByLongest(Paths(ts)), Descend(ts));
  }
}
