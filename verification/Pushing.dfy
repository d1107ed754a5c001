/** What one push keeps, of a new block or of one that is there already: the blocks, the links,
    and exactly which trees go on waiting. */
module Pushing {
  import opened Bitcoin
  import opened BlockTrees
  import opened CurrentChain
  import opened ForestSteps

  // ---- The tree that waits for the pushed block ----

  lemma {:induction false} FirstWaitingIsFirst(ts: seq<BlockTree>, h: BlockHash)
    ensures match FirstWaiting(ts, h)
            case Some(i) =>
              && ts[i].root.Prev() == h
              && Attached(ts, h) == [ts[i]] + Attached(Without(ts, i), h)
            case None => Attached(ts, h) == []
  {
    if ts == [] {
    } else {
      if ts[0].root.Prev() == h {
        assert Without(ts, 0) == ts[1..];
      } else {
        FirstWaitingIsFirst(ts[1..], h);
        if i :| FirstWaiting(ts[1..], h) == Some(i) {
          WithoutLater(ts, i);
        }
      }
    }
  }

  lemma {:induction false} RestCount(ts: seq<BlockTree>, h: BlockHash, k: BlockHash)
    ensures Count(ts, k) == Count(Rest(ts, h), k) + Count(Taken(ts, h), k)
  {
    if i :| FirstWaiting(ts, h) == Some(i) {
      SplitCount(ts, i, k);
    }
  }

  lemma {:induction false} RestBlocks(ts: seq<BlockTree>, h: BlockHash)
    ensures Blocks(ts) == Blocks(Rest(ts, h)) + Blocks(Taken(ts, h))
  {
    if i :| FirstWaiting(ts, h) == Some(i) {
      SplitBlocks(ts, i);
      Single(ts[i], h);
    }
  }

  lemma {:induction false} RestLinked(ts: seq<BlockTree>, h: BlockHash)
    ensures Linked(ts) <==> Linked(Rest(ts, h)) && Linked(Taken(ts, h))
  {
    if i :| FirstWaiting(ts, h) == Some(i) {
      SplitLinked(ts, i);
      Single(ts[i], h);
    }
  }

  lemma {:induction false} RestMembers(ts: seq<BlockTree>, h: BlockHash)
    ensures |Taken(ts, h)| <= 1 && RootsFollow(Taken(ts, h), h)
    ensures Waiting(Rest(ts, h), h) == Max(Waiting(ts, h), 1) - 1
    ensures forall t :: t in ts <==> t in Rest(ts, h) || t in Taken(ts, h)
  {
    FirstWaitingIsFirst(ts, h);
    if i :| FirstWaiting(ts, h) == Some(i) {
      assert ts == ts[..i] + [ts[i]] + ts[i + 1..];
    }
  }

  // ---- Attaching a fresh block ----

  lemma {:induction false} AttachCount(ts: seq<BlockTree>, b: Block, below: seq<BlockTree>, k: BlockHash)
    requires !Has(ts, b.Hash())
    ensures Count(Attach(ts, b, below), k) == Count(ts, k) + Count([Node(b, below)], k)
  {
    if ts == [] {
    } else {
      var t := Node(b, below);
      Single(ts[0], k);
      AttachFirst(ts, b, below);
      AddUnderCount([ts[0]], b.Prev(), t, k);
      match AddUnder([ts[0]], b.Prev(), t) {
        case Some(r) =>
          AppendCount(r, ts[1..], k);
        case None =>
          AttachCount(ts[1..], b, below, k);
          AppendCount([ts[0]], Attach(ts[1..], b, below), k);
      }
    }
  }

  lemma {:induction false} AttachFirst(ts: seq<BlockTree>, b: Block, below: seq<BlockTree>)
    requires ts != [] && !Has(ts, b.Hash())
    ensures !Has(ts[1..], b.Hash())
    ensures Attach(ts, b, below) ==
            match AddUnder([ts[0]], b.Prev(), Node(b, below))
            case Some(r) => r + ts[1..]
            case None => [ts[0]] + Attach(ts[1..], b, below)
  {
    Single(ts[0], b.Hash());
  }

  lemma {:induction false} AttachBlocks(ts: seq<BlockTree>, b: Block, below: seq<BlockTree>)
    requires !Has(ts, b.Hash())
    ensures Blocks(Attach(ts, b, below)) == Blocks(ts) + Blocks([Node(b, below)])
  {
    forall x ensures Blocks(Attach(ts, b, below))[x] == Blocks(ts)[x] + Blocks([Node(b, below)])[x] {
      AttachBlock(ts, b, below, x);
    }
  }

  lemma {:induction false} AttachBlock(ts: seq<BlockTree>, b: Block, below: seq<BlockTree>, x: Block)
    requires !Has(ts, b.Hash())
    ensures Blocks(Attach(ts, b, below))[x] == Blocks(ts)[x] + Blocks([Node(b, below)])[x]
  {
    if ts == [] {
    } else {
      var t := Node(b, below);
      AttachFirst(ts, b, below);
      assert ts == [ts[0]] + ts[1..];
      FirstBlocks(ts[0], ts[1..], x);
      match AddUnder([ts[0]], b.Prev(), t) {
        case Some(r) =>
          AddUnderBlocks([ts[0]], b.Prev(), t);
          AppendBlocks(r, ts[1..]);
        case None =>
          AttachBlock(ts[1..], b, below, x);
          FirstBlocks(ts[0], Attach(ts[1..], b, below), x);
      }
    }
  }

  // ---- Attaching any block ----

  // Some tree has the block or its predecessor.
  ghost predicate Takes(ts: seq<BlockTree>, b: Block) {
    Has(ts, b.Hash()) || Has(ts, b.Prev())
  }

  // A tree takes the block if and only if it has the block or its predecessor; it then keeps
  // its root, and holds what it held, the block, and what hangs from it.
  lemma {:induction false} AttachOneTakes(t: BlockTree, b: Block, below: seq<BlockTree>, k: BlockHash)
    requires |below| <= 1
    ensures match AttachOne(t, b, below)
            case Some(r) =>
              && Takes([t], b) && |r| == 1 && r[0].root == t.root
              && (Has(r, k) <==> Has([t], k) || k == b.Hash() || Has(below, k))
            case None => !Takes([t], b)
  {
    Single(Node(b, below), k);
    AddUnderCount([t], b.Prev(), Node(b, below), k);
    if Has([t], b.Hash()) {
      if below == [] {
      } else {
        assert below == [below[0]];
        AddUnderCount([t], b.Hash(), below[0], k);
        AddUnderRoots([t], b.Hash(), below[0]);
      }
    } else if Has([t], b.Prev()) {
      AddUnderRoots([t], b.Prev(), Node(b, below));
    }
  }

  lemma {:induction false} FirstHas(ts: seq<BlockTree>, k: BlockHash)
    requires ts != []
    ensures Has(ts, k) <==> Has([ts[0]], k) || Has(ts[1..], k)
  {
    Single(ts[0], k);
  }

  lemma {:induction false} AppendHas(a: seq<BlockTree>, b: seq<BlockTree>, k: BlockHash)
    ensures Has(a + b, k) <==> Has(a, k) || Has(b, k)
  {
    AppendCount(a, b, k);
  }

  lemma {:induction false} AttachHas(ts: seq<BlockTree>, b: Block, below: seq<BlockTree>, k: BlockHash)
    requires |below| <= 1
    ensures Has(Attach(ts, b, below), k) <==> Has(ts, k) || k == b.Hash() || Has(below, k)
  {
    if ts == [] {
      Single(Node(b, below), k);
    } else {
      AttachOneTakes(ts[0], b, below, k);
      FirstHas(ts, k);
      match AttachOne(ts[0], b, below) {
        case Some(r) =>
          AppendHas(r, ts[1..], k);
        case None =>
          AttachHas(ts[1..], b, below, k);
          AppendHas([ts[0]], Attach(ts[1..], b, below), k);
      }
    }
  }

  // The block goes into a tree that takes it, or becomes a new root at the end.
  lemma {:induction false} AttachRoots(ts: seq<BlockTree>, b: Block, below: seq<BlockTree>)
    requires |below| <= 1
    ensures var r := Attach(ts, b, below);
            && (Takes(ts, b) ==> |r| == |ts|)
            && (!Takes(ts, b) ==> r == ts + [Node(b, below)])
            && |ts| <= |r| && forall i | 0 <= i < |ts| :: r[i].root == ts[i].root
  {
    if ts == [] {
    } else {
      AttachOneTakes(ts[0], b, below, 0);
      FirstHas(ts, b.Hash());
      FirstHas(ts, b.Prev());
      if AttachOne(ts[0], b, below).None? {
        AttachRoots(ts[1..], b, below);
        assert [ts[0]] + (ts[1..] + [Node(b, below)]) == ts + [Node(b, below)];
      }
    }
  }

  // Only the first tree that takes the block changes.
  lemma {:induction false} AttachChangesFirst(ts: seq<BlockTree>, b: Block, below: seq<BlockTree>) returns (k: nat, r: BlockTree)
    requires |below| <= 1 && Takes(ts, b)
    ensures k < |ts| && Takes([ts[k]], b) && forall j | 0 <= j < k :: !Takes([ts[j]], b)
    ensures AttachOne(ts[k], b, below) == Some([r]) && Attach(ts, b, below) == ts[k := r]
  {
    AttachOneTakes(ts[0], b, below, 0);
    FirstHas(ts, b.Hash());
    FirstHas(ts, b.Prev());
    match AttachOne(ts[0], b, below) {
      case Some(one) =>
        k, r := 0, one[0];
        assert one == [r];
      case None =>
        k, r := AttachChangesFirst(ts[1..], b, below);
        k := k + 1;
        assert [ts[0]] + ts[1..][k - 1 := r] == ts[k := r];
    }
  }

  lemma {:induction false} AttachOneLinked(t: BlockTree, b: Block, below: seq<BlockTree>)
    requires |below| <= 1 && Linked([t]) && Linked(below) && RootsFollow(below, b.Hash())
    ensures match AttachOne(t, b, below)
            case Some(r) => Linked(r)
            case None => true
  {
    Single(Node(b, below), 0);
    if Has([t], b.Hash()) {
      if below == [] {
      } else {
        assert below == [below[0]];
        AddUnderCount([t], b.Hash(), below[0], 0);
        AddUnderLinked([t], b.Hash(), below[0]);
      }
    } else if AddUnder([t], b.Prev(), Node(b, below)).Some? {
      AddUnderLinked([t], b.Prev(), Node(b, below));
    }
  }

  lemma {:induction false} AttachLinked(ts: seq<BlockTree>, b: Block, below: seq<BlockTree>)
    requires |below| <= 1 && Linked(ts) && Linked(below) && RootsFollow(below, b.Hash())
    ensures Linked(Attach(ts, b, below))
  {
    if ts == [] {
      Single(Node(b, below), 0);
    } else {
      Single(ts[0], 0);
      AttachOneLinked(ts[0], b, below);
      match AttachOne(ts[0], b, below) {
        case Some(r) =>
          AppendLinked(r, ts[1..]);
        case None =>
          AttachLinked(ts[1..], b, below);
          AppendLinked([ts[0]], Attach(ts[1..], b, below));
      }
    }
  }

  // ---- Pushing a fresh block ----

  lemma {:induction false} PushCount(ts: seq<BlockTree>, b: Block, k: BlockHash)
    requires !Has(ts, b.Hash())
    ensures Count(Pushed(ts, b), k) == Count(ts, k) + if k == b.Hash() then 1 else 0
  {
    var h := b.Hash();
    RestCount(ts, h, h);
    RestCount(ts, h, k);
    AttachCount(Rest(ts, h), b, Taken(ts, h), k);
    Single(Node(b, Taken(ts, h)), k);
  }

  lemma {:induction false} PushBlocks(ts: seq<BlockTree>, b: Block)
    requires !Has(ts, b.Hash())
    ensures Blocks(Pushed(ts, b)) == Blocks(ts) + multiset{b}
  {
    var h := b.Hash();
    RestCount(ts, h, h);
    RestBlocks(ts, h);
    AttachBlocks(Rest(ts, h), b, Taken(ts, h));
    Single(Node(b, Taken(ts, h)), h);
  }

  // The forest gains exactly the pushed block, even when a waiting tree is detached and hung
  // below it, and stays linked with unique hashes.
  lemma {:induction false} PushConserves(ts: seq<BlockTree>, b: Block)
    requires Linked(ts) && UniqueHashes(ts) && !Has(ts, b.Hash())
    ensures Blocks(Pushed(ts, b)) == Blocks(ts) + multiset{b}
    ensures Linked(Pushed(ts, b)) && UniqueHashes(Pushed(ts, b))
  {
    var h := b.Hash();
    PushBlocks(ts, b);
    RestCount(ts, h, h);
    RestLinked(ts, h);
    RestMembers(ts, h);
    AttachLinked(Rest(ts, h), b, Taken(ts, h));
    forall k ensures Count(Pushed(ts, b), k) <= 1 {
      PushCount(ts, b, k);
      assert Count(ts, k) <= 1;
    }
  }

  // ---- Which trees go on waiting ----

  lemma {:induction false} SameRootsWait(ts: seq<BlockTree>, us: seq<BlockTree>, h: BlockHash)
    requires |ts| == |us| && forall i | 0 <= i < |ts| :: us[i].root == ts[i].root
    ensures Waiting(us, h) == Waiting(ts, h)
  {
    if ts == [] {
    } else {
      SameRootsWait(ts[1..], us[1..], h);
    }
  }

  lemma {:induction false} AttachWaiting(ts: seq<BlockTree>, b: Block, below: seq<BlockTree>, h: BlockHash)
    requires |below| <= 1
    ensures Waiting(Attach(ts, b, below), h) == Waiting(ts, h) + if !Takes(ts, b) && b.Prev() == h then 1 else 0
  {
    AttachRoots(ts, b, below);
    if Takes(ts, b) {
      SameRootsWait(ts, Attach(ts, b, below), h);
    } else {
      AttachedAppend(ts, [Node(b, below)], h);
    }
  }

  lemma {:induction false} RestWaiting(ts: seq<BlockTree>, h: BlockHash, k: BlockHash)
    ensures Waiting(Rest(ts, h), k) == if k == h then Max(Waiting(ts, h), 1) - 1 else Waiting(ts, k)
  {
    RestMembers(ts, h);
    FirstWaitingIsFirst(ts, h);
    if i :| FirstWaiting(ts, h) == Some(i) {
      assert ts == ts[..i] + ([ts[i]] + ts[i + 1..]);
      AttachedAppend(ts[..i], [ts[i]] + ts[i + 1..], k);
      AttachedAppend([ts[i]], ts[i + 1..], k);
      AttachedAppend(ts[..i], ts[i + 1..], k);
    }
  }

  lemma {:induction false} PushHas(ts: seq<BlockTree>, b: Block, k: BlockHash)
    ensures Has(Pushed(ts, b), k) <==> Has(ts, k) || k == b.Hash()
  {
    RestMembers(ts, b.Hash());
    RestCount(ts, b.Hash(), k);
    AttachHas(Rest(ts, b.Hash()), b, Taken(ts, b.Hash()), k);
  }

  // Which trees a push of any block touches: the first one that waits for the block goes away, and
  // the first one that has the block or its predecessor changes; if there is none, a new tree
  // comes at the end. All others stay as they are, in their order.
  lemma {:induction false} PushTouches(ts: seq<BlockTree>, b: Block) returns (rest: seq<BlockTree>)
    ensures if i: nat :| IsFirstWaiting(ts, b.Hash(), i) then rest == ts[..i] + ts[i + 1..] else rest == ts
    ensures if k: nat :| IsFirstTaker(rest, b, k) then |Pushed(ts, b)| == |rest| && Pushed(ts, b) == rest[k := Pushed(ts, b)[k]]
            else |Pushed(ts, b)| == |rest| + 1 && Pushed(ts, b)[..|rest|] == rest && Pushed(ts, b)[|rest|].root == b
    ensures forall j | 0 <= j < |rest| :: j < |Pushed(ts, b)| && Pushed(ts, b)[j].root == rest[j].root
  {
    rest := Rest(ts, b.Hash());
    var taken := Taken(ts, b.Hash());
    RestMembers(ts, b.Hash());
    FirstWaitingAgrees(ts, b.Hash());
    AttachRoots(rest, b, taken);
    if Takes(rest, b) {
      var k, r := AttachChangesFirst(rest, b, taken);
      assert IsFirstTaker(rest, b, k);
    } else {
      forall k: nat ensures !IsFirstTaker(rest, b, k) {
        if k < |rest| {
          SplitCount(rest, k, b.Hash());
          SplitCount(rest, k, b.Prev());
        }
      }
    }
  }

  ghost predicate IsFirstWaiting(ts: seq<BlockTree>, h: BlockHash, i: nat) {
    i < |ts| && ts[i].root.Prev() == h && forall j | 0 <= j < i :: ts[j].root.Prev() != h
  }

  ghost predicate IsFirstTaker(ts: seq<BlockTree>, b: Block, k: nat) {
    k < |ts| && Takes([ts[k]], b) && forall j | 0 <= j < k :: !Takes([ts[j]], b)
  }

  lemma {:induction false} FirstWaitingAgrees(ts: seq<BlockTree>, h: BlockHash)
    ensures forall i: nat :: IsFirstWaiting(ts, h, i) <==> FirstWaiting(ts, h) == Some(i)
  {
    if ts == [] {
    } else {
      FirstWaitingAgrees(ts[1..], h);
      forall i: nat ensures IsFirstWaiting(ts, h, i) <==> FirstWaiting(ts, h) == Some(i) {
        if 0 < i {
          FirstWaitingStep(ts, h, i);
        }
      }
    }
  }

  lemma {:induction false} FirstWaitingStep(ts: seq<BlockTree>, h: BlockHash, i: nat)
    requires ts != [] && 0 < i
    ensures IsFirstWaiting(ts, h, i) <==> ts[0].root.Prev() != h && IsFirstWaiting(ts[1..], h, i - 1)
  {
    if ts[0].root.Prev() != h && IsFirstWaiting(ts[1..], h, i - 1) {
      forall j | 0 <= j < i ensures ts[j].root.Prev() != h {
        assert j > 0 ==> ts[1..][j - 1] == ts[j];
      }
    }
    if IsFirstWaiting(ts, h, i) {
      assert forall j | 0 <= j < i - 1 :: ts[1..][j] == ts[j + 1];
    }
  }

  // The push of a block, new or not, takes in the first tree that waits for it, and leaves
  // every other tree that waits for a present block waiting.
  lemma {:induction false} PushWaiting(ts: seq<BlockTree>, b: Block, h: BlockHash)
    requires b.Prev() != b.Hash()
    requires h == b.Hash() || (Has(ts, h) && !Has(Taken(ts, b.Hash()), b.Prev()))
    ensures Waiting(Pushed(ts, b), h) == if h == b.Hash() then Max(Waiting(ts, h), 1) - 1 else Waiting(ts, h)
  {
    RestMembers(ts, b.Hash());
    RestWaiting(ts, b.Hash(), h);
    RestCount(ts, b.Hash(), b.Prev());
    AttachWaiting(Rest(ts, b.Hash()), b, Taken(ts, b.Hash()), h);
  }

  lemma {:induction false} ClosedIsNoneWaiting(ts: seq<BlockTree>)
    ensures Closed(ts) <==> forall h | Has(ts, h) :: Waiting(ts, h) == 0
  {
    forall h | Has(ts, h) && Waiting(ts, h) != 0 ensures !Closed(ts) {
      AttachedMembers(ts, h);
      assert Attached(ts, h)[0] in ts;
    }
    forall i | 0 <= i < |ts| && Has(ts, ts[i].root.Prev()) ensures Waiting(ts, ts[i].root.Prev()) != 0 {
      AttachedMembers(ts, ts[i].root.Prev());
      assert ts[i] in ts;
    }
  }

  // After a push no tree waits for a block of the forest if and only if before it at most one
  // tree waited for the pushed block, and none for another block of the forest.
  lemma {:induction false} PushClosedIff(ts: seq<BlockTree>, b: Block)
    requires b.Prev() != b.Hash() && !Has(Taken(ts, b.Hash()), b.Prev())
    ensures Closed(Pushed(ts, b)) <==>
            && Waiting(ts, b.Hash()) <= 1
            && forall h | Has(ts, h) && h != b.Hash() :: Waiting(ts, h) == 0
  {
    var r := Pushed(ts, b);
    ClosedIsNoneWaiting(r);
    forall h | Has(r, h)
      ensures Has(ts, h) || h == b.Hash()
      ensures Waiting(r, h) == if h == b.Hash() then Max(Waiting(ts, h), 1) - 1 else Waiting(ts, h)
    {
      PushHas(ts, b, h);
      PushWaiting(ts, b, h);
    }
    forall h | Has(ts, h) || h == b.Hash() ensures Has(r, h) {
      PushHas(ts, b, h);
    }
  }

  // For a new block: the forest was closed before, and at most one tree waited for the block.
  lemma {:induction false} PushKeepsClosed(ts: seq<BlockTree>, b: Block)
    requires !Has(ts, b.Hash())
    requires b.Prev() != b.Hash() && !Has(Taken(ts, b.Hash()), b.Prev())
    ensures Closed(Pushed(ts, b)) <==> Closed(ts) && Waiting(ts, b.Hash()) <= 1
  {
    PushClosedIff(ts, b);
    ClosedIsNoneWaiting(ts);
  }

  // ---- Pushing a block again ----

  // `b` is the root of a tree that stands behind another one with its predecessor.
  ghost predicate Overtaken(ts: seq<BlockTree>, b: Block) {
    exists i, j :: 0 <= j < i < |ts| && ts[i].root == b && Has([ts[j]], b.Prev())
  }

  lemma {:induction false} UniqueRest(ts: seq<BlockTree>)
    requires ts != [] && UniqueHashes(ts)
    ensures UniqueHashes(ts[1..])
  {
    forall k ensures Count(ts[1..], k) <= 1 {
      assert Count(ts, k) <= 1;
    }
  }

  lemma {:induction false} OvertakenBehind(ts: seq<BlockTree>, b: Block)
    requires ts != [] && Overtaken(ts[1..], b)
    ensures Overtaken(ts, b)
  {
    var i, j :| 0 <= j < i < |ts[1..]| && ts[1..][i].root == b && Has([ts[1..][j]], b.Prev());
    assert ts[i + 1].root == b && Has([ts[j + 1]], b.Prev());
  }

  // When the first tree does not have the block, it does not take it either.
  lemma {:induction false} PredecessorElsewhere(ts: seq<BlockTree>, b: Block)
    requires Linked(ts) && UniqueHashes(ts) && b in Blocks(ts) && !Overtaken(ts, b)
    requires !Has([ts[0]], b.Hash())
    ensures !Takes([ts[0]], b) && b in Blocks(ts[1..]) && !Overtaken(ts[1..], b)
  {
    Single(ts[0], b.Hash());
    Single(ts[0], b.Prev());
    BlockHasHash([ts[0]], b);
    RootOrChild(ts[1..], b);
    assert Count(ts, b.Prev()) <= 1;
    if i :| 0 <= i < |ts[1..]| && ts[1..][i].root == b {
      assert ts[i + 1].root == b;
      assert !Has([ts[0]], b.Prev());
    }
    if Overtaken(ts[1..], b) {
      OvertakenBehind(ts, b);
    }
  }

  lemma {:induction false} AttachAgain(ts: seq<BlockTree>, b: Block)
    requires Linked(ts) && UniqueHashes(ts) && b in Blocks(ts) && !Overtaken(ts, b)
    ensures Attach(ts, b, []) == ts
  {
    if Has([ts[0]], b.Hash()) {
    } else {
      PredecessorElsewhere(ts, b);
      AttachOneTakes(ts[0], b, [], 0);
      UniqueRest(ts);
      AttachAgain(ts[1..], b);
    }
  }

  // Such a push only moves what was taken.
  lemma {:induction false} AttachAgainCount(ts: seq<BlockTree>, b: Block, below: seq<BlockTree>, k: BlockHash)
    requires Linked(ts) && UniqueHashes(ts) && b in Blocks(ts) && !Overtaken(ts, b) && |below| <= 1
    ensures Count(Attach(ts, b, below), k) == Count(ts, k) + Count(below, k)
  {
    Single(ts[0], k);
    if Has([ts[0]], b.Hash()) {
      var r := HangBelow(ts[0], b.Hash(), below);
      if below == [] {
      } else {
        assert below == [below[0]];
        AddUnderCount([ts[0]], b.Hash(), below[0], k);
      }
      AppendCount(r, ts[1..], k);
    } else {
      PredecessorElsewhere(ts, b);
      AttachOneTakes(ts[0], b, below, k);
      UniqueRest(ts);
      AttachAgainCount(ts[1..], b, below, k);
      AppendCount([ts[0]], Attach(ts[1..], b, below), k);
    }
  }

  // An overtaken block is added a second time.
  lemma {:induction false} AttachOvertaken(ts: seq<BlockTree>, b: Block, i: nat, j: nat)
    requires UniqueHashes(ts) && j < i < |ts| && ts[i].root == b && Has([ts[j]], b.Prev())
    ensures Count(Attach(ts, b, []), b.Hash()) == Count(ts, b.Hash()) + 1
  {
    var h := b.Hash();
    Single(ts[0], h);
    Single(Node(b, []), h);
    RootInBlocks(ts[1..], i - 1);
    assert Count(ts, h) <= 1;
    AddUnderCount([ts[0]], b.Prev(), Node(b, []), h);
    match AddUnder([ts[0]], b.Prev(), Node(b, [])) {
      case Some(r) =>
        AppendCount(r, ts[1..], h);
      case None =>
        UniqueRest(ts);
        AttachOvertaken(ts[1..], b, i - 1, j - 1);
        AppendCount([ts[0]], Attach(ts[1..], b, []), h);
    }
  }

  // So the forest has it twice.
  lemma {:induction false} PushOvertaken(ts: seq<BlockTree>, b: Block)
    requires UniqueHashes(ts) && Waiting(ts, b.Hash()) == 0 && Overtaken(ts, b)
    ensures Count(Pushed(ts, b), b.Hash()) == 2
  {
    var i, j :| 0 <= j < i < |ts| && ts[i].root == b && Has([ts[j]], b.Prev());
    FirstWaitingIsFirst(ts, b.Hash());
    AttachOvertaken(ts, b, i, j);
    RootInBlocks(ts, i);
    assert Count(ts, b.Hash()) <= 1;
  }

  // Pushing a block again changes nothing if and only if no tree waits for it and it is not
  // the root of a tree that waits behind its predecessor.
  lemma {:induction false} PushAgain(ts: seq<BlockTree>, b: Block)
    requires Linked(ts) && UniqueHashes(ts) && b in Blocks(ts) && b.Prev() != b.Hash()
    ensures Pushed(ts, b) == ts <==> Waiting(ts, b.Hash()) == 0 && !Overtaken(ts, b)
  {
    if Waiting(ts, b.Hash()) != 0 {
      PushWaiting(ts, b, b.Hash());
    } else {
      FirstWaitingIsFirst(ts, b.Hash());
      if Overtaken(ts, b) {
        PushOvertaken(ts, b);
        assert Count(ts, b.Hash()) <= 1;
      } else {
        AttachAgain(ts, b);
      }
    }
  }

  // In a closed forest neither happens.
  lemma {:induction false} PushAgainClosed(ts: seq<BlockTree>, b: Block)
    requires WellFormed(ts) && b in Blocks(ts) && b.Prev() != b.Hash()
    ensures Pushed(ts, b) == ts
  {
    BlockHasHash(ts, b);
    ClosedIsNoneWaiting(ts);
    forall i, j | 0 <= j < i < |ts| && ts[i].root == b ensures !Has([ts[j]], b.Prev()) {
      SplitCount(ts, j, b.Prev());
    }
    PushAgain(ts, b);
  }

  // Pushing a block again that is not overtaken neither loses nor adds a block: the first tree
  // that waits for it moves below it.
  lemma {:induction false} PushAgainConserves(ts: seq<BlockTree>, b: Block, k: BlockHash)
    requires Linked(ts) && UniqueHashes(ts)
    requires b in Blocks(Rest(ts, b.Hash())) && !Overtaken(Rest(ts, b.Hash()), b)
    ensures Count(Pushed(ts, b), k) == Count(ts, k) && Linked(Pushed(ts, b))
  {
    var h := b.Hash();
    var rest := Rest(ts, h);
    RestMembers(ts, h);
    RestLinked(ts, h);
    RestCount(ts, h, k);
    forall c ensures Count(rest, c) <= 1 {
      RestCount(ts, h, c);
      assert Count(ts, c) <= 1;
    }
    AttachAgainCount(rest, b, Taken(ts, h), k);
    AttachLinked(rest, b, Taken(ts, h));
  }
}
