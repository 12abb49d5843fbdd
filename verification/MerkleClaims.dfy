/**
  What a caller of the checker in uspv/mblock.go can rely on, who sees the header's Merkle root and
  the transaction count that the message claims, but not the block. The count is the peer's choice.
*/
module MerkleClaims {
  import opened Basics
  import opened Powers
  import opened MerklePositions
  import opened MerkleBlock
  import opened MerkleProofs
  import opened MerkleSoundness

  // ----- Claims of three and four transactions -----

  lemma {:induction false} FoldsSingle<H>(node: (H, H) -> H, size: nat, root: H, s: seq<MerkleNode<H>>, parent: MerkleNode<H>,
                                          left: MerkleNode<H>, m: Machine<H>)
    requires m.s == s + [parent, left] && left.h.Some? && DeadZone(m.pos, size)
    ensures Step(node, size, root, m)
         == Continue(m.(s := s + [parent.(h := Some(node(left.h.value, left.h.value)))], pos := RightSiblingPos(parent.p)))
  {
    hide DeadZone;
    assert m.s[..|m.s| - 2] == s;
  }

  lemma {:induction false} SmallIsAlive(size: nat)
    requires 3 <= size <= 4
    ensures Depth(size) == 2 && Alive(size, 2, 0) && Alive(size, 1, 0) && Alive(size, 1, 1) && Alive(size, 0, 1) && Alive(size, 0, 2)
    ensures Alive(size, 0, 3) <==> size == 4
  {
    SmallTree(size);
    assert FirstLeaf(2, 0) == FirstLeaf(1, 0) == 0 && FirstLeaf(1, 1) == 2;
  }

  /** The root and its left child are open. */
  function Both<H>(): seq<MerkleNode<H>> {
    [MerkleNode(Pos(2, 2, 0), None), MerkleNode(Pos(2, 1, 0), None)]
  }

  /** Two equal leaves: one is matched, and the node above them stays empty. */
  lemma {:induction false} SmallFirst<H>(node: (H, H) -> H, size: nat, root: H, e: H, bits: seq<bool>, hashes: seq<H>)
    requires 3 <= size <= 4
    ensures Run(node, size, root, Start(size, [true] + ([true, true, false] + bits), [e, e] + hashes))
         == Run(node, size, root, Machine(Both(), Pos(2, 1, 1), bits, hashes, [e]))
  {
    hide Run, Step, DeadZone, FirstLeaf, Pow2, RowStart;
    SmallIsAlive(size);
    var m := Start(size, [true] + ([true, true, false] + bits), [e, e] + hashes);
    RootAtStart(size, m.bits, m.hashes);
    var a := OpenNode(node, size, root, 2, 0, m);
    StepRuns(node, size, root, m, a);
    EqualLeaves(node, size, root, a, true, e, bits, hashes);
    assert a.s + [MerkleNode(Pos(2, 1, 0), None)] == Both() && a.r + [e] == [e];
  }

  /** What the right child of the root is combined to: leaf 3 is padding in a tree of three. */
  function RightPair<H>(node: (H, H) -> H, size: nat, x: H, y: H): H {
    if size == 4 then node(x, y) else node(x, x)
  }

  function RightBits(size: nat): seq<bool> {
    if size == 4 then [true, false, false] else [true, false]
  }

  function RightHashes<H>(size: nat, x: H, y: H): seq<H> {
    if size == 4 then [x, y] else [x]
  }

  lemma {:induction false} SmallSecond<H>(node: (H, H) -> H, size: nat, root: H, x: H, y: H, bits: seq<bool>, hashes: seq<H>, r: seq<H>)
    requires 3 <= size <= 4 && x != y
    ensures Run(node, size, root, Machine(Both(), Pos(2, 1, 1), RightBits(size) + bits, RightHashes(size, x, y) + hashes, r))
         == Run(node, size, root, Machine(Both() + [MerkleNode(Pos(2, 1, 1), Some(RightPair(node, size, x, y)))], Pos(2, 1, 1), bits, hashes, r))
  {
    hide Run, Step, DeadZone, FirstLeaf, Pow2, RowStart;
    SmallIsAlive(size);
    SiblingOfZero(size, 1);
    var m := Machine(Both(), Pos(2, 1, 1), RightBits(size) + bits, RightHashes(size, x, y) + hashes, r);
    var end := Machine(Both() + [MerkleNode(Pos(2, 1, 1), Some(RightPair(node, size, x, y)))], Pos(2, 1, 1), bits, hashes, r);
    var open := MerkleNode(Pos(2, 1, 1), None);
    if size == 4 {
      var a := ReadLeaves(node, 4, root, 1, m, false, false, x, y, bits, hashes);
      FoldsPair(node, 4, root, Both(), open, MerkleNode(Pos(2, 0, 2), Some(x)), MerkleNode(Pos(2, 0, 3), Some(y)), a);
      StepRuns(node, 4, root, a, end);
    } else {
      SingleLeaf(node, root, x, m, bits, hashes, end);
    }
  }

  lemma {:induction false} SingleLeaf<H>(node: (H, H) -> H, root: H, x: H, m: Machine<H>, bits: seq<bool>, hashes: seq<H>, end: Machine<H>)
    requires m.s == Both() && m.pos == Pos(2, 1, 1) && m.bits == [true, false] + bits && m.hashes == [x] + hashes
    requires end == Machine(Both() + [MerkleNode(Pos(2, 1, 1), Some(node(x, x)))], Pos(2, 1, 1), bits, hashes, m.r)
    ensures Run(node, 3, root, m) == Run(node, 3, root, end)
  {
    hide Run, Step, DeadZone, FirstLeaf, Pow2, RowStart;
    SmallIsAlive(3);
    SiblingOfZero(3, 1);
    var a := OpenNode(node, 3, root, 1, 1, m);
    StepRuns(node, 3, root, m, a);
    assert a.bits == [false] + bits;
    var b := ReadNode(node, 3, root, 0, 2, a);
    StepRuns(node, 3, root, a, b);
    assert b.bits == bits && b.hashes == hashes;
    AliveInRow(3, 1, 1);
    LeftChildAt(2, 1, 1);
    DeadZoneAt(3, 0, 3);
    FoldsSingle(node, 3, root, Both(), MerkleNode(Pos(2, 1, 1), None), MerkleNode(Pos(2, 0, 2), Some(x)), b);
    StepRuns(node, 3, root, b, end);
  }

  /** A hash read at the right child of the root goes together with the filled node on top. */
  lemma {:induction false} SmallThird<H>(node: (H, H) -> H, size: nat, root: H, s: seq<MerkleNode<H>>, parent: MerkleNode<H>, filled: MerkleNode<H>, z: H,
                                         bits: seq<bool>, hashes: seq<H>, r: seq<H>)
    requires 3 <= size <= 4 && parent.h.None? && filled.h.Some? && filled.h != Some(z)
    ensures Run(node, size, root, Machine(s + [parent, filled], Pos(2, 1, 1), [false] + bits, [z] + hashes, r))
         == Run(node, size, root, Machine(s + [parent.(h := Some(node(filled.h.value, z)))], RightSiblingPos(parent.p), bits, hashes, r))
  {
    hide Run, Step, DeadZone, FirstLeaf, Pow2, RowStart, RightSiblingPos;
    SmallIsAlive(size);
    var m := Machine(s + [parent, filled], Pos(2, 1, 1), [false] + bits, [z] + hashes, r);
    var a := ReadNode(node, size, root, 1, 1, m);
    StepRuns(node, size, root, m, a);
    assert a.bits == bits && a.hashes == hashes && a.r == r;
    NotDeadAfterRight(size, 2, 0, a.pos);
    assert a.s == s + [parent, filled, MerkleNode(Pos(2, 1, 1), Some(z))];
    FoldsPair(node, size, root, s, parent, filled, MerkleNode(Pos(2, 1, 1), Some(z)), a);
    StepRuns(node, size, root, a, a.(s := s + [parent.(h := Some(node(filled.h.value, z)))], pos := RightSiblingPos(parent.p)));
  }

  lemma {:induction false} SmallLast<H>(node: (H, H) -> H, size: nat, root: H, v: H, z: H, w: H, bits: seq<bool>, r: seq<H>)
    requires 3 <= size <= 4 && z != v && w != node(v, z) && root == node(node(v, z), w)
    ensures Run(node, size, root, Machine(Both() + [MerkleNode(Pos(2, 1, 1), Some(v))], Pos(2, 1, 1), [false, false] + bits, [z, w], r)) == Matched(r)
  {
    hide RowStart;
    SmallIsAlive(size);
    SiblingOfZero(size, 1);
    var top, left, right := MerkleNode(Pos(2, 2, 0), None), MerkleNode(Pos(2, 1, 0), None), MerkleNode(Pos(2, 1, 1), Some(v));
    assert Both() + [right] == [top] + [left, right] && [false, false] + bits == [false] + ([false] + bits) && [z, w] == [z] + [w];
    SmallThird(node, size, root, [top], left, right, z, [false] + bits, [w], r);
    var filled := left.(h := Some(node(v, z)));
    assert [top] + [filled] == [] + [top, filled] && [w] == [w] + [];
    SmallThird(node, size, root, [], top, filled, w, bits, [], r);
    var end := Machine([] + [top.(h := Some(root))], RightSiblingPos(top.p), bits, [], r);
    assert Step(node, size, root, end) == Done(Matched(r));
  }

  /**
    Under a claim of three or four transactions any hash e is accepted as the only txid, against any
    root that is combined like this. At four the message is nine flag bits and six hashes.
  */
  lemma {:induction false} SmallForeign<H>(node: (H, H) -> H, size: nat, e: H, x: H, y: H, z: H, w: H, padding: seq<bool>)
    requires 3 <= size <= 4 && x != y
    requires var v := RightPair(node, size, x, y); z != v && w != node(v, z)
    ensures var bits := [true] + ([true, true, false] + (RightBits(size) + ([false, false] + padding)));
      var hashes := [e, e] + (RightHashes(size, x, y) + [z, w]);
      && Run(node, size, node(node(RightPair(node, size, x, y), z), w), Start(size, bits, hashes)) == Matched([e])
      && Traverse(node, size, Depth(size), 0, bits, hashes).Duplicate?
  {
    var v := RightPair(node, size, x, y);
    var root := node(node(v, z), w);
    var b2, h2 := [false, false] + padding, [z, w];
    var b1, h1 := RightBits(size) + b2, RightHashes(size, x, y) + h2;
    SmallIsAlive(size);
    var bits, hashes := [true] + ([true, true, false] + b1), [e, e] + h1;
    assert bits[1..] == [true, true, false] + b1;
    EqualLeavesDuplicate(node, size, 0, bits[1..], hashes);
    hide Run, RightPair, RightBits, RightHashes;
    SmallFirst(node, size, root, e, b1, h1);
    SmallSecond(node, size, root, x, y, b2, h2, [e]);
    SmallLast(node, size, root, v, z, w, padding, [e]);
  }

  // ----- Agreement with the traversal, whatever the block -----

  /** One of two different hashes is not v. */
  function NotThis<H(==)>(x: H, y: H, v: H): (z: H)
    ensures x != y ==> z != v
  {
    if x == v then y else x
  }

  function FreeSiblings<H(==)>(node: (H, H) -> H, x: H, y: H, n: nat): (siblings: seq<H>)
    ensures |siblings| == n
    ensures x != y ==> Apart(node, x, y, siblings)
  {
    if n == 0 then []
    else
      var before := FreeSiblings(node, x, y, n - 1);
      var siblings := before + [NotThis(x, y, Climb(node, x, y, before))];
      assert siblings[..n - 1] == before;
      siblings
  }

  lemma {:induction false} DisagreesAtSmall<H(!new)>(node: (H, H) -> H, size: nat, x: H, y: H)
      returns (root: H, flags: bytes, hashes: seq<H>)
    requires 3 <= size <= 4 && x != y
    ensures !Agrees(node, size, root, flags, hashes)
  {
    var v := RightPair(node, size, x, y);
    var z := NotThis(x, y, v);
    var w := NotThis(x, y, node(v, z));
    var short := [true] + ([true, true, false] + (RightBits(size) + [false, false]));
    var padding := UnpackPacked(short);
    assert short + padding == [true] + ([true, true, false] + (RightBits(size) + ([false, false] + padding)));
    root, flags, hashes := node(node(v, z), w), PackBits(short), [x, x] + (RightHashes(size, x, y) + [z, w]);
    SmallForeign(node, size, x, x, y, z, w, padding);
  }

  /** Up to two transactions the loop and the traversal accept the same, with the same txids. */
  lemma {:induction false} AgreesUpToTwo<H(!new)>(node: (H, H) -> H, size: nat, root: H, flags: bytes, hashes: seq<H>)
    requires 1 <= size <= 2
    ensures Agrees(node, size, root, flags, hashes)
  {
    var bits := FlagBits(flags);
    assert Depth(1) == 0 && Depth(2) == 1;
    if Traverse(node, size, Depth(size), 0, bits, hashes).Duplicate? {
      EqualRootChildrenPanic(node, size, root, bits, hashes);
    } else {
      MachineRefinesTraversal(node, size, root, bits, hashes);
    }
  }

  /**
    A guard that a caller can check: for all roots, flags and hashes the loop accepts exactly what
    the recursive traversal accepts, if and only if the message claims at most two transactions. All
    it takes is that there are two different hashes.
  */
  lemma {:induction false} AgreesIffTwo<H(!new)>(node: (H, H) -> H, size: nat, x: H, y: H)
    requires 1 <= size <= MAX_LEAVES && x != y
    ensures (forall root: H, flags: bytes, hashes: seq<H> :: Agrees(node, size, root, flags, hashes)) <==> size <= 2
  {
    if size <= 2 {
      forall root: H, flags: bytes, hashes: seq<H>
        ensures Agrees(node, size, root, flags, hashes)
      {
        AgreesUpToTwo(node, size, root, flags, hashes);
      }
    } else if size <= 4 {
      var root, flags, hashes := DisagreesAtSmall(node, size, x, y);
    } else {
      CornerIsAlive(size);
      var siblings := FreeSiblings(node, x, y, Depth(size) - 1);
      var flags, hashes := ForeignAccepted(node, size, x, y, siblings, x, y);
      assert !Agrees(node, size, Climb(node, x, y, siblings), flags, hashes);
    }
  }

  /** So a claim of four lets any single hash through against the root of any block of five to eight. */
  lemma {:induction false} FourClaimed<H>(node: (H, H) -> H, txids: seq<H>, e: H) returns (flags: bytes, hashes: seq<H>)
    requires 5 <= |txids| <= 8 && NoEqualSiblings(node, txids)
    ensures Run(node, 4, MerkleRoot(node, txids), Start(4, FlagBits(flags), hashes)) == Matched([e])
  {
    var z, w := BlockOfEight(node, txids);
    var short := [true] + ([true, true, false] + (RightBits(4) + [false, false]));
    var padding := UnpackPacked(short);
    assert short + padding == [true] + ([true, true, false] + (RightBits(4) + ([false, false] + padding)));
    flags, hashes := PackBits(short), [e, e] + (RightHashes(4, txids[0], txids[1]) + [z, w]);
    hide Run, PackBits, FlagBits;
    SmallForeign(node, 4, e, txids[0], txids[1], z, w, padding);
  }

  lemma {:induction false} BlockOfEight<H>(node: (H, H) -> H, txids: seq<H>) returns (z: H, w: H)
    requires 5 <= |txids| <= 8 && NoEqualSiblings(node, txids)
    ensures txids[0] != txids[1] && z != node(txids[0], txids[1]) && w != node(node(txids[0], txids[1]), z)
    ensures MerkleRoot(node, txids) == node(node(node(txids[0], txids[1]), z), w)
  {
    RootLeaves(|txids|);
    assert Depth(|txids|) == 3 by {
      EightLeaves();
      CornerIsAlive(|txids|);
    }
    hide Depth;
    ClimbIsTree(node, txids, 3);
    var siblings := SiblingsOf(node, txids, 3);
    z, w := siblings[0], siblings[1];
    assert siblings[..1] == [z] && siblings[..1][..0] == [];
  }

  // ----- Soundness, whatever the claim -----

  /** The root was opened, so it can only be filled by combining. */
  ghost predicate RootOpened<H(!new)>(node: (H, H) -> H, m: Machine<H>) {
    |m.s| >= 1 && (m.s[0].h.Some? ==> |m.s| == 1 && !Raw(node, m.s[0].h.value))
  }

  lemma {:induction false} OpenedIsNotMatched<H(!new)>(node: (H, H) -> H, size: nat, root: H, m: Machine<H>)
    requires Raw(node, root) && RootOpened(node, m)
    ensures !Run(node, size, root, m).Matched?
    decreases Measure(m)
  {
    hide Raw, DeadZone, Depth, Bit, ParentPos, LeftChildPos, RightSiblingPos;
    var next := Step(node, size, root, m);
    if next.Done? {
    } else {
      var n := |m.s|;
      if n >= 2 {
        CombinedIsNotRaw(node, m.s[n - 1].h, None);
        CombinedIsNotRaw(node, m.s[n - 2].h, m.s[n - 1].h);
      }
      OpenedIsNotMatched(node, size, root, next.next);
    }
  }

  /** Against a root that is not combined, at most the root itself can be matched. */
  lemma {:induction false} RawRoot<H(!new)>(node: (H, H) -> H, size: nat, root: H, bits: seq<bool>, hashes: seq<H>)
    requires Raw(node, root)
    ensures var out := Run(node, size, root, Start(size, bits, hashes)); out.Matched? ==> out.txids == [] || out.txids == [root]
  {
    hide Raw, DeadZone, Depth, Bit, ParentPos, LeftChildPos, RightSiblingPos, RootPos;
    var m := Start(size, bits, hashes);
    var next := Step(node, size, root, m);
    if next.Continue? {
      if next.next.s[0].h.None? {
        OpenedIsNotMatched(node, size, root, next.next);
      } else {
        assert Step(node, size, root, next.next).Done?;
      }
    }
  }

  /** If this message is accepted, then with txids of the block, in block order. */
  ghost predicate HonestClaim<H(!new)>(node: (H, H) -> H, txids: seq<H>, size: nat, flags: bytes, hashes: seq<H>)
    requires txids != []
  {
    var out := Run(node, size, MerkleRoot(node, txids), Start(size, FlagBits(flags), hashes));
    out.Matched? ==> IsSelection(txids, out.txids)
  }

  /** One transaction claimed, and the root itself sent for it. */
  lemma {:induction false} RootForTxid<H>(node: (H, H) -> H, root: H)
    ensures Run(node, 1, root, Start(1, FlagBits([1]), [root])) == Matched([root])
  {
    var bits := FlagBits([1]);
    assert Bit(1, 0) && bits[0];
    MachineRefinesTraversal(node, 1, root, bits, [root]);
  }

  lemma {:induction false} SingleRoot<H(!new)>(node: (H, H) -> H, txids: seq<H>)
    requires txids != []
    ensures |txids| == 1 ==> MerkleRoot(node, txids) == txids[0] && IsSelection(txids, []) && IsSelection(txids, txids)
    ensures |txids| >= 2 ==> !Raw(node, MerkleRoot(node, txids))
  {
    RootLeaves(|txids|);
    if |txids| == 1 {
      assert txids == [txids[0]];
      SelectOne(txids[0], false);
      SelectOne(txids[0], true);
      assert Selected(txids, [false]) == [] && Selected(txids, [true]) == txids;
    } else {
      LeftHalfIsFull(|txids|, Depth(|txids|) - 1);
    }
  }

  /**
    Over every claimed count, all flags and all hashes: acceptance can be trusted exactly for blocks
    of a single transaction. Nothing is assumed but that no txid is the hash of two hashes.
  */
  lemma {:induction false} SoundUnderAnyClaimIffOne<H(!new)>(node: (H, H) -> H, txids: seq<H>)
    requires txids != [] && RawTxids(node, txids)
    ensures (forall size: nat, flags: bytes, hashes: seq<H> :: 1 <= size <= MAX_LEAVES ==> HonestClaim(node, txids, size, flags, hashes))
      <==> |txids| == 1
  {
    var root := MerkleRoot(node, txids);
    hide Run, MerkleRoot, Raw, IsSelection;
    SingleRoot(node, txids);
    if |txids| == 1 {
      assert Raw(node, txids[0]) && txids == [txids[0]];
      forall size: nat, flags: bytes, hashes: seq<H> | 1 <= size <= MAX_LEAVES
        ensures HonestClaim(node, txids, size, flags, hashes)
      {
        RawRoot(node, size, root, FlagBits(flags), hashes);
      }
    } else {
      RootForTxid(node, root);
      NotSelected(node, txids, root);
      assert !HonestClaim(node, txids, 1, [1], [root]);
    }
  }

  lemma {:induction false} NotSelected<H(!new)>(node: (H, H) -> H, txids: seq<H>, x: H)
    requires RawTxids(node, txids) && !Raw(node, x)
    ensures !IsSelection(txids, [x])
  {
    if IsSelection(txids, [x]) {
      var wanted: seq<bool> :| |wanted| == |txids| && Selected(txids, wanted) == [x];
      SelectedIsSubset(txids, wanted, x);
    }
  }
}
