/**
  What acceptance by the checker of uspv/mblock.go is worth on arbitrary messages. After two equal
  siblings the parent stays nil, and its place on the stack is filled from later hashes while the
  txids matched below it are kept. So the exact answer depends on the number of transactions.
*/
module MerkleSoundness {
  import opened Basics
  import opened Powers
  import opened MerklePositions
  import opened MerkleBlock
  import opened MerkleProofs

  // ----- Single turns of the machine -----

  /** Outside the dead zone, two filled nodes on top go into the node below them. */
  lemma {:induction false} FoldsPair<H>(node: (H, H) -> H, size: nat, root: H, s: seq<MerkleNode<H>>, parent: MerkleNode<H>,
                                        left: MerkleNode<H>, right: MerkleNode<H>, m: Machine<H>)
    requires m.s == s + [parent, left, right] && left.h.Some? && right.h.Some? && !DeadZone(m.pos, size)
    ensures Step(node, size, root, m)
         == Continue(m.(s := s + [parent.(h := MakeMerkleParent(node, left.h, right.h))], pos := RightSiblingPos(parent.p)))
  {
    hide DeadZone;
    assert m.s[..|m.s| - 3] == s;
  }

  lemma {:induction false} StepRuns<H>(node: (H, H) -> H, size: nat, root: H, m: Machine<H>, next: Machine<H>)
    requires Step(node, size, root, m) == Continue(next)
    ensures Run(node, size, root, m) == Run(node, size, root, next)
  {
  }

  lemma {:induction false} SiblingOfZero(size: nat, h: nat)
    requires h <= Depth(size)
    ensures RightSiblingPos(Pos(Depth(size), h, 0)) == Pos(Depth(size), h, 1) == RightSiblingPos(Pos(Depth(size), h, 1))
  {
    SiblingAt(Depth(size), h, 0);
    SiblingAt(Depth(size), h, 1);
  }

  // ----- Blocks of five transactions and more -----

  /** The nodes a run in the bottom left corner visits are all real. */
  lemma {:induction false} CornerIsAlive(size: nat)
    requires 5 <= size <= MAX_LEAVES
    ensures Depth(size) >= 3
    ensures Alive(size, 0, 0) && Alive(size, 0, 1) && Alive(size, 0, 2) && Alive(size, 0, 3)
    ensures Alive(size, 1, 0) && Alive(size, 1, 1) && Alive(size, 2, 0) && Alive(size, 2, 1)
  {
    assert FirstLeaf(1, 0) == 0 && FirstLeaf(1, 1) == 2 && FirstLeaf(2, 0) == 0;
    assert FirstLeaf(2, 1) == FirstLeaf(1, 2) == 4;
  }

  /** The walker stands right of node (1, 0), which is still empty on top of the stack. */
  function Waiting<H>(size: nat, s: seq<MerkleNode<H>>, bits: seq<bool>, hashes: seq<H>, r: seq<H>): Machine<H>
    requires Depth(size) >= 1
  {
    Machine(s + [MerkleNode(Pos(Depth(size), 1, 0), None)], Pos(Depth(size), 1, 1), bits, hashes, r)
  }

  /** Reading both leaves below node (1, k). */
  lemma {:induction false} ReadLeaves<H>(node: (H, H) -> H, size: nat, root: H, k: nat, m: Machine<H>, f1: bool, f2: bool, x1: H, x2: H,
                                         bits: seq<bool>, hashes: seq<H>)
      returns (next: Machine<H>)
    requires 1 <= size <= MAX_LEAVES && Alive(size, 1, k) && Alive(size, 0, 2 * k + 1)
    requires Ready(m.s) && m.pos == Pos(Depth(size), 1, k)
    requires m.bits == [true, f1, f2] + bits && m.hashes == [x1, x2] + hashes
    ensures Run(node, size, root, m) == Run(node, size, root, next)
    ensures next.s == m.s + [MerkleNode(m.pos, None), MerkleNode(Pos(Depth(size), 0, 2 * k), Some(x1)),
                             MerkleNode(Pos(Depth(size), 0, 2 * k + 1), Some(x2))]
    ensures next.bits == bits && next.hashes == hashes
    ensures next.r == m.r + (if f1 then [x1] else []) + (if f2 then [x2] else [])
    ensures !DeadZone(next.pos, size)
  {
    hide Step, Run, DeadZone, FirstLeaf, Pow2, RowStart;
    AliveChildAndParent(size, 1, k);
    var a := OpenNode(node, size, root, 1, k, m);
    StepRuns(node, size, root, m, a);
    assert a.bits == [f1, f2] + bits;
    var b := ReadNode(node, size, root, 0, 2 * k, a);
    StepRuns(node, size, root, a, b);
    assert b.bits == [f2] + bits && b.hashes == [x2] + hashes;
    next := ReadNode(node, size, root, 0, 2 * k + 1, b);
    StepRuns(node, size, root, b, next);
    NotDeadAfterRight(size, 1, k, next.pos);
  }

  /** Two equal leaves leave node (1, 0) empty, and stay matched if they were. */
  lemma {:induction false} EqualLeaves<H>(node: (H, H) -> H, size: nat, root: H, m: Machine<H>, f: bool, x: H, bits: seq<bool>, hashes: seq<H>)
    requires 1 <= size <= MAX_LEAVES && Alive(size, 1, 0) && Alive(size, 0, 1) && Ready(m.s) && m.pos == Pos(Depth(size), 1, 0)
    requires m.bits == [true, f, false] + bits && m.hashes == [x, x] + hashes
    ensures Run(node, size, root, m) == Run(node, size, root, Waiting(size, m.s, bits, hashes, m.r + if f then [x] else []))
  {
    hide Run, Step, DeadZone, FirstLeaf, Pow2, RowStart;
    var d := Depth(size);
    var a := ReadLeaves(node, size, root, 0, m, f, false, x, x, bits, hashes);
    FoldsPair(node, size, root, m.s, MerkleNode(m.pos, None), MerkleNode(Pos(d, 0, 0), Some(x)), MerkleNode(Pos(d, 0, 1), Some(x)), a);
    SiblingOfZero(size, 1);
    StepRuns(node, size, root, a, Waiting(size, m.s, bits, hashes, m.r + if f then [x] else []));
  }

  /** While node (1, 0) is empty, txids are matched below its sibling and stay matched. */
  lemma {:induction false} MatchMeanwhile<H>(node: (H, H) -> H, size: nat, root: H, s: seq<MerkleNode<H>>, e1: H, e2: H,
                                             bits: seq<bool>, hashes: seq<H>, r: seq<H>)
    requires 5 <= size <= MAX_LEAVES && e1 != e2
    ensures Depth(size) >= 3
    ensures Run(node, size, root, Waiting(size, s, [true, true, true, false] + bits, [e1, e2, node(e1, e2)] + hashes, r))
         == Run(node, size, root, Waiting(size, s, bits, hashes, r + [e1, e2]))
  {
    hide Step, Run, DeadZone, FirstLeaf, Pow2, RowStart;
    CornerIsAlive(size);
    var d := Depth(size);
    var v := node(e1, e2);
    var m := Waiting(size, s, [true, true, true, false] + bits, [e1, e2, v] + hashes, r);
    assert m.bits == [true, true, true] + ([false] + bits) && m.hashes == [e1, e2] + ([v] + hashes);
    var a := ReadLeaves(node, size, root, 1, m, true, true, e1, e2, [false] + bits, [v] + hashes);
    assert a.r == r + [e1, e2];
    var n1, n2 := MerkleNode(Pos(d, 1, 1), None), MerkleNode(Pos(d, 1, 1), Some(v));
    FoldsPair(node, size, root, m.s, n1, MerkleNode(Pos(d, 0, 2), Some(e1)), MerkleNode(Pos(d, 0, 3), Some(e2)), a);
    SiblingOfZero(size, 1);
    var b := Machine(m.s + [n2], Pos(d, 1, 1), [false] + bits, [v] + hashes, r + [e1, e2]);
    StepRuns(node, size, root, a, b);
    var c := ReadNode(node, size, root, 1, 1, b);
    StepRuns(node, size, root, b, c);
    assert c.bits == bits && c.hashes == hashes;
    NotDeadAfterRight(size, 2, 0, c.pos);
    assert c.s == s + [MerkleNode(Pos(d, 1, 0), None), n2, n2];
    FoldsPair(node, size, root, s, MerkleNode(Pos(d, 1, 0), None), n2, n2, c);
    StepRuns(node, size, root, c, Waiting(size, s, bits, hashes, r + [e1, e2]));
  }

  /** At last node (1, 0) is filled: its children are read at the places of its sibling and its parent. */
  lemma {:induction false} FillLate<H>(node: (H, H) -> H, size: nat, root: H, s: seq<MerkleNode<H>>, a: H, b: H,
                                       bits: seq<bool>, hashes: seq<H>, r: seq<H>)
    requires 5 <= size <= MAX_LEAVES && a != b
    ensures Depth(size) >= 3
    ensures Run(node, size, root, Waiting(size, s, [false, false] + bits, [a, b] + hashes, r))
         == Run(node, size, root, Machine(s + [MerkleNode(Pos(Depth(size), 1, 0), Some(node(a, b)))], Pos(Depth(size), 1, 1), bits, hashes, r))
  {
    hide Step, Run, DeadZone, FirstLeaf, Pow2, RowStart;
    CornerIsAlive(size);
    var d := Depth(size);
    var m := Waiting(size, s, [false, false] + bits, [a, b] + hashes, r);
    var end := Machine(s + [MerkleNode(Pos(d, 1, 0), Some(node(a, b)))], Pos(d, 1, 1), bits, hashes, r);
    var m1 := ReadNode(node, size, root, 1, 1, m);
    StepRuns(node, size, root, m, m1);
    assert m1.bits == [false] + bits && m1.hashes == [b] + hashes;
    var m2 := ReadNode(node, size, root, 2, 0, m1);
    StepRuns(node, size, root, m1, m2);
    assert m2.bits == bits && m2.hashes == hashes;
    AliveInRow(size, 2, 1);
    DeadZoneAt(size, 2, 1);
    FoldsPair(node, size, root, s, MerkleNode(Pos(d, 1, 0), None), MerkleNode(Pos(d, 1, 1), Some(a)), MerkleNode(Pos(d, 2, 0), Some(b)), m2);
    SiblingOfZero(size, 1);
    StepRuns(node, size, root, m2, end);
  }

  /** The left half of the tree is full, and the right half is not empty. */
  lemma {:induction false} LeftHalfIsFull(size: nat, h: nat)
    requires size >= 1 && h < Depth(size)
    ensures Alive(size, h, 0) && Alive(size, h, 1)
  {
    FirstLeafOfZero(h);
    LeafSpan(h, 0);
    Pow2Monotone(h, Depth(size) - 1);
  }

  /** The hash of node (h, 0) over a and b, with the siblings of nodes (1, 0), (2, 0), ... beside it. */
  function Climb<H>(node: (H, H) -> H, a: H, b: H, siblings: seq<H>): H {
    var n := |siblings|;
    if n == 0 then node(a, b) else node(Climb(node, a, b, siblings[..n - 1]), siblings[n - 1])
  }

  /** No two hashes that are combined on the way are equal. */
  ghost predicate Apart<H>(node: (H, H) -> H, a: H, b: H, siblings: seq<H>) {
    var n := |siblings|;
    && a != b
    && (n > 0 ==> Apart(node, a, b, siblings[..n - 1]) && Climb(node, a, b, siblings[..n - 1]) != siblings[n - 1])
  }

  /**
    A message for node (h, 0), with h - 1 siblings, that goes straight down to node (1, 0). There it
    goes through an empty node and matches e1 and e2, which need not have anything to do with a and b.
  */
  function Foreign<H>(node: (H, H) -> H, a: H, b: H, siblings: seq<H>, e1: H, e2: H, rest: Encoding<H>): Encoding<H>
    decreases |siblings|
  {
    var n := |siblings|;
    if n == 0 then
      Encoding([true, false, false] + ([true, true, true, false] + ([false, false] + rest.bits)),
               [e1, e1] + ([e1, e2, node(e1, e2)] + ([a, b] + rest.hashes)))
    else
      var below := Foreign(node, a, b, siblings[..n - 1], e1, e2, Encoding([false] + rest.bits, [siblings[n - 1]] + rest.hashes));
      below.(bits := [true] + below.bits)
  }

  lemma {:induction false} ForeignCorner<H>(node: (H, H) -> H, size: nat, root: H, a: H, b: H, e1: H, e2: H, m: Machine<H>, rest: Encoding<H>)
      returns (end: Machine<H>)
    requires 5 <= size <= MAX_LEAVES && e1 != e2 && a != b
    requires Ready(m.s) && m.pos == Pos(Depth(size), 1, 0)
    requires var e := Foreign(node, a, b, [], e1, e2, rest); m.bits == e.bits && m.hashes == e.hashes
    ensures Run(node, size, root, m) == Run(node, size, root, end)
    ensures Fills(size, 1, 0, m, Parsed(node(a, b), [e1, e2], rest.bits, rest.hashes), end)
  {
    hide Run, Step, DeadZone, FirstLeaf, Pow2, RowStart;
    var v := node(e1, e2);
    CornerIsAlive(size);
    var b2, h2 := [false, false] + rest.bits, [a, b] + rest.hashes;
    EqualLeaves(node, size, root, m, false, e1, [true, true, true, false] + b2, [e1, e2, v] + h2);
    assert m.r + [] == m.r;
    MatchMeanwhile(node, size, root, m.s, e1, e2, b2, h2, m.r);
    FillLate(node, size, root, m.s, a, b, rest.bits, rest.hashes, m.r + [e1, e2]);
    var d := Depth(size);
    end := Machine(m.s + [MerkleNode(Pos(d, 1, 0), Some(node(a, b)))], Pos(d, 1, 1), rest.bits, rest.hashes, m.r + [e1, e2]);
  }

  /** The machine takes the foreign message for an honest one. */
  lemma {:induction false} ForeignRun<H>(node: (H, H) -> H, size: nat, root: H, a: H, b: H, siblings: seq<H>, e1: H, e2: H, m: Machine<H>, rest: Encoding<H>)
      returns (end: Machine<H>)
    requires 5 <= size <= MAX_LEAVES && |siblings| < Depth(size) && e1 != e2 && Apart(node, a, b, siblings)
    requires Ready(m.s) && m.pos == Pos(Depth(size), |siblings| + 1, 0)
    requires var e := Foreign(node, a, b, siblings, e1, e2, rest); m.bits == e.bits && m.hashes == e.hashes
    ensures Run(node, size, root, m) == Run(node, size, root, end)
    ensures Fills(size, |siblings| + 1, 0, m, Parsed(Climb(node, a, b, siblings), [e1, e2], rest.bits, rest.hashes), end)
    decreases |siblings|
  {
    var n := |siblings|;
    if n == 0 {
      end := ForeignCorner(node, size, root, a, b, e1, e2, m, rest);
    } else {
      LeftColumnIsAlive(size, n + 1);
      LeftHalfIsFull(size, n);
      hide Run, Step, DeadZone, FirstLeaf, Pow2, RowStart;
      var rest1 := Encoding([false] + rest.bits, [siblings[n - 1]] + rest.hashes);
      var below := Foreign(node, a, b, siblings[..n - 1], e1, e2, rest1);
      assert m.bits == [true] + below.bits && m.hashes == below.hashes;
      ForeignHasHashes(node, a, b, siblings[..n - 1], e1, e2, rest1);
      var entered := OpenNode(node, size, root, n + 1, 0, m);
      StepRuns(node, size, root, m, entered);
      var filled := ForeignRun(node, size, root, a, b, siblings[..n - 1], e1, e2, entered, rest1);
      end := ForeignClose(node, size, root, n + 1, Climb(node, a, b, siblings[..n - 1]), siblings[n - 1], m, entered, filled, rest, [e1, e2]);
    }
  }

  lemma {:induction false} LeftColumnIsAlive(size: nat, h: nat)
    requires size >= 1 && h <= Depth(size)
    ensures Alive(size, h, 0)
  {
    FirstLeafOfZero(h);
  }

  lemma {:induction false} ForeignHasHashes<H>(node: (H, H) -> H, a: H, b: H, siblings: seq<H>, e1: H, e2: H, rest: Encoding<H>)
    ensures Foreign(node, a, b, siblings, e1, e2, rest).hashes != []
    decreases |siblings|
  {
    var n := |siblings|;
    if n == 0 {
    } else {
      ForeignHasHashes(node, a, b, siblings[..n - 1], e1, e2, Encoding([false] + rest.bits, [siblings[n - 1]] + rest.hashes));
    }
  }

  /** The left child is filled, so the right one is read and both are combined. */
  lemma {:induction false} ForeignClose<H>(node: (H, H) -> H, size: nat, root: H, h: nat, left: H, right: H, m: Machine<H>, entered: Machine<H>,
                                           filled: Machine<H>, rest: Encoding<H>, matched: seq<H>)
      returns (end: Machine<H>)
    requires 5 <= size <= MAX_LEAVES && 1 < h <= Depth(size) && m.pos == Pos(Depth(size), h, 0) && left != right
    requires Alive(size, h, 0) && Alive(size, h - 1, 0) && Alive(size, h - 1, 1)
    requires entered.s == m.s + [MerkleNode(m.pos, None)] && entered.pos == Pos(Depth(size), h - 1, 0) && entered.r == m.r
    requires Fills(size, h - 1, 0, entered, Parsed(left, matched, [false] + rest.bits, [right] + rest.hashes), filled)
    ensures Run(node, size, root, filled) == Run(node, size, root, end)
    ensures Fills(size, h, 0, m, Parsed(node(left, right), matched, rest.bits, rest.hashes), end)
  {
    hide Run, Step, DeadZone, FirstLeaf, Pow2, RowStart;
    var c := ReadNode(node, size, root, h - 1, 1, filled);
    StepRuns(node, size, root, filled, c);
    end := CloseBoth(node, size, root, h, 0, m.s, left, right, c);
    StepRuns(node, size, root, c, end);
  }

  /** Padding behind the message is padding behind what it leaves. */
  lemma {:induction false} ForeignPadded<H>(node: (H, H) -> H, a: H, b: H, siblings: seq<H>, e1: H, e2: H, rest: Encoding<H>, padding: seq<bool>)
    ensures Foreign(node, a, b, siblings, e1, e2, rest.(bits := rest.bits + padding))
         == var e := Foreign(node, a, b, siblings, e1, e2, rest); e.(bits := e.bits + padding)
    decreases |siblings|
  {
    var n := |siblings|;
    if n == 0 {
    } else {
      var rest1 := Encoding([false] + rest.bits, [siblings[n - 1]] + rest.hashes);
      assert [false] + (rest.bits + padding) == rest1.bits + padding;
      ForeignPadded(node, a, b, siblings[..n - 1], e1, e2, rest1, padding);
      var below := Foreign(node, a, b, siblings[..n - 1], e1, e2, rest1);
      assert [true] + (below.bits + padding) == [true] + below.bits + padding;
    }
  }

  /** The recursive traversal comes upon the equal leaves. */
  lemma {:induction false} ForeignIsDuplicate<H>(node: (H, H) -> H, size: nat, a: H, b: H, siblings: seq<H>, e1: H, e2: H, rest: Encoding<H>)
    requires size >= 2
    ensures var e := Foreign(node, a, b, siblings, e1, e2, rest); Traverse(node, size, |siblings| + 1, 0, e.bits, e.hashes).Duplicate?
    decreases |siblings|
  {
    var n := |siblings|;
    var e := Foreign(node, a, b, siblings, e1, e2, rest);
    if n == 0 {
      EqualLeavesDuplicate(node, size, 0, e.bits, e.hashes);
    } else {
      var below := Foreign(node, a, b, siblings[..n - 1], e1, e2, Encoding([false] + rest.bits, [siblings[n - 1]] + rest.hashes));
      ForeignIsDuplicate(node, size, a, b, siblings[..n - 1], e1, e2, Encoding([false] + rest.bits, [siblings[n - 1]] + rest.hashes));
      assert e.bits[1..] == below.bits;
    }
  }

  lemma {:induction false} EqualLeavesDuplicate<H>(node: (H, H) -> H, size: nat, k: nat, bits: seq<bool>, hashes: seq<H>)
    requires Alive(size, 0, 2 * k + 1) && |bits| >= 3 && |hashes| >= 2 && bits[0] && hashes[0] == hashes[1]
    ensures Traverse(node, size, 1, k, bits, hashes).Duplicate?
  {
    var left := Traverse(node, size, 0, 2 * k, bits[1..], hashes);
    assert left.bits == bits[2..] && left.hashes == hashes[1..] && left.hash == hashes[0];
    var right := Traverse(node, size, 0, 2 * k + 1, left.bits, left.hashes);
    assert right.Parsed? && right.hash == hashes[1];
  }

  /**
    Under any size from five up and against any root that is so combined, a message with e1 and e2
    for txids is accepted, although its traversal combines equal siblings.
  */
  lemma {:induction false} ForeignAccepted<H>(node: (H, H) -> H, size: nat, a: H, b: H, siblings: seq<H>, e1: H, e2: H)
      returns (flags: bytes, hashes: seq<H>)
    requires 5 <= size <= MAX_LEAVES && |siblings| + 1 == Depth(size) && e1 != e2 && Apart(node, a, b, siblings)
    ensures Run(node, size, Climb(node, a, b, siblings), Start(size, FlagBits(flags), hashes)) == Matched([e1, e2])
    ensures Traverse(node, size, Depth(size), 0, FlagBits(flags), hashes).Duplicate?
  {
    var d, root := Depth(size), Climb(node, a, b, siblings);
    var short := Foreign(node, a, b, siblings, e1, e2, Encoding([], []));
    flags, hashes := PackBits(short.bits), short.hashes;
    var padding := UnpackPacked(short.bits);
    assert [] + padding == padding;
    ForeignPadded(node, a, b, siblings, e1, e2, Encoding([], []), padding);
    ForeignIsDuplicate(node, size, a, b, siblings, e1, e2, Encoding(padding, []));
    DepthBound(size);
    RootAt(d);
    hide Traverse, FlagBits, PackBits;
    var m := Start(size, FlagBits(flags), hashes);
    var end := ForeignRun(node, size, root, a, b, siblings, e1, e2, m, Encoding(padding, []));
    assert end.s == [MerkleNode(m.pos, Some(root))] && end.r == [e1, e2];
    assert Step(node, size, root, end) == Done(Matched([e1, e2]));
  }

  /** The right siblings of nodes (1, 0) to (h - 1, 0) in a block's tree. */
  function SiblingsOf<H>(node: (H, H) -> H, txids: seq<H>, h: nat): (siblings: seq<H>)
    requires txids != [] && 1 <= h <= Depth(|txids|)
    ensures |siblings| == h - 1
  {
    if h == 1 then []
    else
      LeftHalfIsFull(|txids|, h - 1);
      SiblingsOf(node, txids, h - 1) + [TreeHash(node, txids, h - 1, 1)]
  }

  lemma {:induction false} ClimbIsTree<H>(node: (H, H) -> H, txids: seq<H>, h: nat)
    requires |txids| >= 2 && 1 <= h <= Depth(|txids|) && Alive(|txids|, h, 0) && DistinctSiblings(node, txids, h, 0)
    ensures Climb(node, txids[0], txids[1], SiblingsOf(node, txids, h)) == TreeHash(node, txids, h, 0)
    ensures Apart(node, txids[0], txids[1], SiblingsOf(node, txids, h))
    decreases h
  {
    hide Depth, FirstLeaf;
    LeftHalfIsFull(|txids|, h - 1);
    if h == 1 {
      PairHash(node, txids, 0);
    } else {
      var siblings := SiblingsOf(node, txids, h);
      assert siblings[..h - 2] == SiblingsOf(node, txids, h - 1);
      ClimbIsTree(node, txids, h - 1);
    }
  }

  lemma {:induction false} PairHash<H>(node: (H, H) -> H, txids: seq<H>, k: nat)
    requires Alive(|txids|, 1, k) && Alive(|txids|, 0, 2 * k + 1) && DistinctSiblings(node, txids, 1, k)
    ensures 2 * k + 1 < |txids| && TreeHash(node, txids, 1, k) == node(txids[2 * k], txids[2 * k + 1])
    ensures txids[2 * k] != txids[2 * k + 1]
  {
    hide Depth;
    AliveChildAndParent(|txids|, 1, k);
    assert TreeHash(node, txids, 0, 2 * k) == txids[2 * k] && TreeHash(node, txids, 0, 2 * k + 1) == txids[2 * k + 1];
  }

  /**
    For every block of five transactions and more and any two different hashes, there is a message
    that the checker accepts against the block's Merkle root with just those two as txids.
  */
  lemma {:induction false} ForeignTxidsAccepted<H>(node: (H, H) -> H, txids: seq<H>, e1: H, e2: H)
      returns (flags: bytes, hashes: seq<H>)
    requires 5 <= |txids| <= MAX_LEAVES && NoEqualSiblings(node, txids) && e1 != e2
    ensures Run(node, |txids|, MerkleRoot(node, txids), Start(|txids|, FlagBits(flags), hashes)) == Matched([e1, e2])
  {
    CornerIsAlive(|txids|);
    RootLeaves(|txids|);
    var d := Depth(|txids|);
    hide Run, Depth, FirstLeaf, FlagBits;
    ClimbIsTree(node, txids, d);
    flags, hashes := ForeignAccepted(node, |txids|, txids[0], txids[1], SiblingsOf(node, txids, d), e1, e2);
  }

  // ----- Blocks of at most four transactions -----

  /** Not the hash of two concatenated hashes. */
  ghost predicate Raw<H(!new)>(node: (H, H) -> H, x: H) {
    forall a, b :: node(a, b) != x
  }

  ghost predicate RawAt<H(!new)>(node: (H, H) -> H, n: MerkleNode<H>) {
    n.h.Some? && Raw(node, n.h.value)
  }

  /** The seven positions of a tree of depth two, as far as the walker's moves matter. */
  lemma {:induction false} SmallTree(size: nat)
    requires 3 <= size <= 4
    ensures Depth(size) == 2 && Pos(2, 2, 0) == 6 && Pos(2, 1, 0) == 4 && Pos(2, 1, 1) == 5
    ensures RightSiblingPos(4) == RightSiblingPos(5) == 5 && RightSiblingPos(6) == 7
    ensures Bit(5, 2) && Bit(5, 0) && ParentPos(2, 5) == 6 && Bit(6, 2) && !Bit(6, 0)
    ensures DeadZone(7, size) && !DeadZone(6, size) && !DeadZone(5, size)
  {
    assert Depth(2) == 1;
    assert Bit(6, 2) == Bit(3, 1) && Bit(5, 2) == Bit(2, 1) && Bit(2, 2) == Bit(1, 1);
    assert LeftmostLeaf(4, 6) == LeftmostLeaf(4, 4) == 0 && LeftmostLeaf(4, 5) == 2;
  }

  /**
    Node b of the stack, a child of the root, was left empty by equal children. Whatever comes now,
    it is not filled with the hash it ought to have: of its two children at most one is read as it
    is, and a combined one cannot be a txid.
  */
  ghost predicate Stuck<H(!new)>(node: (H, H) -> H, b: nat, want: H, m: Machine<H>) {
    var s, n := m.s, |m.s|;
    && 1 <= b <= 2 && n >= b + 1
    && s[0].h.None? && s[0].p == 6
    && RightSiblingPos(s[b].p) == 5
    && s[b].h != Some(want)
    && (b == 2 ==> s[1].h.Some? && (s[2].h.Some? ==> n == 3))
    && (n == b + 1 ==> m.pos == 5)
    && (n == b + 2 && RawAt(node, s[b + 1]) ==> m.pos == 6)
    && (n >= b + 3 && RawAt(node, s[b + 1]) && RawAt(node, s[b + 2]) ==> n == b + 3 && m.pos == 7)
  }

  /** The root was combined, but not to the hash it ought to have. */
  ghost predicate Lost<H>(size: nat, root: H, m: Machine<H>) {
    |m.s| == 1 && m.s[0].h != Some(root) && (m.s[0].h.None? ==> DeadZone(m.pos, size))
  }

  /** The hash of the empty node, and of the root above it. */
  ghost predicate Wants<H(!new)>(node: (H, H) -> H, b: nat, root: H, want: H, tl: H, tr: H) {
    && Injective(node)
    && want == node(tl, tr) && Raw(node, tl) && Raw(node, tr) && tl != tr
    && (exists x :: root == if b == 1 then node(want, x) else node(x, want))
  }

  lemma {:induction false} CombinedIsNotRaw<H(!new)>(node: (H, H) -> H, left: Option<H>, right: Option<H>)
    ensures var parent := MakeMerkleParent(node, left, right); parent.Some? ==> !Raw(node, parent.value)
  {
  }

  lemma {:induction false} StuckSingle<H(!new)>(node: (H, H) -> H, size: nat, root: H, b: nat, want: H, tl: H, tr: H, m: Machine<H>)
    requires 3 <= size <= 4 && Wants(node, b, root, want, tl, tr) && Stuck(node, b, want, m) && DeadZone(m.pos, size)
    ensures |m.s| >= 2 && Stuck(node, b, want, FoldSingle(node, m))
  {
    hide DeadZone, Raw;
    SmallTree(size);
    var n := |m.s|;
    CombinedIsNotRaw(node, m.s[n - 1].h, None);
  }

  lemma {:induction false} StuckPair<H(!new)>(node: (H, H) -> H, size: nat, root: H, b: nat, want: H, tl: H, tr: H, m: Machine<H>)
    requires 3 <= size <= 4 && Wants(node, b, root, want, tl, tr) && Stuck(node, b, want, m) && !DeadZone(m.pos, size)
    requires |m.s| >= 3 && m.s[|m.s| - 2].h.Some? && m.s[|m.s| - 1].h.Some?
    ensures var next := FoldPair(node, m); if |m.s| == 3 then Lost(size, root, next) else Stuck(node, b, want, next)
  {
    hide DeadZone, Raw;
    SmallTree(size);
    var n := |m.s|;
    CombinedIsNotRaw(node, m.s[n - 2].h, m.s[n - 1].h);
  }

  lemma {:induction false} StuckRead<H(!new)>(node: (H, H) -> H, size: nat, b: nat, want: H, m: Machine<H>)
    requires 3 <= size <= 4 && Stuck(node, b, want, m) && !DeadZone(m.pos, size)
    requires |m.s| == 2 || m.s[|m.s| - 2].h.None? || m.s[|m.s| - 1].h.None?
    requires ReadStep(size, m).Continue?
    ensures Stuck(node, b, want, ReadStep(size, m).next)
  {
    SmallTree(size);
    hide DeadZone, Raw, Depth, Bit, ParentPos, LeftChildPos, RightSiblingPos;
  }

  lemma {:induction false} LostIsNotMatched<H>(node: (H, H) -> H, size: nat, root: H, m: Machine<H>)
    requires Lost(size, root, m)
    ensures !Run(node, size, root, m).Matched?
  {
  }

  /** One turn leaves the machine stuck, lost, or stopped without a list. */
  lemma {:induction false} StuckStep<H(!new)>(node: (H, H) -> H, size: nat, root: H, b: nat, want: H, tl: H, tr: H, m: Machine<H>)
    requires 3 <= size <= 4 && Wants(node, b, root, want, tl, tr) && Stuck(node, b, want, m)
    ensures var r := Step(node, size, root, m);
      if r.Done? then !r.outcome.Matched? else Stuck(node, b, want, r.next) || Lost(size, root, r.next)
  {
    hide DeadZone, Depth, Bit, Wants, Raw, FoldSingle, FoldPair;
    var n := |m.s|;
    if DeadZone(m.pos, size) {
      StuckSingle(node, size, root, b, want, tl, tr, m);
    } else if n > 2 && m.s[n - 2].h.Some? && m.s[n - 1].h.Some? {
      StuckPair(node, size, root, b, want, tl, tr, m);
    } else if ReadStep(size, m).Continue? {
      StuckRead(node, size, b, want, m);
    }
  }

  /** From a stuck state no list is ever accepted. */
  lemma {:induction false} StuckIsNotMatched<H(!new)>(node: (H, H) -> H, size: nat, root: H, b: nat, want: H, tl: H, tr: H, m: Machine<H>)
    requires 3 <= size <= 4 && Wants(node, b, root, want, tl, tr) && Stuck(node, b, want, m)
    ensures !Run(node, size, root, m).Matched?
    decreases Measure(m)
  {
    hide Step, Wants, Stuck, Lost;
    StuckStep(node, size, root, b, want, tl, tr, m);
    var r := Step(node, size, root, m);
    if r.Done? {
    } else if Lost(size, root, r.next) {
      LostIsNotMatched(node, size, root, r.next);
    } else {
      StuckIsNotMatched(node, size, root, b, want, tl, tr, r.next);
    }
  }

  lemma {:induction false} DuplicateLeaves<H>(node: (H, H) -> H, size: nat, k: nat, bits: seq<bool>, hashes: seq<H>)
    requires Traverse(node, size, 1, k, bits, hashes).Duplicate?
    ensures Alive(size, 0, 2 * k + 1)
    ensures |bits| >= 3 && |hashes| >= 2 && bits[0] && hashes[0] == hashes[1]
  {
    var left := Traverse(node, size, 0, 2 * k, bits[1..], hashes);
    var right := Traverse(node, size, 0, 2 * k + 1, left.bits, left.hashes);
    assert left.Parsed? && right.Parsed? && left.hash == right.hash;
  }

  /** Equal leaves below node (1, k) leave it empty, and the walker on its right sibling's place. */
  lemma {:induction false} EmptyNode<H>(node: (H, H) -> H, size: nat, root: H, k: nat, m: Machine<H>)
      returns (next: Machine<H>)
    requires 1 <= size <= MAX_LEAVES && Alive(size, 1, k) && Ready(m.s) && m.pos == Pos(Depth(size), 1, k)
    requires Traverse(node, size, 1, k, m.bits, m.hashes).Duplicate?
    ensures Run(node, size, root, m) == Run(node, size, root, next)
    ensures next.s == m.s + [MerkleNode(m.pos, None)] && next.pos == RightSiblingPos(m.pos)
    ensures Alive(size, 0, 2 * k + 1)
  {
    hide Run, Step, DeadZone, FirstLeaf, Pow2, RowStart, Traverse;
    DuplicateLeaves(node, size, k, m.bits, m.hashes);
    var d, x := Depth(size), m.hashes[0];
    assert m.bits == [true, m.bits[1], m.bits[2]] + m.bits[3..] && m.hashes == [x, x] + m.hashes[2..];
    var a := ReadLeaves(node, size, root, k, m, m.bits[1], m.bits[2], x, x, m.bits[3..], m.hashes[2..]);
    FoldsPair(node, size, root, m.s, MerkleNode(m.pos, None), MerkleNode(Pos(d, 0, 2 * k), Some(x)), MerkleNode(Pos(d, 0, 2 * k + 1), Some(x)), a);
    next := a.(s := m.s + [MerkleNode(m.pos, None)], pos := RightSiblingPos(m.pos));
    StepRuns(node, size, root, a, next);
  }

  /** No txid is itself the hash of two concatenated hashes. */
  ghost predicate RawTxids<H(!new)>(node: (H, H) -> H, txids: seq<H>) {
    forall i :: 0 <= i < |txids| ==> Raw(node, txids[i])
  }

  /** The root hash of three or four transactions, and what keeps its children apart. */
  lemma {:induction false} SmallRoot<H>(node: (H, H) -> H, txids: seq<H>) returns (left: H, right: H)
    requires 3 <= |txids| <= 4 && NoEqualSiblings(node, txids)
    ensures MerkleRoot(node, txids) == node(left, right) && left == node(txids[0], txids[1])
    ensures |txids| == 4 ==> right == node(txids[2], txids[3]) && txids[2] != txids[3]
    ensures txids[0] != txids[1]
  {
    var size := |txids|;
    SmallTree(size);
    RootLeaves(size);
    LeftHalfIsFull(size, 1);
    LeftHalfIsFull(size, 0);
    hide Depth, Bit, DeadZone, LeftmostLeaf;
    left, right := TreeHash(node, txids, 1, 0), TreeHash(node, txids, 1, 1);
    PairHash(node, txids, 0);
    if size == 4 {
      assert Alive(size, 0, 3);
      PairHash(node, txids, 1);
    }
  }

  lemma {:induction false} SmallWants<H(!new)>(node: (H, H) -> H, txids: seq<H>) returns (left: H, right: H)
    requires 3 <= |txids| <= 4 && Injective(node) && RawTxids(node, txids) && NoEqualSiblings(node, txids)
    ensures Wants(node, 1, MerkleRoot(node, txids), left, txids[0], txids[1])
    ensures |txids| == 4 ==> Wants(node, 2, MerkleRoot(node, txids), right, txids[2], txids[3])
  {
    hide Raw, MerkleRoot, NoEqualSiblings;
    left, right := SmallRoot(node, txids);
  }

  lemma {:induction false} StuckAtStart<H(!new)>(node: (H, H) -> H, b: nat, want: H, m: Machine<H>)
    requires 1 <= b <= 2 && |m.s| == b + 1 && m.s[0] == MerkleNode(6, None) && (b == 2 ==> m.s[1].h.Some?)
    requires m.s[b].h.None? && RightSiblingPos(m.s[b].p) == 5 == m.pos
    ensures Stuck(node, b, want, m)
  {
    hide Raw, RightSiblingPos;
  }

  /** Equal leaves below a child of the root: b is its place on the stack. */
  lemma {:induction false} SmallEmptyChild<H(!new)>(node: (H, H) -> H, size: nat, root: H, b: nat, want: H, tl: H, tr: H, m: Machine<H>)
    requires 3 <= size <= 4 && 1 <= b <= 2 && Wants(node, b, root, want, tl, tr)
    requires |m.s| == b && m.s[0] == MerkleNode(6, None) && m.pos == 3 + b && (b == 2 ==> m.s[1].h.Some?)
    requires Traverse(node, size, 1, b - 1, m.bits, m.hashes).Duplicate?
    ensures !Run(node, size, root, m).Matched?
  {
    hide Wants, Stuck, Run, Traverse, DeadZone, Bit, ParentPos, RowStart, FirstLeaf;
    SmallTree(size);
    LeftHalfIsFull(size, 1);
    var next := EmptyNode(node, size, root, b - 1, m);
    StuckAtStart(node, b, want, next);
    StuckIsNotMatched(node, size, root, b, want, tl, tr, next);
  }

  /** Opening the root of a small tree. */
  lemma {:induction false} SmallOpen<H>(node: (H, H) -> H, size: nat, root: H, bits: seq<bool>, hashes: seq<H>)
      returns (a: Machine<H>)
    requires 3 <= size <= 4 && Traverse(node, size, 2, 0, bits, hashes).Duplicate?
    ensures bits != [] && bits[0]
    ensures Run(node, size, root, Start(size, bits, hashes)) == Run(node, size, root, a)
    ensures a == Machine([MerkleNode(6, None)], 4, bits[1..], hashes, [])
    ensures Alive(size, 1, 0) && Depth(size) == 2
  {
    SmallTree(size);
    RootAtStart(size, bits, hashes);
    if hashes == [] {
      NoHashesIsShort(node, size, 2, 0, bits, hashes);
    }
    hide Run, Step, DeadZone, FirstLeaf, Pow2, RowStart;
    var m := Start(size, bits, hashes);
    a := OpenNode(node, size, root, 2, 0, m);
    StepRuns(node, size, root, m, a);
  }

  lemma {:induction false} SmallFillLeft<H>(node: (H, H) -> H, size: nat, root: H, a: Machine<H>) returns (b: Machine<H>)
    requires 3 <= size <= 4 && a.s == [MerkleNode(6, None)] && a.pos == 4
    requires Traverse(node, size, 1, 0, a.bits, a.hashes).Parsed?
    ensures Run(node, size, root, a) == Run(node, size, root, b)
    ensures |b.s| == 2 && b.s[0] == MerkleNode(6, None) && b.s[1].h.Some? && b.pos == 5
    ensures var left := Traverse(node, size, 1, 0, a.bits, a.hashes); b.bits == left.bits && b.hashes == left.hashes
  {
    SmallTree(size);
    LeftHalfIsFull(size, 1);
    hide Run, SafeRun, DeadZone, FirstLeaf, Pow2, RowStart, Traverse;
    b := Simulate(node, size, root, 1, 0, a);
  }

  /** Three or four transactions: equal siblings anywhere rule acceptance out. */
  lemma {:induction false} SmallDuplicate<H(!new)>(node: (H, H) -> H, txids: seq<H>, bits: seq<bool>, hashes: seq<H>)
    requires 3 <= |txids| <= 4 && Injective(node) && RawTxids(node, txids) && NoEqualSiblings(node, txids)
    requires Traverse(node, |txids|, 2, 0, bits, hashes).Duplicate?
    ensures !Run(node, |txids|, MerkleRoot(node, txids), Start(|txids|, bits, hashes)).Matched?
  {
    hide Run, Wants, Injective, RawTxids, NoEqualSiblings, MerkleRoot, Depth, FirstLeaf;
    var size, root := |txids|, MerkleRoot(node, txids);
    var wantLeft, wantRight := SmallWants(node, txids);
    var a := SmallOpen(node, size, root, bits, hashes);
    var left := Traverse(node, size, 1, 0, bits[1..], hashes);
    if left.Duplicate? {
      SmallEmptyChild(node, size, root, 1, wantLeft, txids[0], txids[1], a);
    } else if Traverse(node, size, 1, 1, left.bits, left.hashes).Duplicate? {
      var b := SmallFillLeft(node, size, root, a);
      OnlyFourHaveFour(node, size, left.bits, left.hashes);
      SmallEmptyChild(node, size, root, 2, wantRight, txids[2], txids[3], b);
    } else {
      EqualRootChildrenPanic(node, size, root, bits, hashes);
    }
  }

  lemma {:induction false} OnlyFourHaveFour<H>(node: (H, H) -> H, size: nat, bits: seq<bool>, hashes: seq<H>)
    requires 3 <= size <= 4 && Traverse(node, size, 1, 1, bits, hashes).Duplicate?
    ensures size == 4
  {
    DuplicateLeaves(node, size, 1, bits, hashes);
  }

  /** With at most four transactions every accepted message is one whose traversal is in order. */
  lemma {:induction false} SmallBlockInOrder<H(!new)>(node: (H, H) -> H, txids: seq<H>, bits: seq<bool>, hashes: seq<H>)
    requires 1 <= |txids| <= 4 && Injective(node) && RawTxids(node, txids) && NoEqualSiblings(node, txids)
    requires Run(node, |txids|, MerkleRoot(node, txids), Start(|txids|, bits, hashes)).Matched?
    ensures !Traverse(node, |txids|, Depth(|txids|), 0, bits, hashes).Duplicate?
  {
    if Traverse(node, |txids|, Depth(|txids|), 0, bits, hashes).Duplicate? {
      if |txids| >= 3 {
        SmallTree(|txids|);
        SmallDuplicate(node, txids, bits, hashes);
      } else if |txids| == 2 {
        assert Depth(2) == 1;
        EqualRootChildrenPanic(node, 2, MerkleRoot(node, txids), bits, hashes);
      }
    }
  }

  // ----- The exact answer -----

  ghost predicate IsSelection<H(!new)>(txids: seq<H>, list: seq<H>) {
    exists wanted: seq<bool> :: |wanted| == |txids| && Selected(txids, wanted) == list
  }

  /** If this message with the block's own transaction count is accepted, then with txids of the block, in block order. */
  ghost predicate Honest<H(!new)>(node: (H, H) -> H, txids: seq<H>, flags: bytes, hashes: seq<H>)
    requires txids != []
  {
    var out := Run(node, |txids|, MerkleRoot(node, txids), Start(|txids|, FlagBits(flags), hashes));
    out.Matched? ==> IsSelection(txids, out.txids)
  }

  /** Whatever flags and hashes a peer sends along with the right count, an accepted list is a selection of the block's txids. */
  ghost predicate Sound<H(!new)>(node: (H, H) -> H, txids: seq<H>)
    requires txids != []
  {
    forall flags: bytes, hashes: seq<H> :: Honest(node, txids, flags, hashes)
  }

  lemma {:induction false} SelectedIsSubset<H>(txids: seq<H>, wanted: seq<bool>, x: H)
    requires |txids| == |wanted| && x in Selected(txids, wanted)
    ensures x in txids
  {
    if wanted[0] && x == txids[0] {
    } else {
      SelectedIsSubset(txids[1..], wanted[1..], x);
    }
  }

  /**
    On all messages whose transaction count is the block's, acceptance can be trusted exactly for
    blocks of at most four transactions. `MerkleClaims` drops the restriction on the count.
  */
  lemma {:induction false} SoundIffSmall<H(!new)>(node: (H, H) -> H, txids: seq<H>)
    requires 1 <= |txids| <= MAX_LEAVES && Injective(node) && RawTxids(node, txids) && NoEqualSiblings(node, txids)
    ensures Sound(node, txids) <==> |txids| <= 4
  {
    if |txids| <= 4 {
      forall flags: bytes, hashes: seq<H>
        ensures Honest(node, txids, flags, hashes)
      {
        if Run(node, |txids|, MerkleRoot(node, txids), Start(|txids|, FlagBits(flags), hashes)).Matched? {
          SmallBlockInOrder(node, txids, FlagBits(flags), hashes);
          var wanted := AcceptedListIsFromBlock(node, txids, FlagBits(flags), hashes);
        }
      }
    } else {
      var e1, e2 := node(txids[0], txids[1]), txids[0];
      assert Raw(node, txids[0]);
      var flags, hashes := ForeignTxidsAccepted(node, txids, e1, e2);
      assert !Honest(node, txids, flags, hashes) by {
        if IsSelection(txids, [e1, e2]) {
          var wanted: seq<bool> :| |wanted| == |txids| && Selected(txids, wanted) == [e1, e2];
          SelectedIsSubset(txids, wanted, e1);
        }
      }
    }
  }

  /** The machine accepts this message exactly if the recursive traversal computes the root, and with the same txids. */
  ghost predicate Agrees<H(!new)>(node: (H, H) -> H, size: nat, root: H, flags: bytes, hashes: seq<H>) {
    var out := Run(node, size, root, Start(size, FlagBits(flags), hashes));
    var check := RootCheck(Traverse(node, size, Depth(size), 0, FlagBits(flags), hashes), root);
    (out.Matched? || check.Matched?) ==> out == check
  }

  /** Agreement with the traversal on all messages with the block's transaction count, equal siblings included, has the same limit. */
  lemma {:induction false} AgreesIffSmall<H(!new)>(node: (H, H) -> H, txids: seq<H>)
    requires 1 <= |txids| <= MAX_LEAVES && Injective(node) && RawTxids(node, txids) && NoEqualSiblings(node, txids)
    ensures (forall flags: bytes, hashes: seq<H> :: Agrees(node, |txids|, MerkleRoot(node, txids), flags, hashes)) <==> |txids| <= 4
  {
    var root := MerkleRoot(node, txids);
    hide Injective, RawTxids, NoEqualSiblings, MerkleRoot, Run, Traverse;
    if |txids| <= 4 {
      forall flags: bytes, hashes: seq<H>
        ensures Agrees(node, |txids|, root, flags, hashes)
      {
        var bits := FlagBits(flags);
        if Run(node, |txids|, root, Start(|txids|, bits, hashes)).Matched? {
          SmallBlockInOrder(node, txids, bits, hashes);
        }
        if !Traverse(node, |txids|, Depth(|txids|), 0, bits, hashes).Duplicate? {
          MachineRefinesTraversal(node, |txids|, root, bits, hashes);
        }
      }
    } else {
      SoundIffSmall(node, txids);
      var flags: bytes, hashes: seq<H> :| !Honest(node, txids, flags, hashes);
      if Agrees(node, |txids|, root, flags, hashes) {
        var wanted := AcceptedListIsFromBlock(node, txids, FlagBits(flags), hashes);
      }
    }
  }

  // ----- One such message, spelled out -----

  lemma {:induction false} EightLeaves()
    ensures Depth(8) == 3 && Alive(8, 3, 0) && Alive(8, 2, 0) && Alive(8, 2, 1)
    ensures Alive(8, 1, 0) && Alive(8, 1, 1) && Alive(8, 1, 2) && Alive(8, 1, 3) && Alive(8, 0, 1)
  {
    assert Depth(4) == 2 && Depth(2) == 1;
    assert FirstLeaf(2, 1) == FirstLeaf(1, 2) == 4 && FirstLeaf(1, 3) == 6 && FirstLeaf(3, 0) == FirstLeaf(2, 0) == 0;
  }

  /** The root and its left child, still empty. */
  function TwoOpen<H>(): seq<MerkleNode<H>> {
    [MerkleNode(Pos(3, 3, 0), None), MerkleNode(Pos(3, 2, 0), None)]
  }

  /** First: e1 and e2 are matched, and the node above them is left empty. */
  lemma {:induction false} EightFirst<H>(node: (H, H) -> H, root: H, e1: H, e2: H, bits: seq<bool>, hashes: seq<H>)
    requires e1 != e2
    ensures Run(node, 8, root, Start(8, [true, true] + ([true, true, true] + ([false] + bits)), [e1, e2] + ([node(e1, e2)] + hashes)))
         == Run(node, 8, root, Machine(TwoOpen(), Pos(3, 2, 1), bits, hashes, [e1, e2]))
  {
    hide Run, Step, DeadZone, FirstLeaf, Pow2, RowStart;
    EightLeaves();
    var v := node(e1, e2);
    var m := Start(8, [true, true] + ([true, true, true] + ([false] + bits)), [e1, e2] + ([v] + hashes));
    RootAtStart(8, m.bits, m.hashes);
    var a := OpenNode(node, 8, root, 3, 0, m);
    StepRuns(node, 8, root, m, a);
    var b := OpenNode(node, 8, root, 2, 0, a);
    StepRuns(node, 8, root, a, b);
    var open := MerkleNode(Pos(3, 1, 0), None);
    var left, right := open.(h := Some(v)), MerkleNode(Pos(3, 1, 1), Some(v));
    var c := ReadLeaves(node, 8, root, 0, b, true, true, e1, e2, [false] + bits, [v] + hashes);
    assert c.r == [e1, e2];
    FoldsPair(node, 8, root, TwoOpen(), open, MerkleNode(Pos(3, 0, 0), Some(e1)), MerkleNode(Pos(3, 0, 1), Some(e2)), c);
    SiblingOfZero(8, 1);
    var d := Machine(TwoOpen() + [left], Pos(3, 1, 1), [false] + bits, [v] + hashes, [e1, e2]);
    StepRuns(node, 8, root, c, d);
    var e := ReadNode(node, 8, root, 1, 1, d);
    StepRuns(node, 8, root, d, e);
    NotDeadAfterRight(8, 2, 0, e.pos);
    assert e.s == [TwoOpen<H>()[0]] + [TwoOpen<H>()[1], left, right];
    FoldsPair(node, 8, root, [TwoOpen<H>()[0]], TwoOpen<H>()[1], left, right, e);
    SiblingOfZero(8, 2);
    StepRuns(node, 8, root, e, Machine(TwoOpen(), Pos(3, 2, 1), bits, hashes, [e1, e2]));
  }

  /** Opening the root's right child again, and combining what is read below it. */
  lemma {:induction false} EightBelow<H>(node: (H, H) -> H, root: H, x: H, y: H, bits: seq<bool>, hashes: seq<H>, r: seq<H>)
    requires x != y
    ensures Run(node, 8, root, Machine(TwoOpen(), Pos(3, 2, 1), [true, false, false] + bits, [x, y] + hashes, r))
         == Run(node, 8, root, Machine(TwoOpen() + [MerkleNode(Pos(3, 2, 1), Some(node(x, y)))], Pos(3, 2, 1), bits, hashes, r))
  {
    hide Run, Step, DeadZone, FirstLeaf, Pow2, RowStart;
    EightLeaves();
    SiblingOfZero(8, 2);
    var m := Machine(TwoOpen(), Pos(3, 2, 1), [true, false, false] + bits, [x, y] + hashes, r);
    var a := OpenNode(node, 8, root, 2, 1, m);
    StepRuns(node, 8, root, m, a);
    var b := ReadNode(node, 8, root, 1, 2, a);
    StepRuns(node, 8, root, a, b);
    assert b.bits == [false] + bits && b.hashes == [y] + hashes;
    var c := ReadNode(node, 8, root, 1, 3, b);
    StepRuns(node, 8, root, b, c);
    assert c.bits == bits && c.hashes == hashes;
    NotDeadAfterRight(8, 2, 1, c.pos);
    var open := MerkleNode(Pos(3, 2, 1), None);
    FoldsPair(node, 8, root, TwoOpen(), open, MerkleNode(Pos(3, 1, 2), Some(x)), MerkleNode(Pos(3, 1, 3), Some(y)), c);
    StepRuns(node, 8, root, c, Machine(TwoOpen() + [open.(h := Some(node(x, y)))], Pos(3, 2, 1), bits, hashes, r));
  }

  /** Then: the empty node is filled from its true grandchildren, read below and at its sibling's place. */
  lemma {:induction false} EightSecond<H>(node: (H, H) -> H, root: H, x: H, y: H, z: H, bits: seq<bool>, hashes: seq<H>, r: seq<H>)
    requires x != y && node(x, y) != z
    ensures Run(node, 8, root, Machine(TwoOpen(), Pos(3, 2, 1), [true, false, false, false] + bits, [x, y, z] + hashes, r))
         == Run(node, 8, root, Machine([MerkleNode(Pos(3, 3, 0), None), MerkleNode(Pos(3, 2, 0), Some(node(node(x, y), z)))],
                                       Pos(3, 2, 1), bits, hashes, r))
  {
    hide Run, RowStart, Pow2;
    EightLeaves();
    SiblingOfZero(8, 2);
    assert [true, false, false, false] + bits == [true, false, false] + ([false] + bits) && [x, y, z] + hashes == [x, y] + ([z] + hashes);
    EightBelow(node, root, x, y, [false] + bits, [z] + hashes, r);
    var top, left := TwoOpen<H>()[0], TwoOpen<H>()[1];
    var filled := MerkleNode(Pos(3, 2, 1), Some(node(x, y)));
    var d := Machine(TwoOpen() + [filled], Pos(3, 2, 1), [false] + bits, [z] + hashes, r);
    assert d.s[..1] == [top];
    EightThird(node, root, filled, left, z, d, bits, hashes);
    assert [top] + [left.(h := Some(node(node(x, y), z)))]
        == [MerkleNode(Pos(3, 3, 0), None), MerkleNode(Pos(3, 2, 0), Some(node(node(x, y), z)))];
  }

  /** A hash read at the right child of the root goes together with the filled node below it. */
  lemma {:induction false} EightThird<H>(node: (H, H) -> H, root: H, filled: MerkleNode<H>, parent: MerkleNode<H>, z: H, m: Machine<H>,
                                         bits: seq<bool>, hashes: seq<H>)
    requires |m.s| >= 2 && m.s == m.s[..|m.s| - 2] + [parent, filled] && parent.h.None? && filled.h.Some? && filled.h != Some(z)
    requires m.pos == Pos(3, 2, 1) && m.bits == [false] + bits && m.hashes == [z] + hashes
    ensures Run(node, 8, root, m)
         == Run(node, 8, root, Machine(m.s[..|m.s| - 2] + [parent.(h := Some(node(filled.h.value, z)))], RightSiblingPos(parent.p), bits, hashes, m.r))
  {
    hide Run, Step, DeadZone, FirstLeaf, Pow2, RowStart, RightSiblingPos;
    EightLeaves();
    var a := ReadNode(node, 8, root, 2, 1, m);
    StepRuns(node, 8, root, m, a);
    assert a.bits == bits && a.hashes == hashes && a.r == m.r;
    NotDeadAfterRight(8, 3, 0, a.pos);
    var s := m.s[..|m.s| - 2];
    assert a.s == s + [parent, filled, MerkleNode(Pos(3, 2, 1), Some(z))];
    FoldsPair(node, 8, root, s, parent, filled, MerkleNode(Pos(3, 2, 1), Some(z)), a);
    StepRuns(node, 8, root, a, a.(s := s + [parent.(h := Some(node(filled.h.value, z)))], pos := RightSiblingPos(parent.p)));
  }

  /**
    A block of eight and any two different hashes: the checker takes the two for txids of the block.
    The message has eleven flag bits and seven hashes.
  */
  lemma {:induction false} EightTransactions<H>(node: (H, H) -> H, t: seq<H>, e1: H, e2: H)
    requires |t| == 8 && NoEqualSiblings(node, t) && e1 != e2
    ensures Run(node, 8, MerkleRoot(node, t),
                Start(8, [true, true, true, true, true, false, true, false, false, false, false],
                      [e1, e2, node(e1, e2), t[0], t[1], node(t[2], t[3]), node(node(t[4], t[5]), node(t[6], t[7]))]))
         == Matched([e1, e2])
  {
    hide Run;
    var root := MerkleRoot(node, t);
    var left, right := node(node(t[0], t[1]), node(t[2], t[3])), node(node(t[4], t[5]), node(t[6], t[7]));
    EightRoot(node, t);
    var h1 := [t[0], t[1], node(t[2], t[3])] + [right];
    EightFirst(node, root, e1, e2, [true, false, false, false] + [false], h1);
    EightSecond(node, root, t[0], t[1], node(t[2], t[3]), [false], [right], [e1, e2]);
    assert [true, true] + ([true, true, true] + ([false] + ([true, false, false, false] + [false])))
        == [true, true, true, true, true, false, true, false, false, false, false];
    assert [e1, e2] + ([node(e1, e2)] + h1) == [e1, e2, node(e1, e2), t[0], t[1], node(t[2], t[3]), right];
    EightLast(node, root, left, right, [e1, e2]);
  }

  lemma {:induction false} EightLast<H>(node: (H, H) -> H, root: H, left: H, right: H, r: seq<H>)
    requires left != right && root == node(left, right)
    ensures Run(node, 8, root, Machine([MerkleNode(Pos(3, 3, 0), None), MerkleNode(Pos(3, 2, 0), Some(left))], Pos(3, 2, 1), [false], [right], r))
         == Matched(r)
  {
    var top, filled := MerkleNode(Pos(3, 3, 0), None), MerkleNode(Pos(3, 2, 0), Some(left));
    var m := Machine([top, filled], Pos(3, 2, 1), [false], [right], r);
    assert m.s == m.s[..0] + [top, filled] && m.bits == [false] + [] && m.hashes == [right] + [];
    EightThird(node, root, filled, top, right, m, [], []);
    var end := Machine(m.s[..0] + [top.(h := Some(root))], RightSiblingPos(top.p), [], [], r);
    assert Step(node, 8, root, end) == Done(Matched(r));
  }

  lemma {:induction false} EightRoot<H>(node: (H, H) -> H, t: seq<H>)
    requires |t| == 8 && NoEqualSiblings(node, t)
    ensures var left, right := node(node(t[0], t[1]), node(t[2], t[3])), node(node(t[4], t[5]), node(t[6], t[7]));
      && MerkleRoot(node, t) == node(left, right) && left != right
      && t[0] != t[1] && node(t[0], t[1]) != node(t[2], t[3])
  {
    EightLeaves();
    RootLeaves(8);
    hide Depth, FirstLeaf;
    assert DistinctSiblings(node, t, 2, 0) && DistinctSiblings(node, t, 2, 1);
    EightPairs(node, t, 0);
    EightPairs(node, t, 1);
  }

  lemma {:induction false} EightPairs<H>(node: (H, H) -> H, t: seq<H>, k: nat)
    requires |t| == 8 && k <= 1 && Alive(8, 2, k) && DistinctSiblings(node, t, 2, k)
    ensures TreeHash(node, t, 2, k) == node(node(t[4 * k], t[4 * k + 1]), node(t[4 * k + 2], t[4 * k + 3]))
    ensures t[4 * k] != t[4 * k + 1] && node(t[4 * k], t[4 * k + 1]) != node(t[4 * k + 2], t[4 * k + 3])
  {
    EightLeaves();
    hide Depth;
    PairHash(node, t, 2 * k);
    PairHash(node, t, 2 * k + 1);
  }

  // ----- The premises can be met -----

  /** Hashing without collisions, in its purest form. */
  datatype Term = Txid(id: nat) | Pair(left: Term, right: Term)

  function PairOf(a: Term, b: Term): Term {
    Pair(a, b)
  }

  lemma {:induction false} TermsAreFree(txids: seq<Term>)
    requires forall i :: 0 <= i < |txids| ==> txids[i].Txid?
    ensures Injective(PairOf) && RawTxids(PairOf, txids)
  {
  }
}
