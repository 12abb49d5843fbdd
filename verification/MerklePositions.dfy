/**
  The node numbering of the partial Merkle tree walker in uspv/mblock.go.

  A tree over `size` leaves has depth d, the least e with size <= 2^e, and msb = 2^d.
  Leaves sit at positions 0 .. msb-1; the row above starts at msb; the root is 2*msb - 2.
  The walker never stores coordinates: it moves with `pos>>1 | msb`, `(pos^msb)<<1` and
  `pos | 1` on uint32. `Pos` ties those moves to (row, index) coordinates.
*/
module MerklePositions {
  import opened Basics
  import opened Powers

  const MAX_LEAVES := 0x8000_0000

  // ----- Depth of the tree -----

  /** d is the least exponent with n <= 2^d. */
  ghost predicate IsDepth(n: nat, d: nat) {
    n <= Pow2(d) && (d > 0 ==> Pow2(d - 1) < n)
  }

  function Depth(n: nat): (d: nat)
    ensures IsDepth(n, d)
  {
    if n <= 1 then 0 else 1 + Depth((n + 1) / 2)
  }

  lemma {:induction false} DepthIsUnique(n: nat, d: nat)
    requires IsDepth(n, d)
    ensures d == Depth(n)
  {
    if d < Depth(n) {
      Pow2Monotone(d, Depth(n) - 1);
    } else if Depth(n) < d {
      Pow2Monotone(Depth(n), d - 1);
    }
  }

  lemma {:induction false} DepthBound(n: nat)
    requires n <= MAX_LEAVES
    ensures Depth(n) <= 31
    ensures Pow2(Depth(n)) <= MAX_LEAVES
  {
    Pow2Values();
    if Depth(n) > 31 {
      Pow2Monotone(31, Depth(n) - 1);
    }
    Pow2Monotone(Depth(n), 31);
  }

  /** treeDepth: counts up until 1<<e reaches n. Above 2^31 leaves the uint32 shift is lost. */
  method TreeDepth(n: nat) returns (e: nat)
    requires n <= MAX_LEAVES
    ensures e == Depth(n) && e <= 31
  {
    DepthBound(n);
    e := 0;
    while Pow2(e) < n
      invariant e > 0 ==> Pow2(e - 1) < n
      invariant e <= Depth(n)
      decreases Depth(n) - e
    {
      e := e + 1;
    }
    DepthIsUnique(n, e);
  }

  // ----- uint32 bit operations with a one-bit mask 1<<e -----

  predicate Bit(x: nat, e: nat) {
    if e == 0 then x % 2 == 1 else Bit(x / 2, e - 1)
  }

  lemma {:induction false} BitOfSmall(x: nat, e: nat)
    ensures x < Pow2(e) ==> !Bit(x, e)
    ensures Pow2(e) <= x < 2 * Pow2(e) ==> Bit(x, e)
  {
    if e == 0 {
    } else {
      BitOfSmall(x / 2, e - 1);
    }
  }

  lemma {:induction false} BitBound(x: nat, e: nat)
    requires Bit(x, e)
    ensures x >= Pow2(e)
  {
    if e == 0 {
    } else {
      BitBound(x / 2, e - 1);
    }
  }

  function OrBit(x: nat, e: nat): nat {
    if Bit(x, e) then x else x + Pow2(e)
  }

  function XorBit(x: nat, e: nat): nat {
    if Bit(x, e) then BitBound(x, e); x - Pow2(e) else x + Pow2(e)
  }

  function Shl1(x: nat): nat {
    2 * x % UINT32
  }

  // ----- The walker's moves; d stands for the exponent of msb -----

  /** pos>>1 | msb */
  function ParentPos(d: nat, pos: nat): nat {
    OrBit(pos / 2, d)
  }

  /** (pos^msb) << 1 */
  function LeftChildPos(d: nat, pos: nat): nat {
    Shl1(XorBit(pos, d))
  }

  /** pos | 1 */
  function RightSiblingPos(pos: nat): nat {
    OrBit(pos, 0)
  }

  /** (msb<<1) - 2 in uint32. */
  function RootPos(d: nat): nat {
    (Shl1(Pow2(d)) + UINT32 - 2) % UINT32
  }

  // ----- Coordinates -----

  /** Row h, counted from the leaves, starts here. */
  function RowStart(d: nat, h: nat): nat
    requires h <= d
  {
    Pow2Monotone(d - h, d);
    2 * Pow2(d) - 2 * Pow2(d - h)
  }

  function Pos(d: nat, h: nat, k: nat): nat
    requires h <= d
  {
    RowStart(d, h) + k
  }

  ghost predicate InRow(d: nat, h: nat, k: nat) {
    h <= d && Pow2(d) <= MAX_LEAVES && k < Pow2(d - h)
  }

  lemma {:induction false} RootAt(d: nat)
    requires Pow2(d) <= MAX_LEAVES
    ensures RootPos(d) == 2 * Pow2(d) - 2 == Pos(d, d, 0)
  {
    var p := Pow2(d);
    if p == MAX_LEAVES {
      assert Shl1(p) == 0;
    } else {
      assert Shl1(p) == 2 * p;
    }
  }

  lemma {:induction false} PosRange(d: nat, h: nat, k: nat)
    requires InRow(d, h, k)
    ensures Pos(d, h, k) <= 2 * Pow2(d) - 2
    ensures Bit(Pos(d, h, k), d) <==> h > 0
    ensures Bit(Pos(d, h, k), d) <==> Pos(d, h, k) >= Pow2(d)
  {
    Pow2Monotone(d - h, d);
    BitOfSmall(Pos(d, h, k), d);
    assert h > 0 ==> Pow2(d) >= 2 * Pow2(d - h) by {
      if h > 0 {
        Pow2Monotone(d - h + 1, d);
      }
    }
  }

  lemma {:induction false} SiblingAt(d: nat, h: nat, k: nat)
    requires h <= d
    ensures Bit(Pos(d, h, k), 0) <==> k % 2 == 1
    ensures RightSiblingPos(Pos(d, h, k)) == Pos(d, h, if k % 2 == 1 then k else k + 1)
  {
  }

  lemma {:induction false} LeftChildAt(d: nat, h: nat, k: nat)
    requires InRow(d, h, k) && h > 0
    ensures LeftChildPos(d, Pos(d, h, k)) == Pos(d, h - 1, 2 * k)
    ensures InRow(d, h - 1, 2 * k) && InRow(d, h - 1, 2 * k + 1)
  {
    PosRange(d, h, k);
    assert Pow2(d - (h - 1)) == 2 * Pow2(d - h);
  }

  lemma {:induction false} ParentAt(d: nat, h: nat, k: nat)
    requires InRow(d, h, k) && h < d
    ensures ParentPos(d, Pos(d, h, k)) == Pos(d, h + 1, k / 2)
    ensures InRow(d, h + 1, k / 2)
  {
    Pow2Monotone(d - h, d);
    assert Pow2(d - h) == 2 * Pow2(d - (h + 1));
    BitOfSmall(Pos(d, h, k) / 2, d);
  }

  // ----- Real nodes and padding -----

  /** The leaf reached from pos by going down to the left until the bottom row. */
  function LeftmostLeaf(msb: nat, pos: nat): nat
    requires pos < 2 * msb
  {
    if pos < msb then pos else LeftmostLeaf(msb, 2 * (pos - msb))
  }

  /** The same leaf, from coordinates. */
  function FirstLeaf(h: nat, k: nat): nat {
    if h == 0 then k else FirstLeaf(h - 1, 2 * k)
  }

  lemma {:induction false} LeftmostLeafAt(d: nat, h: nat, k: nat)
    requires InRow(d, h, k)
    ensures Pos(d, h, k) < 2 * Pow2(d)
    ensures LeftmostLeaf(Pow2(d), Pos(d, h, k)) == FirstLeaf(h, k)
    decreases h
  {
    PosRange(d, h, k);
    if h == 0 {
    } else {
      LeftChildAt(d, h, k);
      LeftmostLeafAt(d, h - 1, 2 * k);
    }
  }

  /** Padding: off the tree, or only leaves at or beyond `size` below it. */
  predicate DeadZone(pos: nat, size: nat) {
    var msb := Pow2(Depth(size));
    pos > 2 * msb - 2 || LeftmostLeaf(msb, pos) >= size
  }

  /** Node (h, k) has at least one real leaf below it. */
  predicate Alive(size: nat, h: nat, k: nat) {
    h <= Depth(size) && FirstLeaf(h, k) < size
  }

  lemma {:induction false} AliveInRow(size: nat, h: nat, k: nat)
    requires Alive(size, h, k) && size <= MAX_LEAVES
    ensures InRow(Depth(size), h, k)
    decreases h
  {
    hide Depth;
    DepthBound(size);
    if h == 0 {
    } else {
      AliveInRow(size, h - 1, 2 * k);
    }
  }

  lemma {:induction false} DeadZoneAt(size: nat, h: nat, k: nat)
    requires InRow(Depth(size), h, k)
    ensures DeadZone(Pos(Depth(size), h, k), size) <==> !Alive(size, h, k)
  {
    PosRange(Depth(size), h, k);
    LeftmostLeafAt(Depth(size), h, k);
  }

  lemma {:induction false} FirstLeafMonotone(h: nat, k: nat, k': nat)
    requires k <= k'
    ensures FirstLeaf(h, k) <= FirstLeaf(h, k')
  {
    if h == 0 {
    } else {
      FirstLeafMonotone(h - 1, 2 * k, 2 * k');
    }
  }

  /** A real node's left child is real, and so is its parent. */
  lemma {:induction false} AliveChildAndParent(size: nat, h: nat, k: nat)
    requires Alive(size, h, k)
    ensures h > 0 ==> Alive(size, h - 1, 2 * k)
    ensures h < Depth(size) ==> Alive(size, h + 1, k / 2)
  {
    FirstLeafMonotone(h, 2 * (k / 2), k);
  }

  // ----- inDeadZone -----

  /** n >> j */
  function Shr(n: nat, j: nat): nat {
    if j == 0 then n else Shr(n, j - 1) / 2
  }

  lemma {:induction false} ShrBound(n: nat, d: nat, j: nat)
    requires j <= d && n < Pow2(d)
    ensures Shr(n, j) < Pow2(d - j)
  {
    if j == 0 {
    } else {
      ShrBound(n, d, j - 1);
    }
  }

  /** In row j the last real node has index (size-1) >> j. */
  lemma {:induction false} IndexBeyondLast(size: nat, j: nat, k: nat)
    requires size >= 1
    ensures k > Shr(size - 1, j) <==> FirstLeaf(j, k) >= size
  {
    if j == 0 {
    } else {
      IndexBeyondLast(size, j - 1, 2 * k);
    }
  }

  lemma {:induction false} ClimbStart(d: nat, n: nat)
    ensures Pos(d, 0, Shr(n, 0)) == n && RowStart(d, 0) == 0
  {
  }

  /** One turn of the climb: the row boundary and the last real node both move to their parents. */
  lemma {:induction false} ClimbStep(d: nat, j: nat, n: nat)
    requires j < d && Pow2(d) <= MAX_LEAVES && n < Pow2(d)
    ensures Pow2(d - j) <= 2 * Pow2(d)
    ensures RowStart(d, j + 1) == 2 * Pow2(d) - Pow2(d - j)
    ensures ParentPos(d, 2 * Pow2(d) - Pow2(d - j)) == 2 * Pow2(d) - Pow2(d - (j + 1))
    ensures ParentPos(d, Pos(d, j, Shr(n, j))) == Pos(d, j + 1, Shr(n, j + 1))
  {
    Pow2Monotone(d - j, d);
    assert Pow2(d - j) == 2 * Pow2(d - (j + 1));
    BitOfSmall((2 * Pow2(d) - Pow2(d - j)) / 2, d);
    ShrBound(n, d, j);
    ParentAt(d, j, Shr(n, j));
  }

  /** inDeadZone: climbs the row boundary and the last real node until pos lies in the row. */
  method InDeadZone(pos: nat, size: nat) returns (dead: bool)
    requires 1 <= size <= MAX_LEAVES
    ensures dead <==> DeadZone(pos, size)
  {
    hide ParentPos, Shr, LeftmostLeaf, Depth;
    var d := TreeDepth(size);
    DepthBound(size);
    RootAt(d);
    ClimbStart(d, size - 1);
    var last := size - 1;
    if pos > RootPos(d) {
      return true;
    }
    var h := Pow2(d);
    ghost var j := 0;
    while pos >= h
      invariant j <= d
      invariant h + Pow2(d - j) == 2 * Pow2(d)
      invariant RowStart(d, j) <= pos
      invariant last == Pos(d, j, Shr(size - 1, j))
      decreases d - j
    {
      assert j < d;
      ClimbStep(d, j, size - 1);
      h := ParentPos(d, h);
      last := ParentPos(d, last);
      j := j + 1;
    }
    dead := pos > last;
    DeadInRow(size, j, pos);
  }

  lemma {:induction false} DeadInRow(size: nat, j: nat, pos: nat)
    requires 1 <= size <= MAX_LEAVES && j <= Depth(size)
    requires RowStart(Depth(size), j) <= pos
    requires pos + Pow2(Depth(size) - j) < 2 * Pow2(Depth(size))
    ensures pos > Pos(Depth(size), j, Shr(size - 1, j)) <==> DeadZone(pos, size)
  {
    var k := pos - RowStart(Depth(size), j);
    DepthBound(size);
    DeadZoneAt(size, j, k);
    IndexBeyondLast(size, j, k);
  }
}
