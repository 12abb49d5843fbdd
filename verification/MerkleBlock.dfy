/**
  checkMBlock of uspv/mblock.go: a stack machine that replays a partial Merkle tree, and the
  recursive traversal of BIP 37 ("Parsing a partial merkle tree object") that it has to agree with.

  `H` is the type of hashes and `node` the double-SHA256 of two concatenated hashes; nothing is
  assumed about `node` here.
*/
module MerkleBlock {
  import opened Basics
  import opened Powers
  import opened MerklePositions

  // ----- The recursive reference -----

  /** What traversing one subtree yields. */
  datatype Parse<H> =
    | Parsed(hash: H, matched: seq<H>, bits: seq<bool>, hashes: seq<H>)
    | Short        // flag bits or hashes ran out
    | Duplicate    // two combined siblings are equal

  /** BIP 37: depth-first traversal of node (h, k), consuming flag bits and hashes. */
  function Traverse<H(==)>(node: (H, H) -> H, size: nat, h: nat, k: nat, bits: seq<bool>, hashes: seq<H>): Parse<H>
    decreases h
  {
    if bits == [] then Short
    else if h == 0 || !bits[0] then
      if hashes == [] then Short
      else Parsed(hashes[0], if h == 0 && bits[0] then [hashes[0]] else [], bits[1..], hashes[1..])
    else
      match Traverse(node, size, h - 1, 2 * k, bits[1..], hashes)
      case Short => Short
      case Duplicate => Duplicate
      case Parsed(left, leftMatched, bits1, hashes1) =>
        if !Alive(size, h - 1, 2 * k + 1) then Parsed(node(left, left), leftMatched, bits1, hashes1)
        else
          match Traverse(node, size, h - 1, 2 * k + 1, bits1, hashes1)
          case Short => Short
          case Duplicate => Duplicate
          case Parsed(right, rightMatched, bits2, hashes2) =>
            if left == right then Duplicate
            else Parsed(node(left, right), leftMatched + rightMatched, bits2, hashes2)
  }

  /** The one thing the checker looks at: whether the traversal computes the header's Merkle root. */
  function RootCheck<H(==)>(p: Parse<H>, root: H): Outcome<H> {
    if p.Parsed? && p.hash == root then Matched(p.matched) else Rejected
  }

  /** All hashes are used up, and all flag bits except the padding of the last byte. */
  predicate NothingLeft<H>(p: Parse<H>)
    requires p.Parsed?
  {
    p.hashes == [] && |p.bits| < 8
  }

  /** BIP 37 also asks that nothing is left over. */
  predicate Bip37Valid<H(==)>(p: Parse<H>, root: H) {
    p.Parsed? && p.hash == root && NothingLeft(p)
  }

  // ----- The stack machine -----

  datatype Outcome<H> =
    | Matched(txids: seq<H>)
    | Rejected
    | IndexPanic   // the Go program indexes its stack out of range

  datatype MerkleNode<H> = MerkleNode(p: nat, h: Option<H>)

  datatype Machine<H> = Machine(s: seq<MerkleNode<H>>, pos: nat, bits: seq<bool>, hashes: seq<H>, r: seq<H>)

  datatype StepResult<H> = Done(outcome: Outcome<H>) | Continue(next: Machine<H>)

  /** MakeMerkleParent, with nil as None: equal children and a missing left child give nil. */
  function MakeMerkleParent<H(==)>(node: (H, H) -> H, left: Option<H>, right: Option<H>): Option<H> {
    if left.Some? && left == right then None
    else if left.None? then None
    else if right.None? then Some(node(left.value, left.value))
    else Some(node(left.value, right.value))
  }

  /** The measure every turn of the loop decreases. */
  function Measure<H>(m: Machine<H>): nat {
    2 * |m.bits| + |m.s|
  }

  /** Dead zone: the top of the stack alone fills its parent below it. */
  function FoldSingle<H(==)>(node: (H, H) -> H, m: Machine<H>): Machine<H>
    requires |m.s| >= 2
  {
    var tip := |m.s| - 1;
    var parent := m.s[tip - 1].(h := MakeMerkleParent(node, m.s[tip].h, None));
    m.(s := m.s[..tip - 1] + [parent], pos := RightSiblingPos(parent.p))
  }

  /** The top two nodes fill their parent, the third from the top. */
  function FoldPair<H(==)>(node: (H, H) -> H, m: Machine<H>): Machine<H>
    requires |m.s| >= 3
  {
    var tip := |m.s| - 1;
    var parent := m.s[tip - 2].(h := MakeMerkleParent(node, m.s[tip - 1].h, m.s[tip].h));
    m.(s := m.s[..tip - 2] + [parent], pos := RightSiblingPos(parent.p))
  }

  /** No stack operation is due: open the node at pos from the message. */
  function ReadStep<H>(size: nat, m: Machine<H>): (r: StepResult<H>)
    ensures r.Continue? ==> Measure(r.next) < Measure(m)
  {
    var d := Depth(size);
    if m.hashes == [] || m.bits == [] then Done(Rejected)
    else if Bit(m.pos, d) then
      if !m.bits[0] then
        Continue(Machine(m.s + [MerkleNode(m.pos, Some(m.hashes[0]))],
                         if Bit(m.pos, 0) then ParentPos(d, m.pos) else RightSiblingPos(m.pos),
                         m.bits[1..], m.hashes[1..], m.r))
      else
        Continue(m.(s := m.s + [MerkleNode(m.pos, None)], pos := LeftChildPos(d, m.pos), bits := m.bits[1..]))
    else if m.pos >= size then Done(Rejected)
    else
      Continue(Machine(m.s + [MerkleNode(m.pos, Some(m.hashes[0]))],
                       if Bit(m.pos, 0) then m.pos else RightSiblingPos(m.pos),
                       m.bits[1..], m.hashes[1..], if m.bits[0] then m.r + [m.hashes[0]] else m.r))
  }

  /** One turn of the main loop. */
  function Step<H(==)>(node: (H, H) -> H, size: nat, root: H, m: Machine<H>): (r: StepResult<H>)
    ensures r.Continue? ==> Measure(r.next) < Measure(m)
  {
    var s := m.s;
    var tip := |s| - 1;
    if tip == 0 && s[0].h.Some? then
      Done(if s[0].h.value == root then Matched(m.r) else Rejected)
    else if DeadZone(m.pos, size) then
      if tip < 1 then Done(IndexPanic) else Continue(FoldSingle(node, m))
    else if tip > 1 && s[tip - 1].h.Some? && s[tip].h.Some? then Continue(FoldPair(node, m))
    else ReadStep(size, m)
  }

  function Run<H(==)>(node: (H, H) -> H, size: nat, root: H, m: Machine<H>): Outcome<H>
    decreases Measure(m)
  {
    match Step(node, size, root, m)
    case Done(outcome) => outcome
    case Continue(next) => Run(node, size, root, next)
  }

  function Start<H>(size: nat, bits: seq<bool>, hashes: seq<H>): Machine<H> {
    Machine([], RootPos(Depth(size)), bits, hashes, [])
  }

  // ----- Safety of every state on a run -----

  /**
    The stack never outgrows 2*depth + 1, and when the walker stands in the dead zone the top of
    the stack is a filled node with an unfilled parent below it.
  */
  ghost predicate SafeState<H>(size: nat, m: Machine<H>) {
    var n := |m.s|;
    && n <= 2 * Depth(size) + 1
    && (DeadZone(m.pos, size) && n > 1 ==> m.s[n - 1].h.Some? && m.s[n - 2].h.None?)
  }

  ghost predicate SafeRun<H>(node: (H, H) -> H, size: nat, root: H, m: Machine<H>)
    decreases Measure(m)
  {
    && SafeState(size, m)
    && var r := Step(node, size, root, m);
       if r.Done? then !r.outcome.IndexPanic? else SafeRun(node, size, root, r.next)
  }

  // ----- Refinement -----

  /** The machine is about to open a new node on top of stack s. */
  ghost predicate Ready<H>(s: seq<MerkleNode<H>>) {
    var n := |s|;
    s == [] || s[n - 1].h.None? || (n >= 2 && s[n - 2].h.None?)
  }

  /** Where the walker stands once node (h, k) is filled: on the right sibling, or still on a real node. */
  ghost predicate StandsAfter(size: nat, h: nat, k: nat, q: nat)
    requires h <= Depth(size)
  {
    var d := Depth(size);
    if k % 2 == 0 then q == Pos(d, h, k + 1)
    else q == Pos(d, h, k) || (h < d && q == Pos(d, h + 1, k / 2))
  }

  /** Reading a leaf, or an inner node whose flag bit says "filled". */
  lemma {:induction false} ReadNode<H>(node: (H, H) -> H, size: nat, root: H, h: nat, k: nat, m: Machine<H>)
      returns (next: Machine<H>)
    requires 1 <= size <= MAX_LEAVES && Alive(size, h, k) && Ready(m.s)
    requires m.pos == Pos(Depth(size), h, k)
    requires m.bits != [] && m.hashes != [] && (h == 0 || !m.bits[0])
    ensures Step(node, size, root, m) == Continue(next)
    ensures next.s == m.s + [MerkleNode(m.pos, Some(m.hashes[0]))]
    ensures next.bits == m.bits[1..] && next.hashes == m.hashes[1..]
    ensures next.r == m.r + if h == 0 && m.bits[0] then [m.hashes[0]] else []
    ensures StandsAfter(size, h, k, next.pos)
    ensures 0 < h < Depth(size) && k % 2 == 1 ==> next.pos == Pos(Depth(size), h + 1, k / 2)
  {
    var d := Depth(size);
    AliveInRow(size, h, k);
    DeadZoneAt(size, h, k);
    PosRange(d, h, k);
    SiblingAt(d, h, k);
    if h < d {
      ParentAt(d, h, k);
    }
    next := Step(node, size, root, m).next;
  }

  /** Descending: an unfilled node goes on the stack and the walker moves to its left child. */
  lemma {:induction false} OpenNode<H>(node: (H, H) -> H, size: nat, root: H, h: nat, k: nat, m: Machine<H>)
      returns (next: Machine<H>)
    requires 1 <= size <= MAX_LEAVES && Alive(size, h, k) && Ready(m.s)
    requires m.pos == Pos(Depth(size), h, k)
    requires m.bits != [] && m.hashes != [] && h > 0 && m.bits[0]
    ensures Step(node, size, root, m) == Continue(next)
    ensures next == Machine(m.s + [MerkleNode(m.pos, None)], Pos(Depth(size), h - 1, 2 * k), m.bits[1..], m.hashes, m.r)
  {
    var d := Depth(size);
    AliveInRow(size, h, k);
    DeadZoneAt(size, h, k);
    PosRange(d, h, k);
    LeftChildAt(d, h, k);
    next := Step(node, size, root, m).next;
  }

  /** Out of material: the machine stops with an error. */
  lemma {:induction false} StopsShort<H>(node: (H, H) -> H, size: nat, root: H, h: nat, k: nat, m: Machine<H>)
    requires 1 <= size <= MAX_LEAVES && Alive(size, h, k) && Ready(m.s)
    requires m.pos == Pos(Depth(size), h, k)
    requires m.bits == [] || m.hashes == []
    ensures Step(node, size, root, m) == Done(Rejected)
    ensures Traverse(node, size, h, k, m.bits, m.hashes).Short?
    ensures !DeadZone(m.pos, size)
  {
    AliveInRow(size, h, k);
    DeadZoneAt(size, h, k);
    NoHashesIsShort(node, size, h, k, m.bits, m.hashes);
  }

  lemma {:induction false} NoHashesIsShort<H>(node: (H, H) -> H, size: nat, h: nat, k: nat, bits: seq<bool>, hashes: seq<H>)
    requires bits == [] || hashes == []
    ensures Traverse(node, size, h, k, bits, hashes).Short?
    decreases h
  {
    if bits == [] || h == 0 || !bits[0] {
    } else {
      NoHashesIsShort(node, size, h - 1, 2 * k, bits[1..], hashes);
    }
  }

  lemma {:induction false} StepInDeadZone<H>(node: (H, H) -> H, size: nat, root: H, m: Machine<H>)
    requires |m.s| >= 2 && DeadZone(m.pos, size)
    ensures Step(node, size, root, m) == Continue(FoldSingle(node, m))
  {
  }

  lemma {:induction false} StepOnPair<H>(node: (H, H) -> H, size: nat, root: H, m: Machine<H>)
    requires |m.s| >= 3 && !DeadZone(m.pos, size) && m.s[|m.s| - 2].h.Some? && m.s[|m.s| - 1].h.Some?
    ensures Step(node, size, root, m) == Continue(FoldPair(node, m))
  {
  }

  /** The right child is padding: its parent is hashed from the left child alone. */
  lemma {:induction false} CloseSingle<H>(node: (H, H) -> H, size: nat, root: H, h: nat, k: nat, s: seq<MerkleNode<H>>, left: H, m: Machine<H>)
      returns (next: Machine<H>)
    requires 1 <= size <= MAX_LEAVES && Alive(size, h, k) && h > 0 && !Alive(size, h - 1, 2 * k + 1)
    requires m.s == s + [MerkleNode(Pos(Depth(size), h, k), None), MerkleNode(Pos(Depth(size), h - 1, 2 * k), Some(left))]
    requires StandsAfter(size, h - 1, 2 * k, m.pos)
    ensures Step(node, size, root, m) == Continue(next)
    ensures next.s == s + [MerkleNode(Pos(Depth(size), h, k), Some(node(left, left)))]
    ensures next == m.(s := next.s, pos := next.pos) && StandsAfter(size, h, k, next.pos)
  {
    hide Step, DeadZone, FirstLeaf, Pow2, RowStart;
    AliveInRow(size, h, k);
    LeftChildAt(Depth(size), h, k);
    DeadZoneAt(size, h - 1, 2 * k + 1);
    next := FoldSingle(node, m);
    StepInDeadZone(node, size, root, m);
    FoldedPosition(size, h, k);
    assert m.s[..|m.s| - 2] == s;
  }

  lemma {:induction false} FoldedPosition(size: nat, h: nat, k: nat)
    requires h <= Depth(size)
    ensures StandsAfter(size, h, k, RightSiblingPos(Pos(Depth(size), h, k)))
  {
    SiblingAt(Depth(size), h, k);
  }

  /** A walker that has just filled a right child still stands on a real node. */
  lemma {:induction false} NotDeadAfterRight(size: nat, h: nat, k: nat, q: nat)
    requires 1 <= size <= MAX_LEAVES && Alive(size, h, k) && h > 0 && Alive(size, h - 1, 2 * k + 1)
    requires StandsAfter(size, h - 1, 2 * k + 1, q)
    ensures !DeadZone(q, size)
  {
    hide DeadZone, Depth, FirstLeaf, Pow2, RowStart;
    AliveInRow(size, h, k);
    LeftChildAt(Depth(size), h, k);
    DeadZoneAt(size, h - 1, 2 * k + 1);
    DeadZoneAt(size, h, k);
  }

  /** Both children are filled and differ: they combine into their parent. */
  lemma {:induction false} CloseBoth<H>(node: (H, H) -> H, size: nat, root: H, h: nat, k: nat, s: seq<MerkleNode<H>>, left: H, right: H, m: Machine<H>)
      returns (next: Machine<H>)
    requires 1 <= size <= MAX_LEAVES && Alive(size, h, k) && h > 0 && Alive(size, h - 1, 2 * k + 1)
    requires m.s == s + [MerkleNode(Pos(Depth(size), h, k), None), MerkleNode(Pos(Depth(size), h - 1, 2 * k), Some(left))]
                      + [MerkleNode(Pos(Depth(size), h - 1, 2 * k + 1), Some(right))]
    requires StandsAfter(size, h - 1, 2 * k + 1, m.pos) && left != right
    ensures Step(node, size, root, m) == Continue(next)
    ensures next.s == s + [MerkleNode(Pos(Depth(size), h, k), Some(node(left, right)))]
    ensures next == m.(s := next.s, pos := next.pos) && StandsAfter(size, h, k, next.pos)
    ensures !DeadZone(m.pos, size)
  {
    NotDeadAfterRight(size, h, k, m.pos);
    next := FoldPair(node, m);
    StepOnPair(node, size, root, m);
    FoldedPosition(size, h, k);
    assert m.s[..|m.s| - 3] == s;
  }

  /** Running from m and running from `end` come to the same outcome, and m is safe if `end` is. */
  ghost predicate Reaches<H>(node: (H, H) -> H, size: nat, root: H, m: Machine<H>, end: Machine<H>) {
    && Run(node, size, root, m) == Run(node, size, root, end)
    && (SafeRun(node, size, root, end) ==> SafeRun(node, size, root, m))
  }

  ghost predicate Fails<H>(node: (H, H) -> H, size: nat, root: H, m: Machine<H>) {
    Run(node, size, root, m) == Rejected && SafeRun(node, size, root, m)
  }

  /** In `end`, the node the walker stood on in m is filled with what the traversal yields. */
  ghost predicate Fills<H>(size: nat, h: nat, k: nat, m: Machine<H>, p: Parse<H>, end: Machine<H>)
    requires h <= Depth(size) && p.Parsed?
  {
    && end.s == m.s + [MerkleNode(m.pos, Some(p.hash))]
    && end.bits == p.bits && end.hashes == p.hashes && end.r == m.r + p.matched
    && StandsAfter(size, h, k, end.pos)
  }

  /** The walker stands on the real node (h, k), about to open it. */
  ghost predicate AtNode<H>(size: nat, h: nat, k: nat, m: Machine<H>) {
    && Alive(size, h, k)
    && Ready(m.s)
    && m.pos == Pos(Depth(size), h, k)
    && |m.s| <= 2 * (Depth(size) - h)
  }

  /**
    Opening node (h, k) on a ready stack: the machine either fails exactly when the traversal of
    the subtree runs short, or reaches the state where the node sits filled on top of that stack.
  */
  lemma {:induction false} Simulate<H>(node: (H, H) -> H, size: nat, root: H, h: nat, k: nat, m: Machine<H>)
      returns (end: Machine<H>)
    requires 1 <= size <= MAX_LEAVES && AtNode(size, h, k, m)
    requires !Traverse(node, size, h, k, m.bits, m.hashes).Duplicate?
    ensures var p := Traverse(node, size, h, k, m.bits, m.hashes);
      if p.Short? then Fails(node, size, root, m)
      else Fills(size, h, k, m, p, end) && Reaches(node, size, root, m, end)
    decreases h
  {
    AliveInRow(size, h, k);
    DeadZoneAt(size, h, k);
    if m.bits == [] || m.hashes == [] {
      StopsShort(node, size, root, h, k, m);
      end := m;
    } else if h == 0 || !m.bits[0] {
      end := ReadNode(node, size, root, h, k, m);
    } else {
      var descended := OpenNode(node, size, root, h, k, m);
      AliveChildAndParent(size, h, k);
      var afterLeft := Simulate(node, size, root, h - 1, 2 * k, descended);
      var left := Traverse(node, size, h - 1, 2 * k, m.bits[1..], m.hashes);
      if left.Short? {
        end := m;
      } else {
        end := FinishNode(node, size, root, h, k, m, left, afterLeft);
      }
    }
  }

  /** In `a`, node (h, k) is open on the stack of m and its left child is filled. */
  ghost predicate LeftDone<H>(size: nat, h: nat, k: nat, m: Machine<H>, left: Parse<H>, a: Machine<H>)
    requires 0 < h <= Depth(size) && left.Parsed?
  {
    && a.s == m.s + [MerkleNode(m.pos, None), MerkleNode(Pos(Depth(size), h - 1, 2 * k), Some(left.hash))]
    && a.bits == left.bits && a.hashes == left.hashes && a.r == m.r + left.matched
    && StandsAfter(size, h - 1, 2 * k, a.pos)
  }

  /** The traversal of an open node, from that of its left child. */
  lemma {:induction false} TraverseOpen<H>(node: (H, H) -> H, size: nat, h: nat, k: nat, bits: seq<bool>, hashes: seq<H>, left: Parse<H>)
    requires h > 0 && bits != [] && bits[0]
    requires left == Traverse(node, size, h - 1, 2 * k, bits[1..], hashes) && left.Parsed?
    ensures var p := Traverse(node, size, h, k, bits, hashes);
      if !Alive(size, h - 1, 2 * k + 1) then p == Parsed(node(left.hash, left.hash), left.matched, left.bits, left.hashes)
      else
        match Traverse(node, size, h - 1, 2 * k + 1, left.bits, left.hashes)
        case Short => p.Short?
        case Duplicate => p.Duplicate?
        case Parsed(right, matched, bits2, hashes2) =>
          p == if left.hash == right then Duplicate else Parsed(node(left.hash, right), left.matched + matched, bits2, hashes2)
  {
  }

  /** The walker then stands on the right child, if it is real. */
  lemma {:induction false} RightIsNext<H>(size: nat, h: nat, k: nat, m: Machine<H>, left: Parse<H>, a: Machine<H>)
    requires AtNode(size, h, k, m) && h > 0 && left.Parsed? && LeftDone(size, h, k, m, left, a) && Alive(size, h - 1, 2 * k + 1)
    ensures AtNode(size, h - 1, 2 * k + 1, a)
  {
    hide FirstLeaf, Depth, RowStart;
  }

  lemma {:induction false} FinishSingle<H>(node: (H, H) -> H, size: nat, root: H, h: nat, k: nat, m: Machine<H>,
                                           left: Parse<H>, afterLeft: Machine<H>)
      returns (end: Machine<H>)
    requires 1 <= size <= MAX_LEAVES && AtNode(size, h, k, m)
    requires h > 0 && !Alive(size, h - 1, 2 * k + 1) && left.Parsed? && LeftDone(size, h, k, m, left, afterLeft)
    ensures Fills(size, h, k, m, Parsed(node(left.hash, left.hash), left.matched, left.bits, left.hashes), end)
    ensures Reaches(node, size, root, afterLeft, end)
  {
    hide Step, Run, SafeRun, DeadZone, FirstLeaf, Pow2, RowStart;
    end := CloseSingle(node, size, root, h, k, m.s, left.hash, afterLeft);
    StepReaches(node, size, root, afterLeft, end);
  }

  /** The second half of `Simulate`: the left child is filled. */
  lemma {:induction false} FinishNode<H>(node: (H, H) -> H, size: nat, root: H, h: nat, k: nat, m: Machine<H>,
                                         left: Parse<H>, afterLeft: Machine<H>)
      returns (end: Machine<H>)
    requires 1 <= size <= MAX_LEAVES && AtNode(size, h, k, m)
    requires h > 0 && m.bits != [] && m.bits[0]
    requires !Traverse(node, size, h, k, m.bits, m.hashes).Duplicate?
    requires left == Traverse(node, size, h - 1, 2 * k, m.bits[1..], m.hashes) && left.Parsed?
    requires LeftDone(size, h, k, m, left, afterLeft)
    ensures var p := Traverse(node, size, h, k, m.bits, m.hashes);
      if p.Short? then Fails(node, size, root, afterLeft)
      else Fills(size, h, k, m, p, end) && Reaches(node, size, root, afterLeft, end)
    decreases h, 0
  {
    TraverseOpen(node, size, h, k, m.bits, m.hashes, left);
    hide Traverse, Reaches, Fails, Depth, FirstLeaf, Pow2, RowStart, Ready;
    if !Alive(size, h - 1, 2 * k + 1) {
      end := FinishSingle(node, size, root, h, k, m, left, afterLeft);
    } else {
      RightIsNext(size, h, k, m, left, afterLeft);
      var afterRight := Simulate(node, size, root, h - 1, 2 * k + 1, afterLeft);
      var right := Traverse(node, size, h - 1, 2 * k + 1, left.bits, left.hashes);
      if right.Short? {
        end := m;
      } else {
        end := FinishBoth(node, size, root, h, k, m, left, right, afterLeft, afterRight);
        ReachesTransitive(node, size, root, afterLeft, afterRight, end);
      }
    }
  }

  lemma {:induction false} FinishBoth<H>(node: (H, H) -> H, size: nat, root: H, h: nat, k: nat, m: Machine<H>,
                                         left: Parse<H>, right: Parse<H>, afterLeft: Machine<H>, afterRight: Machine<H>)
      returns (end: Machine<H>)
    requires 1 <= size <= MAX_LEAVES && AtNode(size, h, k, m)
    requires h > 0 && Alive(size, h - 1, 2 * k + 1) && left.Parsed? && right.Parsed? && left.hash != right.hash
    requires LeftDone(size, h, k, m, left, afterLeft)
    requires Fills(size, h - 1, 2 * k + 1, afterLeft, right, afterRight)
    ensures Fills(size, h, k, m, Parsed(node(left.hash, right.hash), left.matched + right.matched, right.bits, right.hashes), end)
    ensures Reaches(node, size, root, afterRight, end)
  {
    hide Step, Run, SafeRun, DeadZone, FirstLeaf, Pow2, RowStart;
    end := CloseBoth(node, size, root, h, k, m.s, left.hash, right.hash, afterRight);
    StepReaches(node, size, root, afterRight, end);
  }

  lemma {:induction false} StepReaches<H>(node: (H, H) -> H, size: nat, root: H, m: Machine<H>, next: Machine<H>)
    requires Step(node, size, root, m) == Continue(next) && SafeState(size, m)
    ensures Reaches(node, size, root, m, next)
  {
  }

  lemma {:induction false} ReachesTransitive<H>(node: (H, H) -> H, size: nat, root: H, a: Machine<H>, b: Machine<H>, c: Machine<H>)
    requires Reaches(node, size, root, a, b) && Reaches(node, size, root, b, c)
    ensures Reaches(node, size, root, a, c)
  {
  }

  /**
    On every message whose traversal combines no two equal siblings, the stack machine accepts
    exactly if the recursive traversal computes the root, and every state on the way is safe.
  */
  lemma {:induction false} MachineRefinesTraversal<H>(node: (H, H) -> H, size: nat, root: H, bits: seq<bool>, hashes: seq<H>)
    requires 1 <= size <= MAX_LEAVES
    requires !Traverse(node, size, Depth(size), 0, bits, hashes).Duplicate?
    ensures Run(node, size, root, Start(size, bits, hashes))
         == RootCheck(Traverse(node, size, Depth(size), 0, bits, hashes), root)
    ensures SafeRun(node, size, root, Start(size, bits, hashes))
  {
    var d := Depth(size);
    DepthBound(size);
    RootAt(d);
    FirstLeafOfZero(d);
    var m := Start(size, bits, hashes);
    var end := Simulate(node, size, root, d, 0, m);
    var p := Traverse(node, size, d, 0, bits, hashes);
    if p.Parsed? {
      assert end.s == [MerkleNode(m.pos, Some(p.hash))];
      assert end.r == p.matched;
    }
  }

  /**
    Every message that is valid in the sense of BIP 37 is accepted, with its txids, and an accepted
    message is valid exactly if its traversal goes through and nothing is left over.
  */
  lemma {:induction false} AcceptedIsValidIff<H>(node: (H, H) -> H, size: nat, root: H, bits: seq<bool>, hashes: seq<H>)
    requires 1 <= size <= MAX_LEAVES
    ensures var p := Traverse(node, size, Depth(size), 0, bits, hashes);
      var out := Run(node, size, root, Start(size, bits, hashes));
      && (Bip37Valid(p, root) ==> out == Matched(p.matched))
      && (out.Matched? ==> (Bip37Valid(p, root) <==> p.Parsed? && NothingLeft(p)))
  {
    hide Run;
    if !Traverse(node, size, Depth(size), 0, bits, hashes).Duplicate? {
      MachineRefinesTraversal(node, size, root, bits, hashes);
    }
  }

  /** One transaction, one hash and one flag byte too many: accepted, but not valid. */
  lemma {:induction false} LeftoversAccepted<H>(node: (H, H) -> H, x: H, y: H)
    ensures Run(node, 1, x, Start(1, FlagBits([255, 255]), [x, y])) == Matched([x])
    ensures !Bip37Valid(Traverse(node, 1, Depth(1), 0, FlagBits([255, 255]), [x, y]), x)
  {
    var bits := FlagBits([255, 255]);
    assert Bit(255, 0) && bits[0];
    MachineRefinesTraversal(node, 1, x, bits, [x, y]);
  }

  lemma {:induction false} FirstLeafOfZero(h: nat)
    ensures FirstLeaf(h, 0) == 0
  {
    if h == 0 {
    } else {
      FirstLeafOfZero(h - 1);
    }
  }

  // ----- Flag bytes -----

  /** The flag bits of a message: every byte from its lowest bit up. */
  function FlagBits(flags: bytes): (bits: seq<bool>)
    ensures |bits| == 8 * |flags|
  {
    seq(8 * |flags|, i requires 0 <= i < 8 * |flags| => Bit(flags[i / 8], i % 8))
  }

  lemma {:induction false} DropByte(flags: bytes)
    requires flags != []
    ensures FlagBits(flags)[8..] == FlagBits(flags[1..])
  {
    var a, b := FlagBits(flags)[8..], FlagBits(flags[1..]);
    forall i | 0 <= i < |b|
      ensures a[i] == b[i]
    {
      assert (i + 8) / 8 == i / 8 + 1 && (i + 8) % 8 == i % 8;
    }
  }

  // ----- The loop itself -----

  /** The lower half of the loop body: a new node from the message, and the next flag bit. */
  method ReadNext<H>(transactions: nat, d: nat, s0: seq<MerkleNode<H>>, pos0: nat, flags0: bytes, i0: nat,
                     hashes0: seq<H>, r0: seq<H>)
      returns (ok: bool, s: seq<MerkleNode<H>>, pos: nat, flags: bytes, i: nat, hashes: seq<H>, r: seq<H>)
    requires d == Depth(transactions) && i0 < 8 && (flags0 == [] ==> i0 == 0)
    ensures i < 8 && (flags == [] ==> i == 0)
    ensures ReadStep(transactions, Machine(s0, pos0, FlagBits(flags0)[i0..], hashes0, r0))
         == if ok then Continue(Machine(s, pos, FlagBits(flags)[i..], hashes, r)) else Done(Rejected)
  {
    s, pos, flags, i, hashes, r := s0, pos0, flags0, i0, hashes0, r0;
    if hashes == [] || flags == [] {
      return false, s, pos, flags, i, hashes, r;
    }
    var flag := Bit(flags[0], i);
    assert flag == FlagBits(flags)[i..][0];
    if Bit(pos, d) {
      if !flag {
        s := s + [MerkleNode(pos, Some(hashes[0]))];
        hashes := hashes[1..];
        pos := if Bit(pos, 0) then ParentPos(d, pos) else RightSiblingPos(pos);
      } else {
        s := s + [MerkleNode(pos, None)];
        pos := LeftChildPos(d, pos);
      }
    } else {
      if pos >= transactions {
        return false, s, pos, flags, i, hashes, r;
      }
      if flag {
        r := r + [hashes[0]];
      }
      s := s + [MerkleNode(pos, Some(hashes[0]))];
      hashes := hashes[1..];
      if !Bit(pos, 0) {
        pos := RightSiblingPos(pos);
      }
    }
    ok := true;
    flags, i := NextBit(flags, i);
  }

  /** Advances the bit position, and drops the flag byte once all its bits are used. */
  method NextBit(flags0: bytes, i0: nat) returns (flags: bytes, i: nat)
    requires i0 < 8 && flags0 != []
    ensures i < 8 && (flags == [] ==> i == 0)
    ensures FlagBits(flags)[i..] == FlagBits(flags0)[i0..][1..]
  {
    flags, i := flags0, i0 + 1;
    if i == 8 {
      DropByte(flags);
      i := 0;
      flags := flags[1..];
    }
  }

  /** The body of the main loop. */
  method Turn<H(==)>(node: (H, H) -> H, transactions: nat, merkleRoot: H, d: nat, s0: seq<MerkleNode<H>>, pos0: nat,
                     flags0: bytes, i0: nat, hashes0: seq<H>, r0: seq<H>)
      returns (done: Option<Outcome<H>>, s: seq<MerkleNode<H>>, pos: nat, flags: bytes, i: nat, hashes: seq<H>, r: seq<H>)
    requires 1 <= transactions <= MAX_LEAVES && d == Depth(transactions) && i0 < 8 && (flags0 == [] ==> i0 == 0)
    ensures i < 8 && (flags == [] ==> i == 0)
    ensures Step(node, transactions, merkleRoot, Machine(s0, pos0, FlagBits(flags0)[i0..], hashes0, r0))
         == if done.Some? then Done(done.value) else Continue(Machine(s, pos, FlagBits(flags)[i..], hashes, r))
  {
    done, s, pos, flags, i, hashes, r := None, s0, pos0, flags0, i0, hashes0, r0;
    var tip := |s| - 1;
    if tip == 0 && s[0].h.Some? {
      done := Some(if s[0].h.value == merkleRoot then Matched(r) else Rejected);
      return;
    }
    var dead := InDeadZone(pos, transactions);
    if dead {
      if tip < 1 {
        done := Some(IndexPanic);
        return;
      }
      s := s[..tip - 1] + [s[tip - 1].(h := MakeMerkleParent(node, s[tip].h, None))];
      pos := RightSiblingPos(s[tip - 1].p);
      return;
    }
    if tip > 1 && s[tip - 1].h.Some? && s[tip].h.Some? {
      s := s[..tip - 2] + [s[tip - 2].(h := MakeMerkleParent(node, s[tip - 1].h, s[tip].h))];
      pos := RightSiblingPos(s[tip - 2].p);
      return;
    }
    var ok;
    ok, s, pos, flags, i, hashes, r := ReadNext(transactions, d, s, pos, flags, i, hashes, r);
    if !ok {
      done := Some(Rejected);
    }
  }

  /**
    checkMBlock. Whatever the message, the loop ends with the outcome of the machine; when the
    traversal combines no two equal siblings that is whether it computes the root, and a message that
    leaves nothing over is then accepted exactly if it is valid in the sense of BIP 37.
  */
  method CheckMBlock<H(==)>(node: (H, H) -> H, transactions: nat, merkleRoot: H, flagBytes: bytes, hashes: seq<H>)
      returns (out: Outcome<H>)
    requires transactions <= MAX_LEAVES
    ensures transactions == 0 || flagBytes == [] ==> out == Rejected
    ensures transactions > 0 && flagBytes != [] ==>
      out == Run(node, transactions, merkleRoot, Start(transactions, FlagBits(flagBytes), hashes))
    ensures transactions > 0 && flagBytes != [] ==>
      var p := Traverse(node, transactions, Depth(transactions), 0, FlagBits(flagBytes), hashes);
      !p.Duplicate? ==>
        && out == RootCheck(p, merkleRoot)
        && (p.Parsed? && NothingLeft(p) ==> (out.Matched? <==> Bip37Valid(p, merkleRoot)))
  {
    if transactions == 0 || flagBytes == [] {
      return Rejected;
    }
    ghost var begin := Start(transactions, FlagBits(flagBytes), hashes);
    if !Traverse(node, transactions, Depth(transactions), 0, FlagBits(flagBytes), hashes).Duplicate? {
      MachineRefinesTraversal(node, transactions, merkleRoot, FlagBits(flagBytes), hashes);
    }
    var d := TreeDepth(transactions);
    var s: seq<MerkleNode<H>>, r: seq<H> := [], [];
    var pos := RootPos(d);
    var flags, hs, i: nat := flagBytes, hashes, 0;
    assert FlagBits(flags)[0..] == FlagBits(flags);
    while true
      invariant i < 8 && (flags == [] ==> i == 0)
      invariant Run(node, transactions, merkleRoot, Machine(s, pos, FlagBits(flags)[i..], hs, r))
             == Run(node, transactions, merkleRoot, begin)
      decreases Measure(Machine(s, pos, FlagBits(flags)[i..], hs, r))
    {
      var done;
      done, s, pos, flags, i, hs, r := Turn(node, transactions, merkleRoot, d, s, pos, flags, i, hs, r);
      if done.Some? {
        return done.value;
      }
    }
  }
}
