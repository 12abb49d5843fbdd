/**
  elkrem/elkrem.go: a reverse Merkle tree. A sender derives every node's hash from the root; a
  receiver is handed the nodes in post-order and keeps only the roots of complete subtrees.

  `H` is the type of hashes; `left` and `right` are LeftSha and RightSha. Nothing is assumed
  about either of them.
*/
module Elkrem {
  import opened Basics
  import opened Powers

  // ----- The tree -----

  /** All hashes of the tree of height h below sha, children before parents, left before right. */
  function PostOrder<H>(left: H -> H, right: H -> H, h: nat, sha: H): (all: seq<H>)
    ensures |all| == 2 * Pow2(h) - 1
    ensures all[|all| - 1] == sha
  {
    if h == 0 then [sha]
    else PostOrder(left, right, h - 1, left(sha)) + PostOrder(left, right, h - 1, right(sha)) + [sha]
  }

  datatype Turn = Left | Right

  function Follow<H>(left: H -> H, right: H -> H, sha: H, path: seq<Turn>): H {
    if path == [] then sha
    else Follow(left, right, if path[0].Left? then left(sha) else right(sha), path[1..])
  }

  lemma {:induction false} FollowAppend<H>(left: H -> H, right: H -> H, sha: H, path: seq<Turn>, turn: Turn)
    ensures Follow(left, right, sha, path + [turn])
         == var at := Follow(left, right, sha, path); if turn.Left? then left(at) else right(at)
  {
    if path == [] {
      assert (path + [turn])[1..] == [];
    } else {
      FollowAppend(left, right, if path[0].Left? then left(sha) else right(sha), path[1..], turn);
      assert (path + [turn])[1..] == path[1..] + [turn];
    }
  }

  /** A node of height h cannot have an index below that of its own leftmost leaf. */
  ghost predicate IsNode(i: nat, h: nat) {
    i + 2 >= 2 * Pow2(h)
  }

  /** The index of the leftmost leaf below node (i, h). */
  ghost function Lowest(i: nat, h: nat): nat
    requires IsNode(i, h)
  {
    i + 2 - 2 * Pow2(h)
  }

  /** The hash one step below the leftmost leaf. */
  function BelowLeftmost<H>(left: H -> H, h: nat, sha: H): H {
    if h == 0 then left(sha) else BelowLeftmost(left, h - 1, left(sha))
  }

  datatype Derived<H> = Hash(sha: H) | CannotGenerate

  /** What asking node (i, h) for index w has to give. */
  ghost function Derive<H>(left: H -> H, right: H -> H, w: nat, i: nat, h: nat, sha: H): Derived<H>
    requires IsNode(i, h)
  {
    if Lowest(i, h) <= w <= i then Hash(PostOrder(left, right, h, sha)[w - Lowest(i, h)])
    else if w + 1 == Lowest(i, h) then Hash(BelowLeftmost(left, h, sha))
    else CannotGenerate
  }

  /** One turn of the descent keeps the answer. */
  lemma {:induction false} DeriveDown<H>(left: H -> H, right: H -> H, w: nat, i: nat, h: nat, sha: H)
    requires IsNode(i, h) && w < i && h > 0
    ensures w + Pow2(h) <= i ==>
      && IsNode(i - Pow2(h), h - 1)
      && Derive(left, right, w, i, h, sha) == Derive(left, right, w, i - Pow2(h), h - 1, left(sha))
    ensures w + Pow2(h) > i ==>
      && IsNode(i - 1, h - 1)
      && Derive(left, right, w, i, h, sha) == Derive(left, right, w, i - 1, h - 1, right(sha))
      && Lowest(i - 1, h - 1) <= w
  {
    assert Pow2(h) == 2 * Pow2(h - 1);
  }

  // ----- Trees too tall for a uint64 -----

  lemma {:induction false} Pow2Of64()
    ensures Pow2(64) == UINT64
  {
    Pow2Values();
    Pow2Add(32, 32);
  }

  /** 1<<h on a uint64. */
  function Shl64(h: nat): nat {
    if h < 64 then Pow2(h) else 0
  }

  function LeftTimes<H>(left: H -> H, n: nat, sha: H): H {
    if n == 0 then sha else LeftTimes(left, n - 1, left(sha))
  }

  /** A node as descend may meet it: of height 64 and more only the root of a sender's tree. */
  ghost predicate GoodNode(i: nat, h: nat) {
    i < UINT64 && if h < 64 then IsNode(i, h) else i == UINT64 - 2
  }

  /** From height 64 up a step to the left leaves the index as it is. */
  ghost function DeriveAny<H>(left: H -> H, right: H -> H, w: nat, i: nat, h: nat, sha: H): Derived<H>
    requires GoodNode(i, h)
  {
    if h < 64 then Derive(left, right, w, i, h, sha)
    else if w < i then
      Pow2Of64();
      Derive(left, right, w, i, 63, LeftTimes(left, h - 63, sha))
    else if w == i then Hash(sha)
    else CannotGenerate
  }

  /** The lowest index a node answers for. */
  ghost function LowestAny(i: nat, h: nat): nat
    requires GoodNode(i, h)
  {
    if h < 64 then Lowest(i, h) else 0
  }

  lemma {:induction false} DeriveStep<H>(left: H -> H, right: H -> H, w: nat, i: nat, h: nat, sha: H)
    requires GoodNode(i, h) && w < i && h > 0
    ensures Shl64(h) <= i
    ensures w + Shl64(h) <= i ==>
      && GoodNode(i - Shl64(h), h - 1)
      && DeriveAny(left, right, w, i, h, sha) == DeriveAny(left, right, w, i - Shl64(h), h - 1, left(sha))
      && LowestAny(i - Shl64(h), h - 1) == LowestAny(i, h)
    ensures w + Shl64(h) > i ==>
      && GoodNode(i - 1, h - 1)
      && DeriveAny(left, right, w, i, h, sha) == DeriveAny(left, right, w, i - 1, h - 1, right(sha))
      && LowestAny(i - 1, h - 1) <= w
  {
    hide Derive, PostOrder;
    if h < 64 {
      DeriveDown(left, right, w, i, h, sha);
    } else {
      Pow2Of64();
    }
  }

  /** At a leaf one more step is taken, to the left. */
  lemma {:induction false} DeriveAtLeaf<H>(left: H -> H, right: H -> H, w: nat, i: nat, sha: H)
    requires GoodNode(i, 0) && w < i
    ensures Shl64(0) == 1 && LowestAny(i, 0) == i
    ensures DeriveAny(left, right, w, i, 0, sha) == if w == i - 1 then Hash(left(sha)) else CannotGenerate
  {
  }

  lemma {:induction false} DeriveHere<H>(left: H -> H, right: H -> H, w: nat, i: nat, h: nat, sha: H)
    requires GoodNode(i, h) && w >= i
    ensures DeriveAny(left, right, w, i, h, sha) == if w == i then Hash(sha) else CannotGenerate
  {
    hide PostOrder;
  }

  /**
    descend: for an index of the subtree the loop ends on its hash after at most h hashings; for
    the index just below the subtree it returns a hash below the leftmost leaf; otherwise it fails.
  */
  method Descend<H>(left: H -> H, right: H -> H, w: nat, i0: nat, h0: nat, sha0: H)
      returns (out: Derived<H>, ghost path: seq<Turn>)
    requires GoodNode(i0, h0)
    ensures out == DeriveAny(left, right, w, i0, h0, sha0)
    ensures out.Hash? ==> out.sha == Follow(left, right, sha0, path)
    ensures LowestAny(i0, h0) <= w ==> |path| <= h0
  {
    hide Follow, DeriveAny, LowestAny, GoodNode, Shl64;
    var i: nat, h: nat, sha := i0, h0, sha0;
    path := [];
    FollowNowhere(left, right, sha0);
    while w < i
      invariant GoodNode(i, h)
      invariant h + |path| == h0
      invariant DeriveAny(left, right, w, i, h, sha) == DeriveAny(left, right, w, i0, h0, sha0)
      invariant sha == Follow(left, right, sha0, path)
      invariant LowestAny(i0, h0) <= w ==> LowestAny(i, h) <= w
      decreases h
    {
      if h == 0 {
        DeriveAtLeaf(left, right, w, i, sha);
      } else {
        DeriveStep(left, right, w, i, h, sha);
      }
      if w + Shl64(h) <= i {
        FollowAppend(left, right, sha0, path, Left);
        sha := left(sha);
        i := i - Shl64(h);
        path := path + [Left];
      } else {
        FollowAppend(left, right, sha0, path, Right);
        sha := right(sha);
        i := i - 1;
        path := path + [Right];
      }
      if h == 0 {
        return if w != i then CannotGenerate else Hash(sha), path;
      }
      h := h - 1;
    }
    DeriveHere(left, right, w, i, h, sha);
    out := if w != i then CannotGenerate else Hash(sha);
  }

  lemma {:induction false} FollowNowhere<H>(left: H -> H, right: H -> H, sha: H)
    ensures Follow(left, right, sha, []) == sha
  {
  }

  // ----- Sender -----

  function TopIndex(th: nat): nat {
    if th <= 63 then 2 * Pow2(th) - 2 else UINT64 - 2
  }

  /**
    What a sender of tree height th answers. A tree of height 64 and more does not fit the index: all
    but its top index are answered from the tree of height 63 in its bottom left corner.
  */
  ghost function SenderHas<H>(left: H -> H, right: H -> H, th: nat, root: H, w: nat): Derived<H> {
    Pow2Of64();
    if w > TopIndex(th) then CannotGenerate
    else if th <= 63 then Hash(PostOrder(left, right, th, root)[w])
    else if w == TopIndex(th) then Hash(root)
    else Hash(PostOrder(left, right, 63, LeftTimes(left, th - 63, root))[w])
  }

  /** NewSender and its methods. */
  class Sender<H> {
    const left: H -> H
    const right: H -> H
    const root: H
    const treeHeight: nat
    const maxIndex: nat
    var current: nat

    /** The uint64 shift loop; a height of 255 would never leave it, as its counter is a uint8. */
    constructor (left: H -> H, right: H -> H, th: nat, r: H)
      requires th < 255
      ensures this.left == left && this.right == right && root == r && treeHeight == th && current == 0
      ensures Valid()
    {
      Pow2Of64();
      var top := 0;
      var j: nat := 0;
      while j <= th
        invariant j <= th + 1
        invariant top == if j <= 64 then Pow2(j) - 1 else UINT64 - 1
      {
        if j < 64 {
          Pow2Monotone(j + 1, 64);
        }
        top := (2 * top + 1) % UINT64;
        j := j + 1;
      }
      this.left, this.right, root, treeHeight, maxIndex, current := left, right, r, th, top - 1, 0;
    }

    ghost predicate Valid() {
      maxIndex == TopIndex(treeHeight)
    }

    /** Every index of the tree gives the hash at that place of the post-order; others fail. */
    method AtIndex(w: nat) returns (out: Derived<H>)
      requires Valid()
      ensures out == SenderHas(left, right, treeHeight, root, w)
    {
      TopIsGood(treeHeight);
      SenderAnswers(left, right, treeHeight, root, w);
      ghost var path;
      out, path := Descend(left, right, w, maxIndex, treeHeight, root);
    }

    /** Next counts up before it derives, so its first hash is that of index 1. */
    method Next() returns (out: Derived<H>)
      requires Valid()
      modifies this
      ensures current == (old(current) + 1) % UINT64
      ensures out == SenderHas(left, right, treeHeight, root, current)
    {
      current := (current + 1) % UINT64;
      out := AtIndex(current);
    }
  }

  lemma {:induction false} TopIsGood(th: nat)
    ensures GoodNode(TopIndex(th), th)
  {
    Pow2Of64();
    if th < 64 {
      Pow2Monotone(th + 1, 64);
    }
  }

  lemma {:induction false} SenderAnswers<H>(left: H -> H, right: H -> H, th: nat, root: H, w: nat)
    requires GoodNode(TopIndex(th), th)
    ensures DeriveAny(left, right, w, TopIndex(th), th, root) == SenderHas(left, right, th, root, w)
  {
    hide PostOrder, LeftTimes, BelowLeftmost;
    Pow2Of64();
  }

  // ----- Receiver store -----

  datatype Node<H> = Node(i: nat, h: nat, sha: H)

  /** Every hash the store stands for, in the order received. */
  function Covered<H>(left: H -> H, right: H -> H, s: seq<Node<H>>): seq<H> {
    if s == [] then []
    else Covered(left, right, s[..|s| - 1]) + PostOrder(left, right, s[|s| - 1].h, s[|s| - 1].sha)
  }

  /** Each node carries the number of hashes received up to and including it. */
  ghost predicate Numbered<H>(left: H -> H, right: H -> H, s: seq<Node<H>>) {
    s == [] || (Numbered(left, right, s[..|s| - 1]) && s[|s| - 1].i == |Covered(left, right, s)|)
  }

  /** Heights fall strictly, except that the top two may be equal. */
  ghost predicate Falling<H>(s: seq<Node<H>>) {
    forall j :: 0 <= j < |s| - 1 ==> if j < |s| - 2 then s[j].h > s[j + 1].h else s[j].h >= s[j + 1].h
  }

  /** The store s represents exactly the received hashes `log`. */
  ghost predicate Represents<H>(left: H -> H, right: H -> H, s: seq<Node<H>>, log: seq<H>) {
    Numbered(left, right, s) && Falling(s) && Covered(left, right, s) == log
  }

  predicate PairOnTop<H>(s: seq<Node<H>>) {
    |s| >= 2 && s[|s| - 2].h == s[|s| - 1].h
  }

  /** AddNext on the store: None is a rejected hash. */
  function Add<H(==)>(left: H -> H, right: H -> H, s: seq<Node<H>>, current: nat, sha: H): Option<seq<Node<H>>> {
    var t := |s| - 1;
    if !PairOnTop(s) then Some(s + [Node(current + 1, 0, sha)])
    else if s[t - 1].sha != left(sha) || s[t].sha != right(sha) then None
    else Some(s[..t - 1] + [Node(current + 1, s[t].h + 1, sha)])
  }

  lemma {:induction false} CoveredPush<H>(left: H -> H, right: H -> H, s: seq<Node<H>>, n: Node<H>)
    ensures Covered(left, right, s + [n]) == Covered(left, right, s) + PostOrder(left, right, n.h, n.sha)
    ensures Numbered(left, right, s + [n]) <==> Numbered(left, right, s) && n.i == |Covered(left, right, s + [n])|
  {
    assert (s + [n])[..|s|] == s;
  }

  lemma {:induction false} OnlyEmptyCoversNothing<H>(left: H -> H, right: H -> H, s: seq<Node<H>>)
    ensures Covered(left, right, s) == [] <==> s == []
  {
  }

  lemma {:induction false} CoveredPair<H>(left: H -> H, right: H -> H, s: seq<Node<H>>, base: seq<Node<H>>)
    requires |s| >= 2 && base == s[..|s| - 2]
    ensures var t := |s| - 1;
      Covered(left, right, s) == Covered(left, right, base)
                               + PostOrder(left, right, s[t - 1].h, s[t - 1].sha) + PostOrder(left, right, s[t].h, s[t].sha)
  {
    var t := |s| - 1;
    assert s[..t][..t - 1] == base;
    assert Covered(left, right, s[..t]) == Covered(left, right, base) + PostOrder(left, right, s[t - 1].h, s[t - 1].sha);
  }

  lemma {:induction false} AddFalls<H>(left: H -> H, right: H -> H, s: seq<Node<H>>, current: nat, sha: H)
    requires Falling(s) && Add(left, right, s, current, sha).Some?
    ensures Falling(Add(left, right, s, current, sha).value)
  {
    var s' := Add(left, right, s, current, sha).value;
    forall j | 0 <= j < |s'| - 1
      ensures if j < |s'| - 2 then s'[j].h > s'[j + 1].h else s'[j].h >= s'[j + 1].h
    {
      assert s'[j] == s[j];
      assert PairOnTop(s) ==> s[j].h > s[j + 1].h;
    }
  }

  /** Children followed by their parent make the parent's post-order. */
  lemma {:induction false} ParentCovers<H>(left: H -> H, right: H -> H, base: seq<Node<H>>, n: Node<H>)
    requires Numbered(left, right, base) && n.h > 0
    requires n.i == |Covered(left, right, base)| + 2 * Pow2(n.h) - 1
    ensures Numbered(left, right, base + [n])
    ensures Covered(left, right, base + [n])
         == Covered(left, right, base) + PostOrder(left, right, n.h - 1, left(n.sha))
          + PostOrder(left, right, n.h - 1, right(n.sha)) + [n.sha]
  {
    hide Numbered, Covered, Pow2;
    CoveredPush(left, right, base, n);
    var c, l, r := Covered(left, right, base), PostOrder(left, right, n.h - 1, left(n.sha)), PostOrder(left, right, n.h - 1, right(n.sha));
    assert c + (l + r + [n.sha]) == c + l + r + [n.sha];
  }

  lemma {:induction false} AddParent<H>(left: H -> H, right: H -> H, s: seq<Node<H>>, sha: H, n: Node<H>)
    requires Numbered(left, right, s) && PairOnTop(s)
    requires s[|s| - 2].sha == left(sha) && s[|s| - 1].sha == right(sha)
    requires n == Node(|Covered(left, right, s)| + 1, s[|s| - 1].h + 1, sha)
    ensures Numbered(left, right, s[..|s| - 2] + [n])
    ensures Covered(left, right, s[..|s| - 2] + [n]) == Covered(left, right, s) + [sha]
  {
    hide PostOrder, Covered, Numbered;
    var base := s[..|s| - 2];
    CoveredPair(left, right, s, base);
    PrefixCovers(left, right, s, |s| - 2);
    ParentCovers(left, right, base, n);
  }

  /** An accepted hash extends what the store represents by itself. */
  lemma {:induction false} AddExtends<H>(left: H -> H, right: H -> H, s: seq<Node<H>>, log: seq<H>, sha: H)
    requires Represents(left, right, s, log)
    requires Add(left, right, s, |log|, sha).Some?
    ensures Represents(left, right, Add(left, right, s, |log|, sha).value, log + [sha])
  {
    AddFalls(left, right, s, |log|, sha);
    if !PairOnTop(s) {
      CoveredPush(left, right, s, Node(|log| + 1, 0, sha));
    } else {
      AddParent(left, right, s, sha, Node(|log| + 1, s[|s| - 1].h + 1, sha));
    }
  }

  // ----- Looking an index up -----

  /** The first node, from the bottom of the stack, whose index is at least w; |s| if there is none. */
  function FirstAtLeast<H>(s: seq<Node<H>>, w: nat): (j: nat)
    ensures j <= |s|
    ensures forall k :: 0 <= k < j ==> s[k].i < w
    ensures j < |s| ==> w <= s[j].i
  {
    if s == [] then 0 else if w <= s[0].i then 0 else 1 + FirstAtLeast(s[1..], w)
  }

  lemma {:induction false} FirstAtLeastIs<H>(s: seq<Node<H>>, w: nat, j: nat)
    requires j <= |s| && (forall k :: 0 <= k < j ==> s[k].i < w) && (j < |s| ==> w <= s[j].i)
    ensures FirstAtLeast(s, w) == j
  {
    if j == 0 {
    } else {
      FirstAtLeastIs(s[1..], w, j - 1);
    }
  }

  datatype Lookup<H> =
    | Found(sha: H)
    | NotFound
    | IndexPanic   // the error path reads the last node of an empty store

  /** A stored node with a uint64 index is as descend expects it. */
  lemma {:induction false} StoredIsGood(i: nat, h: nat)
    requires IsNode(i, h) && i < UINT64
    ensures GoodNode(i, h) && h < 64
  {
    if h >= 64 {
      Pow2Of64();
      Pow2Monotone(64, h);
    }
  }

  ghost function LookupIn<H>(left: H -> H, right: H -> H, s: seq<Node<H>>, w: nat): Lookup<H>
    requires forall n :: n in s ==> IsNode(n.i, n.h)
  {
    var j := FirstAtLeast(s, w);
    if j < |s| then
      match Derive(left, right, w, s[j].i, s[j].h, s[j].sha)
      case Hash(sha) => Found(sha)
      case CannotGenerate => NotFound
    else if s == [] then IndexPanic
    else NotFound
  }

  lemma {:induction false} CoveredInit<H>(left: H -> H, right: H -> H, s: seq<Node<H>>)
    requires Numbered(left, right, s) && s != []
    ensures Numbered(left, right, s[..|s| - 1]) && Covered(left, right, s[..|s| - 1]) <= Covered(left, right, s)
    ensures s[|s| - 1].i == |Covered(left, right, s)|
  {
    hide PostOrder;
  }

  /** Any prefix of the store covers a prefix of the log, and numbers its last node so. */
  lemma {:induction false} PrefixCovers<H>(left: H -> H, right: H -> H, s: seq<Node<H>>, j: nat)
    requires Numbered(left, right, s) && j <= |s|
    ensures Numbered(left, right, s[..j])
    ensures Covered(left, right, s[..j]) <= Covered(left, right, s)
    ensures j > 0 ==> s[j - 1].i == |Covered(left, right, s[..j])|
  {
    hide Covered, Numbered;
    if s != [] {
      CoveredInit(left, right, s);
    }
    if j == |s| {
      assert s[..j] == s;
    } else {
      PrefixCovers(left, right, s[..|s| - 1], j);
      assert s[..|s| - 1][..j] == s[..j];
    }
  }

  lemma {:induction false} NodeIsNode<H>(left: H -> H, right: H -> H, s: seq<Node<H>>, j: nat)
    requires Numbered(left, right, s) && j < |s|
    ensures IsNode(s[j].i, s[j].h)
  {
    hide PostOrder, Covered, Numbered, Pow2;
    PrefixCovers(left, right, s, j + 1);
    assert s[..j + 1] == s[..j] + [s[j]];
    CoveredPush(left, right, s[..j], s[j]);
  }

  lemma {:induction false} NodesAreNodes<H>(left: H -> H, right: H -> H, s: seq<Node<H>>)
    requires Numbered(left, right, s)
    ensures forall n :: n in s ==> IsNode(n.i, n.h)
  {
    hide Numbered, IsNode;
    forall j | 0 <= j < |s|
      ensures IsNode(s[j].i, s[j].h)
    {
      NodeIsNode(left, right, s, j);
    }
  }

  /** Node j of the store answers for the numbers after its predecessor's, up to its own. */
  lemma {:induction false} NodeAnswers<H>(left: H -> H, right: H -> H, s: seq<Node<H>>, j: nat, w: nat)
    requires Numbered(left, right, s) && j < |s| && IsNode(s[j].i, s[j].h)
    requires |Covered(left, right, s[..j])| < w <= s[j].i
    ensures w <= |Covered(left, right, s)|
    ensures Derive(left, right, w, s[j].i, s[j].h, s[j].sha) == Hash(Covered(left, right, s)[w - 1])
  {
    hide PostOrder, Covered, Numbered, Pow2;
    var n, before, all := s[j], Covered(left, right, s[..j]), Covered(left, right, s[..j + 1]);
    PrefixCovers(left, right, s, j + 1);
    assert s[..j + 1] == s[..j] + [n];
    CoveredPush(left, right, s[..j], n);
    assert Lowest(n.i, n.h) == |before| + 1;
    assert all[w - 1] == PostOrder(left, right, n.h, n.sha)[w - 1 - |before|];
  }

  /** Every hash ever accepted is recovered from the store, although pruned children are gone. */
  lemma {:induction false} StoreRemembers<H>(left: H -> H, right: H -> H, s: seq<Node<H>>, log: seq<H>, w: nat)
    requires Represents(left, right, s, log) && 1 <= w <= |log|
    requires forall n :: n in s ==> IsNode(n.i, n.h)
    ensures LookupIn(left, right, s, w) == Found(log[w - 1])
  {
    var j := FirstAtLeast(s, w);
    assert j < |s| by {
      PrefixCovers(left, right, s, |s|);
      assert s[..|s|] == s;
    }
    PrefixCovers(left, right, s, j);
    NodeAnswers(left, right, s, j, w);
  }

  /** Index 0 is below every receiver tree; asking for it gives a hash that was never handed in. */
  lemma {:induction false} LookupZero<H>(left: H -> H, right: H -> H, s: seq<Node<H>>)
    requires Numbered(left, right, s) && s != []
    requires forall n :: n in s ==> IsNode(n.i, n.h)
    ensures LookupIn(left, right, s, 0) == Found(BelowLeftmost(left, s[0].h, s[0].sha))
  {
    PrefixCovers(left, right, s, 1);
    assert s[..1] == [] + [s[0]];
    CoveredPush(left, right, [], s[0]);
  }

  // ----- Runs -----

  /** What a receiver keeps after a list of offered hashes; rejected ones leave no trace. */
  datatype Held<H> = Held(s: seq<Node<H>>, log: seq<H>)

  function Receive<H(==)>(left: H -> H, right: H -> H, offers: seq<H>): Held<H> {
    if offers == [] then Held([], [])
    else
      var before := Receive(left, right, offers[..|offers| - 1]);
      var sha := offers[|offers| - 1];
      match Add(left, right, before.s, |before.log|, sha)
      case None => before
      case Some(s) => Held(s, before.log + [sha])
  }

  lemma {:induction false} ReceiveRepresents<H>(left: H -> H, right: H -> H, offers: seq<H>)
    ensures var held := Receive(left, right, offers); Represents(left, right, held.s, held.log)
  {
    if offers == [] {
    } else {
      ReceiveRepresents(left, right, offers[..|offers| - 1]);
      var before := Receive(left, right, offers[..|offers| - 1]);
      var sha := offers[|offers| - 1];
      if Add(left, right, before.s, |before.log|, sha).Some? {
        AddExtends(left, right, before.s, before.log, sha);
      }
    }
  }

  /** For any sender at all: every accepted hash can be asked for again by its number. */
  lemma {:induction false} ReceiverRemembers<H>(left: H -> H, right: H -> H, offers: seq<H>, w: nat)
    requires 1 <= w <= |Receive(left, right, offers).log|
    ensures var held := Receive(left, right, offers);
      && (forall n :: n in held.s ==> IsNode(n.i, n.h))
      && LookupIn(left, right, held.s, w) == Found(held.log[w - 1])
  {
    var held := Receive(left, right, offers);
    ReceiveRepresents(left, right, offers);
    NodesAreNodes(left, right, held.s);
    StoreRemembers(left, right, held.s, held.log, w);
  }

  // ----- How large the store can get -----

  lemma {:induction false} CoveredGrows<H>(left: H -> H, right: H -> H, s: seq<Node<H>>)
    requires s != []
    ensures |Covered(left, right, s)| >= 2 * Pow2(s[0].h) - 1 + (|s| - 1)
  {
    if |s| <= 1 {
    } else {
      CoveredGrows(left, right, s[..|s| - 1]);
    }
  }

  lemma {:induction false} FallingBound<H>(s: seq<Node<H>>, j: nat)
    requires Falling(s) && j + 1 < |s|
    ensures s[j].h + j <= s[0].h
  {
    if j == 0 {
    } else {
      FallingBound(s, j - 1);
    }
  }

  /** After at most 2^(h+1) - 1 accepted hashes, from any sender, at most h + 1 nodes are stored. */
  lemma {:induction false} StoreIsSmall<H>(left: H -> H, right: H -> H, s: seq<Node<H>>, log: seq<H>, h: nat)
    requires Represents(left, right, s, log) && |log| <= 2 * Pow2(h) - 1
    ensures |s| <= h + 1
  {
    if |s| > 1 {
      CoveredGrows(left, right, s);
      if s[0].h >= h {
        Pow2Monotone(h, s[0].h);
      }
      FallingBound(s, |s| - 2);
    }
  }

  // ----- A receiver fed by a sender -----

  /** Offering hashes one by one, all of which must be accepted. */
  function AddAll<H(==)>(left: H -> H, right: H -> H, s: seq<Node<H>>, current: nat, shas: seq<H>): Option<seq<Node<H>>>
    decreases |shas|
  {
    if shas == [] then Some(s)
    else
      match Add(left, right, s, current, shas[0])
      case None => None
      case Some(s') => AddAll(left, right, s', current + 1, shas[1..])
  }

  lemma {:induction false} AddAllAppend<H>(left: H -> H, right: H -> H, s: seq<Node<H>>, current: nat, a: seq<H>, b: seq<H>)
    ensures var first := AddAll(left, right, s, current, a);
      AddAll(left, right, s, current, a + b)
        == if first.None? then None else AddAll(left, right, first.value, current + |a|, b)
    decreases |a|
  {
    if a == [] {
      assert a + b == b;
    } else {
      assert (a + b)[1..] == a[1..] + b;
      var next := Add(left, right, s, current, a[0]);
      if next.Some? {
        AddAllAppend(left, right, next.value, current + 1, a[1..], b);
      }
    }
  }

  lemma {:induction false} AddAllChain<H>(left: H -> H, right: H -> H, s: seq<Node<H>>, current: nat,
                                          a: seq<H>, s1: seq<Node<H>>, b: seq<H>, s2: seq<Node<H>>, c: seq<H>)
    requires AddAll(left, right, s, current, a) == Some(s1)
    requires AddAll(left, right, s1, current + |a|, b) == Some(s2)
    ensures AddAll(left, right, s, current, a + b + c) == AddAll(left, right, s2, current + |a| + |b|, c)
  {
    AddAllAppend(left, right, s, current, a, b);
    AddAllAppend(left, right, s, current, a + b, c);
  }

  lemma {:induction false} PushUnpaired<H>(s: seq<Node<H>>, n: Node<H>)
    requires s != [] ==> s[|s| - 1].h > n.h
    ensures !PairOnTop(s + [n]) && (s + [n])[|s|] == n
  {
  }

  lemma {:induction false} PostOrderSplit<H>(left: H -> H, right: H -> H, h: nat, sha: H)
    requires h > 0
    ensures PostOrder(left, right, h, sha) == PostOrder(left, right, h - 1, left(sha)) + PostOrder(left, right, h - 1, right(sha)) + [sha]
    ensures Pow2(h) == 2 * Pow2(h - 1)
  {
  }

  lemma {:induction false} LeafTree<H>(left: H -> H, right: H -> H, sha: H)
    ensures PostOrder(left, right, 0, sha) == [sha] && Pow2(0) == 1
  {
  }

  /** Both halves of a subtree and then its root, if each half ends up as one node. */
  lemma {:induction false} FeedHalves<H>(left: H -> H, right: H -> H, s: seq<Node<H>>, current: nat, h: nat, sha: H, n1: Node<H>, n2: Node<H>)
    requires h > 0 && n1.h == n2.h == h - 1 && n1.sha == left(sha) && n2.sha == right(sha)
    requires var half := 2 * Pow2(h - 1) - 1;
      && AddAll(left, right, s, current, PostOrder(left, right, h - 1, left(sha))) == Some(s + [n1])
      && AddAll(left, right, s + [n1], current + half, PostOrder(left, right, h - 1, right(sha))) == Some(s + [n1] + [n2])
    ensures AddAll(left, right, s, current, PostOrder(left, right, h, sha)) == Some(s + [Node(current + 2 * Pow2(h) - 1, h, sha)])
  {
    hide AddAll, Add, PairOnTop;
    PostOrderSplit(left, right, h, sha);
    hide PostOrder, Pow2;
    var half := 2 * Pow2(h - 1) - 1;
    var l, r := PostOrder(left, right, h - 1, left(sha)), PostOrder(left, right, h - 1, right(sha));
    CloseSubtree(left, right, s, s + [n1] + [n2], current + half + half, h, sha);
    AddAllChain(left, right, s, current, l, s + [n1], r, s + [n1] + [n2], [sha]);
  }

  /** A complete subtree handed over in post-order ends up as one node on top of the store. */
  lemma {:induction false} FeedSubtree<H>(left: H -> H, right: H -> H, s: seq<Node<H>>, current: nat, h: nat, sha: H)
    requires !PairOnTop(s) && (s != [] ==> s[|s| - 1].h >= h)
    ensures AddAll(left, right, s, current, PostOrder(left, right, h, sha))
         == Some(s + [Node(current + 2 * Pow2(h) - 1, h, sha)])
    decreases h
  {
    hide AddAll, Add, PairOnTop, PostOrder, Pow2;
    if h == 0 {
      FeedLeaf(left, right, s, current, sha);
      LeafTree(left, right, sha);
    } else {
      var half := 2 * Pow2(h - 1) - 1;
      var n1, n2 := Node(current + half, h - 1, left(sha)), Node(current + half + half, h - 1, right(sha));
      FeedSubtree(left, right, s, current, h - 1, left(sha));
      PushUnpaired(s, n1);
      FeedSubtree(left, right, s + [n1], current + half, h - 1, right(sha));
      FeedHalves(left, right, s, current, h, sha, n1, n2);
    }
  }

  lemma {:induction false} FeedLeaf<H>(left: H -> H, right: H -> H, s: seq<Node<H>>, current: nat, sha: H)
    requires !PairOnTop(s)
    ensures AddAll(left, right, s, current, [sha]) == Some(s + [Node(current + 1, 0, sha)])
  {
    assert [sha][1..] == [];
    assert AddAll(left, right, s + [Node(current + 1, 0, sha)], current + 1, []).Some?;
  }

  /** With both children of sha on top, sha is accepted and replaces them. */
  lemma {:induction false} CloseSubtree<H>(left: H -> H, right: H -> H, s: seq<Node<H>>, s2: seq<Node<H>>, current: nat, h: nat, sha: H)
    requires h > 0 && |s2| == |s| + 2 && s2[..|s|] == s
    requires s2[|s|].h == s2[|s| + 1].h == h - 1 && s2[|s|].sha == left(sha) && s2[|s| + 1].sha == right(sha)
    ensures AddAll(left, right, s2, current, [sha]) == Some(s + [Node(current + 1, h, sha)])
  {
    var s3 := s + [Node(current + 1, h, sha)];
    assert Add(left, right, s2, current, sha) == Some(s3);
    assert AddAll(left, right, s3, current + 1, []) == Some(s3);
    assert [sha][1..] == [];
  }

  /** AddAll is what `Receive` does when nothing is rejected. */
  lemma {:induction false} AddAllRepresents<H>(left: H -> H, right: H -> H, s: seq<Node<H>>, log: seq<H>, shas: seq<H>)
    requires Represents(left, right, s, log) && AddAll(left, right, s, |log|, shas).Some?
    ensures Represents(left, right, AddAll(left, right, s, |log|, shas).value, log + shas)
    decreases |shas|
  {
    if shas == [] {
      assert log + shas == log;
    } else {
      AddExtends(left, right, s, log, shas[0]);
      AddAllRepresents(left, right, Add(left, right, s, |log|, shas[0]).value, log + [shas[0]], shas[1..]);
      assert log + [shas[0]] + shas[1..] == log + shas;
    }
  }

  /**
    A receiver that is handed index 0, 1, 2, ... of a sender's tree never rejects up to the root,
    stores at most h + 1 nodes, and agrees with the sender on every index so far: the receiver's
    number w is the sender's index w - 1.
  */
  lemma {:induction false} ReceiverAgreesWithSender<H>(left: H -> H, right: H -> H, h: nat, root: H, j: nat)
      returns (s: seq<Node<H>>)
    requires j <= 2 * Pow2(h) - 1
    ensures AddAll(left, right, [], 0, PostOrder(left, right, h, root)[..j]) == Some(s)
    ensures |s| <= h + 1 && Falling(s)
    ensures forall n :: n in s ==> IsNode(n.i, n.h)
    ensures forall w {:trigger LookupIn(left, right, s, w)} :: 1 <= w <= j ==>
      LookupIn(left, right, s, w) == Found(PostOrder(left, right, h, root)[w - 1])
  {
    var all := PostOrder(left, right, h, root);
    FeedSubtree(left, right, [], 0, h, root);
    assert all == all[..j] + all[j..];
    AddAllAppend(left, right, [], 0, all[..j], all[j..]);
    s := AddAll(left, right, [], 0, all[..j]).value;
    AddAllRepresents(left, right, [], [], all[..j]);
    assert [] + all[..j] == all[..j];
    StoreIsSmall(left, right, s, all[..j], h);
    NodesAreNodes(left, right, s);
    forall w | 1 <= w <= j
      ensures LookupIn(left, right, s, w) == Found(all[w - 1])
    {
      StoreRemembers(left, right, s, all[..j], w);
    }
  }

  /** The second hash of every tree but the smallest is a right one. */
  lemma {:induction false} SecondIsRight<H>(left: H -> H, right: H -> H, h: nat, sha: H) returns (z: H)
    requires h >= 1
    ensures |PostOrder(left, right, h, sha)| >= 3 && PostOrder(left, right, h, sha)[1] == right(z)
  {
    if h == 1 {
      z := sha;
    } else {
      z := SecondIsRight(left, right, h - 1, left(sha));
    }
  }

  /** Two hashes offered to an empty store are leaves; a third must be their parent. */
  lemma {:induction false} ThreeOffers<H>(left: H -> H, right: H -> H, a: H, b: H, c: H)
    ensures AddAll(left, right, [], 0, [a, b]).Some?
    ensures AddAll(left, right, [], 0, [a, b, c]).Some? <==> a == left(c) && b == right(c)
  {
    var n1, n2 := Node(1, 0, a), Node(2, 0, b);
    FeedLeaf(left, right, [], 0, a);
    FeedLeaf(left, right, [n1], 1, b);
    assert [] + [n1] == [n1] && [n1] + [n2] == [n1, n2] && [a] + [b] == [a, b] && [a, b] + [c] == [a, b, c];
    AddAllAppend(left, right, [], 0, [a], [b]);
    AddAllAppend(left, right, [], 0, [a, b], [c]);
    assert PairOnTop([n1, n2]);
    OneOffer(left, right, [n1, n2], 2, c);
  }

  lemma {:induction false} OneOffer<H>(left: H -> H, right: H -> H, s: seq<Node<H>>, current: nat, sha: H)
    ensures AddAll(left, right, s, current, [sha]) == Add(left, right, s, current, sha)
  {
    assert [sha][1..] == [];
    var next := Add(left, right, s, current, sha);
    assert next.Some? ==> AddAll(left, right, next.value, current + 1, []) == next;
  }

  /**
    The stream that `Next` produces starts at index 1. If no left hash is a right hash, a receiver
    takes the whole stream exactly for trees of height 0 and 1; in any other tree its third hash is
    rejected, because the receiver takes it for the parent of the first two.
  */
  lemma {:induction false} NextStreamAccepted<H(!new)>(left: H -> H, right: H -> H, h: nat, root: H)
    requires forall x, y :: left(x) != right(y)
    ensures AddAll(left, right, [], 0, PostOrder(left, right, h, root)[1..]).Some? <==> h <= 1
    ensures h >= 2 ==> |PostOrder(left, right, h, root)| >= 4 && AddAll(left, right, [], 0, PostOrder(left, right, h, root)[1..4]).None?
  {
    var all := PostOrder(left, right, h, root);
    if h == 0 {
      assert all[1..] == [];
    } else if h == 1 {
      assert all[1..] == [right(root), root];
      ThreeOffers(left, right, right(root), root, root);
    } else {
      Pow2Monotone(2, h);
      assert Pow2(2) == 4;
      var z := SecondIsRight(left, right, h, root);
      assert all[1..4] == [all[1], all[2], all[3]] && all[1..] == all[1..4] + all[4..];
      ThreeOffers(left, right, all[1], all[2], all[3]);
      AddAllAppend(left, right, [], 0, all[1..4], all[4..]);
    }
  }

  // ----- Receiver -----

  class Receiver<H(==)> {
    const left: H -> H
    const right: H -> H
    var current: nat
    const treeHeight: nat
    var s: seq<Node<H>>
    ghost var log: seq<H>   // every hash accepted so far

    constructor (left: H -> H, right: H -> H, th: nat)
      ensures this.left == left && this.right == right && treeHeight == th
      ensures Valid() && log == []
    {
      this.left, this.right, treeHeight := left, right, th;
      current, s, log := 0, [], [];
    }

    ghost predicate Valid()
      reads this
    {
      Represents(left, right, s, log) && current == |log| < UINT64
    }

    /**
      AddNext: when the top two nodes have equal height the hash must be their parent's;
      otherwise any hash is taken as a new leaf. A rejected hash changes nothing. With the 2^64th
      accepted hash the counter is back at 0, and nothing is claimed about the store from there on.
    */
    method AddNext(sha: H) returns (ok: bool)
      requires Valid()
      modifies this
      ensures ok <==> (old(PairOnTop(s)) ==> old(s[|s| - 2].sha) == left(sha) && old(s[|s| - 1].sha) == right(sha))
      ensures current == if ok then (old(current) + 1) % UINT64 else old(current)
      ensures log == if ok then old(log) + [sha] else old(log)
      ensures !ok ==> s == old(s) && Valid()
      ensures ok && current > 0 ==> Valid() && Some(s) == old(Add(left, right, s, current, sha))
    {
      hide Represents;
      var t := |s| - 1;
      var h := 0;
      if t > 0 && s[t - 1].h == s[t].h {
        h := s[t].h + 1;
        if s[t - 1].sha != left(sha) {
          return false;
        }
        if s[t].sha != right(sha) {
          return false;
        }
        AddExtends(left, right, s, log, sha);
        s := s[..|s| - 2];
      } else {
        AddExtends(left, right, s, log, sha);
      }
      current := (current + 1) % UINT64;
      s := s + [Node(current, h, sha)];
      log := log + [sha];
      ok := true;
    }

    /** AtIndex: every number from 1 to current gives back the hash accepted under it. */
    method AtIndex(w: nat) returns (out: Lookup<H>)
      requires Valid()
      ensures 1 <= w <= current ==> out == Found(log[w - 1])
      ensures w > current > 0 ==> out == NotFound
      ensures current == 0 ==> out == IndexPanic
      ensures w == 0 && current > 0 ==> out == Found(BelowLeftmost(left, s[0].h, s[0].sha))
    {
      hide PostOrder, Covered, Numbered, Pow2, Falling, IsNode;
      NodesAreNodes(left, right, s);
      PrefixCovers(left, right, s, |s|);
      assert s[..|s|] == s;
      OnlyEmptyCoversNothing(left, right, s);
      var j := 0;
      while j < |s|
        invariant j <= |s|
        invariant forall k :: 0 <= k < j ==> s[k].i < w
      {
        if w <= s[j].i {
          break;
        }
        j := j + 1;
      }
      FirstAtLeastIs(s, w, j);
      if j < |s| {
        PrefixCovers(left, right, s, j + 1);
      }
      if 1 <= w <= current {
        StoreRemembers(left, right, s, log, w);
      } else if w == 0 && s != [] {
        LookupZero(left, right, s);
      }
      if j == |s| {
        return if s == [] then IndexPanic else NotFound;
      }
      assert s[j] in s;
      StoredIsGood(s[j].i, s[j].h);
      var d;
      ghost var path;
      d, path := Descend(left, right, w, s[j].i, s[j].h, s[j].sha);
      out := match d case Hash(sha) => Found(sha) case CannotGenerate => NotFound;
    }
  }
}
