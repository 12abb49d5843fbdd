/**
  What the checker of uspv/mblock.go is for: a merkle block built as BIP 37 prescribes
  ("Constructing a partial merkle tree object") is accepted with exactly its matched txids, and a
  list accepted from a message without equal siblings holds only txids of the block, in block order.
*/
module MerkleProofs {
  import opened Basics
  import opened Powers
  import opened MerklePositions
  import opened MerkleBlock

  /** The txids whose match bit is set, in order. */
  function Selected<H>(txids: seq<H>, wanted: seq<bool>): seq<H>
    requires |txids| == |wanted|
  {
    if txids == [] then []
    else (if wanted[0] then [txids[0]] else []) + Selected(txids[1..], wanted[1..])
  }

  lemma {:induction false} SelectedAppend<H>(a: seq<H>, m: seq<bool>, b: seq<H>, n: seq<bool>)
    requires |a| == |m| && |b| == |n|
    ensures Selected(a + b, m + n) == Selected(a, m) + Selected(b, n)
  {
    if a == [] {
      assert a + b == b && m + n == n;
    } else {
      SelectedAppend(a[1..], m[1..], b, n);
      assert (a + b)[1..] == a[1..] + b && (m + n)[1..] == m[1..] + n;
      var first, p, q := if m[0] then [a[0]] else [], Selected(a[1..], m[1..]), Selected(b, n);
      assert Selected(a + b, m + n) == first + (p + q) == (first + p) + q;
    }
  }

  lemma {:induction false} SelectOne<H>(x: H, b: bool)
    ensures Selected([x], [b]) == if b then [x] else []
  {
    assert [x][1..] == [];
  }

  // ----- The full tree over a block's txids -----

  /** The Merkle hash of node (h, k): a node without a right child is hashed with itself. */
  function TreeHash<H>(node: (H, H) -> H, txids: seq<H>, h: nat, k: nat): H
    requires Alive(|txids|, h, k)
    decreases h
  {
    if h == 0 then txids[k]
    else
      var left := TreeHash(node, txids, h - 1, 2 * k);
      if Alive(|txids|, h - 1, 2 * k + 1) then node(left, TreeHash(node, txids, h - 1, 2 * k + 1))
      else node(left, left)
  }

  /** No two siblings below node (h, k) have the same hash. */
  ghost predicate DistinctSiblings<H>(node: (H, H) -> H, txids: seq<H>, h: nat, k: nat)
    requires Alive(|txids|, h, k)
    decreases h
  {
    h > 0 ==>
      && DistinctSiblings(node, txids, h - 1, 2 * k)
      && (Alive(|txids|, h - 1, 2 * k + 1) ==>
            && DistinctSiblings(node, txids, h - 1, 2 * k + 1)
            && TreeHash(node, txids, h - 1, 2 * k) != TreeHash(node, txids, h - 1, 2 * k + 1))
  }

  /** One past the last real leaf below node (h, k). */
  function LeafEnd(size: nat, h: nat, k: nat): nat {
    if FirstLeaf(h, k + 1) < size then FirstLeaf(h, k + 1) else size
  }

  lemma {:induction false} LeafSpan(h: nat, k: nat)
    ensures FirstLeaf(h, k + 1) == FirstLeaf(h, k) + Pow2(h)
    decreases h
  {
    if h == 0 {
    } else {
      LeafSpan(h - 1, 2 * k);
      LeafSpan(h - 1, 2 * k + 1);
    }
  }

  /** The leaves below a node are those below its left child followed by those below its right child. */
  lemma {:induction false} SplitLeaves(size: nat, h: nat, k: nat)
    requires Alive(size, h, k)
    ensures FirstLeaf(h, k) < LeafEnd(size, h, k) <= size
    ensures h == 0 ==> LeafEnd(size, h, k) == k + 1
    ensures h > 0 ==>
      && FirstLeaf(h, k) == FirstLeaf(h - 1, 2 * k)
      && if Alive(size, h - 1, 2 * k + 1) then
           LeafEnd(size, h - 1, 2 * k) == FirstLeaf(h - 1, 2 * k + 1) && LeafEnd(size, h - 1, 2 * k + 1) == LeafEnd(size, h, k)
         else LeafEnd(size, h - 1, 2 * k) == LeafEnd(size, h, k)
  {
    LeafSpan(h, k);
    if h > 0 {
      LeafSpan(h - 1, 2 * k);
      LeafSpan(h - 1, 2 * k + 1);
    }
  }

  lemma {:induction false} RootLeaves(size: nat)
    requires size >= 1
    ensures Alive(size, Depth(size), 0)
    ensures FirstLeaf(Depth(size), 0) == 0 && LeafEnd(size, Depth(size), 0) == size
  {
    FirstLeafOfZero(Depth(size));
    LeafSpan(Depth(size), 0);
  }

  /** The part of s that belongs to the leaves below node (h, k). */
  function Below<T>(s: seq<T>, h: nat, k: nat): (part: seq<T>)
    requires Alive(|s|, h, k)
    ensures |part| == LeafEnd(|s|, h, k) - FirstLeaf(h, k)
  {
    SplitLeaves(|s|, h, k);
    s[FirstLeaf(h, k)..LeafEnd(|s|, h, k)]
  }

  lemma {:induction false} SplitBelow<T>(s: seq<T>, h: nat, k: nat)
    requires Alive(|s|, h, k)
    ensures h == 0 ==> Below(s, h, k) == [s[k]]
    ensures h > 0 && Alive(|s|, h - 1, 2 * k + 1) ==> Below(s, h, k) == Below(s, h - 1, 2 * k) + Below(s, h - 1, 2 * k + 1)
    ensures h > 0 && !Alive(|s|, h - 1, 2 * k + 1) ==> Below(s, h, k) == Below(s, h - 1, 2 * k)
  {
    hide Depth;
    SplitLeaves(|s|, h, k);
    if h > 0 {
      SplitLeaves(|s|, h - 1, 2 * k);
      if Alive(|s|, h - 1, 2 * k + 1) {
        SplitLeaves(|s|, h - 1, 2 * k + 1);
      }
    }
  }

  // ----- Constructing a partial tree -----

  predicate AnyMatch(wanted: seq<bool>, h: nat, k: nat)
    requires Alive(|wanted|, h, k)
    decreases h
  {
    if h == 0 then wanted[k]
    else AnyMatch(wanted, h - 1, 2 * k) || (Alive(|wanted|, h - 1, 2 * k + 1) && AnyMatch(wanted, h - 1, 2 * k + 1))
  }

  datatype Encoding<H> = Encoding(bits: seq<bool>, hashes: seq<H>)

  /**
    The partial tree below node (h, k), put in front of `rest`. Depth first: a bit for every
    visited node, and a hash for every leaf or unmatched subtree.
  */
  function Encode<H>(node: (H, H) -> H, txids: seq<H>, wanted: seq<bool>, h: nat, k: nat, rest: Encoding<H>): Encoding<H>
    requires |txids| == |wanted| && Alive(|txids|, h, k)
    decreases h
  {
    if h == 0 || !AnyMatch(wanted, h, k) then
      Encoding([AnyMatch(wanted, h, k)] + rest.bits, [TreeHash(node, txids, h, k)] + rest.hashes)
    else
      var right := if Alive(|txids|, h - 1, 2 * k + 1) then Encode(node, txids, wanted, h - 1, 2 * k + 1, rest) else rest;
      var left := Encode(node, txids, wanted, h - 1, 2 * k, right);
      left.(bits := [true] + left.bits)
  }

  lemma {:induction false} NoMatchSelectsNothing<H>(txids: seq<H>, wanted: seq<bool>, h: nat, k: nat)
    requires |txids| == |wanted| && Alive(|txids|, h, k) && !AnyMatch(wanted, h, k)
    ensures Selected(Below(txids, h, k), Below(wanted, h, k)) == []
    decreases h
  {
    SplitBelow(txids, h, k);
    SplitBelow(wanted, h, k);
    if h == 0 {
    } else {
      NoMatchSelectsNothing(txids, wanted, h - 1, 2 * k);
      if Alive(|txids|, h - 1, 2 * k + 1) {
        NoMatchSelectsNothing(txids, wanted, h - 1, 2 * k + 1);
        SelectedBelow(txids, wanted, h, k);
      }
    }
  }

  /** Traversing an encoded subtree recovers its hash and its matched txids and leaves what follows. */
  lemma {:induction false} TraverseEncoded<H>(node: (H, H) -> H, txids: seq<H>, wanted: seq<bool>, h: nat, k: nat, rest: Encoding<H>)
    requires |txids| == |wanted| && Alive(|txids|, h, k) && DistinctSiblings(node, txids, h, k)
    ensures var e := Encode(node, txids, wanted, h, k, rest);
      Traverse(node, |txids|, h, k, e.bits, e.hashes)
        == Parsed(TreeHash(node, txids, h, k), Selected(Below(txids, h, k), Below(wanted, h, k)), rest.bits, rest.hashes)
    decreases h
  {
    if h == 0 || !AnyMatch(wanted, h, k) {
      SelectedWhenFilled(txids, wanted, h, k);
      TraverseFilled(node, |txids|, h, k, AnyMatch(wanted, h, k), rest.bits, TreeHash(node, txids, h, k), rest.hashes);
    } else if Alive(|txids|, h - 1, 2 * k + 1) {
      var right := Encode(node, txids, wanted, h - 1, 2 * k + 1, rest);
      var left := Encode(node, txids, wanted, h - 1, 2 * k, right);
      TraverseEncoded(node, txids, wanted, h - 1, 2 * k + 1, rest);
      TraverseEncoded(node, txids, wanted, h - 1, 2 * k, right);
      SelectedBelow(txids, wanted, h, k);
      TraversePair(node, |txids|, h, k, left.bits, left.hashes,
                   Traverse(node, |txids|, h - 1, 2 * k, left.bits, left.hashes),
                   Traverse(node, |txids|, h - 1, 2 * k + 1, right.bits, right.hashes));
    } else {
      var left := Encode(node, txids, wanted, h - 1, 2 * k, rest);
      TraverseEncoded(node, txids, wanted, h - 1, 2 * k, rest);
      SplitBelow(txids, h, k);
      SplitBelow(wanted, h, k);
      TraverseSingle(node, |txids|, h, k, left.bits, left.hashes,
                     Traverse(node, |txids|, h - 1, 2 * k, left.bits, left.hashes));
    }
  }

  lemma {:induction false} SelectedWhenFilled<H>(txids: seq<H>, wanted: seq<bool>, h: nat, k: nat)
    requires |txids| == |wanted| && Alive(|txids|, h, k)
    requires h == 0 || !AnyMatch(wanted, h, k)
    ensures Selected(Below(txids, h, k), Below(wanted, h, k))
         == if h == 0 && AnyMatch(wanted, h, k) then [txids[k]] else []
  {
    SplitBelow(txids, h, k);
    SplitBelow(wanted, h, k);
    if h == 0 {
      SelectOne(txids[k], wanted[k]);
    } else {
      NoMatchSelectsNothing(txids, wanted, h, k);
    }
  }

  /** Flag bits behind the ones a traversal uses change nothing. */
  lemma {:induction false} TraverseWithPadding<H>(node: (H, H) -> H, size: nat, h: nat, k: nat, bits: seq<bool>, hashes: seq<H>, padding: seq<bool>)
    requires Traverse(node, size, h, k, bits, hashes).Parsed?
    ensures var p := Traverse(node, size, h, k, bits, hashes);
      Traverse(node, size, h, k, bits + padding, hashes) == p.(bits := p.bits + padding)
    decreases h
  {
    assert (bits + padding)[1..] == bits[1..] + padding;
    if h == 0 || !bits[0] {
    } else {
      TraverseWithPadding(node, size, h - 1, 2 * k, bits[1..], hashes, padding);
      var left := Traverse(node, size, h - 1, 2 * k, bits[1..], hashes);
      if Alive(size, h - 1, 2 * k + 1) {
        TraverseWithPadding(node, size, h - 1, 2 * k + 1, left.bits, left.hashes, padding);
      }
    }
  }

  /** One level of the traversal, when both children parse and differ. */
  lemma {:induction false} TraversePair<H>(node: (H, H) -> H, size: nat, h: nat, k: nat, bits: seq<bool>, hashes: seq<H>,
                                           left: Parse<H>, right: Parse<H>)
    requires h > 0 && Alive(size, h - 1, 2 * k + 1)
    requires left == Traverse(node, size, h - 1, 2 * k, bits, hashes) && left.Parsed?
    requires right == Traverse(node, size, h - 1, 2 * k + 1, left.bits, left.hashes) && right.Parsed?
    requires left.hash != right.hash
    ensures Traverse(node, size, h, k, [true] + bits, hashes)
         == Parsed(node(left.hash, right.hash), left.matched + right.matched, right.bits, right.hashes)
  {
    assert ([true] + bits)[1..] == bits;
  }

  lemma {:induction false} TraverseSingle<H>(node: (H, H) -> H, size: nat, h: nat, k: nat, bits: seq<bool>, hashes: seq<H>, left: Parse<H>)
    requires h > 0 && !Alive(size, h - 1, 2 * k + 1)
    requires left == Traverse(node, size, h - 1, 2 * k, bits, hashes) && left.Parsed?
    ensures Traverse(node, size, h, k, [true] + bits, hashes)
         == Parsed(node(left.hash, left.hash), left.matched, left.bits, left.hashes)
  {
    assert ([true] + bits)[1..] == bits;
  }

  lemma {:induction false} TraverseFilled<H>(node: (H, H) -> H, size: nat, h: nat, k: nat, bit: bool, bits: seq<bool>, hash: H, hashes: seq<H>)
    requires h == 0 || !bit
    ensures Traverse(node, size, h, k, [bit] + bits, [hash] + hashes)
         == Parsed(hash, if bit then [hash] else [], bits, hashes)
  {
    assert ([bit] + bits)[1..] == bits && ([hash] + hashes)[1..] == hashes;
  }

  lemma {:induction false} SelectedBelow<H>(txids: seq<H>, wanted: seq<bool>, h: nat, k: nat)
    requires |txids| == |wanted| && Alive(|txids|, h, k) && h > 0 && Alive(|txids|, h - 1, 2 * k + 1)
    ensures Selected(Below(txids, h, k), Below(wanted, h, k))
         == Selected(Below(txids, h - 1, 2 * k), Below(wanted, h - 1, 2 * k))
          + Selected(Below(txids, h - 1, 2 * k + 1), Below(wanted, h - 1, 2 * k + 1))
  {
    SplitBelow(txids, h, k);
    SplitBelow(wanted, h, k);
    SelectedAppend(Below(txids, h - 1, 2 * k), Below(wanted, h - 1, 2 * k),
                   Below(txids, h - 1, 2 * k + 1), Below(wanted, h - 1, 2 * k + 1));
  }

  // ----- Flag bytes -----

  /** Flag bits as a number, lowest bit first. */
  function BitsValue(bits: seq<bool>): (v: nat)
    ensures v < Pow2(|bits|)
  {
    if bits == [] then 0 else (if bits[0] then 1 else 0) + 2 * BitsValue(bits[1..])
  }

  /** Whole bytes of eight bits; the last byte is padded with zero bits. */
  function PackBits(bits: seq<bool>): (flags: bytes)
    ensures flags != []
  {
    assert Pow2(8) == 0x100;
    if |bits| <= 8 then Pow2Monotone(|bits|, 8); [BitsValue(bits)]
    else [BitsValue(bits[..8])] + PackBits(bits[8..])
  }

  lemma {:induction false} BitOfBitsValue(bits: seq<bool>, i: nat)
    ensures Bit(BitsValue(bits), i) == (i < |bits| && bits[i])
    decreases i
  {
    if bits == [] {
      BitOfSmall(0, i);
    } else if i > 0 {
      BitOfBitsValue(bits[1..], i - 1);
    }
  }

  /** Packing pads the last byte and changes nothing else. */
  lemma {:induction false} UnpackPacked(bits: seq<bool>) returns (padding: seq<bool>)
    ensures FlagBits(PackBits(bits)) == bits + padding
    ensures bits != [] ==> |padding| < 8
  {
    hide FlagBits, BitsValue;
    var flags := PackBits(bits);
    if |bits| <= 8 {
      FirstByte(bits, flags);
      padding := FlagBits(flags)[|bits|..];
    } else {
      padding := UnpackPacked(bits[8..]);
      FirstByte(bits[..8], flags);
      DropByte(flags);
      assert FlagBits(flags) == FlagBits(flags)[..8] + FlagBits(flags)[8..];
      assert bits == bits[..8] + bits[8..];
    }
  }

  lemma {:induction false} FirstByte(bits: seq<bool>, flags: bytes)
    requires |bits| <= 8 && flags != [] && flags[0] == BitsValue(bits)
    ensures FlagBits(flags)[..|bits|] == bits
  {
    forall i | 0 <= i < |bits|
      ensures FlagBits(flags)[i] == bits[i]
    {
      BitOfBitsValue(bits, i);
    }
  }

  // ----- The main theorems -----

  /** A merkle block for any txids and any match vector, as a full node builds it. */
  function BuildFlags<H>(node: (H, H) -> H, txids: seq<H>, wanted: seq<bool>): bytes
    requires txids != [] && |txids| == |wanted|
  {
    RootLeaves(|txids|);
    PackBits(Encode(node, txids, wanted, Depth(|txids|), 0, Encoding([], [])).bits)
  }

  function BuildHashes<H>(node: (H, H) -> H, txids: seq<H>, wanted: seq<bool>): seq<H>
    requires txids != [] && |txids| == |wanted|
  {
    RootLeaves(|txids|);
    Encode(node, txids, wanted, Depth(|txids|), 0, Encoding([], [])).hashes
  }

  function MerkleRoot<H>(node: (H, H) -> H, txids: seq<H>): H
    requires txids != []
  {
    RootLeaves(|txids|);
    TreeHash(node, txids, Depth(|txids|), 0)
  }

  ghost predicate NoEqualSiblings<H>(node: (H, H) -> H, txids: seq<H>)
    requires txids != []
  {
    RootLeaves(|txids|);
    DistinctSiblings(node, txids, Depth(|txids|), 0)
  }

  /** Round trip: checking a constructed merkle block returns exactly the matched txids, in order. */
  lemma {:induction false} CheckBuiltBlock<H>(node: (H, H) -> H, txids: seq<H>, wanted: seq<bool>)
    requires 1 <= |txids| <= MAX_LEAVES && |txids| == |wanted|
    requires NoEqualSiblings(node, txids)
    ensures Run(node, |txids|, MerkleRoot(node, txids),
                Start(|txids|, FlagBits(BuildFlags(node, txids, wanted)), BuildHashes(node, txids, wanted)))
         == Matched(Selected(txids, wanted))
  {
    var d := Depth(|txids|);
    RootLeaves(|txids|);
    var e := Encode(node, txids, wanted, d, 0, Encoding([], []));
    var padding := UnpackPacked(e.bits);
    TraverseEncoded(node, txids, wanted, d, 0, Encoding([], []));
    TraverseWithPadding(node, |txids|, d, 0, e.bits, e.hashes, padding);
    assert Below(txids, d, 0) == txids && Below(wanted, d, 0) == wanted;
    MachineRefinesTraversal(node, |txids|, MerkleRoot(node, txids), e.bits + padding, e.hashes);
  }

  /** A constructed merkle block is valid in the sense of BIP 37: nothing is left over. */
  lemma {:induction false} BuiltBlockIsValid<H>(node: (H, H) -> H, txids: seq<H>, wanted: seq<bool>)
    requires 1 <= |txids| && |txids| == |wanted| && NoEqualSiblings(node, txids)
    ensures Bip37Valid(Traverse(node, |txids|, Depth(|txids|), 0, FlagBits(BuildFlags(node, txids, wanted)), BuildHashes(node, txids, wanted)),
                       MerkleRoot(node, txids))
  {
    var d := Depth(|txids|);
    RootLeaves(|txids|);
    var e := Encode(node, txids, wanted, d, 0, Encoding([], []));
    var padding := UnpackPacked(e.bits);
    TraverseEncoded(node, txids, wanted, d, 0, Encoding([], []));
    TraverseWithPadding(node, |txids|, d, 0, e.bits, e.hashes, padding);
  }

  ghost predicate Injective<H(!new)>(node: (H, H) -> H) {
    forall a, b, c, d :: node(a, b) == node(c, d) ==> a == c && b == d
  }

  /**
    A traversal that computes a subtree's true hash can only have matched leaves of that subtree,
    even if it takes the tree for one of another size.
  */
  lemma {:induction false} MatchedAreLeaves<H(!new)>(node: (H, H) -> H, txids: seq<H>, size: nat, h: nat, k: nat, bits: seq<bool>, hashes: seq<H>)
      returns (wanted: seq<bool>)
    requires Injective(node) && Alive(|txids|, h, k)
    requires Traverse(node, size, h, k, bits, hashes).Parsed?
    requires Traverse(node, size, h, k, bits, hashes).hash == TreeHash(node, txids, h, k)
    ensures |wanted| == |Below(txids, h, k)|
    ensures Traverse(node, size, h, k, bits, hashes).matched == Selected(Below(txids, h, k), wanted)
    decreases h
  {
    hide Below, Selected;
    SplitBelow(txids, h, k);
    if h == 0 {
      wanted := [bits[0]];
      SelectOne(txids[k], bits[0]);
    } else if !bits[0] {
      wanted := seq(|Below(txids, h, k)|, _ => false);
      SelectNone(Below(txids, h, k));
    } else {
      var left := MatchedAreLeaves(node, txids, size, h - 1, 2 * k, bits[1..], hashes);
      var p := Traverse(node, size, h - 1, 2 * k, bits[1..], hashes);
      if Alive(|txids|, h - 1, 2 * k + 1) {
        var right := seq(|Below(txids, h - 1, 2 * k + 1)|, _ => false);
        if Alive(size, h - 1, 2 * k + 1) {
          right := MatchedAreLeaves(node, txids, size, h - 1, 2 * k + 1, p.bits, p.hashes);
        } else {
          SelectNone(Below(txids, h - 1, 2 * k + 1));
        }
        wanted := left + right;
        SelectedAppend(Below(txids, h - 1, 2 * k), left, Below(txids, h - 1, 2 * k + 1), right);
      } else {
        wanted := left;
      }
    }
  }

  lemma {:induction false} SelectNone<H>(txids: seq<H>)
    ensures Selected(txids, seq(|txids|, _ => false)) == []
  {
    if txids == [] {
    } else {
      SelectNone(txids[1..]);
      assert seq(|txids|, _ => false)[1..] == seq(|txids[1..]|, _ => false);
    }
  }

  /** The same for the root, and a tree that is as deep as the traversal takes it to be. */
  lemma {:induction false} MatchedInBlock<H(!new)>(node: (H, H) -> H, txids: seq<H>, size: nat, bits: seq<bool>, hashes: seq<H>)
      returns (wanted: seq<bool>)
    requires Injective(node) && txids != [] && Depth(size) == Depth(|txids|)
    requires var p := Traverse(node, size, Depth(size), 0, bits, hashes); p.Parsed? && p.hash == MerkleRoot(node, txids)
    ensures |wanted| == |txids|
    ensures Traverse(node, size, Depth(size), 0, bits, hashes).matched == Selected(txids, wanted)
  {
    hide Injective, Selected, Traverse;
    RootLeaves(|txids|);
    wanted := MatchedAreLeaves(node, txids, size, Depth(size), 0, bits, hashes);
    assert Below(txids, Depth(size), 0) == txids;
  }

  /**
    With a collision-free hash, a list accepted against the Merkle root of a block is a selection of
    that block's txids, in block order, if the message's traversal combines no two equal siblings.
    `MerkleSoundness.SoundIffSmall` says when it holds on all messages.
  */
  lemma {:induction false} AcceptedListIsFromBlock<H(!new)>(node: (H, H) -> H, txids: seq<H>, bits: seq<bool>, hashes: seq<H>)
      returns (wanted: seq<bool>)
    requires Injective(node) && 1 <= |txids| <= MAX_LEAVES
    requires !Traverse(node, |txids|, Depth(|txids|), 0, bits, hashes).Duplicate?
    requires Run(node, |txids|, MerkleRoot(node, txids), Start(|txids|, bits, hashes)).Matched?
    ensures |wanted| == |txids|
    ensures Run(node, |txids|, MerkleRoot(node, txids), Start(|txids|, bits, hashes)) == Matched(Selected(txids, wanted))
  {
    MachineRefinesTraversal(node, |txids|, MerkleRoot(node, txids), bits, hashes);
    wanted := MatchedInBlock(node, txids, |txids|, bits, hashes);
  }

  /**
    Outside the refinement: when the root's own two children come out equal, the parent is nil and
    the Go loop indexes its stack at -1 instead of rejecting the block.
  */
  lemma {:induction false} EqualRootChildrenPanic<H>(node: (H, H) -> H, size: nat, root: H, bits: seq<bool>, hashes: seq<H>)
    requires 2 <= size <= MAX_LEAVES && bits != [] && bits[0]
    requires var left := Traverse(node, size, Depth(size) - 1, 0, bits[1..], hashes);
      && left.Parsed?
      && var right := Traverse(node, size, Depth(size) - 1, 1, left.bits, left.hashes);
         right.Parsed? && left.hash == right.hash
    ensures Run(node, size, root, Start(size, bits, hashes)) == IndexPanic
  {
    hide Step, SafeRun, DeadZone, FirstLeaf, Pow2;
    var d := Depth(size);
    var m := Start(size, bits, hashes);
    var left := Traverse(node, size, d - 1, 0, bits[1..], hashes);
    if hashes == [] {
      NoHashesIsShort(node, size, d - 1, 0, bits[1..], hashes);
    }
    RootAtStart(size, bits, hashes);
    var descended := OpenNode(node, size, root, d, 0, m);
    var afterLeft := Simulate(node, size, root, d - 1, 0, descended);
    var afterRight := Simulate(node, size, root, d - 1, 1, afterLeft);
    NilParentPanics(node, size, root, left.hash, afterRight);
  }

  lemma {:induction false} RootAtStart<H>(size: nat, bits: seq<bool>, hashes: seq<H>)
    requires 2 <= size <= MAX_LEAVES
    ensures AtNode(size, Depth(size), 0, Start(size, bits, hashes))
    ensures Alive(size, Depth(size) - 1, 0) && Alive(size, Depth(size) - 1, 1)
  {
    var d := Depth(size);
    RootLeaves(size);
    DepthBound(size);
    RootAt(d);
    LeafSpan(d - 1, 0);
    FirstLeafOfZero(d - 1);
  }

  lemma {:induction false} NilParentPanics<H>(node: (H, H) -> H, size: nat, root: H, x: H, m: Machine<H>)
    requires 2 <= size <= MAX_LEAVES && Alive(size, Depth(size) - 1, 1) && Alive(size, Depth(size), 0)
    requires |m.s| == 3 && m.s[0] == MerkleNode(Pos(Depth(size), Depth(size), 0), None)
    requires m.s[1].h == Some(x) && m.s[2].h == Some(x)
    requires StandsAfter(size, Depth(size) - 1, 1, m.pos)
    ensures Run(node, size, root, m) == IndexPanic
  {
    var d := Depth(size);
    NotDeadAfterRight(size, d, 0, m.pos);
    var next := FoldPair(node, m);
    assert next.s == [m.s[0]];
    assert Step(node, size, root, m) == Continue(next);
    SiblingAt(d, d, 0);
    DepthBound(size);
    RootAt(d);
    assert DeadZone(next.pos, size);
    assert Step(node, size, root, next) == Done(IndexPanic);
  }
}
