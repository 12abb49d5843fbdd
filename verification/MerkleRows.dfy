/**
  The number of transactions is part of the merkle block message of uspv/mblock.go, so a peer may
  claim any. What is accepted then is a selection from the row of the tree that lies as deep below
  the root as the leaves of the claimed tree.
*/
module MerkleRows {
  import opened Basics
  import opened Powers
  import opened MerklePositions
  import opened MerkleBlock
  import opened MerkleProofs
  import opened MerkleSoundness

  // ----- Rows of the tree -----

  /** The row above a row of hashes: pairs are combined, and a last odd hash is paired with itself. */
  function RowUp<H>(node: (H, H) -> H, row: seq<H>): (up: seq<H>)
    ensures |up| == (|row| + 1) / 2
  {
    seq((|row| + 1) / 2, i requires 0 <= i < (|row| + 1) / 2 =>
      node(row[2 * i], if 2 * i + 1 < |row| then row[2 * i + 1] else row[2 * i]))
  }

  /** Row g of the tree over txids, counted from the leaves. */
  function Row<H>(node: (H, H) -> H, txids: seq<H>, g: nat): (row: seq<H>)
    requires txids != [] && g <= Depth(|txids|)
    ensures row != [] && Depth(|row|) == Depth(|txids|) - g
    decreases g
  {
    if g == 0 then txids else Row(node, RowUp(node, txids), g - 1)
  }

  lemma {:induction false} AliveAbove(n: nat, h: nat, k: nat)
    requires n >= 2
    ensures Alive((n + 1) / 2, h, k) <==> Alive(n, h + 1, k)
  {
    FirstLeafAbove(h, k);
  }

  lemma {:induction false} FirstLeafAbove(h: nat, k: nat)
    ensures FirstLeaf(h + 1, k) == 2 * FirstLeaf(h, k)
  {
    if h == 0 {
    } else {
      FirstLeafAbove(h - 1, 2 * k);
    }
  }

  lemma {:induction false} PairAbove<H>(node: (H, H) -> H, txids: seq<H>, k: nat)
    requires |txids| >= 2 && Alive(|txids|, 1, k) && Alive(|RowUp(node, txids)|, 0, k)
    ensures TreeHash(node, txids, 1, k) == TreeHash(node, RowUp(node, txids), 0, k)
  {
    hide Depth;
    AliveChildAndParent(|txids|, 1, k);
    assert TreeHash(node, txids, 0, 2 * k) == txids[2 * k];
    assert Alive(|txids|, 0, 2 * k + 1) <==> 2 * k + 1 < |txids|;
  }

  /** Node (h + 1, k) over the leaves is node (h, k) over the row above them. */
  lemma {:induction false} HashAbove<H>(node: (H, H) -> H, txids: seq<H>, h: nat, k: nat)
    requires |txids| >= 2 && Alive(|txids|, h + 1, k)
    ensures Alive(|RowUp(node, txids)|, h, k)
    ensures TreeHash(node, txids, h + 1, k) == TreeHash(node, RowUp(node, txids), h, k)
    decreases h
  {
    hide Depth, FirstLeaf;
    AliveAbove(|txids|, h, k);
    AliveChildAndParent(|txids|, h + 1, k);
    if h == 0 {
      PairAbove(node, txids, k);
    } else {
      HashAbove(node, txids, h - 1, 2 * k);
      AliveAbove(|txids|, h - 1, 2 * k + 1);
      if Alive(|txids|, h, 2 * k + 1) {
        HashAbove(node, txids, h - 1, 2 * k + 1);
      }
    }
  }

  lemma {:induction false} RootAbove<H>(node: (H, H) -> H, txids: seq<H>)
    requires |txids| >= 2
    ensures MerkleRoot(node, RowUp(node, txids)) == MerkleRoot(node, txids)
  {
    RootLeaves(|txids|);
    HashAbove(node, txids, Depth(|txids|) - 1, 0);
  }

  /** Every row has the same root above it. */
  lemma {:induction false} RootOfRow<H>(node: (H, H) -> H, txids: seq<H>, g: nat)
    requires txids != [] && g <= Depth(|txids|)
    ensures MerkleRoot(node, Row(node, txids, g)) == MerkleRoot(node, txids)
    decreases g
  {
    hide MerkleRoot, RowUp;
    if g == 0 {
    } else {
      RootAbove(node, txids);
      RootOfRow(node, RowUp(node, txids), g - 1);
    }
  }

  // ----- What is accepted under a claimed size -----

  /**
    With a collision-free hash and no equal siblings in the traversal, a list accepted under a
    claimed size is a selection of the row as deep below the root as the leaves of the claimed tree.
    For a claimed tree as deep as the block's that row is the txids.
  */
  lemma {:induction false} AcceptedUnderClaim<H(!new)>(node: (H, H) -> H, txids: seq<H>, size: nat, bits: seq<bool>, hashes: seq<H>)
      returns (wanted: seq<bool>)
    requires Injective(node) && txids != [] && 1 <= size <= MAX_LEAVES && Depth(size) <= Depth(|txids|)
    requires !Traverse(node, size, Depth(size), 0, bits, hashes).Duplicate?
    requires Run(node, size, MerkleRoot(node, txids), Start(size, bits, hashes)).Matched?
    ensures var row := Row(node, txids, Depth(|txids|) - Depth(size));
      |wanted| == |row| && Run(node, size, MerkleRoot(node, txids), Start(size, bits, hashes)) == Matched(Selected(row, wanted))
  {
    hide Injective, Row, MerkleRoot, Run, Selected, Depth, Traverse;
    var root, d := MerkleRoot(node, txids), Depth(size);
    var row := Row(node, txids, Depth(|txids|) - d);
    RootOfRow(node, txids, Depth(|txids|) - d);
    MachineRefinesTraversal(node, size, root, bits, hashes);
    wanted := MatchedInBlock(node, row, size, bits, hashes);
  }

  /** A claimed tree deeper than the block's can only be accepted with no txids at all. */
  lemma {:induction false} DeeperClaimIsEmpty<H(!new)>(node: (H, H) -> H, txids: seq<H>, size: nat, bits: seq<bool>, hashes: seq<H>)
    requires Injective(node) && RawTxids(node, txids) && txids != [] && 1 <= size <= MAX_LEAVES && Depth(size) > Depth(|txids|)
    requires !Traverse(node, size, Depth(size), 0, bits, hashes).Duplicate?
    requires Run(node, size, MerkleRoot(node, txids), Start(size, bits, hashes)).Matched?
    ensures Run(node, size, MerkleRoot(node, txids), Start(size, bits, hashes)) == Matched([])
  {
    MachineRefinesTraversal(node, size, MerkleRoot(node, txids), bits, hashes);
    RootLeaves(|txids|);
    NothingBelowTxids(node, txids, size, Depth(size) - Depth(|txids|), Depth(|txids|), 0, bits, hashes);
  }

  /** A node that lies g rows higher in the claimed tree than in the block's. */
  lemma {:induction false} NothingBelowTxids<H(!new)>(node: (H, H) -> H, txids: seq<H>, size: nat, g: nat, h: nat, k: nat, bits: seq<bool>, hashes: seq<H>)
    requires Injective(node) && RawTxids(node, txids) && Alive(|txids|, h, k) && g > 0
    requires Traverse(node, size, h + g, k, bits, hashes).Parsed?
    requires Traverse(node, size, h + g, k, bits, hashes).hash == TreeHash(node, txids, h, k)
    ensures Traverse(node, size, h + g, k, bits, hashes).matched == []
    decreases h
  {
    if h == 0 {
      assert Raw(node, txids[k]);
      assert !bits[0];
    } else if bits[0] {
      var left := Traverse(node, size, h + g - 1, 2 * k, bits[1..], hashes);
      NothingBelowTxids(node, txids, size, g, h - 1, 2 * k, bits[1..], hashes);
      if Alive(size, h + g - 1, 2 * k + 1) {
        NothingBelowTxids(node, txids, size, g, h - 1, 2 * k + 1, left.bits, left.hashes);
      }
    }
  }

  /** And every selection of such a row is accepted, under the size of the row. */
  lemma {:induction false} RowsAreAccepted<H>(node: (H, H) -> H, txids: seq<H>, g: nat, wanted: seq<bool>)
    requires txids != [] && g <= Depth(|txids|)
    requires var row := Row(node, txids, g); |row| <= MAX_LEAVES && |wanted| == |row| && NoEqualSiblings(node, row)
    ensures var row := Row(node, txids, g);
      Run(node, |row|, MerkleRoot(node, txids), Start(|row|, FlagBits(BuildFlags(node, row, wanted)), BuildHashes(node, row, wanted)))
        == Matched(Selected(row, wanted))
  {
    RootOfRow(node, txids, g);
    CheckBuiltBlock(node, Row(node, txids, g), wanted);
  }
}
