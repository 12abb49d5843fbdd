/**
  uspv/txstore.go: the wallet's unspent outputs. ExpellTx deletes from the slice it is ranging over,
  so the range goes on reading a backing array that the deletion has shifted under it.
*/
module TxStore {
  import opened Basics

  datatype TxOut = TxOut(value: int, pkScript: bytes)

  datatype Tx = Tx(txid: nat, txIn: seq<OutPoint>, txOut: seq<TxOut>)

  datatype Utxo = Utxo(op: OutPoint, txo: TxOut, atHeight: nat, keyIdx: nat)

  datatype MyAdr = MyAdr(scriptAddress: bytes, keyIdx: nat)

  function SumOf(us: seq<Utxo>): int {
    if us == [] then 0 else us[0].txo.value + SumOf(us[1..])
  }

  lemma {:induction false} SumAppend(a: seq<Utxo>, b: seq<Utxo>)
    ensures SumOf(a + b) == SumOf(a) + SumOf(b)
  {
    if a == [] {
      assert a + b == b;
    } else {
      assert (a + b)[1..] == a[1..] + b;
      SumAppend(a[1..], b);
    }
  }

  /** The outputs that do not sit at op, in order. */
  function Without(us: seq<Utxo>, op: OutPoint): seq<Utxo> {
    if us == [] then []
    else (if us[0].op == op then [] else [us[0]]) + Without(us[1..], op)
  }

  // ----- One input: the loop over the aliased slice -----

  datatype Swept = Swept(kept: seq<Utxo>, loss: int) | SlicePanic

  /**
    The loop from index i on. `b` is the backing array as far as the range sees it, `len` the
    current length of the slice: a deletion moves b[i+1..len] down by one and leaves the old last
    element where it was. Deleting at or behind the end slices out of range.
  */
  function SweepFrom(b: seq<Utxo>, len: nat, i: nat, op: OutPoint, loss: int): Swept
    requires len <= |b| && i <= |b|
    decreases |b| - i
  {
    if i == |b| then Swept(b[..len], loss)
    else if b[i].op != op then SweepFrom(b, len, i + 1, op, loss)
    else if i + 1 > len then SlicePanic
    else SweepFrom(b[..i] + b[i + 1..len] + b[len - 1..], len - 1, i + 1, op, loss + b[i].txo.value)
  }

  function Sweep(us: seq<Utxo>, op: OutPoint): Swept {
    SweepFrom(us, |us|, 0, op, 0)
  }

  /** The same loop in terms of what is already passed, what is still live, and what is stale. */
  function Pass(acc: seq<Utxo>, live: seq<Utxo>, stale: seq<Utxo>, op: OutPoint, loss: int): Swept
    decreases |live|, |stale|
  {
    if live == [] then
      if stale == [] then Swept(acc, loss)
      else if stale[0].op == op then SlicePanic
      else Pass(acc, live, stale[1..], op, loss)
    else if live[0].op != op then Pass(acc + [live[0]], live[1..], stale, op, loss)
    else if |live| == 1 then Pass(acc, [], stale, op, loss + live[0].txo.value)
    else Pass(acc + [live[1]], live[2..], [live[|live| - 1]] + stale, op, loss + live[0].txo.value)
  }

  lemma {:induction false} StaleTail(b: seq<Utxo>, len: nat, i: nat, op: OutPoint, loss: int)
    requires len <= i <= |b|
    ensures SweepFrom(b, len, i, op, loss) == Pass(b[..len], [], b[i..], op, loss)
    decreases |b| - i
  {
    if i == |b| {
    } else {
      assert b[i..][1..] == b[i + 1..];
      StaleTail(b, len, i + 1, op, loss);
    }
  }

  /** The array loop is the list recursion. */
  lemma {:induction false} SweepIsPass(b: seq<Utxo>, len: nat, i: nat, op: OutPoint, loss: int)
    requires i <= len <= |b|
    ensures SweepFrom(b, len, i, op, loss) == Pass(b[..i], b[i..len], b[len..], op, loss)
    decreases |b| - i
  {
    if i == len {
      StaleTail(b, len, i, op, loss);
    } else if b[i].op != op {
      SweepIsPass(b, len, i + 1, op, loss);
      assert b[..i] + [b[i..len][0]] == b[..i + 1] && b[i..len][1..] == b[i + 1..len];
    } else {
      SweepDeletes(b, len, i, op, loss);
    }
  }

  lemma {:induction false} SweepDeletes(b: seq<Utxo>, len: nat, i: nat, op: OutPoint, loss: int)
    requires i < len <= |b| && b[i].op == op
    ensures SweepFrom(b, len, i, op, loss) == Pass(b[..i], b[i..len], b[len..], op, loss)
    decreases |b| - i, 0
  {
    var c := b[..i] + b[i + 1..len] + b[len - 1..];
    var live := b[i..len];
    var loss' := loss + b[i].txo.value;
    if i + 1 == len {
      StaleTail(c, i, i + 1, op, loss');
      assert c[..i] == b[..i] && c[i + 1..] == b[len..];
    } else {
      SweepIsPass(c, len - 1, i + 1, op, loss');
      assert c[..i + 1] == b[..i] + [live[1]];
      assert c[i + 1..len - 1] == live[2..];
      assert c[len - 1..] == [live[|live| - 1]] + b[len..];
    }
  }

  /** Moving b[i+1..len] down by one, element by element. */
  lemma {:induction false} Shifted(b: seq<Utxo>, c: seq<Utxo>, i: nat, len: nat)
    requires i < len <= |b| == |c|
    requires forall j :: 0 <= j < i || len - 1 <= j < |b| ==> c[j] == b[j]
    requires forall j :: i <= j < len - 1 ==> c[j] == b[j + 1]
    ensures c == b[..i] + b[i + 1..len] + b[len - 1..]
  {
    var d := b[..i] + b[i + 1..len] + b[len - 1..];
    forall j | 0 <= j < |b|
      ensures c[j] == d[j]
    {
      if j < i {
        assert d[j] == b[..i][j] == b[j];
      } else if j < len - 1 {
        assert d[j] == b[i + 1..len][j - i] == b[j + 1];
      } else {
        assert d[j] == b[len - 1..][j - (len - 1)] == b[j];
      }
    }
  }

  // ----- When the loop is a filter -----

  predicate AnyAt(us: seq<Utxo>, op: OutPoint) {
    exists i :: 0 <= i < |us| && us[i].op == op
  }

  predicate LastAt(us: seq<Utxo>, op: OutPoint) {
    us != [] && us[|us| - 1].op == op
  }

  predicate AdjacentAt(us: seq<Utxo>, op: OutPoint) {
    exists i :: 0 <= i < |us| - 1 && us[i].op == op && us[i + 1].op == op
  }

  /** No two neighbours match, and a match at the very end is the only one. */
  predicate SafeToSweep(us: seq<Utxo>, op: OutPoint) {
    !AdjacentAt(us, op) && (LastAt(us, op) ==> !AnyAt(us[..|us| - 1], op))
  }

  /** Without a match at the end: each deletion lets the element behind it pass unseen. */
  function SkipNext(us: seq<Utxo>, op: OutPoint): seq<Utxo> {
    if us == [] then []
    else if us[0].op != op then [us[0]] + SkipNext(us[1..], op)
    else if |us| == 1 then []
    else [us[1]] + SkipNext(us[2..], op)
  }

  lemma {:induction false} PassWithoutLast(acc: seq<Utxo>, live: seq<Utxo>, stale: seq<Utxo>, op: OutPoint, loss: int)
    requires !LastAt(live, op) && !AnyAt(stale, op)
    ensures Pass(acc, live, stale, op, loss).Swept?
    ensures Pass(acc, live, stale, op, loss).kept == acc + SkipNext(live, op)
    decreases |live|, |stale|
  {
    if live == [] {
      assert acc + [] == acc;
      if stale != [] {
        assert stale[0].op != op;
        PassWithoutLast(acc, live, stale[1..], op, loss);
      }
    } else if live[0].op != op {
      PassWithoutLast(acc + [live[0]], live[1..], stale, op, loss);
      assert acc + [live[0]] + SkipNext(live[1..], op) == acc + ([live[0]] + SkipNext(live[1..], op));
    } else {
      var stale' := [live[|live| - 1]] + stale;
      assert !AnyAt(stale', op) by {
        assert forall i :: 0 < i < |stale'| ==> stale'[i] == stale[i - 1];
      }
      PassWithoutLast(acc + [live[1]], live[2..], stale', op, loss + live[0].txo.value);
      assert acc + [live[1]] + SkipNext(live[2..], op) == acc + ([live[1]] + SkipNext(live[2..], op));
    }
  }

  /** A match among the stale elements is reached sooner or later. */
  lemma {:induction false} StaleMatchPanics(acc: seq<Utxo>, live: seq<Utxo>, stale: seq<Utxo>, op: OutPoint, loss: int)
    requires AnyAt(stale, op)
    ensures Pass(acc, live, stale, op, loss) == SlicePanic
    decreases |live|, |stale|
  {
    var k :| 0 <= k < |stale| && stale[k].op == op;
    if live == [] {
      if stale[0].op != op {
        assert stale[1..][k - 1] == stale[k];
        StaleMatchPanics(acc, live, stale[1..], op, loss);
      }
    } else if live[0].op != op {
      StaleMatchPanics(acc + [live[0]], live[1..], stale, op, loss);
    } else if |live| == 1 {
      StaleMatchPanics(acc, [], stale, op, loss + live[0].txo.value);
    } else {
      assert ([live[|live| - 1]] + stale)[k + 1] == stale[k];
      StaleMatchPanics(acc + [live[1]], live[2..], [live[|live| - 1]] + stale, op, loss + live[0].txo.value);
    }
  }

  /** A match at the end and another before it: the stale copy of the end is met again. */
  lemma {:induction false} SecondMatchPanics(acc: seq<Utxo>, live: seq<Utxo>, op: OutPoint, loss: int)
    requires LastAt(live, op) && AnyAt(live[..|live| - 1], op)
    ensures Pass(acc, live, [], op, loss) == SlicePanic
    decreases |live|
  {
    var n := |live|;
    var k :| 0 <= k < n - 1 && live[..n - 1][k].op == op;
    if live[0].op != op {
      assert live[1..][..n - 2][k - 1].op == op;
      SecondMatchPanics(acc + [live[0]], live[1..], op, loss);
    } else {
      assert ([live[n - 1]] + [])[0].op == op;
      StaleMatchPanics(acc + [live[1]], live[2..], [live[n - 1]] + [], op, loss + live[0].txo.value);
    }
  }

  lemma {:induction false} OnlyLastMatches(acc: seq<Utxo>, live: seq<Utxo>, op: OutPoint, loss: int)
    requires LastAt(live, op) && !AnyAt(live[..|live| - 1], op)
    ensures Pass(acc, live, [], op, loss) == Swept(acc + live[..|live| - 1], loss + live[|live| - 1].txo.value)
    ensures Without(live, op) == live[..|live| - 1]
    decreases |live|
  {
    var n := |live|;
    if n == 1 {
      assert acc + live[..0] == acc;
    } else {
      assert live[0] == live[..n - 1][0];
      assert live[1..][..n - 2] == live[..n - 1][1..];
      OnlyLastMatches(acc + [live[0]], live[1..], op, loss);
      assert acc + [live[0]] + live[1..][..n - 2] == acc + live[..n - 1];
    }
  }

  lemma {:induction false} SkipNextIsFilter(us: seq<Utxo>, op: OutPoint)
    requires !AdjacentAt(us, op)
    ensures SkipNext(us, op) == Without(us, op)
    decreases |us|
  {
    if us == [] {
    } else {
      if us[0].op != op {
        SkipNextIsFilter(us[1..], op);
      } else if |us| > 1 {
        assert us[1].op != op;
        assert us[1..][1..] == us[2..];
        SkipNextIsFilter(us[2..], op);
      }
    }
  }

  lemma {:induction false} SkipNextKeepsNeighbour(us: seq<Utxo>, op: OutPoint)
    requires AdjacentAt(us, op)
    ensures AnyAt(SkipNext(us, op), op)
    decreases |us|
  {
    var i :| 0 <= i < |us| - 1 && us[i].op == op && us[i + 1].op == op;
    if us[0].op != op {
      assert us[1..][i - 1].op == op && us[1..][i].op == op;
      SkipNextKeepsNeighbour(us[1..], op);
      var k :| 0 <= k < |SkipNext(us[1..], op)| && SkipNext(us[1..], op)[k].op == op;
      assert SkipNext(us, op)[k + 1].op == op;
    } else if us[1].op == op {
      assert SkipNext(us, op)[0].op == op;
    } else {
      assert i >= 2;
      assert us[2..][i - 2].op == op && us[2..][i - 1].op == op;
      SkipNextKeepsNeighbour(us[2..], op);
      var k :| 0 <= k < |SkipNext(us[2..], op)| && SkipNext(us[2..], op)[k].op == op;
      assert SkipNext(us, op)[k + 1].op == op;
    }
  }

  lemma {:induction false} WithoutHasNone(us: seq<Utxo>, op: OutPoint)
    ensures !AnyAt(Without(us, op), op)
  {
    if us == [] {
    } else {
      WithoutHasNone(us[1..], op);
    }
  }

  /**
    Exactly when the deletion loop for one input is the filter it is meant to be. Otherwise it
    slices out of range, if the last entry matches and an earlier one does too, or keeps a spent
    output, if the last entry does not match and two neighbours do.
  */
  lemma {:induction false} SweepIsFilterIff(us: seq<Utxo>, op: OutPoint)
    ensures Sweep(us, op).Swept? && Sweep(us, op).kept == Without(us, op) <==> SafeToSweep(us, op)
    ensures Sweep(us, op) == SlicePanic <==> LastAt(us, op) && AnyAt(us[..|us| - 1], op)
    ensures Sweep(us, op).Swept? && AnyAt(Sweep(us, op).kept, op) <==> !LastAt(us, op) && AdjacentAt(us, op)
  {
    SweepIsPass(us, |us|, 0, op, 0);
    assert us[..0] == [] && us[0..|us|] == us && us[|us|..] == [];
    if LastAt(us, op) {
      if AnyAt(us[..|us| - 1], op) {
        SecondMatchPanics([], us, op, 0);
      } else {
        OnlyLastMatches([], us, op, 0);
        WithoutHasNone(us, op);
        assert [] + us[..|us| - 1] == us[..|us| - 1];
        assert !AdjacentAt(us, op) by {
          assert forall i :: 0 <= i < |us| - 1 ==> us[i] == us[..|us| - 1][i];
        }
      }
    } else {
      PassWithoutLast([], us, [], op, 0);
      assert [] + SkipNext(us, op) == SkipNext(us, op);
      WithoutHasNone(us, op);
      if AdjacentAt(us, op) {
        SkipNextKeepsNeighbour(us, op);
      } else {
        SkipNextIsFilter(us, op);
      }
    }
  }

  /** Value is conserved by every loop that does not panic: what is kept and what is lost add up. */
  lemma {:induction false} SweepConserves(acc: seq<Utxo>, live: seq<Utxo>, stale: seq<Utxo>, op: OutPoint, loss: int)
    requires Pass(acc, live, stale, op, loss).Swept?
    ensures var r := Pass(acc, live, stale, op, loss); SumOf(r.kept) + r.loss == SumOf(acc) + SumOf(live) + loss
    decreases |live|, |stale|
  {
    if live == [] {
      if stale != [] {
        SweepConserves(acc, live, stale[1..], op, loss);
      }
    } else if live[0].op != op {
      SumAppend(acc, [live[0]]);
      SweepConserves(acc + [live[0]], live[1..], stale, op, loss);
    } else if |live| == 1 {
      SweepConserves(acc, [], stale, op, loss + live[0].txo.value);
    } else {
      SumAppend(acc, [live[1]]);
      assert live[1..][1..] == live[2..];
      SweepConserves(acc + [live[1]], live[2..], [live[|live| - 1]] + stale, op, loss + live[0].txo.value);
    }
  }

  // ----- A whole transaction -----

  /** ExpellTx: one loop for each input. */
  function Expel(us: seq<Utxo>, ins: seq<OutPoint>): Swept
    decreases |ins|
  {
    if ins == [] then Swept(us, 0)
    else
      match Sweep(us, ins[0])
      case SlicePanic => SlicePanic
      case Swept(kept, loss) =>
        match Expel(kept, ins[1..])
        case SlicePanic => SlicePanic
        case Swept(kept', loss') => Swept(kept', loss + loss')
  }

  /** The outputs that none of the inputs spends, in order. */
  function Unspent(us: seq<Utxo>, ins: seq<OutPoint>): seq<Utxo> {
    if us == [] then []
    else (if us[0].op in ins then [] else [us[0]]) + Unspent(us[1..], ins)
  }

  ghost predicate Distinct(us: seq<Utxo>) {
    forall i, j :: 0 <= i < j < |us| ==> us[i].op != us[j].op
  }

  lemma {:induction false} DistinctIsSafe(us: seq<Utxo>, op: OutPoint)
    requires Distinct(us)
    ensures SafeToSweep(us, op)
  {
    if us != [] {
      assert forall i :: 0 <= i < |us| - 1 ==> us[..|us| - 1][i] == us[i];
    }
  }

  lemma {:induction false} WithoutIsSubset(us: seq<Utxo>, op: OutPoint, u: Utxo)
    requires u in Without(us, op)
    ensures u in us
  {
    if us[0].op != op && u == us[0] {
    } else {
      WithoutIsSubset(us[1..], op, u);
    }
  }

  lemma {:induction false} WithoutIsDistinct(us: seq<Utxo>, op: OutPoint)
    requires Distinct(us)
    ensures Distinct(Without(us, op))
  {
    if us == [] {
    } else {
      var rest := Without(us[1..], op);
      WithoutIsDistinct(us[1..], op);
      if us[0].op != op {
        forall j | 0 <= j < |rest|
          ensures rest[j].op != us[0].op
        {
          WithoutIsSubset(us[1..], op, rest[j]);
        }
        assert Without(us, op) == [us[0]] + rest;
      } else {
        assert Without(us, op) == rest;
      }
    }
  }

  lemma {:induction false} UnspentStep(us: seq<Utxo>, ins: seq<OutPoint>)
    requires ins != []
    ensures Unspent(Without(us, ins[0]), ins[1..]) == Unspent(us, ins)
  {
    assert ins == [ins[0]] + ins[1..];
    if us == [] {
    } else {
      UnspentStep(us[1..], ins);
      var rest := Without(us[1..], ins[0]);
      if us[0].op == ins[0] {
        assert Without(us, ins[0]) == rest;
      } else {
        assert ([us[0]] + rest)[1..] == rest;
        assert us[0].op in ins <==> us[0].op in ins[1..];
      }
    }
  }

  lemma {:induction false} NothingSpent(us: seq<Utxo>)
    ensures Unspent(us, []) == us
  {
    if us == [] {
    } else {
      NothingSpent(us[1..]);
    }
  }

  /** With distinct outpoints every loop of ExpellTx is a filter, and no value goes missing. */
  lemma {:induction false} ExpelIsFilter(us: seq<Utxo>, ins: seq<OutPoint>)
    requires Distinct(us)
    ensures Expel(us, ins) == Swept(Unspent(us, ins), SumOf(us) - SumOf(Unspent(us, ins)))
    ensures Distinct(Unspent(us, ins))
    decreases |ins|
  {
    if ins == [] {
      NothingSpent(us);
    } else {
      DistinctIsSafe(us, ins[0]);
      SweepIsFilterIff(us, ins[0]);
      var r := Sweep(us, ins[0]);
      SweepKeepsSum(us, ins[0]);
      hide Sweep, SumOf, Unspent, SafeToSweep;
      WithoutIsDistinct(us, ins[0]);
      ExpelIsFilter(r.kept, ins[1..]);
      UnspentStep(us, ins);
    }
  }

  // ----- When a whole transaction is a filter -----

  /** The last entry matches, and an earlier one does too. */
  predicate Panics(us: seq<Utxo>, op: OutPoint) {
    LastAt(us, op) && AnyAt(us[..|us| - 1], op)
  }

  /** What a loop that does not panic leaves. */
  function Kept(us: seq<Utxo>, op: OutPoint): seq<Utxo> {
    if LastAt(us, op) then us[..|us| - 1] else SkipNext(us, op)
  }

  lemma {:induction false} SweepIsKept(us: seq<Utxo>, op: OutPoint)
    ensures Sweep(us, op) == SlicePanic <==> Panics(us, op)
    ensures !Panics(us, op) ==> Sweep(us, op).Swept? && Sweep(us, op).kept == Kept(us, op)
  {
    SweepIsFilterIff(us, op);
    SweepIsPass(us, |us|, 0, op, 0);
    assert us[..0] == [] && us[0..|us|] == us && us[|us|..] == [];
    if !LastAt(us, op) {
      PassWithoutLast([], us, [], op, 0);
      assert [] + SkipNext(us, op) == SkipNext(us, op);
    } else if !AnyAt(us[..|us| - 1], op) {
      OnlyLastMatches([], us, op, 0);
      assert [] + us[..|us| - 1] == us[..|us| - 1];
    }
  }

  /**
    No input's loop panics, and the last loop for each outpoint leaves no match. A loop for an
    outpoint that comes again may keep some for the next one.
  */
  ghost predicate SafeInputs(us: seq<Utxo>, ins: seq<OutPoint>)
    decreases |ins|
  {
    ins != [] ==>
      && !Panics(us, ins[0])
      && (ins[0] !in ins[1..] ==> !AdjacentAt(us, ins[0]))
      && SafeInputs(Kept(us, ins[0]), ins[1..])
  }

  lemma {:induction false} SweepKeepsSum(us: seq<Utxo>, op: OutPoint)
    requires Sweep(us, op).Swept?
    ensures SumOf(Sweep(us, op).kept) + Sweep(us, op).loss == SumOf(us)
  {
    SweepIsPass(us, |us|, 0, op, 0);
    assert us[..0] == [] && us[0..|us|] == us;
    SweepConserves([], us, us[|us|..], op, 0);
  }

  /** Value is conserved by every transaction that does not panic. */
  lemma {:induction false} ExpelConserves(us: seq<Utxo>, ins: seq<OutPoint>)
    requires Expel(us, ins).Swept?
    ensures SumOf(Expel(us, ins).kept) + Expel(us, ins).loss == SumOf(us)
    decreases |ins|
  {
    if ins == [] {
    } else {
      hide Sweep, SumOf;
      SweepKeepsSum(us, ins[0]);
      ExpelConserves(Sweep(us, ins[0]).kept, ins[1..]);
    }
  }

  lemma {:induction false} SkipNextWithout(us: seq<Utxo>, op: OutPoint)
    ensures Without(SkipNext(us, op), op) == Without(us, op)
    decreases |us|
  {
    if us == [] || (us[0].op == op && |us| == 1) {
      assert us != [] ==> us[1..] == [];
    } else if us[0].op != op {
      SkipNextWithout(us[1..], op);
      assert SkipNext(us, op)[1..] == SkipNext(us[1..], op);
    } else {
      SkipNextWithout(us[2..], op);
      assert SkipNext(us, op)[1..] == SkipNext(us[2..], op) && us[1..][1..] == us[2..];
    }
  }

  /** A loop for one outpoint never touches an output at another. */
  lemma {:induction false} KeptWithout(us: seq<Utxo>, op: OutPoint)
    requires !Panics(us, op)
    ensures Without(Kept(us, op), op) == Without(us, op)
    ensures !AdjacentAt(us, op) ==> Kept(us, op) == Without(us, op)
    ensures AdjacentAt(us, op) ==> AnyAt(Kept(us, op), op)
  {
    SweepIsKept(us, op);
    SweepIsFilterIff(us, op);
    if LastAt(us, op) {
      OnlyLastMatches([], us, op, 0);
      WithoutTwice(us, op);
    } else {
      SkipNextWithout(us, op);
    }
  }

  lemma {:induction false} WithoutTwice(us: seq<Utxo>, op: OutPoint)
    ensures Without(Without(us, op), op) == Without(us, op)
  {
    if us == [] {
    } else {
      WithoutTwice(us[1..], op);
      if us[0].op == op {
        assert Without(us, op) == Without(us[1..], op);
      } else {
        assert Without(us, op)[1..] == Without(us[1..], op);
      }
    }
  }

  lemma {:induction false} UnspentOfWithout(us: seq<Utxo>, op: OutPoint, ins: seq<OutPoint>)
    requires op in ins
    ensures Unspent(Without(us, op), ins) == Unspent(us, ins)
  {
    if us == [] {
    } else {
      UnspentOfWithout(us[1..], op, ins);
      if us[0].op == op {
        assert Without(us, op) == Without(us[1..], op);
      } else {
        assert Without(us, op)[1..] == Without(us[1..], op);
      }
    }
  }

  /** Going on from what the first loop kept comes to the same filter. */
  lemma {:induction false} UnspentOfKept(us: seq<Utxo>, ins: seq<OutPoint>)
    requires ins != [] && !Panics(us, ins[0]) && (ins[0] !in ins[1..] ==> !AdjacentAt(us, ins[0]))
    ensures Unspent(Kept(us, ins[0]), ins[1..]) == Unspent(us, ins)
  {
    hide Unspent, Without, Kept, Panics;
    var op, rest := ins[0], ins[1..];
    KeptWithout(us, op);
    UnspentStep(us, ins);
    if op in rest {
      UnspentOfWithout(Kept(us, op), op, rest);
      UnspentOfWithout(us, op, rest);
    }
  }

  lemma {:induction false} SkipNextKeepsOthers(us: seq<Utxo>, op: OutPoint, u: Utxo)
    requires u in us && u.op != op
    ensures u in SkipNext(us, op)
    decreases |us|
  {
    if us[0].op != op {
      if u != us[0] {
        SkipNextKeepsOthers(us[1..], op, u);
      }
    } else if u != us[1] {
      assert u in us[1..] && us[1..] == [us[1]] + us[2..];
      SkipNextKeepsOthers(us[2..], op, u);
    }
  }

  lemma {:induction false} KeptKeepsOthers(us: seq<Utxo>, op: OutPoint, u: Utxo)
    requires u in us && u.op != op
    ensures u in Kept(us, op)
  {
    if LastAt(us, op) {
      assert us == us[..|us| - 1] + [us[|us| - 1]];
    } else {
      SkipNextKeepsOthers(us, op, u);
    }
  }

  lemma {:induction false} ExpelKeepsOthers(us: seq<Utxo>, ins: seq<OutPoint>, u: Utxo)
    requires u in us && u.op !in ins && Expel(us, ins).Swept?
    ensures u in Expel(us, ins).kept
    decreases |ins|
  {
    if ins == [] {
    } else {
      hide Sweep, Kept, Panics;
      SweepIsKept(us, ins[0]);
      KeptKeepsOthers(us, ins[0], u);
      ExpelKeepsOthers(Kept(us, ins[0]), ins[1..], u);
    }
  }

  lemma {:induction false} UnspentHasNone(us: seq<Utxo>, ins: seq<OutPoint>, u: Utxo)
    requires u in Unspent(us, ins)
    ensures u.op !in ins
  {
    if us[0].op !in ins && u == us[0] {
    } else {
      UnspentHasNone(us[1..], ins, u);
    }
  }

  /** The first loop, and the others on what it keeps. */
  lemma {:induction false} ExpelFirst(us: seq<Utxo>, ins: seq<OutPoint>)
    requires ins != []
    ensures Panics(us, ins[0]) ==> Expel(us, ins) == SlicePanic
    ensures !Panics(us, ins[0]) ==>
      var after := Expel(Kept(us, ins[0]), ins[1..]);
      (Expel(us, ins).Swept? <==> after.Swept?) && (after.Swept? ==> Expel(us, ins).kept == after.kept)
  {
    hide Sweep, Kept, Panics;
    SweepIsKept(us, ins[0]);
  }

  /** An output that the last loop for its outpoint failed to delete is still there at the end. */
  lemma {:induction false} SpentOutputStays(us: seq<Utxo>, ins: seq<OutPoint>)
    requires ins != [] && !Panics(us, ins[0]) && AdjacentAt(us, ins[0]) && ins[0] !in ins[1..] && Expel(us, ins).Swept?
    ensures Expel(us, ins).kept != Unspent(us, ins)
  {
    hide Expel, Unspent, Panics, Kept, Without;
    var kept := Kept(us, ins[0]);
    KeptWithout(us, ins[0]);
    ExpelFirst(us, ins);
    var i :| 0 <= i < |kept| && kept[i].op == ins[0];
    ExpelKeepsOthers(kept, ins[1..], kept[i]);
    if kept[i] in Unspent(us, ins) {
      UnspentHasNone(us, ins, kept[i]);
    }
  }

  /** Exactly when ExpellTx is the filter it is meant to be, for any inputs, repeated ones included. */
  lemma {:induction false} ExpelIsFilterIff(us: seq<Utxo>, ins: seq<OutPoint>)
    ensures Expel(us, ins).Swept? && Expel(us, ins).kept == Unspent(us, ins) <==> SafeInputs(us, ins)
    decreases |ins|
  {
    if ins == [] {
      NothingSpent(us);
    } else {
      hide Expel, Unspent, Panics, Kept, AdjacentAt;
      ExpelFirst(us, ins);
      if !Panics(us, ins[0]) {
        if ins[0] !in ins[1..] && AdjacentAt(us, ins[0]) {
          if Expel(us, ins).Swept? {
            SpentOutputStays(us, ins);
          }
        } else {
          UnspentOfKept(us, ins);
          ExpelIsFilterIff(Kept(us, ins[0]), ins[1..]);
        }
      }
    }
  }

  // ----- Gains -----

  /** bytes.Contains */
  predicate Contains(hay: bytes, needle: bytes) {
    exists k :: 0 <= k <= |hay| && OccursAt(hay, needle, k)
  }

  predicate OccursAt(hay: bytes, needle: bytes, k: nat) {
    k + |needle| <= |hay| && hay[k..k + |needle|] == needle
  }

  /** The first of our addresses that an output pays. */
  function FirstPaid(adrs: seq<MyAdr>, pkScript: bytes): Option<MyAdr> {
    if adrs == [] then None
    else if Contains(pkScript, adrs[0].scriptAddress) then Some(adrs[0])
    else FirstPaid(adrs[1..], pkScript)
  }

  /** What outputs i, i+1, ... of a transaction pay to us. */
  function GainsFrom(adrs: seq<MyAdr>, tx: Tx, i: nat): seq<Utxo>
    requires i <= |tx.txOut|
    decreases |tx.txOut| - i
  {
    if i == |tx.txOut| then []
    else
      (match FirstPaid(adrs, tx.txOut[i].pkScript)
       case None => []
       case Some(a) => [Utxo(OutPoint(tx.txid, i), tx.txOut[i], 0, a.keyIdx)])
      + GainsFrom(adrs, tx, i + 1)
  }

  function Gains(adrs: seq<MyAdr>, tx: Tx): seq<Utxo> {
    GainsFrom(adrs, tx, 0)
  }

  lemma {:induction false} NoGain()
    ensures SumOf([]) == 0
  {
  }

  lemma {:induction false} GainOne(adrs: seq<MyAdr>, tx: Tx, i: nat, got: seq<Utxo>, u: Utxo)
    requires i < |tx.txOut|
    requires var paid := FirstPaid(adrs, tx.txOut[i].pkScript);
      paid.Some? && u == Utxo(OutPoint(tx.txid, i), tx.txOut[i], 0, paid.value.keyIdx)
    ensures got + GainsFrom(adrs, tx, i) == got + [u] + GainsFrom(adrs, tx, i + 1)
    ensures SumOf(got + [u]) == SumOf(got) + u.txo.value
  {
    SumAppend(got, [u]);
    assert SumOf([u]) == u.txo.value + SumOf([u][1..]);
    var tail := GainsFrom(adrs, tx, i + 1);
    assert got + ([u] + tail) == got + [u] + tail;
  }

  lemma {:induction false} GainsAreDistinct(adrs: seq<MyAdr>, tx: Tx, i: nat)
    requires i <= |tx.txOut|
    ensures Distinct(GainsFrom(adrs, tx, i))
    ensures forall u :: u in GainsFrom(adrs, tx, i) ==> u.op.hash == tx.txid && u.op.index >= i
    decreases |tx.txOut| - i
  {
    if i == |tx.txOut| {
    } else {
      GainsAreDistinct(adrs, tx, i + 1);
    }
  }

  /** No stored output belongs to the transaction already. */
  ghost predicate Fresh(us: seq<Utxo>, tx: Tx) {
    forall u :: u in us ==> u.op.hash != tx.txid
  }

  lemma {:induction false} GainsKeepDistinct(us: seq<Utxo>, adrs: seq<MyAdr>, tx: Tx)
    requires Distinct(us) && Fresh(us, tx)
    ensures Distinct(us + Gains(adrs, tx))
  {
    var g := Gains(adrs, tx);
    GainsAreDistinct(adrs, tx, 0);
    forall i, j | 0 <= i < j < |us + g|
      ensures (us + g)[i].op != (us + g)[j].op
    {
      if i < |us| <= j {
        assert us[i] in us && g[j - |us|] in g;
      }
    }
  }

  // ----- What counts as paying us -----

  /** The address's bytes occur somewhere in the script. */
  ghost predicate Pays(adr: MyAdr, pkScript: bytes) {
    exists x: bytes, y: bytes :: pkScript == x + adr.scriptAddress + y
  }

  lemma {:induction false} ContainsMeansPays(adr: MyAdr, pkScript: bytes)
    ensures Contains(pkScript, adr.scriptAddress) <==> Pays(adr, pkScript)
  {
    var needle := adr.scriptAddress;
    if Contains(pkScript, needle) {
      var k :| 0 <= k <= |pkScript| && OccursAt(pkScript, needle, k);
      assert pkScript == pkScript[..k] + needle + pkScript[k + |needle|..];
    }
    if Pays(adr, pkScript) {
      var x: bytes, y: bytes :| pkScript == x + needle + y;
      assert pkScript[|x|..|x| + |needle|] == needle;
      assert OccursAt(pkScript, needle, |x|);
    }
  }

  /** adrs[j] is the first of our addresses that the script pays. */
  ghost predicate FirstToPay(adrs: seq<MyAdr>, pkScript: bytes, j: nat) {
    j < |adrs| && Pays(adrs[j], pkScript) && forall m :: 0 <= m < j ==> !Pays(adrs[m], pkScript)
  }

  lemma {:induction false} FirstPaidIs(adrs: seq<MyAdr>, pkScript: bytes) returns (j: nat)
    ensures FirstPaid(adrs, pkScript).None? ==> forall m :: 0 <= m < |adrs| ==> !Pays(adrs[m], pkScript)
    ensures FirstPaid(adrs, pkScript).Some? ==> FirstToPay(adrs, pkScript, j) && FirstPaid(adrs, pkScript) == Some(adrs[j])
  {
    hide Contains, Pays;
    j := 0;
    if adrs == [] {
    } else {
      ContainsMeansPays(adrs[0], pkScript);
      if !Contains(pkScript, adrs[0].scriptAddress) {
        var rest := FirstPaidIs(adrs[1..], pkScript);
        j := rest + 1;
        assert forall m :: 0 < m < |adrs| ==> adrs[m] == adrs[1..][m - 1];
      }
    }
  }

  ghost predicate PaysUs(adrs: seq<MyAdr>, pkScript: bytes) {
    exists m :: 0 <= m < |adrs| && Pays(adrs[m], pkScript)
  }

  /** An entry as it should be: the output it names, with the key of the first of our addresses it pays. */
  ghost predicate EntryFor(adrs: seq<MyAdr>, tx: Tx, u: Utxo) {
    && u.op.hash == tx.txid
    && u.op.index < |tx.txOut|
    && u.txo == tx.txOut[u.op.index]
    && exists j: nat :: FirstToPay(adrs, u.txo.pkScript, j) && u.keyIdx == adrs[j].keyIdx
  }

  /** The entry, if any, that output i gives. */
  lemma {:induction false} GainAt(adrs: seq<MyAdr>, tx: Tx, i: nat) returns (here: seq<Utxo>)
    requires i < |tx.txOut|
    ensures GainsFrom(adrs, tx, i) == here + GainsFrom(adrs, tx, i + 1)
    ensures |here| <= 1 && (here != [] <==> PaysUs(adrs, tx.txOut[i].pkScript))
    ensures here != [] ==> EntryFor(adrs, tx, here[0]) && here[0].op == OutPoint(tx.txid, i)
  {
    hide FirstPaid, Pays;
    var j := FirstPaidIs(adrs, tx.txOut[i].pkScript);
    match FirstPaid(adrs, tx.txOut[i].pkScript)
    case None => here := [];
    case Some(a) =>
      here := [Utxo(OutPoint(tx.txid, i), tx.txOut[i], 0, a.keyIdx)];
      assert FirstToPay(adrs, here[0].txo.pkScript, j);
  }

  lemma {:induction false} GainsFromEntry(adrs: seq<MyAdr>, tx: Tx, i: nat, u: Utxo)
    requires i <= |tx.txOut| && u in GainsFrom(adrs, tx, i)
    ensures EntryFor(adrs, tx, u) && i <= u.op.index
    decreases |tx.txOut| - i
  {
    var here := GainAt(adrs, tx, i);
    hide GainsFrom, EntryFor;
    if u in here {
    } else {
      GainsFromEntry(adrs, tx, i + 1, u);
    }
  }

  ghost predicate InOutputOrder(us: seq<Utxo>) {
    forall k, l :: 0 <= k < l < |us| ==> us[k].op.index < us[l].op.index
  }

  lemma {:induction false} GainsFromInOrder(adrs: seq<MyAdr>, tx: Tx, i: nat)
    requires i <= |tx.txOut|
    ensures InOutputOrder(GainsFrom(adrs, tx, i))
    decreases |tx.txOut| - i
  {
    if i == |tx.txOut| {
    } else {
      var here := GainAt(adrs, tx, i);
      hide GainsFrom, EntryFor;
      var rest := GainsFrom(adrs, tx, i + 1);
      GainsFromInOrder(adrs, tx, i + 1);
      forall l | 0 <= l < |rest|
        ensures i < rest[l].op.index
      {
        GainsFromEntry(adrs, tx, i + 1, rest[l]);
      }
    }
  }

  ghost predicate HasEntry(us: seq<Utxo>, op: OutPoint) {
    exists u :: u in us && u.op == op
  }

  lemma {:induction false} GainsFromHas(adrs: seq<MyAdr>, tx: Tx, i: nat, n: nat)
    requires i <= n < |tx.txOut|
    ensures HasEntry(GainsFrom(adrs, tx, i), OutPoint(tx.txid, n)) <==> PaysUs(adrs, tx.txOut[n].pkScript)
    decreases |tx.txOut| - i
  {
    var here := GainAt(adrs, tx, i);
    hide GainsFrom, EntryFor, PaysUs;
    var rest := GainsFrom(adrs, tx, i + 1);
    if i == n {
      if HasEntry(rest, OutPoint(tx.txid, n)) {
        var u :| u in rest && u.op == OutPoint(tx.txid, n);
        GainsFromEntry(adrs, tx, i + 1, u);
      }
      if here != [] {
        assert here[0] in here + rest;
      }
    } else {
      GainsFromHas(adrs, tx, i + 1, n);
      if HasEntry(rest, OutPoint(tx.txid, n)) {
        var u :| u in rest && u.op == OutPoint(tx.txid, n);
        assert u in here + rest;
      }
    }
  }

  /**
    What a transaction adds: an entry for output n if and only if the bytes of one of our addresses
    occur in its script. The entry holds that output and the key of the first such address, and
    entries come in the order of the outputs.
  */
  lemma {:induction false} GainsAre(adrs: seq<MyAdr>, tx: Tx)
    ensures forall u :: u in Gains(adrs, tx) ==> EntryFor(adrs, tx, u)
    ensures InOutputOrder(Gains(adrs, tx))
    ensures forall n :: 0 <= n < |tx.txOut| ==> (HasEntry(Gains(adrs, tx), OutPoint(tx.txid, n)) <==> PaysUs(adrs, tx.txOut[n].pkScript))
  {
    hide GainsFrom, EntryFor, PaysUs, HasEntry, InOutputOrder;
    forall u | u in Gains(adrs, tx)
      ensures EntryFor(adrs, tx, u)
    {
      GainsFromEntry(adrs, tx, 0, u);
    }
    GainsFromInOrder(adrs, tx, 0);
    forall n | 0 <= n < |tx.txOut|
      ensures HasEntry(Gains(adrs, tx), OutPoint(tx.txid, n)) <==> PaysUs(adrs, tx.txOut[n].pkScript)
    {
      GainsFromHas(adrs, tx, 0, n);
    }
  }

  // ----- Runs -----

  datatype Wallet = Wallet(us: seq<Utxo>, sum: int) | Crashed

  /** The wallet after a list of ingested transactions. */
  function IngestAll(us: seq<Utxo>, sum: int, adrs: seq<MyAdr>, txs: seq<Tx>): Wallet
    decreases |txs|
  {
    if txs == [] then Wallet(us, sum)
    else
      var gains := Gains(adrs, txs[0]);
      match Expel(us + gains, txs[0].txIn)
      case SlicePanic => Crashed
      case Swept(kept, loss) => IngestAll(kept, sum + SumOf(gains) - loss, adrs, txs[1..])
  }

  /** The reference: absorb, then drop what is spent. */
  function Expected(us: seq<Utxo>, adrs: seq<MyAdr>, txs: seq<Tx>): seq<Utxo>
    decreases |txs|
  {
    if txs == [] then us else Expected(Unspent(us + Gains(adrs, txs[0]), txs[0].txIn), adrs, txs[1..])
  }

  ghost predicate NoTxTwice(us: seq<Utxo>, txs: seq<Tx>) {
    && (forall i, j :: 0 <= i < j < |txs| ==> txs[i].txid != txs[j].txid)
    && (forall i :: 0 <= i < |txs| ==> Fresh(us, txs[i]))
  }

  lemma {:induction false} UnspentIsSubset(us: seq<Utxo>, ins: seq<OutPoint>, u: Utxo)
    requires u in Unspent(us, ins)
    ensures u in us
  {
    if us[0].op !in ins && u == us[0] {
    } else {
      UnspentIsSubset(us[1..], ins, u);
    }
  }

  lemma {:induction false} StaysFresh(us: seq<Utxo>, adrs: seq<MyAdr>, txs: seq<Tx>)
    requires txs != [] && NoTxTwice(us, txs)
    ensures NoTxTwice(Unspent(us + Gains(adrs, txs[0]), txs[0].txIn), txs[1..])
  {
    var all := us + Gains(adrs, txs[0]);
    var left := Unspent(all, txs[0].txIn);
    GainsAreDistinct(adrs, txs[0], 0);
    forall i, u | 0 <= i < |txs[1..]| && u in left
      ensures u.op.hash != txs[1..][i].txid
    {
      UnspentIsSubset(all, txs[0].txIn, u);
      assert txs[1..][i] == txs[i + 1];
      if u in us {
        assert Fresh(us, txs[i + 1]);
      }
    }
  }

  /**
    If no txid is ingested twice, then after every run the wallet holds exactly the unspent gains,
    each once, and its sum is the sum of their values.
  */
  lemma {:induction false} EveryRunIsExact(us: seq<Utxo>, adrs: seq<MyAdr>, txs: seq<Tx>)
    requires Distinct(us) && NoTxTwice(us, txs)
    ensures IngestAll(us, SumOf(us), adrs, txs) == Wallet(Expected(us, adrs, txs), SumOf(Expected(us, adrs, txs)))
    ensures Distinct(Expected(us, adrs, txs))
    decreases |txs|
  {
    if txs == [] {
    } else {
      FirstIsExact(us, adrs, txs);
      StaysFresh(us, adrs, txs);
      hide Expel, Unspent, SumOf, Gains, Distinct, NoTxTwice;
      var left := Unspent(us + Gains(adrs, txs[0]), txs[0].txIn);
      EveryRunIsExact(left, adrs, txs[1..]);
    }
  }

  lemma {:induction false} FirstIsExact(us: seq<Utxo>, adrs: seq<MyAdr>, txs: seq<Tx>)
    requires Distinct(us) && NoTxTwice(us, txs) && txs != []
    ensures var left := Unspent(us + Gains(adrs, txs[0]), txs[0].txIn);
      && Distinct(left)
      && IngestAll(us, SumOf(us), adrs, txs) == IngestAll(left, SumOf(left), adrs, txs[1..])
  {
    assert Fresh(us, txs[0]);
    hide *;
    var gains := Gains(adrs, txs[0]);
    GainsKeepDistinct(us, adrs, txs[0]);
    ExpelIsFilter(us + gains, txs[0].txIn);
    SumAppend(us, gains);
    var left := Unspent(us + gains, txs[0].txIn);
    IngestFirst(us, SumOf(us), adrs, txs, left, SumOf(us + gains) - SumOf(left));
  }

  lemma {:induction false} IngestFirst(us: seq<Utxo>, sum: int, adrs: seq<MyAdr>, txs: seq<Tx>, kept: seq<Utxo>, loss: int)
    requires txs != [] && Expel(us + Gains(adrs, txs[0]), txs[0].txIn) == Swept(kept, loss)
    ensures IngestAll(us, sum, adrs, txs) == IngestAll(kept, sum + SumOf(Gains(adrs, txs[0])) - loss, adrs, txs[1..])
  {
    hide Expel, SumOf, Gains;
  }

  /** Whatever is ingested, and however often: as long as nothing panics, the sum is right. */
  lemma {:induction false} SumIsAlwaysRight(us: seq<Utxo>, adrs: seq<MyAdr>, txs: seq<Tx>)
    requires IngestAll(us, SumOf(us), adrs, txs).Wallet?
    ensures var w := IngestAll(us, SumOf(us), adrs, txs); w.sum == SumOf(w.us)
    decreases |txs|
  {
    if txs == [] {
    } else {
      hide Expel, Gains, SumOf;
      var all := us + Gains(adrs, txs[0]);
      SumAppend(us, Gains(adrs, txs[0]));
      ExpelConserves(all, txs[0].txIn);
      SumIsAlwaysRight(Expel(all, txs[0].txIn).kept, adrs, txs[1..]);
    }
  }

  // ----- When a run is exact throughout -----

  /** Every transaction's loops are safe on what the wallet is meant to hold by then. */
  ghost predicate SafeRun(us: seq<Utxo>, adrs: seq<MyAdr>, txs: seq<Tx>)
    decreases |txs|
  {
    txs != [] ==>
      var all := us + Gains(adrs, txs[0]);
      SafeInputs(all, txs[0].txIn) && SafeRun(Unspent(all, txs[0].txIn), adrs, txs[1..])
  }

  ghost predicate Exact(us: seq<Utxo>, adrs: seq<MyAdr>, txs: seq<Tx>) {
    IngestAll(us, SumOf(us), adrs, txs) == Wallet(Expected(us, adrs, txs), SumOf(Expected(us, adrs, txs)))
  }

  /** After each transaction the wallet holds what it is meant to hold. */
  ghost predicate ExactThroughout(us: seq<Utxo>, adrs: seq<MyAdr>, txs: seq<Tx>) {
    forall n :: 0 <= n <= |txs| ==> Exact(us, adrs, txs[..n])
  }

  /** If the first transaction is a filter, the rest goes on from there. */
  lemma {:induction false} ExactStep(us: seq<Utxo>, adrs: seq<MyAdr>, txs: seq<Tx>)
    requires txs != []
    requires var all := us + Gains(adrs, txs[0]);
      Expel(all, txs[0].txIn).Swept? && Expel(all, txs[0].txIn).kept == Unspent(all, txs[0].txIn)
    ensures Exact(us, adrs, txs) <==> Exact(Unspent(us + Gains(adrs, txs[0]), txs[0].txIn), adrs, txs[1..])
  {
    hide Expel, Unspent, SumOf, Gains;
    var all := us + Gains(adrs, txs[0]);
    SumAppend(us, Gains(adrs, txs[0]));
    ExpelConserves(all, txs[0].txIn);
    IngestFirst(us, SumOf(us), adrs, txs, Unspent(all, txs[0].txIn), Expel(all, txs[0].txIn).loss);
  }

  lemma {:induction false} ExactAtStart(us: seq<Utxo>, adrs: seq<MyAdr>)
    ensures Exact(us, adrs, [])
  {
  }

  lemma {:induction false} SafeFirst(us: seq<Utxo>, adrs: seq<MyAdr>, txs: seq<Tx>)
    requires SafeRun(us, adrs, txs) && txs != []
    ensures var all := us + Gains(adrs, txs[0]);
      && Expel(all, txs[0].txIn).Swept? && Expel(all, txs[0].txIn).kept == Unspent(all, txs[0].txIn)
      && SafeRun(Unspent(all, txs[0].txIn), adrs, txs[1..])
  {
    hide Expel, Unspent, Gains, SafeInputs;
    ExpelIsFilterIff(us + Gains(adrs, txs[0]), txs[0].txIn);
  }

  lemma {:induction false} PrefixTail<T>(s: seq<T>, n: nat)
    requires 0 < n <= |s|
    ensures s[..n] != [] && s[..n][0] == s[0] && s[..n][1..] == s[1..][..n - 1]
  {
  }

  lemma {:induction false} SafeIsExact(us: seq<Utxo>, adrs: seq<MyAdr>, txs: seq<Tx>, n: nat)
    requires SafeRun(us, adrs, txs) && n <= |txs|
    ensures Exact(us, adrs, txs[..n])
    decreases |txs|
  {
    hide SafeRun, Exact, Expel, Unspent, Gains;
    if n == 0 {
      ExactAtStart(us, adrs);
      assert txs[..0] == [];
    } else {
      var left := Unspent(us + Gains(adrs, txs[0]), txs[0].txIn);
      SafeFirst(us, adrs, txs);
      SafeIsExact(left, adrs, txs[1..], n - 1);
      PrefixTail(txs, n);
      ExactStep(us, adrs, txs[..n]);
    }
  }

  /** Exact after the first transaction: it was a filter. */
  lemma {:induction false} FirstExact(us: seq<Utxo>, adrs: seq<MyAdr>, tx: Tx)
    requires Exact(us, adrs, [tx])
    ensures var all := us + Gains(adrs, tx); Expel(all, tx.txIn).Swept? && Expel(all, tx.txIn).kept == Unspent(all, tx.txIn)
  {
    hide Expel, Unspent, SumOf, Gains;
    assert [tx][1..] == [];
    var left := Unspent(us + Gains(adrs, tx), tx.txIn);
    assert Expected(us, adrs, [tx]) == Expected(left, adrs, []) == left;
    match Expel(us + Gains(adrs, tx), tx.txIn)
    case SlicePanic =>
    case Swept(kept, loss) =>
      IngestFirst(us, SumOf(us), adrs, [tx], kept, loss);
  }

  lemma {:induction false} ExactTail(us: seq<Utxo>, adrs: seq<MyAdr>, txs: seq<Tx>, n: nat)
    requires txs != [] && n < |txs| && Exact(us, adrs, txs[..1]) && Exact(us, adrs, txs[..n + 1])
    ensures Exact(Unspent(us + Gains(adrs, txs[0]), txs[0].txIn), adrs, txs[1..][..n])
  {
    hide Exact, Expel, Unspent, Gains;
    assert txs[..1] == [txs[0]];
    FirstExact(us, adrs, txs[0]);
    PrefixTail(txs, n + 1);
    ExactStep(us, adrs, txs[..n + 1]);
  }

  lemma {:induction false} ExactIsSafe(us: seq<Utxo>, adrs: seq<MyAdr>, txs: seq<Tx>)
    requires ExactThroughout(us, adrs, txs)
    ensures SafeRun(us, adrs, txs)
    decreases |txs|
  {
    if txs == [] {
    } else {
      hide Expel, Unspent, Exact, Gains, SafeInputs;
      var all := us + Gains(adrs, txs[0]);
      var left := Unspent(all, txs[0].txIn);
      assert txs[..1] == [txs[0]];
      FirstExact(us, adrs, txs[0]);
      ExpelIsFilterIff(all, txs[0].txIn);
      forall n | 0 <= n <= |txs[1..]|
        ensures Exact(left, adrs, txs[1..][..n])
      {
        ExactTail(us, adrs, txs, n);
      }
      ExactIsSafe(left, adrs, txs[1..]);
    }
  }

  /**
    From a wallet with the right sum, contents and sum are right after every transaction if and only
    if every deletion loop is safe.
  */
  lemma {:induction false} RunIsExactIff(us: seq<Utxo>, adrs: seq<MyAdr>, txs: seq<Tx>)
    ensures SafeRun(us, adrs, txs) <==> ExactThroughout(us, adrs, txs)
  {
    hide SafeRun, Exact;
    if SafeRun(us, adrs, txs) {
      forall n | 0 <= n <= |txs|
        ensures Exact(us, adrs, txs[..n])
      {
        SafeIsExact(us, adrs, txs, n);
      }
    } else if ExactThroughout(us, adrs, txs) {
      ExactIsSafe(us, adrs, txs);
    }
  }

  // ----- What the wallet should hold, output by output -----

  lemma {:induction false} UnspentExactly(us: seq<Utxo>, ins: seq<OutPoint>, u: Utxo)
    ensures u in Unspent(us, ins) <==> u in us && u.op !in ins
  {
    if us == [] {
    } else {
      UnspentExactly(us[1..], ins, u);
      assert us == [us[0]] + us[1..];
    }
  }

  ghost predicate NeverSpent(op: OutPoint, txs: seq<Tx>) {
    forall k :: 0 <= k < |txs| ==> op !in txs[k].txIn
  }

  /** Paid to us by one of the transactions, and spent by neither it nor a later one. */
  ghost predicate Gained(adrs: seq<MyAdr>, txs: seq<Tx>, u: Utxo) {
    exists j :: 0 <= j < |txs| && u in Gains(adrs, txs[j]) && NeverSpent(u.op, txs[j..])
  }

  lemma {:induction false} NeverSpentSplit(op: OutPoint, txs: seq<Tx>)
    requires txs != []
    ensures NeverSpent(op, txs) <==> op !in txs[0].txIn && NeverSpent(op, txs[1..])
  {
    assert forall k :: 0 < k < |txs| ==> txs[k] == txs[1..][k - 1];
  }

  lemma {:induction false} GainedSplit(adrs: seq<MyAdr>, txs: seq<Tx>, u: Utxo)
    requires txs != []
    ensures Gained(adrs, txs, u) <==> (u in Gains(adrs, txs[0]) && NeverSpent(u.op, txs)) || Gained(adrs, txs[1..], u)
  {
    hide Gains, NeverSpent;
    assert txs[0..] == txs;
    if Gained(adrs, txs, u) {
      var j :| 0 <= j < |txs| && u in Gains(adrs, txs[j]) && NeverSpent(u.op, txs[j..]);
      if j > 0 {
        assert txs[1..][j - 1] == txs[j] && txs[1..][j - 1..] == txs[j..];
      }
    }
    if Gained(adrs, txs[1..], u) {
      var j :| 0 <= j < |txs[1..]| && u in Gains(adrs, txs[1..][j]) && NeverSpent(u.op, txs[1..][j..]);
      assert txs[j + 1] == txs[1..][j] && txs[j + 1..] == txs[1..][j..];
    }
  }

  /** An output is held if and only if it was held or gained and has not been spent since. */
  lemma {:induction false} ExpectedExactly(us: seq<Utxo>, adrs: seq<MyAdr>, txs: seq<Tx>, u: Utxo)
    ensures u in Expected(us, adrs, txs) <==> (u in us && NeverSpent(u.op, txs)) || Gained(adrs, txs, u)
    decreases |txs|
  {
    if txs == [] {
    } else {
      hide Gains, NeverSpent, Gained, Unspent;
      var all := us + Gains(adrs, txs[0]);
      UnspentExactly(all, txs[0].txIn, u);
      ExpectedExactly(Unspent(all, txs[0].txIn), adrs, txs[1..], u);
      NeverSpentSplit(u.op, txs);
      GainedSplit(adrs, txs, u);
    }
  }

  // ----- A transaction that is sent again -----

  lemma {:induction false} NoneIsSafe(us: seq<Utxo>, ins: seq<OutPoint>)
    requires forall u :: u in us ==> u.op !in ins
    ensures SafeInputs(us, ins) && Unspent(us, ins) == us
    decreases |ins|
  {
    if ins == [] {
      NothingSpent(us);
    } else {
      assert forall i :: 0 <= i < |us| ==> us[i] in us;
      assert !LastAt(us, ins[0]) && !AdjacentAt(us, ins[0]);
      KeptWithout(us, ins[0]);
      WithoutNone(us, ins[0]);
      NoneIsSafe(us, ins[1..]);
      UnspentStep(us, ins);
    }
  }

  lemma {:induction false} WithoutNone(us: seq<Utxo>, op: OutPoint)
    requires forall u :: u in us ==> u.op != op
    ensures Without(us, op) == us
  {
    if us == [] {
    } else {
      assert us[0] in us;
      WithoutNone(us[1..], op);
    }
  }

  /** A transaction that spends nothing we hold adds its gains and no more. */
  lemma {:induction false} IngestGain(us: seq<Utxo>, sum: int, adrs: seq<MyAdr>, txs: seq<Tx>)
    requires txs != [] && forall u :: u in us + Gains(adrs, txs[0]) ==> u.op !in txs[0].txIn
    ensures IngestAll(us, sum, adrs, txs) == IngestAll(us + Gains(adrs, txs[0]), sum + SumOf(Gains(adrs, txs[0])), adrs, txs[1..])
  {
    hide Expel, SumOf, Gains;
    var all := us + Gains(adrs, txs[0]);
    NoneIsSafe(all, txs[0].txIn);
    ExpelIsFilterIff(all, txs[0].txIn);
    ExpelConserves(all, txs[0].txIn);
    IngestFirst(us, sum, adrs, txs, all, 0);
  }

  /**
    t pays us one output, is ingested twice, and then s spends the output. If s pays us nothing, the
    program slices out of range; if s also pays us, the spent output stays in the wallet.
  */
  lemma {:induction false} SentAgain(adrs: seq<MyAdr>, t: Tx, s: Tx, u: Utxo)
    requires Gains(adrs, t) == [u] && u.op !in t.txIn && s.txIn == [u.op]
    ensures Gains(adrs, s) == [] ==> IngestAll([], 0, adrs, [t, t, s]) == Crashed
    ensures |Gains(adrs, s)| == 1 && Gains(adrs, s)[0].op != u.op ==>
      var w := IngestAll([], 0, adrs, [t, t, s]); w.Wallet? && w.us == [u] + Gains(adrs, s)
  {
    hide Gains, SumOf, Unspent;
    assert [t, t, s][1..] == [t, s] && [t, s][1..] == [s] && [s][1..] == [];
    assert [] + [u] == [u] && [u] + [u] == [u, u];
    IngestGain([], 0, adrs, [t, t, s]);
    IngestGain([u], SumOf([u]), adrs, [t, s]);
    LastSpend(adrs, s, u, SumOf([u]) + SumOf([u]));
  }

  lemma {:induction false} LastSpend(adrs: seq<MyAdr>, s: Tx, u: Utxo, sum: int)
    requires s.txIn == [u.op]
    ensures Gains(adrs, s) == [] ==> IngestAll([u, u], sum, adrs, [s]) == Crashed
    ensures |Gains(adrs, s)| == 1 && Gains(adrs, s)[0].op != u.op ==>
      var w := IngestAll([u, u], sum, adrs, [s]); w.Wallet? && w.us == [u] + Gains(adrs, s)
  {
    hide Gains, SumOf, SweepFrom;
    var g := Gains(adrs, s);
    var all := [u, u] + g;
    assert [s][1..] == [] && s.txIn[1..] == [];
    SweepIsFilterIff(all, u.op);
    if g == [] {
      assert all == [u, u] && all[..1][0].op == u.op;
      assert Expel(all, s.txIn) == SlicePanic;
    } else if |g| == 1 && g[0].op != u.op {
      assert all == [u, u, g[0]];
      SweepTwoAndOther(u, g[0]);
      var r := Sweep(all, u.op);
      assert Expel(r.kept, s.txIn[1..]) == Swept(r.kept, 0);
      IngestFirst([u, u], sum, adrs, [s], [u, g[0]], r.loss + 0);
    }
  }

  lemma {:induction false} SweepTwoAndOther(u: Utxo, g: Utxo)
    requires g.op != u.op
    ensures Sweep([u, u, g], u.op).Swept? && Sweep([u, u, g], u.op).kept == [u, g]
  {
    var us := [u, u, g];
    SweepIsPass(us, 3, 0, u.op, 0);
    assert us[..0] == [] && us[0..3] == us && us[3..] == [];
    PassWithoutLast([], us, [], u.op, 0);
    assert us[2..] == [g] && [g][1..] == [];
    assert SkipNext(us, u.op) == [u] + SkipNext([g], u.op);
    assert SkipNext([g], u.op) == [g] + SkipNext([], u.op);
  }

  /** The same with values: a payment of 5 to our only address, sent twice and then spent. */
  lemma {:induction false} SentAgainExample()
    ensures var t, s := Tx(1, [], [TxOut(5, [7])]), Tx(2, [OutPoint(1, 0)], []);
      IngestAll([], 0, [MyAdr([7], 0)], [t, t, s]) == Crashed
  {
    var adrs, out := [MyAdr([7], 0)], TxOut(5, [7]);
    var t, s := Tx(1, [], [out]), Tx(2, [OutPoint(1, 0)], []);
    assert OccursAt([7], [7], 0);
    assert FirstPaid(adrs, [7]) == Some(adrs[0]);
    assert GainsFrom(adrs, t, 1) == [];
    SentAgain(adrs, t, s, Utxo(OutPoint(1, 0), out, 0, 0));
  }

  // ----- The store -----

  datatype IngestResult = DontCare | Ingested | Panicked

  class Store {
    var knownTxids: seq<nat>
    var backing: array<Utxo>   // Utxos is backing[..len]
    var len: nat
    var sum: int
    var adrs: seq<MyAdr>

    constructor ()
      ensures Valid() && Contents() == [] && sum == 0 && knownTxids == [] && adrs == [] && fresh(backing)
    {
      backing := new Utxo[0];
      knownTxids, len, sum, adrs := [], 0, 0, [];
    }

    ghost predicate Valid()
      reads this
    {
      len <= backing.Length
    }

    ghost function Contents(): seq<Utxo>
      reads this, backing
      requires Valid()
    {
      backing[..len]
    }

    method AddTxid(txid: Option<nat>) returns (ok: bool)
      modifies this`knownTxids
      ensures ok <==> txid.Some?
      ensures knownTxids == if ok then old(knownTxids) + [txid.value] else old(knownTxids)
    {
      ok := txid.Some?;
      if ok {
        knownTxids := knownTxids + [txid.value];
      }
    }

    /** append: in place while there is room, otherwise into a larger array. */
    method Append(u: Utxo)
      requires Valid()
      modifies this`backing, this`len, backing
      ensures Valid() && Contents() == old(Contents()) + [u]
      ensures backing == old(backing) || fresh(backing)
    {
      ghost var before := Contents();
      if len == backing.Length {
        var larger := new Utxo[2 * len + 1](_ => u);
        var j := 0;
        while j < len
          invariant j <= len
          invariant forall k :: 0 <= k < larger.Length ==> larger[k] == if k < j then before[k] else u
          modifies larger
        {
          larger[j] := backing[j];
          j := j + 1;
        }
        backing := larger;
        assert backing[len] == u;
      } else {
        backing[len] := u;
      }
      len := len + 1;
      assert Contents() == before + [u];
    }

    /** AbsorbTx: one new entry for each output that pays us, and its value onto the sum. */
    method AbsorbTx(tx: Tx)
      requires Valid()
      modifies this`backing, this`len, this`sum, backing
      ensures Valid() && Contents() == old(Contents()) + Gains(adrs, tx)
      ensures sum == old(sum) + SumOf(Gains(adrs, tx))
      ensures backing == old(backing) || fresh(backing)
    {
      hide FirstPaid, SumOf;
      var acq := 0;
      ghost var got: seq<Utxo> := [];
      NoGain();
      var i := 0;
      assert [] + GainsFrom(adrs, tx, 0) == GainsFrom(adrs, tx, 0);
      while i < |tx.txOut|
        invariant i <= |tx.txOut| && Valid()
        invariant backing == old(backing) || fresh(backing)
        invariant Contents() == old(Contents()) + got && acq == SumOf(got) && sum == old(sum)
        invariant got + GainsFrom(adrs, tx, i) == Gains(adrs, tx)
      {
        var paid := FirstAddress(tx.txOut[i].pkScript);
        ghost var tail := GainsFrom(adrs, tx, i + 1);
        if paid.Some? {
          var u := Utxo(OutPoint(tx.txid, i), tx.txOut[i], 0, paid.value.keyIdx);
          acq := acq + tx.txOut[i].value;
          GainOne(adrs, tx, i, got, u);
          Append(u);
          got := got + [u];
        } else {
          assert [] + tail == tail;
        }
        i := i + 1;
      }
      assert got + [] == got;
      sum := sum + acq;
    }

    method FirstAddress(pkScript: bytes) returns (a: Option<MyAdr>)
      ensures a == FirstPaid(adrs, pkScript)
    {
      var j := 0;
      assert adrs[0..] == adrs;
      while j < |adrs|
        invariant j <= |adrs|
        invariant FirstPaid(adrs, pkScript) == FirstPaid(adrs[j..], pkScript)
      {
        if Contains(pkScript, adrs[j].scriptAddress) {
          return Some(adrs[j]);
        }
        assert adrs[j..][1..] == adrs[j + 1..];
        j := j + 1;
      }
      return None;
    }

    /** append(t.Utxos[:i], t.Utxos[i+1:]...): in place, in view of a range over the first elements. */
    method Delete(i: nat, ghost ranged: nat)
      requires i < len <= ranged <= backing.Length
      modifies this`len, backing
      ensures len == old(len) - 1 && backing == old(backing)
      ensures var b := old(backing[..ranged]); backing[..ranged] == b[..i] + b[i + 1..old(len)] + b[old(len) - 1..]
    {
      forall j | i <= j < len - 1 {
        backing[j] := backing[j + 1];
      }
      Shifted(old(backing[..ranged]), backing[..ranged], i, len);
      len := len - 1;
    }

    /** The range loop for one input, deleting from the slice it ranges over. */
    method ExpellOne(op: OutPoint) returns (ok: bool, loss: int)
      requires Valid()
      modifies this`len, backing
      ensures Valid() && backing == old(backing)
      ensures ok <==> old(Sweep(Contents(), op)).Swept?
      ensures ok ==> Swept(Contents(), loss) == old(Sweep(Contents(), op))
    {
      loss := 0;
      var ranged := len;
      var i := 0;
      ghost var all := Sweep(Contents(), op);
      while i < ranged
        invariant i <= ranged <= backing.Length && len <= ranged && backing == old(backing)
        invariant SweepFrom(backing[..ranged], len, i, op, loss) == all
      {
        var myutxo := backing[i];
        assert backing[..ranged][i] == myutxo;
        if myutxo.op == op {
          if i + 1 > len {
            return false, loss;
          }
          loss := loss + myutxo.txo.value;
          Delete(i, ranged);
        }
        i := i + 1;
      }
      assert backing[..ranged][..len] == Contents();
      ok := true;
    }

    /** ExpellTx: what the inputs spend is gone, and the sum is reduced by it. */
    method ExpellTx(tx: Tx) returns (ok: bool)
      requires Valid()
      modifies this`len, this`sum, backing
      ensures Valid() && backing == old(backing)
      ensures ok <==> old(Expel(Contents(), tx.txIn)).Swept?
      ensures ok ==> Contents() == old(Expel(Contents(), tx.txIn)).kept && sum == old(sum) - old(Expel(Contents(), tx.txIn)).loss
    {
      hide Sweep;
      var loss := 0;
      var i := 0;
      ghost var all := Expel(Contents(), tx.txIn);
      assert tx.txIn[0..] == tx.txIn;
      while i < |tx.txIn|
        invariant i <= |tx.txIn| && Valid() && backing == old(backing) && sum == old(sum)
        invariant all == match Expel(Contents(), tx.txIn[i..]) case SlicePanic => SlicePanic case Swept(k, l) => Swept(k, loss + l)
      {
        assert tx.txIn[i..][1..] == tx.txIn[i + 1..];
        var good, l := ExpellOne(tx.txIn[i]);
        if !good {
          return false;
        }
        loss := loss + l;
        i := i + 1;
      }
      assert tx.txIn[|tx.txIn|..] == [];
      sum := sum - loss;
      ok := true;
    }

    /** IngestTx: gains and losses of a transaction we asked for. */
    method IngestTx(tx: Tx) returns (r: IngestResult)
      requires Valid()
      modifies this`backing, this`len, this`sum, backing
      ensures Valid()
      ensures r == DontCare <==> tx.txid !in knownTxids
      ensures r == DontCare ==> Contents() == old(Contents()) && sum == old(sum)
      ensures tx.txid in knownTxids ==>
        var after := Expel(old(Contents()) + Gains(adrs, tx), tx.txIn);
        && (r == Ingested <==> after.Swept?)
        && (after.Swept? ==> Contents() == after.kept && sum == old(sum) + SumOf(Gains(adrs, tx)) - after.loss)
      ensures tx.txid in knownTxids && Distinct(old(Contents())) && Fresh(old(Contents()), tx) ==>
        && r == Ingested
        && Contents() == Unspent(old(Contents()) + Gains(adrs, tx), tx.txIn)
        && Distinct(Contents())
        && (old(sum) == old(SumOf(Contents())) ==> sum == SumOf(Contents()))
    {
      hide Expel, Unspent, SumOf, GainsFrom;
      var matched := false;
      var k := 0;
      while k < |knownTxids|
        invariant k <= |knownTxids| && (matched <==> tx.txid in knownTxids[..k])
      {
        if tx.txid == knownTxids[k] {
          matched := true;
          break;
        }
        k := k + 1;
      }
      if !matched {
        assert knownTxids[..|knownTxids|] == knownTxids;
        return DontCare;
      }
      AbsorbTx(tx);
      label absorbed:
      ghost var us := Contents();
      if Distinct(old(Contents())) && Fresh(old(Contents()), tx) {
        GainsKeepDistinct(old(Contents()), adrs, tx);
        ExpelIsFilter(us, tx.txIn);
        SumAppend(old(Contents()), Gains(adrs, tx));
      }
      var ok := ExpellTx(tx);
      return if ok then Ingested else Panicked;
    }
  }
}
