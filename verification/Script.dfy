/**
  The part of Bitcoin Script that the commitment outputs of lnwallet/script_utils.go use:
  conditionals, stack and hash operations, signature checks, CHECKLOCKTIMEVERIFY as in BIP 65 and
  CHECKSEQUENCEVERIFY as in BIP 112.
*/
module Script {
  import opened Basics

  // ----- Script numbers: little-endian magnitude with a sign bit on top -----

  function LittleEndian(n: nat): bytes {
    if n == 0 then [] else [n % 0x100] + LittleEndian(n / 0x100)
  }

  function Abs(n: int): nat {
    if n < 0 then -n else n
  }

  lemma {:induction false} LittleEndianRoundTrip(n: nat)
    ensures FromLittleEndian(LittleEndian(n)) == n
    ensures n > 0 ==> LittleEndian(n) != [] && LittleEndian(n)[|LittleEndian(n)| - 1] > 0
  {
    if n == 0 {
    } else {
      LittleEndianRoundTrip(n / 0x100);
    }
  }

  function EncodeNum(n: int): bytes {
    if n == 0 then []
    else
      LittleEndianRoundTrip(Abs(n));
      var m := LittleEndian(Abs(n));
      var top := m[|m| - 1];
      if top >= 0x80 then m + [if n < 0 then 0x80 else 0]
      else if n < 0 then m[|m| - 1 := top + 0x80]
      else m
  }

  function DecodeNum(b: bytes): int {
    if b == [] then 0
    else
      var top := b[|b| - 1];
      if top >= 0x80 then 0 - FromLittleEndian(b[|b| - 1 := top - 0x80]) else FromLittleEndian(b)
  }

  lemma {:induction false} TrailingZero(b: bytes)
    ensures FromLittleEndian(b + [0]) == FromLittleEndian(b)
  {
    if b == [] {
      assert (b + [0])[1..] == [];
    } else {
      assert (b + [0])[1..] == b[1..] + [0];
      TrailingZero(b[1..]);
    }
  }

  /** Every number survives the trip over the stack. */
  lemma {:induction false} NumRoundTrip(n: int)
    ensures DecodeNum(EncodeNum(n)) == n
  {
    if n != 0 {
      var m := LittleEndian(Abs(n));
      LittleEndianRoundTrip(Abs(n));
      TrailingZero(m);
      var top := m[|m| - 1];
      if top >= 0x80 {
        var b := m + [if n < 0 then 0x80 else 0];
        assert b[|b| - 1 := 0] == m + [0];
      } else if n < 0 {
        var b := m[|m| - 1 := top + 0x80];
        assert b[|b| - 1 := top] == m;
      }
    }
  }

  /** A uint32 fits the five bytes that the lock-time operations read. */
  lemma {:induction false} Uint32NumSize(n: nat)
    requires n < 0x1_0000_0000
    ensures |EncodeNum(n)| <= 5
  {
    var a, b, c := n / 0x100, n / 0x1_0000, n / 0x100_0000;
    assert a / 0x100 == b && b / 0x100 == c && c / 0x100 == 0;
    assert |LittleEndian(c)| <= 1;
    assert |LittleEndian(b)| <= 2;
    assert |LittleEndian(a)| <= 3;
    assert |LittleEndian(n)| <= 4;
  }

  // ----- Truth values -----

  const TRUE: bytes := [1]
  const FALSE: bytes := []

  function FromBool(b: bool): bytes {
    if b then TRUE else FALSE
  }

  /** Anything but zero, where a lone sign bit on top is still zero. */
  predicate CastToBool(b: bytes) {
    if b == [] then false
    else if |b| == 1 then b[0] != 0 && b[0] != 0x80
    else b[0] != 0 || CastToBool(b[1..])
  }

  lemma {:induction false} OneDigit(x: byte)
    ensures FromLittleEndian([x]) == x
  {
    assert [x][1..] == [];
  }

  /** A value is true exactly if the number it stands for is not zero, of whichever sign. */
  lemma {:induction false} TrueMeansNotZero(b: bytes)
    ensures CastToBool(b) <==> DecodeNum(b) != 0
  {
    if b == [] {
    } else if |b| == 1 {
      OneDigit(b[0]);
      OneDigit(b[0] % 0x80);
      assert b == [b[0]] && b[0 := b[0] % 0x80] == [b[0] % 0x80];
    } else {
      var last := |b| - 1;
      var top := if b[last] >= 0x80 then b[last] - 0x80 else b[last];
      var magnitude := b[last := top];
      assert magnitude[1..] == b[1..][last - 1 := top];
      assert b[last := b[last]] == b && b[1..][last - 1 := b[last]] == b[1..];
      TrueMeansNotZero(b[1..]);
    }
  }

  // ----- The spending transaction, as the script sees it -----

  /** sigOk(sig, key): sig is a valid signature of the spending transaction under key. */
  datatype Env = Env(hash160: bytes -> bytes, sigOk: (bytes, bytes) -> bool, version: nat, lockTime: nat, sequence: nat)

  predicate HasFlag31(n: nat) {
    n / 0x8000_0000 % 2 == 1
  }

  predicate HasFlag22(n: nat) {
    n / 0x40_0000 % 2 == 1
  }

  const LOCKTIME_THRESHOLD := 500_000_000

  /** BIP 65, for the operand n. */
  predicate LockTimeMet(env: Env, n: int) {
    && n >= 0
    && (n < LOCKTIME_THRESHOLD <==> env.lockTime < LOCKTIME_THRESHOLD)
    && n <= env.lockTime
    && env.sequence != 0xffff_ffff
  }

  /** BIP 112, for the operand n: bit 31 disables the check, bit 22 selects the unit. */
  predicate SequenceMet(env: Env, n: int) {
    && n >= 0
    && (!HasFlag31(n) ==>
          && env.version >= 2
          && !HasFlag31(env.sequence)
          && (HasFlag22(n) <==> HasFlag22(env.sequence))
          && n % 0x1_0000 <= env.sequence % 0x1_0000)
  }

  /** BIP 68: a transaction with this sequence number is only mined once the output is that old. */
  predicate OldEnough(env: Env, age: nat) {
    env.version >= 2 && !HasFlag31(env.sequence) && !HasFlag22(env.sequence) ==> age >= env.sequence % 0x1_0000
  }

  /** A transaction is final, and so can be mined, at a height and time behind its lock time, or if its input says so. */
  predicate Final(env: Env, height: nat, time: nat) {
    || env.lockTime == 0
    || env.sequence == 0xffff_ffff
    || env.lockTime < if env.lockTime < 500_000_000 then height else time
  }

  /** A met CHECKLOCKTIMEVERIFY on a mined transaction means that the height, or the time, has come. */
  lemma {:induction false} LockTimeMeansWait(env: Env, n: nat, height: nat, time: nat)
    requires n > 0 && LockTimeMet(env, n) && Final(env, height, time)
    ensures if n < 500_000_000 then height > n else time > n
  {
  }

  /** And a transaction with just that lock time, and an input that is not final, meets it. */
  lemma {:induction false} LockTimeCanBeMet(env: Env, n: nat)
    requires env.lockTime == n && env.sequence < 0xffff_ffff
    ensures LockTimeMet(env, n)
  {
  }

  /** Script numbers, byte by byte. */
  lemma {:induction false} NumBytes()
    ensures EncodeNum(0) == [] && EncodeNum(1) == [1] && EncodeNum(-1) == [0x81] && EncodeNum(127) == [127]
    ensures EncodeNum(144) == [144, 0] && EncodeNum(-144) == [144, 0x80] && EncodeNum(256) == [0, 1]
    ensures EncodeNum(400_000) == [0x80, 0x1a, 0x06]
  {
    assert LittleEndian(1) == [1] && LittleEndian(127) == [127] && LittleEndian(144) == [144];
    assert LittleEndian(256) == [0] + LittleEndian(1);
    assert LittleEndian(6) == [6];
    assert LittleEndian(1562) == [0x1a] + LittleEndian(6);
    assert LittleEndian(400_000) == [0x80] + LittleEndian(1562);
  }

  // ----- Operations -----

  datatype Op =
    | PushData(data: bytes)
    | PushNum(n: int)        // ScriptBuilder.AddInt64
    | HASH160 | DUP | EQUAL | EQUALVERIFY | SWAP | DROP | DROP2 | ADD
    | IF | NOTIF | ELSE | ENDIF
    | CHECKSIG | CHECKLOCKTIMEVERIFY | CHECKSEQUENCEVERIFY

  /** The stack has its top at the end; `exec` holds one entry for each open conditional. */
  datatype State = State(stack: seq<bytes>, exec: seq<bool>)

  predicate Executing(exec: seq<bool>) {
    forall i :: 0 <= i < |exec| ==> exec[i]
  }

  /** A conditional operation; None is a failed script. */
  function StepConditional(op: Op, st: State): Option<State>
    requires op.IF? || op.NOTIF? || op.ELSE? || op.ENDIF?
  {
    var n := |st.stack|;
    match op
    case IF =>
      if !Executing(st.exec) then Some(st.(exec := st.exec + [false]))
      else if n == 0 then None
      else Some(State(st.stack[..n - 1], st.exec + [CastToBool(st.stack[n - 1])]))
    case NOTIF =>
      if !Executing(st.exec) then Some(st.(exec := st.exec + [false]))
      else if n == 0 then None
      else Some(State(st.stack[..n - 1], st.exec + [!CastToBool(st.stack[n - 1])]))
    case ELSE =>
      if st.exec == [] then None
      else Some(st.(exec := st.exec[|st.exec| - 1 := !st.exec[|st.exec| - 1]]))
    case ENDIF =>
      if st.exec == [] then None else Some(st.(exec := st.exec[..|st.exec| - 1]))
  }

  /** Any other operation, on the stack alone. */
  function StepStack(env: Env, op: Op, s: seq<bytes>): Option<seq<bytes>>
    requires !(op.IF? || op.NOTIF? || op.ELSE? || op.ENDIF?)
  {
    var n := |s|;
    match op
    case PushData(data) => Some(s + [data])
    case PushNum(k) => Some(s + [EncodeNum(k)])
    case HASH160 => if n < 1 then None else Some(s[..n - 1] + [env.hash160(s[n - 1])])
    case DUP => if n < 1 then None else Some(s + [s[n - 1]])
    case EQUAL => if n < 2 then None else Some(s[..n - 2] + [FromBool(s[n - 2] == s[n - 1])])
    case EQUALVERIFY => if n < 2 || s[n - 2] != s[n - 1] then None else Some(s[..n - 2])
    case SWAP => if n < 2 then None else Some(s[..n - 2] + [s[n - 1], s[n - 2]])
    case DROP => if n < 1 then None else Some(s[..n - 1])
    case DROP2 => if n < 2 then None else Some(s[..n - 2])
    case ADD =>
      if n < 2 || |s[n - 2]| > 4 || |s[n - 1]| > 4 then None
      else Some(s[..n - 2] + [EncodeNum(DecodeNum(s[n - 2]) + DecodeNum(s[n - 1]))])
    case CHECKSIG => if n < 2 then None else Some(s[..n - 2] + [FromBool(env.sigOk(s[n - 2], s[n - 1]))])
    case CHECKLOCKTIMEVERIFY =>
      if n < 1 || |s[n - 1]| > 5 || !LockTimeMet(env, DecodeNum(s[n - 1])) then None else Some(s)
    case CHECKSEQUENCEVERIFY =>
      if n < 1 || |s[n - 1]| > 5 || !SequenceMet(env, DecodeNum(s[n - 1])) then None else Some(s)
  }

  function Step(env: Env, op: Op, st: State): Option<State> {
    if op.IF? || op.NOTIF? || op.ELSE? || op.ENDIF? then StepConditional(op, st)
    else if !Executing(st.exec) then Some(st)
    else
      match StepStack(env, op, st.stack)
      case None => None
      case Some(s) => Some(st.(stack := s))
  }

  function Exec(env: Env, script: seq<Op>, k: nat, st: State): Option<State>
    requires k <= |script|
    decreases |script| - k
  {
    if k == |script| then Some(st)
    else
      match Step(env, script[k], st)
      case None => None
      case Some(st') => Exec(env, script, k + 1, st')
  }

  /** The script, run on the items a spender pushes, ends balanced with a true value on top. */
  predicate Succeeds(env: Env, script: seq<Op>, items: seq<bytes>) {
    var end := Exec(env, script, 0, State(items, []));
    && end.Some?
    && end.value.exec == []
    && end.value.stack != []
    && CastToBool(end.value.stack[|end.value.stack| - 1])
  }

  // ----- One operation at a time -----

  lemma {:induction false} StackOp(env: Env, script: seq<Op>, k: nat, s: seq<bytes>, exec: seq<bool>, s': seq<bytes>)
    requires k < |script| && Executing(exec)
    requires !(script[k].IF? || script[k].NOTIF? || script[k].ELSE? || script[k].ENDIF?)
    requires StepStack(env, script[k], s) == Some(s')
    ensures Exec(env, script, k, State(s, exec)) == Exec(env, script, k + 1, State(s', exec))
  {
  }

  lemma {:induction false} AtPush(env: Env, script: seq<Op>, k: nat, s: seq<bytes>, exec: seq<bool>)
    requires k < |script| && Executing(exec) && script[k].PushData?
    ensures Exec(env, script, k, State(s, exec)) == Exec(env, script, k + 1, State(s + [script[k].data], exec))
  {
    StackOp(env, script, k, s, exec, s + [script[k].data]);
  }

  lemma {:induction false} AtHash(env: Env, script: seq<Op>, k: nat, s: seq<bytes>, x: bytes, exec: seq<bool>)
    requires k < |script| && Executing(exec) && script[k].HASH160?
    ensures Exec(env, script, k, State(s + [x], exec)) == Exec(env, script, k + 1, State(s + [env.hash160(x)], exec))
  {
    assert (s + [x])[..|s|] == s;
    StackOp(env, script, k, s + [x], exec, s + [env.hash160(x)]);
  }

  lemma {:induction false} AtDup(env: Env, script: seq<Op>, k: nat, s: seq<bytes>, x: bytes, exec: seq<bool>)
    requires k < |script| && Executing(exec) && script[k].DUP?
    ensures Exec(env, script, k, State(s + [x], exec)) == Exec(env, script, k + 1, State(s + [x] + [x], exec))
  {
    StackOp(env, script, k, s + [x], exec, s + [x] + [x]);
  }

  lemma {:induction false} AtSwap(env: Env, script: seq<Op>, k: nat, s: seq<bytes>, x: bytes, y: bytes, exec: seq<bool>)
    requires k < |script| && Executing(exec) && script[k].SWAP?
    ensures Exec(env, script, k, State(s + [x] + [y], exec)) == Exec(env, script, k + 1, State(s + [y] + [x], exec))
  {
    assert (s + [x] + [y])[..|s|] == s;
    assert s + [y] + [x] == s + [y, x];
    StackOp(env, script, k, s + [x] + [y], exec, s + [y] + [x]);
  }

  lemma {:induction false} AtEqual(env: Env, script: seq<Op>, k: nat, s: seq<bytes>, x: bytes, y: bytes, exec: seq<bool>)
    requires k < |script| && Executing(exec) && script[k].EQUAL?
    ensures Exec(env, script, k, State(s + [x] + [y], exec)) == Exec(env, script, k + 1, State(s + [FromBool(x == y)], exec))
  {
    assert (s + [x] + [y])[..|s|] == s;
    StackOp(env, script, k, s + [x] + [y], exec, s + [FromBool(x == y)]);
  }

  lemma {:induction false} AtEqualVerify(env: Env, script: seq<Op>, k: nat, s: seq<bytes>, x: bytes, y: bytes, exec: seq<bool>)
    requires k < |script| && Executing(exec) && script[k].EQUALVERIFY?
    ensures Exec(env, script, k, State(s + [x] + [y], exec)) == if x == y then Exec(env, script, k + 1, State(s, exec)) else None
  {
    assert (s + [x] + [y])[..|s|] == s;
    if x == y {
      StackOp(env, script, k, s + [x] + [y], exec, s);
    }
  }

  /** Adding the results of two comparisons counts how many held. */
  lemma {:induction false} AtAddBools(env: Env, script: seq<Op>, k: nat, s: seq<bytes>, p: bool, q: bool, exec: seq<bool>)
      returns (sum: bytes)
    requires k < |script| && Executing(exec) && script[k].ADD?
    ensures CastToBool(sum) == (p || q)
    ensures Exec(env, script, k, State(s + [FromBool(p)] + [FromBool(q)], exec)) == Exec(env, script, k + 1, State(s + [sum], exec))
  {
    var n := (if p then 1 else 0) + (if q then 1 else 0);
    BoolNumbers();
    assert (s + [FromBool(p)] + [FromBool(q)])[..|s|] == s;
    StackOp(env, script, k, s + [FromBool(p)] + [FromBool(q)], exec, s + [EncodeNum(n)]);
    sum := EncodeNum(n);
  }

  lemma {:induction false} BoolNumbers()
    ensures DecodeNum(TRUE) == 1 && DecodeNum(FALSE) == 0
    ensures EncodeNum(0) == [] && EncodeNum(1) == [1] && EncodeNum(2) == [2]
  {
    assert FromLittleEndian([1]) == 1 + 0x100 * FromLittleEndian([]);
    assert LittleEndian(1) == [1] + LittleEndian(0);
    assert LittleEndian(2) == [2] + LittleEndian(0);
  }

  /** A pushed lock time and the operation that checks it. */
  lemma {:induction false} AtLockTime(env: Env, script: seq<Op>, k: nat, s: seq<bytes>, exec: seq<bool>)
    requires k + 1 < |script| && Executing(exec) && script[k].PushNum? && 0 <= script[k].n < 0x1_0000_0000
    requires script[k + 1].CHECKLOCKTIMEVERIFY? || script[k + 1].CHECKSEQUENCEVERIFY?
    ensures var n := script[k].n;
      Exec(env, script, k, State(s, exec))
        == if (if script[k + 1].CHECKLOCKTIMEVERIFY? then LockTimeMet(env, n) else SequenceMet(env, n))
           then Exec(env, script, k + 2, State(s + [EncodeNum(n)], exec)) else None
  {
    var n := script[k].n;
    NumRoundTrip(n);
    Uint32NumSize(n);
    StackOp(env, script, k, s, exec, s + [EncodeNum(n)]);
    if if script[k + 1].CHECKLOCKTIMEVERIFY? then LockTimeMet(env, n) else SequenceMet(env, n) {
      StackOp(env, script, k + 1, s + [EncodeNum(n)], exec, s + [EncodeNum(n)]);
    }
  }

  lemma {:induction false} AtDrop(env: Env, script: seq<Op>, k: nat, s: seq<bytes>, x: bytes, exec: seq<bool>)
    requires k < |script| && Executing(exec) && script[k].DROP?
    ensures Exec(env, script, k, State(s + [x], exec)) == Exec(env, script, k + 1, State(s, exec))
  {
    assert (s + [x])[..|s|] == s;
    StackOp(env, script, k, s + [x], exec, s);
  }

  lemma {:induction false} AtDrop2(env: Env, script: seq<Op>, k: nat, s: seq<bytes>, x: bytes, y: bytes, exec: seq<bool>)
    requires k < |script| && Executing(exec) && script[k].DROP2?
    ensures Exec(env, script, k, State(s + [x] + [y], exec)) == Exec(env, script, k + 1, State(s, exec))
  {
    assert (s + [x] + [y])[..|s|] == s;
    StackOp(env, script, k, s + [x] + [y], exec, s);
  }

  lemma {:induction false} AtIf(env: Env, script: seq<Op>, k: nat, s: seq<bytes>, x: bytes, exec: seq<bool>)
    requires k < |script| && Executing(exec) && (script[k].IF? || script[k].NOTIF?)
    ensures Exec(env, script, k, State(s + [x], exec))
         == Exec(env, script, k + 1, State(s, exec + [CastToBool(x) == script[k].IF?]))
  {
    assert (s + [x])[..|s|] == s;
  }

  /** A conditional inside a branch that is not taken opens a branch that is not taken. */
  lemma {:induction false} AtSkippedIf(env: Env, script: seq<Op>, k: nat, s: seq<bytes>, exec: seq<bool>)
    requires k < |script| && (script[k].IF? || script[k].NOTIF?)
    ensures Exec(env, script, k, State(s, exec + [false])) == Exec(env, script, k + 1, State(s, exec + [false] + [false]))
  {
    assert !(exec + [false])[|exec|];
  }

  lemma {:induction false} AtElse(env: Env, script: seq<Op>, k: nat, s: seq<bytes>, exec: seq<bool>, b: bool)
    requires k < |script| && script[k].ELSE?
    ensures Exec(env, script, k, State(s, exec + [b])) == Exec(env, script, k + 1, State(s, exec + [!b]))
  {
    assert (exec + [b])[|exec| := !b] == exec + [!b];
  }

  lemma {:induction false} AtEndIf(env: Env, script: seq<Op>, k: nat, s: seq<bytes>, exec: seq<bool>, b: bool)
    requires k < |script| && script[k].ENDIF?
    ensures Exec(env, script, k, State(s, exec + [b])) == Exec(env, script, k + 1, State(s, exec))
  {
    assert (exec + [b])[..|exec|] == exec;
  }

  /** Operations in a branch that is not taken do nothing. */
  lemma {:induction false} Skip(env: Env, script: seq<Op>, k: nat, end: nat, s: seq<bytes>, exec: seq<bool>)
    requires k <= end <= |script|
    requires forall i :: k <= i < end ==> !(script[i].IF? || script[i].NOTIF? || script[i].ELSE? || script[i].ENDIF?)
    ensures Exec(env, script, k, State(s, exec + [false])) == Exec(env, script, end, State(s, exec + [false]))
    decreases end - k
  {
    assert !(exec + [false])[|exec|];
    if k == end {
    } else {
      Skip(env, script, k + 1, end, s, exec);
    }
  }

  /** The closing CHECKSIG: the item below the key must be a signature under it. */
  lemma {:induction false} AtFinalCheckSig(env: Env, script: seq<Op>, s: seq<bytes>, key: bytes)
    requires script != [] && script[|script| - 1].CHECKSIG?
    ensures var end := Exec(env, script, |script| - 1, State(s + [key], []));
      (end.Some? && end.value.exec == [] && end.value.stack != [] && CastToBool(end.value.stack[|end.value.stack| - 1]))
      <==> s != [] && env.sigOk(s[|s| - 1], key)
  {
    if s != [] {
      var rest, sig := s[..|s| - 1], s[|s| - 1];
      assert (s + [key])[..|s| - 1] == rest;
      StackOp(env, script, |script| - 1, s + [key], [], rest + [FromBool(env.sigOk(sig, key))]);
    }
  }
}
