/**
  Scripts as bytes: what txscript.ScriptBuilder emits and how the script engine reads it back. The
  hash in a pay-to-script-hash output is taken over these bytes, and they do not determine the
  builder calls: a number is pushed like the data it is encoded as.
*/
module ScriptBytes {
  import opened Basics
  import opened Script

  // ----- Writing -----

  /** AddData, and AddInt64 after encoding: the shortest push. The builder refuses more than 520 bytes. */
  function PushBytes(v: bytes): (b: bytes)
    ensures b != []
  {
    if v == [] || v == [0] then [0]
    else if |v| == 1 && v[0] <= 16 then [0x50 + v[0]]
    else if v == [0x81] then [0x4f]
    else if |v| <= 75 then [|v|] + v
    else if |v| <= 255 then [0x4c, |v|] + v
    else [0x4d, |v| % 0x100, |v| / 0x100 % 0x100] + v
  }

  function SerializeOp(op: Op): (b: bytes)
    ensures b != []
  {
    match op
    case PushData(data) => PushBytes(data)
    case PushNum(n) => PushBytes(EncodeNum(n))
    case IF => [0x63]
    case NOTIF => [0x64]
    case ELSE => [0x67]
    case ENDIF => [0x68]
    case DROP2 => [0x6d]
    case DROP => [0x75]
    case DUP => [0x76]
    case SWAP => [0x7c]
    case EQUAL => [0x87]
    case EQUALVERIFY => [0x88]
    case ADD => [0x93]
    case HASH160 => [0xa9]
    case CHECKSIG => [0xac]
    case CHECKLOCKTIMEVERIFY => [0xb1]
    case CHECKSEQUENCEVERIFY => [0xb2]
  }

  function Serialize(script: seq<Op>): bytes {
    if script == [] then [] else SerializeOp(script[0]) + Serialize(script[1..])
  }

  // ----- Reading -----

  /** The operation of a byte that is not followed by data. */
  function OpOf(c: byte): Option<Op> {
    if c == 0 then Some(PushData([]))
    else if c == 0x4f then Some(PushData([0x81]))
    else if 0x51 <= c <= 0x60 then Some(PushData([c - 0x50]))
    else
      match c
      case 0x63 => Some(IF)
      case 0x64 => Some(NOTIF)
      case 0x67 => Some(ELSE)
      case 0x68 => Some(ENDIF)
      case 0x6d => Some(DROP2)
      case 0x75 => Some(DROP)
      case 0x76 => Some(DUP)
      case 0x7c => Some(SWAP)
      case 0x87 => Some(EQUAL)
      case 0x88 => Some(EQUALVERIFY)
      case 0x93 => Some(ADD)
      case 0xa9 => Some(HASH160)
      case 0xac => Some(CHECKSIG)
      case 0xb1 => Some(CHECKLOCKTIMEVERIFY)
      case 0xb2 => Some(CHECKSEQUENCEVERIFY)
      case _ => None
  }

  function Prepend(op: Op, rest: Option<seq<Op>>): Option<seq<Op>> {
    match rest
    case None => None
    case Some(ops) => Some([op] + ops)
  }

  /** The engine's reading of a script; None for an operation outside this model. */
  function Parse(b: bytes): Option<seq<Op>> {
    if b == [] then Some([])
    else if 1 <= b[0] <= 75 then
      if |b| < 1 + b[0] then None else Prepend(PushData(b[1..1 + b[0]]), Parse(b[1 + b[0]..]))
    else
      match OpOf(b[0])
      case None => None
      case Some(op) => Prepend(op, Parse(b[1..]))
  }

  // ----- Round trip -----

  /** A value that is pushed as it is, in one byte of length or less. */
  predicate ShortValue(v: bytes) {
    |v| <= 75 && v != [0]
  }

  predicate Short(op: Op) {
    match op
    case PushData(data) => ShortValue(data)
    case PushNum(n) => ShortValue(EncodeNum(n))
    case _ => true
  }

  ghost predicate AllShort(script: seq<Op>) {
    forall i :: 0 <= i < |script| ==> Short(script[i])
  }

  /** A pushed number comes back as the data it was encoded as. */
  function Plain(op: Op): Op {
    if op.PushNum? then PushData(EncodeNum(op.n)) else op
  }

  function PlainAll(script: seq<Op>): (plain: seq<Op>)
    ensures |plain| == |script|
  {
    seq(|script|, i requires 0 <= i < |script| => Plain(script[i]))
  }

  lemma {:induction false} ParsePush(v: bytes, rest: bytes)
    requires ShortValue(v)
    ensures Parse(PushBytes(v) + rest) == Prepend(PushData(v), Parse(rest))
  {
    var b := PushBytes(v) + rest;
    if v == [] || (|v| == 1 && v[0] <= 16) || v == [0x81] {
      assert v != [] ==> v == [v[0]] && v[0] != 0;
      assert b[1..] == rest;
    } else {
      assert b == [|v|] + v + rest;
      assert b[1..1 + |v|] == v && b[1 + |v|..] == rest;
    }
  }

  lemma {:induction false} ParseOp(op: Op, rest: bytes)
    requires Short(op)
    ensures Parse(SerializeOp(op) + rest) == Prepend(Plain(op), Parse(rest))
  {
    hide EncodeNum, PushBytes;
    match op
    case PushData(data) => ParsePush(data, rest);
    case PushNum(n) => ParsePush(EncodeNum(n), rest);
    case _ => assert (SerializeOp(op) + rest)[1..] == rest;
  }

  lemma {:induction false} ParseNothing()
    ensures Parse(Serialize([])) == Some(PlainAll([]))
  {
  }

  lemma {:induction false} FirstOp(script: seq<Op>)
    requires script != [] && AllShort(script)
    ensures Serialize(script) == SerializeOp(script[0]) + Serialize(script[1..])
    ensures PlainAll(script) == [Plain(script[0])] + PlainAll(script[1..])
    ensures Short(script[0]) && AllShort(script[1..])
  {
    hide SerializeOp, Plain, Short;
  }

  lemma {:induction false} ParseSerialized(script: seq<Op>)
    requires AllShort(script)
    ensures Parse(Serialize(script)) == Some(PlainAll(script))
  {
    hide SerializeOp, Serialize, Parse, Plain, PlainAll, Short, AllShort;
    if script == [] {
      ParseNothing();
    } else {
      FirstOp(script);
      ParseOp(script[0], Serialize(script[1..]));
      ParseSerialized(script[1..]);
    }
  }

  /** Numbers read back as data mean the same. */
  lemma {:induction false} PlainExec(env: Env, script: seq<Op>, k: nat, st: State)
    requires k <= |script|
    ensures Exec(env, PlainAll(script), k, st) == Exec(env, script, k, st)
    decreases |script| - k
  {
    if k == |script| {
    } else {
      assert Step(env, Plain(script[k]), st) == Step(env, script[k], st);
      hide Step, Plain;
      var next := Step(env, script[k], st);
      if next.Some? {
        PlainExec(env, script, k + 1, next.value);
      }
    }
  }

  /** Running the bytes of a script is running the script. */
  lemma {:induction false} BytesMeanScript(env: Env, script: seq<Op>, items: seq<bytes>)
    requires AllShort(script)
    ensures Parse(Serialize(script)).Some?
    ensures Succeeds(env, Parse(Serialize(script)).value, items) <==> Succeeds(env, script, items)
  {
    ParseSerialized(script);
    PlainExec(env, script, 0, State(items, []));
  }

  lemma {:induction false} Uint32IsShort(n: nat)
    requires n < 0x1_0000_0000
    ensures Short(PushNum(n))
  {
    Uint32NumSize(n);
    NumRoundTrip(n);
    assert EncodeNum(n) == [0] ==> n == 0 by {
      assert FromLittleEndian([0]) == 0;
    }
  }

  /** Data of at least two and at most 75 bytes is pushed behind its length. */
  lemma {:induction false} PushedData(data: bytes)
    requires 2 <= |data| <= 75
    ensures SerializeOp(PushData(data)) == [|data|] + data
  {
  }

  lemma {:induction false} SerializeNothing()
    ensures Serialize([]) == []
  {
  }

  lemma {:induction false} SerializeFirst(script: seq<Op>)
    requires script != []
    ensures Serialize(script) == SerializeOp(script[0]) + Serialize(script[1..])
  {
    hide SerializeOp;
  }

  lemma {:induction false} SerializeAppend(a: seq<Op>, b: seq<Op>)
    ensures Serialize(a + b) == Serialize(a) + Serialize(b)
  {
    hide SerializeOp, Serialize;
    if a == [] {
      assert a + b == b;
      SerializeNothing();
    } else {
      assert (a + b)[1..] == a[1..] + b && (a + b)[0] == a[0];
      SerializeFirst(a);
      SerializeFirst(a + b);
      SerializeAppend(a[1..], b);
      assert SerializeOp(a[0]) + (Serialize(a[1..]) + Serialize(b)) == SerializeOp(a[0]) + Serialize(a[1..]) + Serialize(b);
    }
  }

  lemma {:induction false} SerializeOne(op: Op)
    ensures Serialize([op]) == SerializeOp(op)
  {
    hide SerializeOp, Serialize;
    SerializeFirst([op]);
    SerializeNothing();
    assert [op][1..] == [];
  }

  lemma {:induction false} SerializeTwo(a: Op, b: Op)
    ensures Serialize([a, b]) == SerializeOp(a) + SerializeOp(b)
  {
    hide SerializeOp, Serialize;
    SerializeFirst([a, b]);
    SerializeOne(b);
    assert [a, b][1..] == [b];
  }
}
