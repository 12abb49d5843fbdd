/**
  What the readers of lnwire accept, on the bytes themselves: where in a payload the amounts, lengths
  and scripts sit that decide whether a frame is refused as invalid, and how large a payload may be.
*/
module WireBytes {
  import opened Basics
  import opened WireElements
  import opened WireMessages
  import opened WireFrames

  // ----- Bytes of numbers -----

  lemma {:induction false} OneByte(b: bytes)
    requires |b| == 1
    ensures FromBigEndian(b) == b[0]
  {
    assert b[..0] == [];
  }

  lemma {:induction false} LastByte(b: bytes)
    requires b != []
    ensures FromBigEndian(b) == 0x100 * FromBigEndian(b[..|b| - 1]) + b[|b| - 1] && Pow256(|b|) == 0x100 * Pow256(|b| - 1)
  {
  }

  /** Another byte at the end does not move a number into the other half. */
  lemma {:induction false} SameHalf(n: nat, last: byte, k: nat)
    requires k > 0
    ensures 2 * (0x100 * n + last) < 0x100 * Pow256(k) <==> 2 * n < Pow256(k)
  {
    assert Pow256(k) == 0x100 * Pow256(k - 1);
  }

  /** A big-endian number has its sign in the first byte. */
  lemma {:induction false} SignByte(b: bytes)
    requires b != []
    ensures 2 * FromBigEndian(b) < Pow256(|b|) <==> b[0] < 128
  {
    hide FromBigEndian, Pow256;
    if |b| == 1 {
      OneByte(b);
      Pow256Values();
    } else {
      var front := b[..|b| - 1];
      LastByte(b);
      SignByte(front);
      SameHalf(FromBigEndian(front), b[|b| - 1], |front|);
    }
  }

  /** A header: four bytes each for the network, the command and the length, highest byte first. */
  lemma {:induction false} HeaderBytes(net: nat, command: nat, length: nat)
    ensures var b := Header(net, command, length);
      && b[3] == net % 0x100 && b[2] == net / 0x100 % 0x100
      && b[7] == command % 0x100 && b[6] == command / 0x100 % 0x100
      && b[11] == length % 0x100 && b[10] == length / 0x100 % 0x100
  {
    LowBytesLast(net);
    LowBytesLast(command);
    LowBytesLast(length);
    hide BigEndian;
    var b := Header(net, command, length);
    assert b[2] == BigEndian(net, 4)[2] && b[3] == BigEndian(net, 4)[3];
    assert b[6] == BigEndian(command, 4)[2] && b[7] == BigEndian(command, 4)[3];
    assert b[10] == BigEndian(length, 4)[2] && b[11] == BigEndian(length, 4)[3];
  }

  lemma {:induction false} LowBytesLast(n: nat)
    ensures BigEndian(n, 4)[3] == n % 0x100 && BigEndian(n, 4)[2] == n / 0x100 % 0x100
  {
    assert BigEndian(n, 4) == BigEndian(n / 0x100, 3) + [n % 0x100];
    assert BigEndian(n / 0x100, 3) == BigEndian(n / 0x100 / 0x100, 2) + [n / 0x100 % 0x100];
  }

  // ----- Walking through a payload -----

  /** Field j of the decoded values was read from offset n on. */
  ghost predicate At(keys: Keys, kinds: seq<Kind>, b: bytes, vs: seq<Value>, j: nat, n: nat) {
    && j <= |kinds| == |vs|
    && n <= |b|
    && var r := DecodeFields(keys, kinds[j..], b[n..]);
       r.Some? && r.value.0 == vs[j..]
  }

  lemma {:induction false} AtStart(keys: Keys, kinds: seq<Kind>, b: bytes, vs: seq<Value>)
    requires var r := DecodeFields(keys, kinds, b); r.Some? && r.value.0 == vs
    ensures At(keys, kinds, b, vs, 0, 0)
  {
    assert kinds[0..] == kinds && b[0..] == b && vs[0..] == vs;
  }

  /** The field there, and where the next one starts. */
  lemma {:induction false} AtNext(keys: Keys, kinds: seq<Kind>, b: bytes, vs: seq<Value>, j: nat, n: nat)
    requires At(keys, kinds, b, vs, j, n) && j < |kinds|
    ensures var d := Decode(keys, kinds[j], b[n..]);
      && d.Some? && d.value.0 == vs[j]
      && forall m :: n <= m <= |b| && d.value.1 == b[m..] ==> At(keys, kinds, b, vs, j + 1, m)
  {
    hide Decode;
    assert kinds[j..][0] == kinds[j] && kinds[j..][1..] == kinds[j + 1..];
    assert vs[j..][0] == vs[j] && vs[j..][1..] == vs[j + 1..];
  }

  lemma {:induction false} Sub(b: bytes, n: nat, w: nat)
    requires n + w <= |b|
    ensures b[n..][..w] == b[n..n + w] && b[n..][w..] == b[n + w..]
  {
  }

  function FixedSize(kind: Kind): Option<nat> {
    match kind
    case KUnsigned(w) => Some(w)
    case KSigned(w) => Some(w)
    case KFixed(size) => Some(size)
    case KPubKey => Some(33)
    case _ => None
  }

  lemma {:induction false} AfterFixed(keys: Keys, kinds: seq<Kind>, b: bytes, vs: seq<Value>, j: nat, n: nat, w: nat)
    requires At(keys, kinds, b, vs, j, n) && j < |kinds| && FixedSize(kinds[j]) == Some(w)
    ensures At(keys, kinds, b, vs, j + 1, n + w)
  {
    AtNext(keys, kinds, b, vs, j, n);
    hide At;
    assert |b[n..]| >= w;
    Sub(b, n, w);
  }

  /** A signed amount: its sign is in its first byte, and if that is clear it is the number written there. */
  lemma {:induction false} AfterAmount(keys: Keys, kinds: seq<Kind>, b: bytes, vs: seq<Value>, j: nat, n: nat, w: nat)
    requires At(keys, kinds, b, vs, j, n) && j < |kinds| && kinds[j] == KSigned(w) && w > 0
    ensures At(keys, kinds, b, vs, j + 1, n + w) && n + w <= |b|
    ensures |vs| == |kinds| && vs[j].Signed? && (vs[j].i >= 0 <==> b[n] < 128)
    ensures b[n] < 128 ==> vs[j].i == FromBigEndian(b[n..n + w])
  {
    AfterFixed(keys, kinds, b, vs, j, n, w);
    AtNext(keys, kinds, b, vs, j, n);
    hide At;
    Sub(b, n, w);
    SignByte(b[n..n + w]);
  }

  /** A script or string of at most `max` bytes behind its length. */
  lemma {:induction false} AfterBlob(keys: Keys, kinds: seq<Kind>, b: bytes, vs: seq<Value>, j: nat, n: nat, w: nat, max: nat)
      returns (size: nat)
    requires At(keys, kinds, b, vs, j, n) && j < |kinds| && kinds[j] == KBlob(w, max)
    ensures n + w + size <= |b| && size == FromBigEndian(b[n..n + w]) <= max
    ensures |vs| == |kinds| && vs[j].Blob? && vs[j].b == b[n + w..n + w + size]
    ensures At(keys, kinds, b, vs, j + 1, n + w + size)
  {
    AtNext(keys, kinds, b, vs, j, n);
    hide At;
    Sub(b, n, w);
    size := FromBigEndian(b[n..n + w]);
    Sub(b, n + w, size);
  }

  lemma {:induction false} AfterSignature(keys: Keys, kinds: seq<Kind>, b: bytes, vs: seq<Value>, j: nat, n: nat)
    requires At(keys, kinds, b, vs, j, n) && j < |kinds| && kinds[j] == KSignature
    ensures n < |b| && b[n] <= 73 && At(keys, kinds, b, vs, j + 1, n + 1 + b[n])
  {
    AtNext(keys, kinds, b, vs, j, n);
    hide At;
    Sub(b, n, 1);
    OneByte(b[n..n + 1]);
    Sub(b, n + 1, b[n]);
  }

  lemma {:induction false} CountedNumbers(keys: Keys, count: nat, b: bytes)
    requires DecodeCount(keys, U64, count, b).Some?
    ensures |b| >= 8 * count && DecodeCount(keys, U64, count, b).value.1 == b[8 * count..]
    decreases count
  {
    if count == 0 {
    } else {
      CountedNumbers(keys, count - 1, b[8..]);
      assert b[8..][8 * (count - 1)..] == b[8 * count..];
    }
  }

  lemma {:induction false} AfterNumbers(keys: Keys, kinds: seq<Kind>, b: bytes, vs: seq<Value>, j: nat, n: nat)
      returns (count: nat)
    requires At(keys, kinds, b, vs, j, n) && j < |kinds| && kinds[j] == U64_LIST
    ensures n + 2 + 8 * count <= |b| && count == FromBigEndian(b[n..n + 2])
    ensures At(keys, kinds, b, vs, j + 1, n + 2 + 8 * count)
  {
    AtNext(keys, kinds, b, vs, j, n);
    hide At;
    Sub(b, n, 2);
    count := FromBigEndian(b[n..n + 2]);
    CountedNumbers(keys, count, b[n + 2..]);
    Sub(b, n + 2, 8 * count);
  }

  lemma {:induction false} CountedItems(keys: Keys, kind: Kind, count: nat, b: bytes)
    requires DecodeCount(keys, kind, count, b).Some?
    ensures |DecodeCount(keys, kind, count, b).value.0| == count
    decreases count
  {
    hide Decode;
    if count == 0 {
    } else {
      CountedItems(keys, kind, count - 1, Decode(keys, kind, b).value.1);
    }
  }

  lemma {:induction false} FewInputs(keys: Keys, kinds: seq<Kind>, b: bytes, vs: seq<Value>, j: nat, n: nat)
    requires At(keys, kinds, b, vs, j, n) && j < |kinds| && kinds[j] == TXIN_LIST
    ensures |vs| == |kinds| && vs[j].List? && |vs[j].items| <= 127
  {
    AtNext(keys, kinds, b, vs, j, n);
    hide At;
    var rest := b[n..][1..];
    CountedItems(keys, KTxIn, FromBigEndian(b[n..][..1]), rest);
  }

  // ----- The two script templates -----

  /** P2PKH or P2SH around any 20 bytes. */
  ghost predicate Template(s: bytes) {
    || (exists x: bytes :: |x| == 20 && s == [118, 169, 20] + x + [136, 172])
    || (exists x: bytes :: |x| == 20 && s == [169, 20] + x + [135])
  }

  lemma {:induction false} TemplateIff(s: bytes)
    ensures ValidPkScript(s) <==> Template(s)
  {
    if ValidPkScript(s) {
      if |s| == 25 {
        assert s == [118, 169, 20] + s[3..23] + [136, 172];
      } else {
        assert s == [169, 20] + s[2..22] + [135];
      }
    }
    if x: bytes :| |x| == 20 && s == [118, 169, 20] + x + [136, 172] {
      assert s[..3] == [118, 169, 20] && s[23..] == [136, 172];
    }
    if x: bytes :| |x| == 20 && s == [169, 20] + x + [135] {
      assert s[..2] == [169, 20] && s[22..] == [135];
    }
  }

  // ----- Whole frames -----

  ghost predicate Decodable(keys: Keys, command: nat, payload: bytes) {
    Schema(command).Some? && DecodeFields(keys, Schema(command).value, payload).Some?
  }

  /** What ReadMessage makes of a frame of our network, whatever follows it. */
  function FrameRead(keys: Keys, net: nat, command: nat, payload: bytes, rest: bytes): Outcome {
    ReadOne(keys, net, Header(net, command, |payload|) + payload + rest).outcome
  }

  /** A decodable payload within the cap is accepted, or refused as invalid; one beyond the cap is refused as such. */
  lemma {:induction false} FrameReadIs(keys: Keys, net: nat, command: nat, payload: bytes, rest: bytes)
    requires net < 0x1_0000_0000 && Schema(command).Some? && |payload| <= 33_554_432
    ensures |payload| > MaxPayload(command) ==> FrameRead(keys, net, command, payload, rest) == Refused(OverCap)
    ensures |payload| <= MaxPayload(command) ==> FrameRead(keys, net, command, payload, rest) == Unmarshal(keys, command, payload)
  {
    Pow256Values();
    CommandFits(command);
    hide Unmarshal, Schema, MaxPayload, ReadOne;
    ReadStaysInStep(keys, net, net, command, payload, rest);
  }

  /** A decodable payload within the cap: its values have the right shapes, and validation decides. */
  lemma {:induction false} ValidationDecides(keys: Keys, net: nat, command: nat, payload: bytes, rest: bytes) returns (vs: seq<Value>)
    requires net < 0x1_0000_0000 && |payload| <= 33_554_432 && Decodable(keys, command, payload)
    ensures Shapes(vs, Schema(command).value)
    ensures var r := DecodeFields(keys, Schema(command).value, payload); r.Some? && r.value.0 == vs
    ensures |payload| > MaxPayload(command) ==> FrameRead(keys, net, command, payload, rest) == Refused(OverCap)
    ensures |payload| <= MaxPayload(command) ==>
      FrameRead(keys, net, command, payload, rest)
        == if Validate(Assemble(command, vs)) then Accepted(Assemble(command, vs), payload) else Refused(Invalid)
  {
    hide Schema, MaxPayload, FrameRead, Assemble, Validate;
    FrameReadIs(keys, net, command, payload, rest);
    vs := DecodeFields(keys, Schema(command).value, payload).value.0;
  }

  lemma {:induction false} AddRequestAmount(keys: Keys, p: bytes, vs: seq<Value>)
    requires var r := DecodeFields(keys, Schema(1000).value, p); r.Some? && r.value.0 == vs
    ensures |p| >= 24 && |vs| == 7 && vs[3].Signed? && (vs[3].i >= 0 <==> p[20] < 128)
  {
    var kinds := [U64, U64, U32, CREDITS, U8, HASH20_LIST, BLOB];
    assert Schema(1000) == Some(kinds);
    hide Schema, DecodeFields, At, FromBigEndian;
    AtStart(keys, kinds, p, vs);
    AfterFixed(keys, kinds, p, vs, 0, 0, 8);
    AfterFixed(keys, kinds, p, vs, 1, 8, 8);
    AfterFixed(keys, kinds, p, vs, 2, 16, 4);
    AfterAmount(keys, kinds, p, vs, 3, 20, 4);
  }

  lemma {:induction false} AddRequestValid(vs: seq<Value>)
    requires Shapes(vs, Schema(1000).value) && |vs| == 7 && vs[3].Signed?
    ensures Validate(Assemble(1000, vs)) <==> vs[3].i >= 0
  {
  }

  /** HTLCAddRequest: refused as invalid exactly if the sign bit of the amount is set, at byte 20. */
  lemma {:induction false} ReadAddRequest(keys: Keys, net: nat, payload: bytes, rest: bytes)
    requires net < 0x1_0000_0000 && |payload| <= 33_554_432 && Decodable(keys, 1000, payload)
    ensures |payload| > 8192 ==> FrameRead(keys, net, 1000, payload, rest) == Refused(OverCap)
    ensures |payload| > 20
    ensures |payload| <= 8192 ==>
      && (FrameRead(keys, net, 1000, payload, rest).Accepted? <==> payload[20] < 128)
      && (payload[20] >= 128 ==> FrameRead(keys, net, 1000, payload, rest) == Refused(Invalid))
  {
    hide FrameRead, DecodeFields, Schema, Assemble, Validate, Shapes;
    var vs := ValidationDecides(keys, net, 1000, payload, rest);
    AddRequestAmount(keys, payload, vs);
    AddRequestValid(vs);
  }

  lemma {:induction false} CommitSignatureKeys(keys: Keys, kinds: seq<Kind>, p: bytes, vs: seq<Value>)
    requires kinds == [U64, U64, U64_LIST, HASH20, AMOUNT, KSignature]
    requires var r := DecodeFields(keys, kinds, p); r.Some? && r.value.0 == vs
    ensures |p| >= 18 && At(keys, kinds, p, vs, 3, 18 + 8 * FromBigEndian(p[16..18]))
  {
    hide DecodeFields, At, FromBigEndian;
    AtStart(keys, kinds, p, vs);
    AfterFixed(keys, kinds, p, vs, 0, 0, 8);
    AfterFixed(keys, kinds, p, vs, 1, 8, 8);
    var count := AfterNumbers(keys, kinds, p, vs, 2, 16);
  }

  lemma {:induction false} CommitSignatureFee(keys: Keys, p: bytes, vs: seq<Value>)
    requires var r := DecodeFields(keys, Schema(2000).value, p); r.Some? && r.value.0 == vs
    ensures |p| >= 18 && |vs| == 6 && vs[4].Signed?
    ensures var fee := 38 + 8 * FromBigEndian(p[16..18]); fee < |p| && (vs[4].i >= 0 <==> p[fee] < 128)
  {
    hide DecodeFields, At, FromBigEndian;
    var kinds := Schema(2000).value;
    CommitSignatureKeys(keys, kinds, p, vs);
    hide Schema;
    var hash := 18 + 8 * FromBigEndian(p[16..18]);
    AfterFixed(keys, kinds, p, vs, 3, hash, 20);
    AfterAmount(keys, kinds, p, vs, 4, hash + 20, 8);
  }

  lemma {:induction false} CommitSignatureValid(vs: seq<Value>)
    requires Shapes(vs, Schema(2000).value) && |vs| == 6 && vs[4].Signed?
    ensures Validate(Assemble(2000, vs)) <==> vs[4].i >= 0
  {
  }

  /** CommitSignature: the fee follows the list of keys and the revocation hash. */
  lemma {:induction false} ReadCommitSignature(keys: Keys, net: nat, payload: bytes, rest: bytes)
    requires net < 0x1_0000_0000 && |payload| <= 33_554_432 && Decodable(keys, 2000, payload)
    ensures |payload| > 8192 ==> FrameRead(keys, net, 2000, payload, rest) == Refused(OverCap)
    ensures |payload| >= 18
    ensures |payload| <= 8192 ==>
      var fee := 38 + 8 * FromBigEndian(payload[16..18]);
      && fee < |payload|
      && (FrameRead(keys, net, 2000, payload, rest).Accepted? <==> payload[fee] < 128)
      && (payload[fee] >= 128 ==> FrameRead(keys, net, 2000, payload, rest) == Refused(Invalid))
  {
    hide FrameRead, DecodeFields, Schema, Assemble, Validate, Shapes, FromBigEndian;
    var vs := ValidationDecides(keys, net, 2000, payload, rest);
    CommitSignatureFee(keys, payload, vs);
    CommitSignatureValid(vs);
  }

  lemma {:induction false} CloseRequestFee(keys: Keys, p: bytes, vs: seq<Value>)
    requires var r := DecodeFields(keys, Schema(300).value, p); r.Some? && r.value.0 == vs
    ensures |p| > 8 && p[8] <= 73 && |vs| == 3 && vs[2].Signed?
    ensures var fee := p[8] as int + 9; fee < |p| && (vs[2].i >= 0 <==> p[fee] < 128)
  {
    var kinds := [U64, KSignature, AMOUNT];
    assert Schema(300) == Some(kinds);
    hide Schema, DecodeFields, At, FromBigEndian;
    AtStart(keys, kinds, p, vs);
    AfterFixed(keys, kinds, p, vs, 0, 0, 8);
    AfterSignature(keys, kinds, p, vs, 1, 8);
    AfterAmount(keys, kinds, p, vs, 2, 8 + 1 + p[8], 8);
  }

  lemma {:induction false} CloseRequestValid(vs: seq<Value>)
    requires Shapes(vs, Schema(300).value) && |vs| == 3 && vs[2].Signed?
    ensures Validate(Assemble(300, vs)) <==> vs[2].i >= 0
  {
  }

  /** CloseRequest: the fee follows the signature. */
  lemma {:induction false} ReadCloseRequest(keys: Keys, net: nat, payload: bytes, rest: bytes)
    requires net < 0x1_0000_0000 && |payload| <= 33_554_432 && Decodable(keys, 300, payload)
    ensures |payload| > 89 ==> FrameRead(keys, net, 300, payload, rest) == Refused(OverCap)
    ensures |payload| > 8 && payload[8] <= 73
    ensures |payload| <= 89 ==>
      var fee := payload[8] as int + 9;
      && fee < |payload|
      && (FrameRead(keys, net, 300, payload, rest).Accepted? <==> payload[fee] < 128)
      && (payload[fee] >= 128 ==> FrameRead(keys, net, 300, payload, rest) == Refused(Invalid))
  {
    hide FrameRead, DecodeFields, Schema, Assemble, Validate, Shapes;
    var vs := ValidationDecides(keys, net, 300, payload, rest);
    CloseRequestFee(keys, payload, vs);
    CloseRequestValid(vs);
  }

  lemma {:induction false} ErrorGenericProblem(keys: Keys, p: bytes, vs: seq<Value>)
    requires var r := DecodeFields(keys, Schema(4000).value, p); r.Some? && r.value.0 == vs
    ensures |p| >= 10 && |vs| == 2 && vs[1].Blob? && |vs[1].b| == FromBigEndian(p[8..10])
  {
    hide DecodeFields, At, FromBigEndian;
    var kinds := Schema(4000).value;
    hide Schema;
    AtStart(keys, kinds, p, vs);
    AfterFixed(keys, kinds, p, vs, 0, 0, 8);
    var size := AfterBlob(keys, kinds, p, vs, 1, 8, 2, 65535);
  }

  lemma {:induction false} ErrorGenericValid(vs: seq<Value>)
    requires Shapes(vs, Schema(4000).value) && |vs| == 2 && vs[1].Blob?
    ensures Validate(Assemble(4000, vs)) <==> |vs[1].b| <= 8192
  {
  }

  /** ErrorGeneric: the problem may have 8192 bytes. */
  lemma {:induction false} ReadErrorGeneric(keys: Keys, net: nat, payload: bytes, rest: bytes)
    requires net < 0x1_0000_0000 && |payload| <= 33_554_432 && Decodable(keys, 4000, payload)
    ensures |payload| > 8208 ==> FrameRead(keys, net, 4000, payload, rest) == Refused(OverCap)
    ensures |payload| >= 10
    ensures |payload| <= 8208 ==>
      && (FrameRead(keys, net, 4000, payload, rest).Accepted? <==> FromBigEndian(payload[8..10]) <= 8192)
      && (FromBigEndian(payload[8..10]) > 8192 ==> FrameRead(keys, net, 4000, payload, rest) == Refused(Invalid))
  {
    hide FrameRead, DecodeFields, Schema, Assemble, Validate, Shapes, FromBigEndian;
    var vs := ValidationDecides(keys, net, 4000, payload, rest);
    ErrorGenericProblem(keys, payload, vs);
    ErrorGenericValid(vs);
  }

  /** The two scripts of a funding message, the first of which has its length at byte n. */
  ghost predicate TwoTemplates(payload: bytes, n: nat) {
    && n < |payload| && n + 1 + payload[n] < |payload|
    && var second := n + 1 + payload[n];
       && second + 1 + payload[second] <= |payload|
       && Template(payload[n + 1..second]) && Template(payload[second + 1..second + 1 + payload[second]])
  }

  lemma {:induction false} AfterScripts(keys: Keys, kinds: seq<Kind>, b: bytes, vs: seq<Value>, j: nat, n: nat) returns (m: nat)
    requires At(keys, kinds, b, vs, j, n) && j + 1 < |kinds| && kinds[j] == kinds[j + 1] == PKSCRIPT
    ensures |vs| == |kinds| && vs[j].Blob? && vs[j + 1].Blob?
    ensures ValidPkScript(vs[j].b) && ValidPkScript(vs[j + 1].b) <==> TwoTemplates(b, n)
    ensures At(keys, kinds, b, vs, j + 2, m)
  {
    hide At, Template, ValidPkScript;
    var s1 := AfterBlob(keys, kinds, b, vs, j, n, 1, 25);
    var s2 := AfterBlob(keys, kinds, b, vs, j + 1, n + 1 + s1, 1, 25);
    OneByte(b[n..n + 1]);
    OneByte(b[n + 1 + s1..n + 1 + s1 + 1]);
    TemplateIff(vs[j].b);
    TemplateIff(vs[j + 1].b);
    m := n + 1 + s1 + 1 + s2;
  }

  /**
    FundingRequest: no amount is negative, the minimum total is at least the funding amount and that
    at least the reserve, and both scripts are of the two templates.
  */
  ghost predicate GoodRequest(p: bytes)
    requires |p| >= 102
  {
    && p[9] < 128 && p[17] < 128 && p[78] < 128 && p[86] < 128 && p[94] < 128
    && FromBigEndian(p[17..25]) >= FromBigEndian(p[9..17]) >= FromBigEndian(p[78..86])
    && TwoTemplates(p, 111)
  }

  /** The values that a FundingRequest is validated by. */
  lemma {:induction false} RequestValid(vs: seq<Value>)
    requires Shapes(vs, Schema(200).value) && |vs| == 15
    requires vs[2].Signed? && vs[3].Signed? && vs[6].Signed? && vs[7].Signed? && vs[8].Signed?
    requires vs[12].Blob? && vs[13].Blob? && vs[14].List?
    ensures Validate(Assemble(200, vs)) <==>
      && vs[2].i >= 0 && vs[3].i >= 0 && vs[6].i >= 0 && vs[7].i >= 0 && vs[8].i >= 0
      && vs[3].i >= vs[2].i >= vs[6].i
      && ValidPkScript(vs[12].b) && ValidPkScript(vs[13].b) && |vs[14].items| <= 127
  {
    hide ValidPkScript;
  }

  /** An amount was read at offset n. */
  ghost predicate AmountAt(p: bytes, v: Value, n: nat) {
    && n + 8 <= |p| && v.Signed?
    && (v.i >= 0 <==> p[n] < 128)
    && (p[n] < 128 ==> v.i == FromBigEndian(p[n..n + 8]))
  }

  lemma {:induction false} ThisAmount(keys: Keys, kinds: seq<Kind>, b: bytes, vs: seq<Value>, j: nat, n: nat)
    requires At(keys, kinds, b, vs, j, n) && j < |kinds| && kinds[j] == AMOUNT
    ensures |vs| == |kinds| && AmountAt(b, vs[j], n) && At(keys, kinds, b, vs, j + 1, n + 8)
  {
    hide At, FromBigEndian;
    AfterAmount(keys, kinds, b, vs, j, n, 8);
  }

  lemma {:induction false} RequestFirst(keys: Keys, kinds: seq<Kind>, p: bytes, vs: seq<Value>)
    requires |kinds| == 15 && kinds[..6] == [U64, U8, AMOUNT, AMOUNT, HASH20, KPubKey]
    requires var r := DecodeFields(keys, kinds, p); r.Some? && r.value.0 == vs
    ensures |vs| == 15 && AmountAt(p, vs[2], 9) && AmountAt(p, vs[3], 17) && At(keys, kinds, p, vs, 6, 78)
  {
    hide DecodeFields, At, AmountAt;
    assert forall i :: 0 <= i < 6 ==> kinds[i] == kinds[..6][i];
    AtStart(keys, kinds, p, vs);
    AfterFixed(keys, kinds, p, vs, 0, 0, 8);
    AfterFixed(keys, kinds, p, vs, 1, 8, 1);
    ThisAmount(keys, kinds, p, vs, 2, 9);
    ThisAmount(keys, kinds, p, vs, 3, 17);
    AfterFixed(keys, kinds, p, vs, 4, 25, 20);
    AfterFixed(keys, kinds, p, vs, 5, 45, 33);
  }

  lemma {:induction false} RequestSecond(keys: Keys, kinds: seq<Kind>, p: bytes, vs: seq<Value>)
    requires |kinds| == 15 && kinds[6..12] == [AMOUNT, AMOUNT, AMOUNT, U32, U32, U8] && At(keys, kinds, p, vs, 6, 78)
    ensures |vs| == 15 && AmountAt(p, vs[6], 78) && AmountAt(p, vs[7], 86) && AmountAt(p, vs[8], 94) && At(keys, kinds, p, vs, 12, 111)
  {
    hide At, AmountAt;
    assert forall i :: 6 <= i < 12 ==> kinds[i] == kinds[6..12][i - 6];
    ThisAmount(keys, kinds, p, vs, 6, 78);
    ThisAmount(keys, kinds, p, vs, 7, 86);
    ThisAmount(keys, kinds, p, vs, 8, 94);
    AfterFixed(keys, kinds, p, vs, 9, 102, 4);
    AfterFixed(keys, kinds, p, vs, 10, 106, 4);
    AfterFixed(keys, kinds, p, vs, 11, 110, 1);
  }

  lemma {:induction false} RequestValues(keys: Keys, kinds: seq<Kind>, p: bytes, vs: seq<Value>)
    requires |kinds| == 15 && kinds[..6] == [U64, U8, AMOUNT, AMOUNT, HASH20, KPubKey]
    requires kinds[6..12] == [AMOUNT, AMOUNT, AMOUNT, U32, U32, U8] && kinds[12] == kinds[13] == PKSCRIPT && kinds[14] == TXIN_LIST
    requires var r := DecodeFields(keys, kinds, p); r.Some? && r.value.0 == vs
    ensures |vs| == 15 && AmountAt(p, vs[2], 9) && AmountAt(p, vs[3], 17)
    ensures AmountAt(p, vs[6], 78) && AmountAt(p, vs[7], 86) && AmountAt(p, vs[8], 94)
    ensures vs[12].Blob? && vs[13].Blob? && vs[14].List? && |vs[14].items| <= 127
    ensures ValidPkScript(vs[12].b) && ValidPkScript(vs[13].b) <==> TwoTemplates(p, 111)
  {
    hide DecodeFields, At, AmountAt, TwoTemplates, ValidPkScript;
    RequestFirst(keys, kinds, p, vs);
    RequestSecond(keys, kinds, p, vs);
    var m := AfterScripts(keys, kinds, p, vs, 12, 111);
    FewInputs(keys, kinds, p, vs, 14, m);
  }

  lemma {:induction false} RequestFields(keys: Keys, p: bytes, vs: seq<Value>)
    requires Shapes(vs, Schema(200).value)
    requires var r := DecodeFields(keys, Schema(200).value, p); r.Some? && r.value.0 == vs
    ensures |p| >= 102
    ensures Validate(Assemble(200, vs)) <==> GoodRequest(p)
  {
    hide DecodeFields, TwoTemplates, ValidPkScript, FromBigEndian, Assemble, Validate, Shapes;
    RequestValues(keys, Schema(200).value, p, vs);
    hide Schema;
    RequestValid(vs);
  }

  lemma {:induction false} ReadFundingRequest(keys: Keys, net: nat, payload: bytes, rest: bytes)
    requires net < 0x1_0000_0000 && |payload| <= 33_554_432 && Decodable(keys, 200, payload)
    ensures |payload| > 4735 ==> FrameRead(keys, net, 200, payload, rest) == Refused(OverCap)
    ensures |payload| >= 102
    ensures |payload| <= 4735 ==>
      && (FrameRead(keys, net, 200, payload, rest).Accepted? <==> GoodRequest(payload))
      && (!GoodRequest(payload) ==> FrameRead(keys, net, 200, payload, rest) == Refused(Invalid))
  {
    hide FrameRead, DecodeFields, Schema, Assemble, Validate, Shapes, GoodRequest;
    var vs := ValidationDecides(keys, net, 200, payload, rest);
    RequestFields(keys, payload, vs);
  }

  /** FundingResponse: the same without a total and a payment. */
  ghost predicate GoodResponse(p: bytes)
    requires |p| >= 86
  {
    && p[9] < 128 && p[70] < 128 && p[78] < 128
    && FromBigEndian(p[9..17]) >= FromBigEndian(p[70..78])
    && TwoTemplates(p, 95)
  }

  lemma {:induction false} ResponseValid(vs: seq<Value>)
    requires Shapes(vs, Schema(210).value) && |vs| == 14
    requires vs[2].Signed? && vs[5].Signed? && vs[6].Signed? && vs[10].Blob? && vs[11].Blob? && vs[13].List?
    ensures Validate(Assemble(210, vs)) <==>
      && vs[2].i >= 0 && vs[5].i >= 0 && vs[6].i >= 0 && vs[2].i >= vs[5].i
      && ValidPkScript(vs[10].b) && ValidPkScript(vs[11].b) && |vs[13].items| <= 127
  {
    hide ValidPkScript;
  }

  lemma {:induction false} ResponseFirst(keys: Keys, kinds: seq<Kind>, p: bytes, vs: seq<Value>)
    requires |kinds| == 14 && kinds[..5] == [U64, U8, AMOUNT, HASH20, KPubKey]
    requires var r := DecodeFields(keys, kinds, p); r.Some? && r.value.0 == vs
    ensures |vs| == 14 && AmountAt(p, vs[2], 9) && At(keys, kinds, p, vs, 5, 70)
  {
    hide DecodeFields, At, AmountAt;
    assert forall i :: 0 <= i < 5 ==> kinds[i] == kinds[..5][i];
    AtStart(keys, kinds, p, vs);
    AfterFixed(keys, kinds, p, vs, 0, 0, 8);
    AfterFixed(keys, kinds, p, vs, 1, 8, 1);
    ThisAmount(keys, kinds, p, vs, 2, 9);
    AfterFixed(keys, kinds, p, vs, 3, 17, 20);
    AfterFixed(keys, kinds, p, vs, 4, 37, 33);
  }

  lemma {:induction false} ResponseSecond(keys: Keys, kinds: seq<Kind>, p: bytes, vs: seq<Value>)
    requires |kinds| == 14 && kinds[5..10] == [AMOUNT, AMOUNT, U32, U32, U8] && At(keys, kinds, p, vs, 5, 70)
    ensures |vs| == 14 && AmountAt(p, vs[5], 70) && AmountAt(p, vs[6], 78) && At(keys, kinds, p, vs, 10, 95)
  {
    hide At, AmountAt;
    assert forall i :: 5 <= i < 10 ==> kinds[i] == kinds[5..10][i - 5];
    ThisAmount(keys, kinds, p, vs, 5, 70);
    ThisAmount(keys, kinds, p, vs, 6, 78);
    AfterFixed(keys, kinds, p, vs, 7, 86, 4);
    AfterFixed(keys, kinds, p, vs, 8, 90, 4);
    AfterFixed(keys, kinds, p, vs, 9, 94, 1);
  }

  lemma {:induction false} ResponseLast(keys: Keys, kinds: seq<Kind>, p: bytes, vs: seq<Value>, m: nat)
    requires |kinds| == 14 && kinds[12] == KSignature && kinds[13] == TXIN_LIST && At(keys, kinds, p, vs, 12, m)
    ensures |vs| == 14 && vs[13].List? && |vs[13].items| <= 127
  {
    hide At;
    AfterSignature(keys, kinds, p, vs, 12, m);
    FewInputs(keys, kinds, p, vs, 13, m + 1 + p[m]);
  }

  lemma {:induction false} ResponseValues(keys: Keys, kinds: seq<Kind>, p: bytes, vs: seq<Value>)
    requires |kinds| == 14 && kinds[..5] == [U64, U8, AMOUNT, HASH20, KPubKey] && kinds[5..10] == [AMOUNT, AMOUNT, U32, U32, U8]
    requires kinds[10] == kinds[11] == PKSCRIPT && kinds[12] == KSignature && kinds[13] == TXIN_LIST
    requires var r := DecodeFields(keys, kinds, p); r.Some? && r.value.0 == vs
    ensures |vs| == 14 && AmountAt(p, vs[2], 9) && AmountAt(p, vs[5], 70) && AmountAt(p, vs[6], 78)
    ensures vs[10].Blob? && vs[11].Blob? && vs[13].List? && |vs[13].items| <= 127
    ensures ValidPkScript(vs[10].b) && ValidPkScript(vs[11].b) <==> TwoTemplates(p, 95)
  {
    hide DecodeFields, At, AmountAt, TwoTemplates, ValidPkScript;
    ResponseFirst(keys, kinds, p, vs);
    ResponseSecond(keys, kinds, p, vs);
    var m := AfterScripts(keys, kinds, p, vs, 10, 95);
    ResponseLast(keys, kinds, p, vs, m);
  }

  lemma {:induction false} ResponseFields(keys: Keys, p: bytes, vs: seq<Value>)
    requires Shapes(vs, Schema(210).value)
    requires var r := DecodeFields(keys, Schema(210).value, p); r.Some? && r.value.0 == vs
    ensures |p| >= 86
    ensures Validate(Assemble(210, vs)) <==> GoodResponse(p)
  {
    hide DecodeFields, TwoTemplates, ValidPkScript, FromBigEndian, Assemble, Validate, Shapes;
    ResponseValues(keys, Schema(210).value, p, vs);
    hide Schema;
    ResponseValid(vs);
  }

  lemma {:induction false} ReadFundingResponse(keys: Keys, net: nat, payload: bytes, rest: bytes)
    requires net < 0x1_0000_0000 && |payload| <= 33_554_432 && Decodable(keys, 210, payload)
    ensures |payload| > 4785 ==> FrameRead(keys, net, 210, payload, rest) == Refused(OverCap)
    ensures |payload| >= 86
    ensures |payload| <= 4785 ==>
      && (FrameRead(keys, net, 210, payload, rest).Accepted? <==> GoodResponse(payload))
      && (!GoodResponse(payload) ==> FrameRead(keys, net, 210, payload, rest) == Refused(Invalid))
  {
    hide FrameRead, DecodeFields, Schema, Assemble, Validate, Shapes, GoodResponse;
    var vs := ValidationDecides(keys, net, 210, payload, rest);
    ResponseFields(keys, payload, vs);
  }

  /** The other types are never refused as invalid. */
  lemma {:induction false} OthersAreNeverInvalid(keys: Keys, net: nat, command: nat, payload: bytes, rest: bytes)
    requires net < 0x1_0000_0000 && |payload| <= 33_554_432 && Schema(command).Some?
    requires command !in {200, 210, 300, 1000, 2000, 4000}
    ensures FrameRead(keys, net, command, payload, rest) != Refused(Invalid)
  {
    FrameReadIs(keys, net, command, payload, rest);
    hide FrameRead, DecodeFields;
  }
}
