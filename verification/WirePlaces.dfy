/**
  Where the fields of an accepted message stood in its payload: the order of the argument lists in
  each Decode, as offsets.
*/
module WirePlaces {
  import opened Basics
  import opened WireElements
  import opened WireMessages
  import opened WireFrames
  import opened WireBytes

  // ----- One field -----

  /** An unsigned number of w bytes was read at offset n. */
  ghost predicate NumberAt(p: bytes, v: Value, n: nat, w: nat) {
    n + w <= |p| && v == Unsigned(FromBigEndian(p[n..n + w]))
  }

  lemma {:induction false} ThisNumber(keys: Keys, kinds: seq<Kind>, b: bytes, vs: seq<Value>, j: nat, n: nat, w: nat)
    requires At(keys, kinds, b, vs, j, n) && j < |kinds| && kinds[j] == KUnsigned(w)
    ensures |vs| == |kinds| && NumberAt(b, vs[j], n, w) && At(keys, kinds, b, vs, j + 1, n + w)
  {
    AfterFixed(keys, kinds, b, vs, j, n, w);
    AtNext(keys, kinds, b, vs, j, n);
    hide At, FromBigEndian;
    Sub(b, n, w);
  }

  /** A hash or key was read at offset n. */
  ghost predicate BytesAt(p: bytes, v: Value, n: nat, w: nat) {
    n + w <= |p| && (v == Fixed(p[n..n + w]) || v == PubKey(p[n..n + w]))
  }

  lemma {:induction false} TheseBytes(keys: Keys, kinds: seq<Kind>, b: bytes, vs: seq<Value>, j: nat, n: nat, w: nat)
    requires At(keys, kinds, b, vs, j, n) && j < |kinds| && (kinds[j] == KFixed(w) || (kinds[j] == KPubKey && w == 33))
    ensures |vs| == |kinds| && BytesAt(b, vs[j], n, w) && At(keys, kinds, b, vs, j + 1, n + w)
  {
    AfterFixed(keys, kinds, b, vs, j, n, w);
    AtNext(keys, kinds, b, vs, j, n);
    hide At;
    Sub(b, n, w);
  }

  /** What was accepted is what Decode put together. */
  lemma {:induction false} AcceptedIsAssembled(keys: Keys, net: nat, command: nat, payload: bytes, rest: bytes) returns (vs: seq<Value>)
    requires net < 0x1_0000_0000 && |payload| <= 33_554_432 && Schema(command).Some?
    requires FrameRead(keys, net, command, payload, rest).Accepted?
    ensures Shapes(vs, Schema(command).value)
    ensures var r := DecodeFields(keys, Schema(command).value, payload); r.Some? && r.value.0 == vs
    ensures FrameRead(keys, net, command, payload, rest).m == Assemble(command, vs)
  {
    hide Schema, MaxPayload, FrameRead, Assemble, Validate;
    FrameReadIs(keys, net, command, payload, rest);
    vs := DecodeFields(keys, Schema(command).value, payload).value.0;
  }

  // ----- The messages -----

  lemma {:induction false} AddRequestStart(keys: Keys, p: bytes, vs: seq<Value>)
    requires var r := DecodeFields(keys, Schema(1000).value, p); r.Some? && r.value.0 == vs
    ensures |vs| == 7 && NumberAt(p, vs[0], 0, 8) && NumberAt(p, vs[1], 8, 8) && NumberAt(p, vs[2], 16, 4) && NumberAt(p, vs[4], 24, 1)
    ensures |p| >= 25 && vs[3].Signed? && (p[20] < 128 ==> vs[3].i == FromBigEndian(p[20..24]))
  {
    var kinds := [U64, U64, U32, CREDITS, U8, HASH20_LIST, BLOB];
    assert Schema(1000) == Some(kinds);
    hide Schema, DecodeFields, At, FromBigEndian;
    AtStart(keys, kinds, p, vs);
    ThisNumber(keys, kinds, p, vs, 0, 0, 8);
    ThisNumber(keys, kinds, p, vs, 1, 8, 8);
    ThisNumber(keys, kinds, p, vs, 2, 16, 4);
    AfterAmount(keys, kinds, p, vs, 3, 20, 4);
    ThisNumber(keys, kinds, p, vs, 4, 24, 1);
  }

  lemma {:induction false} AddRequestAssembled(vs: seq<Value>)
    requires Shapes(vs, Schema(1000).value) && |vs| == 7
    requires vs[0].Unsigned? && vs[1].Unsigned? && vs[2].Unsigned? && vs[3].Signed? && vs[4].Unsigned?
    ensures var m := Assemble(1000, vs);
      && m.HTLCAddRequest? && m.channelID == vs[0].n && m.htlcKey == vs[1].n && m.expiry == vs[2].n && m.amount == vs[3].i
      && m.contractType == vs[4].n && m.refundContext == 0
  {
  }

  /** HTLCAddRequest: channel, key, expiry, amount, contract type. */
  lemma {:induction false} AddRequestPlaces(keys: Keys, net: nat, payload: bytes, rest: bytes)
    requires net < 0x1_0000_0000 && |payload| <= 8192 && FrameRead(keys, net, 1000, payload, rest).Accepted?
    ensures var m := FrameRead(keys, net, 1000, payload, rest).m;
      && |payload| >= 25 && m.HTLCAddRequest?
      && m.channelID == FromBigEndian(payload[0..8]) && m.htlcKey == FromBigEndian(payload[8..16])
      && m.expiry == FromBigEndian(payload[16..20]) && m.amount == FromBigEndian(payload[20..24])
      && m.contractType == FromBigEndian(payload[24..25]) && m.refundContext == 0
  {
    var vs := AcceptedIsAssembled(keys, net, 1000, payload, rest);
    hide FrameRead, DecodeFields, Assemble, Shapes, FromBigEndian, Schema, Validate;
    ReadAddRequest(keys, net, payload, rest);
    AddRequestStart(keys, payload, vs);
    AddRequestAssembled(vs);
  }

  lemma {:induction false} SettleRequestAssembled(vs: seq<Value>)
    requires Shapes(vs, Schema(1100).value) && |vs| == 3 && vs[0].Unsigned? && vs[1].Unsigned?
    ensures var m := Assemble(1100, vs); m.HTLCSettleRequest? && m.channelID == vs[0].n && m.htlcKey == vs[1].n
  {
  }

  lemma {:induction false} SettleRequestStart(keys: Keys, p: bytes, vs: seq<Value>)
    requires var r := DecodeFields(keys, Schema(1100).value, p); r.Some? && r.value.0 == vs
    ensures |vs| == 3 && NumberAt(p, vs[0], 0, 8) && NumberAt(p, vs[1], 8, 8)
  {
    var kinds := [U64, U64, HASH20_LIST];
    assert Schema(1100) == Some(kinds);
    hide Schema, DecodeFields, At, FromBigEndian, NumberAt;
    AtStart(keys, kinds, p, vs);
    ThisNumber(keys, kinds, p, vs, 0, 0, 8);
    ThisNumber(keys, kinds, p, vs, 1, 8, 8);
  }

  /** HTLCSettleRequest: channel, key. */
  lemma {:induction false} SettleRequestPlaces(keys: Keys, net: nat, payload: bytes, rest: bytes)
    requires net < 0x1_0000_0000 && |payload| <= 8192 && FrameRead(keys, net, 1100, payload, rest).Accepted?
    ensures var m := FrameRead(keys, net, 1100, payload, rest).m;
      && |payload| >= 16 && m.HTLCSettleRequest?
      && m.channelID == FromBigEndian(payload[0..8]) && m.htlcKey == FromBigEndian(payload[8..16])
  {
    var vs := AcceptedIsAssembled(keys, net, 1100, payload, rest);
    hide FrameRead, DecodeFields, Assemble, Shapes, FromBigEndian, Schema;
    SettleRequestStart(keys, payload, vs);
    SettleRequestAssembled(vs);
  }

  lemma {:induction false} SignCompleteAssembled(vs: seq<Value>)
    requires Shapes(vs, Schema(230).value) && |vs| == 3 && vs[0].Unsigned? && vs[1].Fixed?
    ensures var m := Assemble(230, vs); m.FundingSignComplete? && m.reservationID == vs[0].n && m.txID == vs[1].b
  {
  }

  lemma {:induction false} SignCompleteStart(keys: Keys, p: bytes, vs: seq<Value>)
    requires Shapes(vs, Schema(230).value)
    requires var r := DecodeFields(keys, Schema(230).value, p); r.Some? && r.value.0 == vs
    ensures |vs| == 3 && NumberAt(p, vs[0], 0, 8) && BytesAt(p, vs[1], 8, 32) && vs[1].Fixed?
  {
    var kinds := [U64, SHA, SIG_LIST];
    assert Schema(230) == Some(kinds);
    assert Shape(vs[1], kinds[1]);
    hide Schema, DecodeFields, At, FromBigEndian, NumberAt, BytesAt;
    AtStart(keys, kinds, p, vs);
    ThisNumber(keys, kinds, p, vs, 0, 0, 8);
    TheseBytes(keys, kinds, p, vs, 1, 8, 32);
  }

  /** FundingSignComplete: reservation, transaction id. */
  lemma {:induction false} SignCompletePlaces(keys: Keys, net: nat, payload: bytes, rest: bytes)
    requires net < 0x1_0000_0000 && |payload| <= 9311 && FrameRead(keys, net, 230, payload, rest).Accepted?
    ensures var m := FrameRead(keys, net, 230, payload, rest).m;
      && |payload| >= 40 && m.FundingSignComplete?
      && m.reservationID == FromBigEndian(payload[0..8]) && m.txID == payload[8..40]
  {
    var vs := AcceptedIsAssembled(keys, net, 230, payload, rest);
    hide FrameRead, DecodeFields, Assemble, Shapes, FromBigEndian, Schema;
    SignCompleteStart(keys, payload, vs);
    SignCompleteAssembled(vs);
  }

  lemma {:induction false} ErrorGenericAssembled(vs: seq<Value>)
    requires Shapes(vs, Schema(4000).value) && |vs| == 2 && vs[0].Unsigned? && vs[1].Blob?
    ensures var m := Assemble(4000, vs); m.ErrorGeneric? && m.channelID == vs[0].n && m.problem == vs[1].b
  {
  }

  lemma {:induction false} ErrorGenericStart(keys: Keys, kinds: seq<Kind>, p: bytes, vs: seq<Value>)
    requires kinds == [U64, STRING]
    requires var r := DecodeFields(keys, kinds, p); r.Some? && r.value.0 == vs
    ensures |vs| == 2 && NumberAt(p, vs[0], 0, 8) && |p| >= 10 && vs[1].Blob?
    ensures var end := 10 + FromBigEndian(p[8..10]); end <= |p| && vs[1].b == p[10..end]
  {
    hide DecodeFields, At, FromBigEndian, NumberAt;
    AtStart(keys, kinds, p, vs);
    ThisNumber(keys, kinds, p, vs, 0, 0, 8);
    var size := AfterBlob(keys, kinds, p, vs, 1, 8, 2, 65535);
  }

  /** ErrorGeneric: channel, and the text behind its length. */
  lemma {:induction false} ErrorGenericPlaces(keys: Keys, net: nat, payload: bytes, rest: bytes)
    requires net < 0x1_0000_0000 && |payload| <= 8208 && FrameRead(keys, net, 4000, payload, rest).Accepted?
    ensures var m := FrameRead(keys, net, 4000, payload, rest).m;
      && |payload| >= 10 && m.ErrorGeneric?
      && m.channelID == FromBigEndian(payload[0..8])
      && 10 + FromBigEndian(payload[8..10]) <= |payload| && m.problem == payload[10..10 + FromBigEndian(payload[8..10])]
  {
    var vs := AcceptedIsAssembled(keys, net, 4000, payload, rest);
    hide FrameRead, DecodeFields, Assemble, Shapes, FromBigEndian;
    ErrorGenericStart(keys, Schema(4000).value, payload, vs);
    hide Schema;
    ErrorGenericAssembled(vs);
  }

  lemma {:induction false} CommitSignatureAssembled(vs: seq<Value>)
    requires Shapes(vs, Schema(2000).value) && |vs| == 6
    requires vs[0].Unsigned? && vs[1].Unsigned? && vs[3].Fixed? && vs[4].Signed?
    ensures var m := Assemble(2000, vs);
      && m.CommitSignature? && m.channelID == vs[0].n && m.commitmentHeight == vs[1].n && m.revocationHash == vs[3].b && m.fee == vs[4].i
  {
  }

  lemma {:induction false} CommitSignatureStart(keys: Keys, kinds: seq<Kind>, p: bytes, vs: seq<Value>)
    requires kinds == [U64, U64, U64_LIST, HASH20, AMOUNT, KSignature]
    requires var r := DecodeFields(keys, kinds, p); r.Some? && r.value.0 == vs
    ensures |vs| == 6 && NumberAt(p, vs[0], 0, 8) && NumberAt(p, vs[1], 8, 8)
  {
    hide DecodeFields, At, FromBigEndian, NumberAt;
    AtStart(keys, kinds, p, vs);
    ThisNumber(keys, kinds, p, vs, 0, 0, 8);
    ThisNumber(keys, kinds, p, vs, 1, 8, 8);
  }

  lemma {:induction false} CommitSignatureEnd(keys: Keys, kinds: seq<Kind>, p: bytes, vs: seq<Value>, hash: nat)
    requires kinds == [U64, U64, U64_LIST, HASH20, AMOUNT, KSignature] && At(keys, kinds, p, vs, 3, hash)
    ensures |vs| == 6 && BytesAt(p, vs[3], hash, 20) && AmountAt(p, vs[4], hash + 20)
  {
    hide At, FromBigEndian, BytesAt, AmountAt;
    TheseBytes(keys, kinds, p, vs, 3, hash, 20);
    ThisAmount(keys, kinds, p, vs, 4, hash + 20);
  }

  /** CommitSignature: channel, height, the counted keys, revocation hash, fee. */
  lemma {:induction false} CommitSignaturePlaces(keys: Keys, net: nat, payload: bytes, rest: bytes)
    requires net < 0x1_0000_0000 && |payload| <= 8192 && FrameRead(keys, net, 2000, payload, rest).Accepted?
    ensures var m := FrameRead(keys, net, 2000, payload, rest).m;
      && |payload| >= 18 && m.CommitSignature?
      && m.channelID == FromBigEndian(payload[0..8]) && m.commitmentHeight == FromBigEndian(payload[8..16])
      && var hash := 18 + 8 * FromBigEndian(payload[16..18]);
         && hash + 28 <= |payload|
         && m.revocationHash == payload[hash..hash + 20] && m.fee == FromBigEndian(payload[hash + 20..hash + 28])
  {
    hide FrameRead, DecodeFields, Assemble, FromBigEndian, At;
    var vs := AcceptedIsAssembled(keys, net, 2000, payload, rest);
    ReadCommitSignature(keys, net, payload, rest);
    var kinds := Schema(2000).value;
    assert Shape(vs[3], kinds[3]);
    CommitSignatureStart(keys, kinds, payload, vs);
    CommitSignatureKeys(keys, kinds, payload, vs);
    CommitSignatureEnd(keys, kinds, payload, vs, 18 + 8 * FromBigEndian(payload[16..18]));
    CommitSignatureAssembled(vs);
  }

  // ----- FundingRequest -----

  lemma {:induction false} RequestStart(keys: Keys, kinds: seq<Kind>, p: bytes, vs: seq<Value>)
    requires |kinds| == 15 && kinds[..6] == [U64, U8, AMOUNT, AMOUNT, HASH20, KPubKey]
    requires var r := DecodeFields(keys, kinds, p); r.Some? && r.value.0 == vs
    ensures |vs| == 15 && NumberAt(p, vs[0], 0, 8) && NumberAt(p, vs[1], 8, 1)
    ensures BytesAt(p, vs[4], 25, 20) && BytesAt(p, vs[5], 45, 33)
  {
    hide DecodeFields, At, NumberAt, BytesAt;
    assert forall i :: 0 <= i < 6 ==> kinds[i] == kinds[..6][i];
    AtStart(keys, kinds, p, vs);
    ThisNumber(keys, kinds, p, vs, 0, 0, 8);
    ThisNumber(keys, kinds, p, vs, 1, 8, 1);
    AfterFixed(keys, kinds, p, vs, 2, 9, 8);
    AfterFixed(keys, kinds, p, vs, 3, 17, 8);
    TheseBytes(keys, kinds, p, vs, 4, 25, 20);
    TheseBytes(keys, kinds, p, vs, 5, 45, 33);
  }

  lemma {:induction false} RequestMiddle(keys: Keys, kinds: seq<Kind>, p: bytes, vs: seq<Value>)
    requires |kinds| == 15 && kinds[6..12] == [AMOUNT, AMOUNT, AMOUNT, U32, U32, U8] && At(keys, kinds, p, vs, 6, 78)
    ensures |vs| == 15 && NumberAt(p, vs[9], 102, 4) && NumberAt(p, vs[10], 106, 4) && NumberAt(p, vs[11], 110, 1)
  {
    hide At, NumberAt;
    assert forall i :: 6 <= i < 12 ==> kinds[i] == kinds[6..12][i - 6];
    AfterFixed(keys, kinds, p, vs, 6, 78, 8);
    AfterFixed(keys, kinds, p, vs, 7, 86, 8);
    AfterFixed(keys, kinds, p, vs, 8, 94, 8);
    ThisNumber(keys, kinds, p, vs, 9, 102, 4);
    ThisNumber(keys, kinds, p, vs, 10, 106, 4);
    ThisNumber(keys, kinds, p, vs, 11, 110, 1);
  }

  /** A script behind its one-byte length was read at offset n. */
  ghost predicate ScriptAt(p: bytes, v: Value, n: nat) {
    n < |p| && n + 1 + p[n] <= |p| && v == Blob(p[n + 1..n + 1 + p[n]])
  }

  lemma {:induction false} ThisScript(keys: Keys, kinds: seq<Kind>, b: bytes, vs: seq<Value>, j: nat, n: nat)
    requires At(keys, kinds, b, vs, j, n) && j < |kinds| && kinds[j] == PKSCRIPT
    ensures |vs| == |kinds| && ScriptAt(b, vs[j], n) && At(keys, kinds, b, vs, j + 1, n + 1 + b[n])
  {
    hide At;
    var size := AfterBlob(keys, kinds, b, vs, j, n, 1, 25);
    OneByte(b[n..n + 1]);
  }

  /** Inputs arrive without a signature and final. */
  ghost predicate Bare(vs: seq<Value>) {
    forall i :: 0 <= i < |vs| ==> vs[i].TxIn? && vs[i].script == [] && vs[i].sequence == 0xffff_ffff
  }

  /** All the places of a FundingRequest, with inputs that only name outputs. */
  ghost predicate RequestAt(p: bytes, vs: seq<Value>) {
    && |vs| == 15 && |p| > 111
    && NumberAt(p, vs[0], 0, 8) && NumberAt(p, vs[1], 8, 1) && AmountAt(p, vs[2], 9) && AmountAt(p, vs[3], 17)
    && BytesAt(p, vs[4], 25, 20) && BytesAt(p, vs[5], 45, 33)
    && AmountAt(p, vs[6], 78) && AmountAt(p, vs[7], 86) && AmountAt(p, vs[8], 94)
    && NumberAt(p, vs[9], 102, 4) && NumberAt(p, vs[10], 106, 4) && NumberAt(p, vs[11], 110, 1)
    && ScriptAt(p, vs[12], 111) && ScriptAt(p, vs[13], 112 + p[111] as int)
    && vs[14].List? && Bare(vs[14].items)
  }

  lemma {:induction false} RequestScripts(keys: Keys, kinds: seq<Kind>, p: bytes, vs: seq<Value>)
    requires |kinds| == 15 && kinds[12] == kinds[13] == PKSCRIPT && At(keys, kinds, p, vs, 12, 111)
    ensures |vs| == 15 && |p| > 111 && ScriptAt(p, vs[12], 111) && ScriptAt(p, vs[13], 112 + p[111] as int)
    ensures var second := 112 + p[111] as int; At(keys, kinds, p, vs, 14, second + 1 + p[second])
  {
    hide At;
    ThisScript(keys, kinds, p, vs, 12, 111);
    ThisScript(keys, kinds, p, vs, 13, 112 + p[111] as int);
  }

  lemma {:induction false} CountedInputs(keys: Keys, count: nat, b: bytes)
    requires DecodeCount(keys, KTxIn, count, b).Some?
    ensures Bare(DecodeCount(keys, KTxIn, count, b).value.0)
    decreases count
  {
    if count == 0 {
    } else {
      CountedInputs(keys, count - 1, Decode(keys, KTxIn, b).value.1);
    }
  }

  lemma {:induction false} TheseInputs(keys: Keys, kinds: seq<Kind>, b: bytes, vs: seq<Value>, j: nat, n: nat)
    requires At(keys, kinds, b, vs, j, n) && j < |kinds| && kinds[j] == TXIN_LIST
    ensures |vs| == |kinds| && vs[j].List? && Bare(vs[j].items)
  {
    AtNext(keys, kinds, b, vs, j, n);
    hide At, Bare;
    var count := FromBigEndian(b[n..][..1]);
    CountedInputs(keys, count, b[n..][1..]);
  }

  lemma {:induction false} RequestIsAt(keys: Keys, kinds: seq<Kind>, p: bytes, vs: seq<Value>)
    requires |kinds| == 15 && kinds[..6] == [U64, U8, AMOUNT, AMOUNT, HASH20, KPubKey]
    requires kinds[6..12] == [AMOUNT, AMOUNT, AMOUNT, U32, U32, U8] && kinds[12] == kinds[13] == PKSCRIPT && kinds[14] == TXIN_LIST
    requires var r := DecodeFields(keys, kinds, p); r.Some? && r.value.0 == vs
    ensures RequestAt(p, vs)
  {
    hide DecodeFields, At, NumberAt, BytesAt, AmountAt, Bare;
    RequestStart(keys, kinds, p, vs);
    RequestFirst(keys, kinds, p, vs);
    RequestMiddle(keys, kinds, p, vs);
    RequestSecond(keys, kinds, p, vs);
    RequestScripts(keys, kinds, p, vs);
    var second := 112 + p[111] as int;
    TheseInputs(keys, kinds, p, vs, 14, second + 1 + p[second]);
  }

  lemma {:induction false} RequestAssembled(vs: seq<Value>)
    requires Shapes(vs, Schema(200).value)
    ensures var m := Assemble(200, vs);
      && m.FundingRequest?
      && vs == [Unsigned(m.reservationID), Unsigned(m.channelType), Signed(m.requesterFundingAmount), Signed(m.minTotalFundingAmount),
           Fixed(m.revocationHash), PubKey(m.pubkey), Signed(m.requesterReserveAmount), Signed(m.minFeePerKb), Signed(m.paymentAmount),
           Unsigned(m.minDepth), Unsigned(m.lockTime), Unsigned(m.feePayer), Blob(m.deliveryPkScript), Blob(m.changePkScript), List(m.inputs)]
  {
  }

  /** FundingRequest: every field in its place. */
  lemma {:induction false} FundingRequestPlaces(keys: Keys, net: nat, payload: bytes, rest: bytes)
    requires net < 0x1_0000_0000 && |payload| <= 4735 && FrameRead(keys, net, 200, payload, rest).Accepted?
    ensures var m := FrameRead(keys, net, 200, payload, rest).m;
      && m.FundingRequest?
      && var (funding, total, reserve, fee) := (m.requesterFundingAmount, m.minTotalFundingAmount, m.requesterReserveAmount, m.minFeePerKb);
         RequestAt(payload, [Unsigned(m.reservationID), Unsigned(m.channelType), Signed(funding), Signed(total), Fixed(m.revocationHash),
           PubKey(m.pubkey), Signed(reserve), Signed(fee), Signed(m.paymentAmount), Unsigned(m.minDepth), Unsigned(m.lockTime),
           Unsigned(m.feePayer), Blob(m.deliveryPkScript), Blob(m.changePkScript), List(m.inputs)])
  {
    hide FrameRead, DecodeFields, Assemble, Shapes, FromBigEndian, RequestAt;
    var vs := AcceptedIsAssembled(keys, net, 200, payload, rest);
    RequestAssembled(vs);
    RequestIsAt(keys, Schema(200).value, payload, vs);
  }
}
