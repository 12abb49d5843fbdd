/**
  The messages of lnwire: which fields each one writes and reads, its payload cap and its
  validation. Six message types are modelled field by field; the ten others are a command and a list
  of fields.
*/
module WireMessages {
  import opened Basics
  import opened WireElements

  // ----- Field types -----

  const U8 := KUnsigned(1)
  const U32 := KUnsigned(4)
  const U64 := KUnsigned(8)
  const CREDITS := KSigned(4)
  const AMOUNT := KSigned(8)
  const HASH20 := KFixed(20)
  const SHA := KFixed(32)
  const BLOB := KBlob(2, 65535)
  const PKSCRIPT := KBlob(1, 25)
  const STRING := KBlob(2, 65535)
  const U64_LIST := KList(U64, 2, Some(65535))
  const SIG_LIST := KList(KSignature, 1, Some(127))
  const TXIN_LIST := KList(KTxIn, 1, Some(127))
  const HASH20_LIST := KList(HASH20, 2, None)   // the only list whose length is not checked

  // ----- Commands -----

  const FUNDING_REQUEST := 200
  const FUNDING_RESPONSE := 210
  const FUNDING_SIGN_COMPLETE := 230
  const CLOSE_REQUEST := 300
  const HTLC_ADD_REQUEST := 1000
  const HTLC_SETTLE_REQUEST := 1100
  const COMMIT_SIGNATURE := 2000
  const ERROR_GENERIC := 4000

  /** The field types of a command, in wire order; None for a command nobody handles. */
  function Schema(command: nat): Option<seq<Kind>> {
    match command
    // FundingRequest
    case 200 => Some([U64, U8, AMOUNT, AMOUNT, HASH20, KPubKey, AMOUNT, AMOUNT, AMOUNT, U32, U32, U8, PKSCRIPT, PKSCRIPT, TXIN_LIST])
    // FundingResponse
    case 210 => Some([U64, U8, AMOUNT, HASH20, KPubKey, AMOUNT, AMOUNT, U32, U32, U8, PKSCRIPT, PKSCRIPT, KSignature, TXIN_LIST])
    // FundingSignAccept
    case 220 => Some([U64, KSignature, SIG_LIST])
    // FundingSignComplete
    case 230 => Some([U64, SHA, SIG_LIST])
    // CloseRequest
    case 300 => Some([U64, KSignature, AMOUNT])
    // CloseComplete
    case 310 => Some([U64, KSignature, SHA])
    // HTLCAddRequest
    case 1000 => Some([U64, U64, U32, CREDITS, U8, HASH20_LIST, BLOB])
    // HTLCAddAccept
    case 1010 => Some([U64, U64])
    // HTLCAddReject
    case 1020 => Some([U64, U64])
    // HTLCSettleRequest
    case 1100 => Some([U64, U64, HASH20_LIST])
    // HTLCSettleAccept
    case 1110 => Some([U64, U64])
    // HTLCTimeoutRequest
    case 1300 => Some([U64, U64])
    // HTLCTimeoutAccept
    case 1310 => Some([U64, U64])
    // CommitSignature
    case 2000 => Some([U64, U64, U64_LIST, HASH20, AMOUNT, KSignature])
    // CommitRevocation
    case 2010 => Some([U64, U64, HASH20])
    // ErrorGeneric
    case 4000 => Some([U64, STRING])
    case _ => None
  }

  function MaxPayload(command: nat): nat {
    match command
    case 200 => 4735
    case 210 => 4785
    case 220 => 9352
    case 230 => 9311
    case 300 => 89
    case 310 => 113
    case 1000 => 8192
    case 1100 => 331
    case 2000 => 8192
    case 2010 => 36
    case 4000 => 8208
    case _ => 16
  }

  // ----- Messages -----

  datatype Message =
    | FundingRequest(reservationID: nat, channelType: nat, requesterFundingAmount: int, requesterReserveAmount: int,
                     minFeePerKb: int, paymentAmount: int, minDepth: nat, minTotalFundingAmount: int, lockTime: nat,
                     feePayer: nat, revocationHash: bytes, pubkey: bytes, deliveryPkScript: bytes,
                     changePkScript: bytes, inputs: seq<Value>)
    | FundingSignComplete(reservationID: nat, txID: bytes, fundingTXSigs: seq<Value>)
    | HTLCAddRequest(channelID: nat, htlcKey: nat, expiry: nat, amount: int, refundContext: nat, contractType: nat,
                     redemptionHashes: seq<Value>, blob: bytes)
    | HTLCSettleRequest(channelID: nat, htlcKey: nat, redemptionProofs: seq<Value>)
    | CommitSignature(channelID: nat, commitmentHeight: nat, updatedHTLCKeys: seq<Value>, revocationHash: bytes,
                      fee: int, commitSig: bytes)
    | ErrorGeneric(channelID: nat, problem: bytes)
    | Plain(cmd: nat, fields: seq<Value>)
  {
    function Command(): nat {
      match this
      case FundingRequest(_, _, _, _, _, _, _, _, _, _, _, _, _, _, _) => FUNDING_REQUEST
      case FundingSignComplete(_, _, _) => FUNDING_SIGN_COMPLETE
      case HTLCAddRequest(_, _, _, _, _, _, _, _) => HTLC_ADD_REQUEST
      case HTLCSettleRequest(_, _, _) => HTLC_SETTLE_REQUEST
      case CommitSignature(_, _, _, _, _, _) => COMMIT_SIGNATURE
      case ErrorGeneric(_, _) => ERROR_GENERIC
      case Plain(c, _) => c
    }

    /** The argument list of writeElements in the message's Encode. */
    function Fields(): seq<Value> {
      match this
      case FundingRequest(id, chan, funding, reserve, fee, payment, depth, total, lock, payer, hash, key, delivery, change, ins) =>
        [Unsigned(id), Unsigned(chan), Signed(funding), Signed(total), Fixed(hash), PubKey(key), Signed(reserve),
         Signed(fee), Signed(payment), Unsigned(depth), Unsigned(lock), Unsigned(payer), Blob(delivery), Blob(change), List(ins)]
      case FundingSignComplete(id, tx, sigs) => [Unsigned(id), Fixed(tx), List(sigs)]
      case HTLCAddRequest(id, key, expiry, amount, _, contract, hashes, blob) =>
        [Unsigned(id), Unsigned(key), Unsigned(expiry), Signed(amount), Unsigned(contract), List(hashes), Blob(blob)]
      case HTLCSettleRequest(id, key, proofs) => [Unsigned(id), Unsigned(key), List(proofs)]
      case CommitSignature(id, height, htlcs, hash, fee, sig) =>
        [Unsigned(id), Unsigned(height), List(htlcs), Fixed(hash), Signed(fee), Signature(sig)]
      case ErrorGeneric(id, problem) => [Unsigned(id), Blob(problem)]
      case Plain(_, fields) => fields
    }

    /** The message as the other side can see it: RefundContext is not sent, nor parts of an input. */
    function Arrived(): Message {
      match this
      case FundingRequest(_, _, _, _, _, _, _, _, _, _, _, _, _, _, _) => this.(inputs := ReceivedAll(inputs))
      case FundingSignComplete(_, _, _) => this.(fundingTXSigs := ReceivedAll(fundingTXSigs))
      case HTLCAddRequest(_, _, _, _, _, _, _, _) => this.(refundContext := 0, redemptionHashes := ReceivedAll(redemptionHashes))
      case HTLCSettleRequest(_, _, _) => this.(redemptionProofs := ReceivedAll(redemptionProofs))
      case CommitSignature(_, _, _, _, _, _) => this.(updatedHTLCKeys := ReceivedAll(updatedHTLCKeys))
      case ErrorGeneric(_, _) => this
      case Plain(_, _) => this.(fields := ReceivedAll(fields))
    }
  }

  predicate Shapes(vs: seq<Value>, kinds: seq<Kind>) {
    |vs| == |kinds| && forall i :: 0 <= i < |kinds| ==> Shape(vs[i], kinds[i])
  }

  /** makeEmptyMessage followed by Decode: the values read go into the fields in Decode's order. */
  function Assemble(command: nat, vs: seq<Value>): Message
    requires Schema(command).Some? && Shapes(vs, Schema(command).value)
  {
    match command
    case 200 => AssembleFundingRequest(vs)
    case 230 =>
      assert Shape(vs[0], U64) && Shape(vs[1], SHA) && Shape(vs[2], SIG_LIST);
      FundingSignComplete(vs[0].n, vs[1].b, vs[2].items)
    case 1000 =>
      assert Shape(vs[0], U64) && Shape(vs[1], U64) && Shape(vs[2], U32) && Shape(vs[3], CREDITS);
      assert Shape(vs[4], U8) && Shape(vs[5], HASH20_LIST) && Shape(vs[6], BLOB);
      HTLCAddRequest(vs[0].n, vs[1].n, vs[2].n, vs[3].i, 0, vs[4].n, vs[5].items, vs[6].b)
    case 1100 =>
      assert Shape(vs[0], U64) && Shape(vs[1], U64) && Shape(vs[2], HASH20_LIST);
      HTLCSettleRequest(vs[0].n, vs[1].n, vs[2].items)
    case 2000 =>
      assert Shape(vs[0], U64) && Shape(vs[1], U64) && Shape(vs[2], U64_LIST) && Shape(vs[3], HASH20);
      assert Shape(vs[4], AMOUNT) && Shape(vs[5], KSignature);
      CommitSignature(vs[0].n, vs[1].n, vs[2].items, vs[3].b, vs[4].i, vs[5].b)
    case 4000 =>
      assert Shape(vs[0], U64) && Shape(vs[1], STRING);
      ErrorGeneric(vs[0].n, vs[1].b)
    case _ => Plain(command, vs)
  }

  function AssembleFundingRequest(vs: seq<Value>): Message
    requires Shapes(vs, Schema(FUNDING_REQUEST).value)
  {
    assert Shape(vs[0], U64) && Shape(vs[1], U8) && Shape(vs[2], AMOUNT) && Shape(vs[3], AMOUNT) && Shape(vs[4], HASH20);
    assert Shape(vs[5], KPubKey) && Shape(vs[6], AMOUNT) && Shape(vs[7], AMOUNT) && Shape(vs[8], AMOUNT) && Shape(vs[9], U32);
    assert Shape(vs[10], U32) && Shape(vs[11], U8) && Shape(vs[12], PKSCRIPT) && Shape(vs[13], PKSCRIPT) && Shape(vs[14], TXIN_LIST);
    FundingRequest(vs[0].n, vs[1].n, vs[2].i, vs[6].i, vs[7].i, vs[8].i, vs[9].n, vs[3].i, vs[10].n, vs[11].n,
                   vs[4].b, vs[5].b, vs[12].b, vs[13].b, vs[14].items)
  }

  // ----- Validation -----

  /** ValidatePkScript: the 25-byte P2PKH or the 23-byte P2SH template. */
  predicate ValidPkScript(s: bytes) {
    if |s| == 25 then s[..3] == [118, 169, 20] && s[23..] == [136, 172]
    else |s| == 23 && s[..2] == [169, 20] && s[22..] == [135]
  }

  predicate Validate(m: Message) {
    match m
    case FundingRequest(_, _, funding, reserve, fee, payment, _, total, _, _, _, _, delivery, change, inputs) =>
      && funding >= 0 && reserve >= 0 && fee >= 0 && total >= 0
      && total >= funding && funding >= reserve && payment >= 0
      && |inputs| <= 127 && ValidPkScript(delivery) && ValidPkScript(change)
    case HTLCAddRequest(_, _, _, amount, _, _, _, _) => amount >= 0
    case CommitSignature(_, _, _, _, fee, _) => fee >= 0
    case ErrorGeneric(_, problem) => |problem| <= 8192
    case Plain(command, f) =>
      if command == FUNDING_RESPONSE && Shapes(f, Schema(FUNDING_RESPONSE).value) then
        assert Shape(f[2], AMOUNT) && Shape(f[5], AMOUNT) && Shape(f[6], AMOUNT);
        assert Shape(f[10], PKSCRIPT) && Shape(f[11], PKSCRIPT) && Shape(f[13], TXIN_LIST);
        && f[2].i >= 0 && f[5].i >= 0 && f[6].i >= 0 && f[2].i >= f[5].i
        && |f[13].items| <= 127 && ValidPkScript(f[10].b) && ValidPkScript(f[11].b)
      else if command == CLOSE_REQUEST && Shapes(f, Schema(CLOSE_REQUEST).value) then
        assert Shape(f[2], AMOUNT);
        f[2].i >= 0
      else true
    case _ => true
  }

  // ----- Fields of a whole message -----

  function EncodeFields(keys: Keys, kinds: seq<Kind>, vs: seq<Value>): Option<bytes>
    requires |kinds| == |vs|
  {
    if vs == [] then Some([])
    else
      match (Encode(keys, kinds[0], vs[0]), EncodeFields(keys, kinds[1..], vs[1..]))
      case (Some(a), Some(b)) => Some(a + b)
      case _ => None
  }

  function DecodeFields(keys: Keys, kinds: seq<Kind>, b: bytes): (r: Option<(seq<Value>, bytes)>)
    ensures r.Some? ==> Shapes(r.value.0, kinds)
  {
    if kinds == [] then Some(([], b))
    else
      match Decode(keys, kinds[0], b)
      case None => None
      case Some((v, rest)) =>
        match DecodeFields(keys, kinds[1..], rest)
        case None => None
        case Some((vs, rest')) => Some(([v] + vs, rest'))
  }

  ghost predicate Conforms(keys: Keys, vs: seq<Value>, kinds: seq<Kind>) {
    |vs| == |kinds| && forall i :: 0 <= i < |kinds| ==> HasKind(keys, vs[i], kinds[i])
  }

  ghost predicate AllCountsFit(kinds: seq<Kind>, vs: seq<Value>)
    requires |kinds| == |vs|
  {
    forall i :: 0 <= i < |kinds| ==> CountsFit(kinds[i], vs[i])
  }

  lemma {:induction false} TailConforms(keys: Keys, kinds: seq<Kind>, vs: seq<Value>)
    requires vs != [] && Conforms(keys, vs, kinds) && AllCountsFit(kinds, vs)
    ensures HasKind(keys, vs[0], kinds[0]) && CountsFit(kinds[0], vs[0])
    ensures Conforms(keys, vs[1..], kinds[1..]) && AllCountsFit(kinds[1..], vs[1..])
  {
    hide HasKind, CountsFit;
  }

  lemma {:induction false} DecodeFirst(keys: Keys, kinds: seq<Kind>, b: bytes, v: Value, rest1: bytes, vs: seq<Value>, rest: bytes)
    requires kinds != [] && Decode(keys, kinds[0], b) == Some((v, rest1)) && DecodeFields(keys, kinds[1..], rest1) == Some((vs, rest))
    ensures DecodeFields(keys, kinds, b) == Some(([v] + vs, rest))
  {
    hide Decode, Shapes;
  }

  lemma {:induction false} EncodeFirst(keys: Keys, kinds: seq<Kind>, vs: seq<Value>)
    requires vs != [] && |kinds| == |vs| && EncodeFields(keys, kinds, vs).Some?
    ensures Encode(keys, kinds[0], vs[0]).Some? && EncodeFields(keys, kinds[1..], vs[1..]).Some?
    ensures EncodeFields(keys, kinds, vs).value == Encode(keys, kinds[0], vs[0]).value + EncodeFields(keys, kinds[1..], vs[1..]).value
  {
    hide Encode;
  }

  lemma {:induction false} NoFields(keys: Keys, rest: bytes)
    ensures EncodeFields(keys, [], []) == Some([]) && [] + rest == rest
    ensures DecodeFields(keys, [], rest) == Some((ReceivedAll([]), rest))
  {
  }

  lemma {:induction false} ConformsInLength(keys: Keys, kinds: seq<Kind>, vs: seq<Value>)
    requires Conforms(keys, vs, kinds)
    ensures |vs| == |kinds| && (vs == [] ==> kinds == [])
  {
    hide HasKind;
  }

  lemma {:induction false} DecodeEncodedFields(keys: Keys, kinds: seq<Kind>, vs: seq<Value>, rest: bytes)
    requires Conforms(keys, vs, kinds) && AllCountsFit(kinds, vs) && EncodeFields(keys, kinds, vs).Some?
    ensures DecodeFields(keys, kinds, EncodeFields(keys, kinds, vs).value + rest) == Some((ReceivedAll(vs), rest))
  {
    hide Encode, Decode, Conforms, AllCountsFit, Received, EncodeFields, DecodeFields, ReceivedAll;
    ConformsInLength(keys, kinds, vs);
    if vs == [] {
      NoFields(keys, rest);
    } else {
      EncodeFirst(keys, kinds, vs);
      var a, b := Encode(keys, kinds[0], vs[0]).value, EncodeFields(keys, kinds[1..], vs[1..]).value;
      TailConforms(keys, kinds, vs);
      DecodeEncoded(keys, kinds[0], vs[0], b + rest);
      DecodeEncodedFields(keys, kinds[1..], vs[1..], rest);
      assert a + b + rest == a + (b + rest);
      DecodeFirst(keys, kinds, a + (b + rest), Received(vs[0]), b + rest, ReceivedAll(vs[1..]), rest);
      ReceivedFirst(vs);
    }
  }

  // ----- A message and its payload -----

  /** The Go type system: every field of m holds a value of its type, and the command is m's own. */
  ghost predicate WellTyped(keys: Keys, m: Message) {
    && Schema(m.Command()).Some?
    && Conforms(keys, m.Fields(), Schema(m.Command()).value)
    && (m.Plain? ==> m.cmd !in {FUNDING_REQUEST, FUNDING_SIGN_COMPLETE, HTLC_ADD_REQUEST, HTLC_SETTLE_REQUEST, COMMIT_SIGNATURE, ERROR_GENERIC})
  }

  lemma {:induction false} ReceivedShapes(vs: seq<Value>, kinds: seq<Kind>)
    requires |vs| == |kinds|
    ensures Shapes(ReceivedAll(vs), kinds) <==> Shapes(vs, kinds)
  {
    forall i | 0 <= i < |vs|
      ensures Shape(ReceivedAll(vs)[i], kinds[i]) <==> Shape(vs[i], kinds[i])
    {
    }
    if Shapes(ReceivedAll(vs), kinds) {
      assert forall i :: 0 <= i < |kinds| ==> Shape(ReceivedAll(vs)[i], kinds[i]);
    }
  }

  /** Decode assigns every field that Encode wrote to the place it came from. */
  lemma {:induction false} AssembleArrived(keys: Keys, m: Message)
    requires WellTyped(keys, m)
    requires Shapes(ReceivedAll(m.Fields()), Schema(m.Command()).value)
    ensures Assemble(m.Command(), ReceivedAll(m.Fields())) == m.Arrived()
  {
    hide HasKind, Shape;
    if m.FundingRequest? {
      AssembleArrivedFunding(m);
    }
  }

  lemma {:induction false} AssembleArrivedFunding(m: Message)
    requires m.FundingRequest? && Shapes(ReceivedAll(m.Fields()), Schema(FUNDING_REQUEST).value)
    ensures AssembleFundingRequest(ReceivedAll(m.Fields())) == m.Arrived()
  {
    hide Shape;
  }

  /** What was validated before sending is valid on arrival. */
  lemma {:induction false} ArrivedIsValid(keys: Keys, m: Message)
    requires WellTyped(keys, m) && Validate(m)
    ensures Validate(m.Arrived())
  {
    hide HasKind;
    if m.Plain? && m.cmd == FUNDING_RESPONSE {
      var f, kinds := m.fields, Schema(FUNDING_RESPONSE).value;
      ReceivedShapes(f, kinds);
      if Shapes(f, kinds) {
        assert Shape(f[2], AMOUNT) && Shape(f[5], AMOUNT) && Shape(f[6], AMOUNT);
        assert Shape(f[10], PKSCRIPT) && Shape(f[11], PKSCRIPT) && Shape(f[13], TXIN_LIST);
      }
    } else if m.Plain? && m.cmd == CLOSE_REQUEST {
      var f, kinds := m.fields, Schema(CLOSE_REQUEST).value;
      ReceivedShapes(f, kinds);
      if Shapes(f, kinds) {
        assert Shape(f[2], AMOUNT);
      }
    }
  }
}
