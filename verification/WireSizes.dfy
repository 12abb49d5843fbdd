/**
  How large a message is on the wire, and exactly which messages WriteMessage therefore sends: the
  caps of lnwire against the sizes of the fields they are meant for.
*/
module WireSizes {
  import opened Basics
  import opened WireElements
  import opened WireMessages
  import opened WireFrames

  // ----- Sizes -----

  /** The bytes a value takes. */
  function Size(kind: Kind, v: Value): nat
    decreases kind, 1
  {
    match (kind, v)
    case (KUnsigned(w), _) => w
    case (KSigned(w), _) => w
    case (KFixed(size), _) => size
    case (KPubKey, _) => 33
    case (KSignature, Signature(s)) => 1 + |s|
    case (KBlob(w, _), Blob(b)) => w + |b|
    case (KTxIn, _) => 36
    case (KList(item, w, _), List(items)) => w + SizeAll(item, items)
    case _ => 0
  }

  function SizeAll(kind: Kind, vs: seq<Value>): nat
    decreases kind, 2, |vs|
  {
    if vs == [] then 0 else Size(kind, vs[0]) + SizeAll(kind, vs[1..])
  }

  /** Within the limits that the writer checks. */
  predicate Small(kind: Kind, v: Value)
    decreases kind
  {
    match (kind, v)
    case (KPubKey, PubKey(k)) => |k| == 33
    case (KSignature, Signature(s)) => |s| <= 73
    case (KBlob(_, max), Blob(b)) => |b| <= max
    case (KList(item, _, limit), List(items)) =>
      (limit.Some? ==> |items| <= limit.value) && forall i :: 0 <= i < |items| ==> Small(item, items[i])
    case _ => true
  }

  lemma {:induction false} EncodedSize(keys: Keys, kind: Kind, v: Value)
    requires HasKind(keys, v, kind)
    ensures Encode(keys, kind, v).Some? <==> Small(kind, v)
    ensures Encode(keys, kind, v).Some? ==> |Encode(keys, kind, v).value| == Size(kind, v)
    decreases kind, 1
  {
    if kind.KList? {
      EncodedSizes(keys, kind.item, v.items);
    }
  }

  lemma {:induction false} EncodedSizes(keys: Keys, kind: Kind, vs: seq<Value>)
    requires forall x :: x in vs ==> HasKind(keys, x, kind)
    ensures EncodeAll(keys, kind, vs).Some? <==> forall i :: 0 <= i < |vs| ==> Small(kind, vs[i])
    ensures EncodeAll(keys, kind, vs).Some? ==> |EncodeAll(keys, kind, vs).value| == SizeAll(kind, vs)
    decreases kind, 2, |vs|
  {
    hide Encode, HasKind, Small, Size;
    if vs == [] {
    } else {
      EncodedSize(keys, kind, vs[0]);
      EncodedSizes(keys, kind, vs[1..]);
      assert forall i :: 0 < i < |vs| ==> vs[i] == vs[1..][i - 1];
    }
  }

  function SizeOfFields(kinds: seq<Kind>, vs: seq<Value>): nat
    requires |kinds| == |vs|
  {
    if vs == [] then 0 else Size(kinds[0], vs[0]) + SizeOfFields(kinds[1..], vs[1..])
  }

  predicate SmallFields(kinds: seq<Kind>, vs: seq<Value>)
    requires |kinds| == |vs|
  {
    forall i :: 0 <= i < |vs| ==> Small(kinds[i], vs[i])
  }

  lemma {:induction false} FieldsAreSized(keys: Keys, kinds: seq<Kind>, vs: seq<Value>)
    requires Conforms(keys, vs, kinds)
    ensures EncodeFields(keys, kinds, vs).Some? <==> SmallFields(kinds, vs)
    ensures EncodeFields(keys, kinds, vs).Some? ==> |EncodeFields(keys, kinds, vs).value| == SizeOfFields(kinds, vs)
  {
    hide Encode, HasKind, Small, Size;
    if vs == [] {
    } else {
      EncodedSize(keys, kinds[0], vs[0]);
      FieldsAreSized(keys, kinds[1..], vs[1..]);
      assert forall i :: 0 < i < |vs| ==> vs[i] == vs[1..][i - 1] && kinds[i] == kinds[1..][i - 1];
    }
  }

  /** WriteMessage sends a message exactly if its fields are within their limits and together within the cap. */
  lemma {:induction false} SentIff(keys: Keys, m: Message, net: nat)
    requires WellTyped(keys, m)
    ensures var kinds := Schema(m.Command()).value;
      && |kinds| == |m.Fields()|
      && (Frame(keys, m, net).Some? <==> SmallFields(kinds, m.Fields()) && SizeOfFields(kinds, m.Fields()) <= MaxPayload(m.Command()))
  {
    FieldsAreSized(keys, Schema(m.Command()).value, m.Fields());
    CapBelow64K(m.Command());
    hide SizeOfFields, SmallFields, HasKind, Schema, MaxPayload, EncodeFields;
  }

  lemma {:induction false} SizeOfHashes(items: seq<Value>)
    ensures SizeAll(HASH20, items) == 20 * |items|
  {
    if items == [] {
    } else {
      SizeOfHashes(items[1..]);
    }
  }

  lemma {:induction false} SizeOfNumbers(items: seq<Value>)
    ensures SizeAll(U64, items) == 8 * |items|
  {
    if items == [] {
    } else {
      SizeOfNumbers(items[1..]);
    }
  }

  lemma {:induction false} OneField(kinds: seq<Kind>, vs: seq<Value>)
    requires |kinds| == |vs|
    ensures SizeOfFields(kinds, vs) == if vs == [] then 0 else Size(kinds[0], vs[0]) + SizeOfFields(kinds[1..], vs[1..])
  {
  }

  lemma {:induction false} FirstThree(kinds: seq<Kind>, vs: seq<Value>)
    requires |kinds| == |vs| >= 3
    ensures SizeOfFields(kinds, vs) == Size(kinds[0], vs[0]) + Size(kinds[1], vs[1]) + Size(kinds[2], vs[2]) + SizeOfFields(kinds[3..], vs[3..])
  {
    hide Size, SizeOfFields;
    OneField(kinds, vs);
    OneField(kinds[1..], vs[1..]);
    OneField(kinds[1..][1..], vs[1..][1..]);
    assert vs[1..][1..][1..] == vs[3..] && kinds[1..][1..][1..] == kinds[3..];
  }

  lemma {:induction false} Three(kinds: seq<Kind>, vs: seq<Value>)
    requires |kinds| == |vs| == 3
    ensures SizeOfFields(kinds, vs) == Size(kinds[0], vs[0]) + Size(kinds[1], vs[1]) + Size(kinds[2], vs[2])
  {
    hide Size, SizeOfFields;
    FirstThree(kinds, vs);
    OneField(kinds[3..], vs[3..]);
  }

  lemma {:induction false} Two(kinds: seq<Kind>, vs: seq<Value>)
    requires |kinds| == |vs| == 2
    ensures SizeOfFields(kinds, vs) == Size(kinds[0], vs[0]) + Size(kinds[1], vs[1])
  {
    hide Size, SizeOfFields;
    OneField(kinds, vs);
    OneField(kinds[1..], vs[1..]);
    OneField(kinds[1..][1..], vs[1..][1..]);
  }

  /** A field with the kind it has in its message. */
  lemma {:induction false} FieldHasKind(keys: Keys, m: Message, i: nat)
    requires WellTyped(keys, m) && i < |m.Fields()|
    ensures |Schema(m.Command()).value| == |m.Fields()| && HasKind(keys, m.Fields()[i], Schema(m.Command()).value[i])
  {
    hide HasKind, Schema;
  }

  // ----- Which messages are sent -----

  lemma {:induction false} SmallHashes(items: seq<Value>)
    ensures Small(HASH20_LIST, List(items))
  {
  }

  lemma {:induction false} SmallNumbers(items: seq<Value>)
    ensures Small(U64_LIST, List(items)) <==> |items| <= 65535
  {
  }

  lemma {:induction false} AddRequestSize(kinds: seq<Kind>, m: Message)
    requires m.HTLCAddRequest? && kinds == [U64, U64, U32, CREDITS, U8, HASH20_LIST, BLOB]
    ensures SizeOfFields(kinds, m.Fields()) == 29 + 20 * |m.redemptionHashes| + |m.blob|
  {
    hide SizeOfFields;
    var f := m.Fields();
    SizeOfHashes(m.redemptionHashes);
    FirstThree(kinds, f);
    FirstThree(kinds[3..], f[3..]);
    OneField(kinds[3..][3..], f[3..][3..]);
    OneField(kinds[3..][3..][1..], f[3..][3..][1..]);
  }

  lemma {:induction false} AddRequestSmall(kinds: seq<Kind>, m: Message)
    requires m.HTLCAddRequest? && kinds == [U64, U64, U32, CREDITS, U8, HASH20_LIST, BLOB]
    ensures SmallFields(kinds, m.Fields()) <==> |m.blob| <= 65535
  {
    var f := m.Fields();
    assert Small(kinds[0], f[0]) && Small(kinds[1], f[1]) && Small(kinds[2], f[2]) && Small(kinds[3], f[3]) && Small(kinds[4], f[4]);
    SmallHashes(m.redemptionHashes);
    assert Small(kinds[6], f[6]) <==> |m.blob| <= 65535;
    hide Small;
  }

  /** HTLCAddRequest: 29 bytes, 20 for each hash, and the blob, in 8192 bytes. */
  lemma {:induction false} AddRequestSent(keys: Keys, m: Message, net: nat)
    requires WellTyped(keys, m) && m.HTLCAddRequest?
    ensures Frame(keys, m, net).Some? <==> 29 + 20 * |m.redemptionHashes| + |m.blob| <= 8192
  {
    hide Frame, WellTyped, SizeOfFields, SmallFields;
    SentIff(keys, m, net);
    AddRequestSize(Schema(1000).value, m);
    AddRequestSmall(Schema(1000).value, m);
  }

  /** HTLCSettleRequest: at most fifteen proofs fit the cap of 331. */
  lemma {:induction false} SettleRequestSent(keys: Keys, m: Message, net: nat)
    requires WellTyped(keys, m) && m.HTLCSettleRequest?
    ensures Frame(keys, m, net).Some? <==> |m.redemptionProofs| <= 15
  {
    hide Frame, WellTyped;
    SentIff(keys, m, net);
    var kinds := [U64, U64, HASH20_LIST];
    assert Schema(1100) == Some(kinds) && MaxPayload(1100) == 331;
    hide Schema, MaxPayload, SizeOfFields;
    Three(kinds, m.Fields());
    SizeOfHashes(m.redemptionProofs);
    SmallHashes(m.redemptionProofs);
  }

  lemma {:induction false} CommitSignatureSize(kinds: seq<Kind>, m: Message)
    requires m.CommitSignature? && kinds == [U64, U64, U64_LIST, HASH20, AMOUNT, KSignature]
    ensures SizeOfFields(kinds, m.Fields()) == 47 + 8 * |m.updatedHTLCKeys| + |m.commitSig|
  {
    hide SizeOfFields;
    var f := m.Fields();
    SizeOfNumbers(m.updatedHTLCKeys);
    FirstThree(kinds, f);
    Three(kinds[3..], f[3..]);
  }

  lemma {:induction false} CommitSignatureSmall(kinds: seq<Kind>, m: Message)
    requires m.CommitSignature? && kinds == [U64, U64, U64_LIST, HASH20, AMOUNT, KSignature]
    ensures SmallFields(kinds, m.Fields()) <==> |m.commitSig| <= 73 && |m.updatedHTLCKeys| <= 65535
  {
    var f := m.Fields();
    assert Small(kinds[0], f[0]) && Small(kinds[1], f[1]) && Small(kinds[3], f[3]) && Small(kinds[4], f[4]);
    SmallNumbers(m.updatedHTLCKeys);
    assert f[2] == List(m.updatedHTLCKeys) && kinds[2] == U64_LIST;
    assert Small(kinds[2], f[2]) <==> |m.updatedHTLCKeys| <= 65535;
    assert Small(kinds[5], f[5]) <==> |m.commitSig| <= 73;
    hide Small;
  }

  /** CommitSignature: 47 bytes, 8 for each HTLC key, and the signature, in 8192 bytes. */
  lemma {:induction false} CommitSignatureSent(keys: Keys, m: Message, net: nat)
    requires WellTyped(keys, m) && m.CommitSignature?
    ensures Frame(keys, m, net).Some? <==> |m.commitSig| <= 73 && 47 + 8 * |m.updatedHTLCKeys| + |m.commitSig| <= 8192
  {
    hide Frame, WellTyped, SizeOfFields, SmallFields;
    SentIff(keys, m, net);
    CommitSignatureSize(Schema(2000).value, m);
    CommitSignatureSmall(Schema(2000).value, m);
  }

  /** ErrorGeneric: a problem of up to 8198 bytes is sent, so every valid one is. */
  lemma {:induction false} ErrorGenericSent(keys: Keys, m: Message, net: nat)
    requires WellTyped(keys, m) && m.ErrorGeneric?
    ensures Frame(keys, m, net).Some? <==> |m.problem| <= 8198
  {
    hide Frame, WellTyped;
    SentIff(keys, m, net);
    var kinds := [U64, STRING];
    assert Schema(4000) == Some(kinds) && MaxPayload(4000) == 8208;
    hide Schema, MaxPayload, SizeOfFields;
    Two(kinds, m.Fields());
  }

  /** At most 127 signatures of at most 73 bytes. */
  predicate FewSignatures(sigs: seq<Value>) {
    |sigs| <= 127 && forall i :: 0 <= i < |sigs| ==> sigs[i].Signature? ==> |sigs[i].b| <= 73
  }

  lemma {:induction false} SmallSignatures(sigs: seq<Value>)
    ensures Small(SIG_LIST, List(sigs)) <==> FewSignatures(sigs)
  {
  }

  lemma {:induction false} SmallFixed(n: nat, b: bytes)
    ensures Small(U64, Unsigned(n)) && Small(SHA, Fixed(b))
  {
  }

  /** FundingSignComplete: 41 bytes and the signatures, each behind its length, in 9311 bytes. */
  lemma {:induction false} SignCompleteSent(keys: Keys, m: Message, net: nat)
    requires WellTyped(keys, m) && m.FundingSignComplete?
    ensures Frame(keys, m, net).Some? <==> FewSignatures(m.fundingTXSigs) && 41 + SizeAll(KSignature, m.fundingTXSigs) <= 9311
  {
    hide Frame, WellTyped, SizeAll;
    SentIff(keys, m, net);
    var kinds := [U64, SHA, SIG_LIST];
    assert Schema(230) == Some(kinds) && MaxPayload(230) == 9311;
    hide Schema, MaxPayload, SizeOfFields;
    Three(kinds, m.Fields());
    SmallFixed(m.reservationID, m.txID);
    hide Small;
    assert SmallFields(kinds, m.Fields()) <==> Small(SIG_LIST, List(m.fundingTXSigs));
    SmallSignatures(m.fundingTXSigs);
  }

  /** FundingSignAccept: 10 bytes, the commitment signature and the signatures behind their lengths, in 9352 bytes. */
  lemma {:induction false} SignAcceptSent(keys: Keys, m: Message, net: nat)
    requires WellTyped(keys, m) && m.Plain? && m.cmd == 220
    ensures |m.fields| == 3 && m.fields[1].Signature? && m.fields[2].List?
    ensures Frame(keys, m, net).Some? <==>
      && |m.fields[1].b| <= 73 && FewSignatures(m.fields[2].items)
      && 10 + |m.fields[1].b| + SizeAll(KSignature, m.fields[2].items) <= 9352
  {
    hide Frame, WellTyped, SizeAll;
    SentIff(keys, m, net);
    var kinds := [U64, KSignature, SIG_LIST];
    assert Schema(220) == Some(kinds) && MaxPayload(220) == 9352;
    FieldHasKind(keys, m, 1);
    FieldHasKind(keys, m, 2);
    hide Schema, MaxPayload, SizeOfFields;
    Three(kinds, m.fields);
    SmallSignatures(m.fields[2].items);
  }

  /** CloseRequest and CloseComplete: their caps leave room for a signature of 72 bytes, one less than the writer allows. */
  lemma {:induction false} CloseSent(keys: Keys, m: Message, net: nat)
    requires WellTyped(keys, m) && m.Plain? && (m.cmd == 300 || m.cmd == 310)
    ensures |m.fields| == 3 && m.fields[1].Signature?
    ensures Frame(keys, m, net).Some? <==> |m.fields[1].b| <= 72
  {
    hide Frame, WellTyped;
    SentIff(keys, m, net);
    var kinds, f := if m.cmd == 300 then [U64, KSignature, AMOUNT] else [U64, KSignature, SHA], m.fields;
    assert Schema(m.cmd) == Some(kinds) && MaxPayload(300) == 89 && MaxPayload(310) == 113;
    FieldHasKind(keys, m, 1);
    hide Schema, MaxPayload, SizeOfFields;
    Three(kinds, f);
  }

  /** Two numbers, or two numbers and a hash, are always sent: their caps are their sizes. */
  lemma {:induction false} FixedSizeSent(keys: Keys, m: Message, net: nat)
    requires WellTyped(keys, m) && m.Plain? && m.cmd in {1010, 1020, 1110, 1300, 1310, 2010}
    ensures Frame(keys, m, net).Some?
    ensures SizeOfFields(Schema(m.cmd).value, m.fields) == MaxPayload(m.cmd) == if m.cmd == 2010 then 36 else 16
  {
    hide Frame, WellTyped;
    SentIff(keys, m, net);
    var kinds := if m.cmd == 2010 then [U64, U64, HASH20] else [U64, U64];
    assert Schema(m.cmd) == Some(kinds) && MaxPayload(2010) == 36;
    assert m.cmd != 2010 ==> MaxPayload(m.cmd) == 16;
    hide Schema, MaxPayload, SizeOfFields;
    if m.cmd == 2010 {
      Three(kinds, m.fields);
    } else {
      Two(kinds, m.fields);
    }
  }
}
