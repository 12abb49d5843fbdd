/**
  lnwire/message.go: framing. A message is a 12-byte header (network, command, payload length)
  followed by its payload; a reader that cannot use a frame skips it and stays in step.
*/
module WireFrames {
  import opened Basics
  import opened WireElements
  import opened WireMessages

  const HEADER_SIZE := 12
  const MAX_MESSAGE_PAYLOAD := 1024 * 1024 * 32

  // ----- Frames as byte strings -----

  function Header(net: nat, command: nat, length: nat): (b: bytes)
    ensures |b| == HEADER_SIZE
  {
    BigEndian(net, 4) + BigEndian(command, 4) + BigEndian(length, 4)
  }

  function Payload(keys: Keys, m: Message): Option<bytes> {
    var kinds := Schema(m.Command());
    if kinds.None? || |kinds.value| != |m.Fields()| then None else EncodeFields(keys, kinds.value, m.Fields())
  }

  /** The bytes WriteMessage sends; None when it refuses. */
  function Frame(keys: Keys, m: Message, net: nat): Option<bytes> {
    match Payload(keys, m)
    case None => None
    case Some(p) =>
      if |p| > MAX_MESSAGE_PAYLOAD || |p| > MaxPayload(m.Command()) then None
      else Some(Header(net, m.Command(), |p|) + p)
  }

  datatype ReadError = ShortHeader | TooLarge | OtherNetwork | UnhandledCommand | OverCap | ShortPayload | BadPayload | Invalid

  datatype Outcome = Accepted(m: Message, payload: bytes) | Refused(error: ReadError)

  /** What a whole payload of a known command turns into. */
  function Unmarshal(keys: Keys, command: nat, payload: bytes): Outcome
    requires Schema(command).Some?
  {
    match DecodeFields(keys, Schema(command).value, payload)
    case None => Refused(BadPayload)
    case Some((vs, _)) =>
      var m := Assemble(command, vs);
      if Validate(m) then Accepted(m, payload) else Refused(Invalid)
  }

  /**
    One ReadMessage: `consumed` is how far the stream moves, `total` the byte count returned, which
    leaves out skipped payloads.
  */
  datatype ReadResult = ReadResult(outcome: Outcome, consumed: nat, total: nat)

  function Min(a: nat, b: nat): nat {
    if a < b then a else b
  }

  function ReadOne(keys: Keys, net: nat, b: bytes): (r: ReadResult)
    ensures r.consumed <= |b|
    ensures b != [] ==> r.consumed > 0
  {
    if |b| < HEADER_SIZE then ReadResult(Refused(ShortHeader), |b|, |b|)
    else
      var magic, command, length := FromBigEndian(b[..4]), FromBigEndian(b[4..8]), FromBigEndian(b[8..12]);
      var skipped := HEADER_SIZE + Min(length, |b| - HEADER_SIZE);
      if length > MAX_MESSAGE_PAYLOAD then ReadResult(Refused(TooLarge), HEADER_SIZE, HEADER_SIZE)
      else if magic != net then ReadResult(Refused(OtherNetwork), skipped, HEADER_SIZE)
      else if Schema(command).None? then ReadResult(Refused(UnhandledCommand), skipped, HEADER_SIZE)
      else if length > MaxPayload(command) then ReadResult(Refused(OverCap), skipped, HEADER_SIZE)
      else if |b| < HEADER_SIZE + length then ReadResult(Refused(ShortPayload), |b|, |b|)
      else ReadResult(Unmarshal(keys, command, b[HEADER_SIZE..HEADER_SIZE + length]), HEADER_SIZE + length, HEADER_SIZE + length)
  }

  /** Reading until the stream is empty. */
  function ReadAll(keys: Keys, net: nat, b: bytes): seq<Outcome>
    decreases |b|
  {
    if b == [] then []
    else
      var r := ReadOne(keys, net, b);
      [r.outcome] + ReadAll(keys, net, b[r.consumed..])
  }

  // ----- Staying in step -----

  /** A header, a payload of the announced length, and whatever follows. */
  lemma {:induction false} SplitFrame(net: nat, command: nat, payload: bytes, rest: bytes)
    requires net < Pow256(4) && command < Pow256(4) && |payload| < Pow256(4)
    ensures var b := Header(net, command, |payload|) + payload + rest;
      && |b| == HEADER_SIZE + |payload| + |rest|
      && FromBigEndian(b[..4]) == net && FromBigEndian(b[4..8]) == command && FromBigEndian(b[8..12]) == |payload|
      && b[HEADER_SIZE..HEADER_SIZE + |payload|] == payload && b[HEADER_SIZE + |payload|..] == rest
  {
    var b := Header(net, command, |payload|) + payload + rest;
    BigEndianRoundTrip(net, 4);
    BigEndianRoundTrip(command, 4);
    BigEndianRoundTrip(|payload|, 4);
    assert b[..4] == BigEndian(net, 4);
    assert b[4..8] == BigEndian(command, 4);
    assert b[8..12] == BigEndian(|payload|, 4);
  }

  /** What ReadMessage makes of a complete frame, independent of what follows it. */
  function FrameOutcome(keys: Keys, net: nat, magic: nat, command: nat, payload: bytes): Outcome {
    if |payload| > MAX_MESSAGE_PAYLOAD then Refused(TooLarge)
    else if magic != net then Refused(OtherNetwork)
    else if Schema(command).None? then Refused(UnhandledCommand)
    else if |payload| > MaxPayload(command) then Refused(OverCap)
    else Unmarshal(keys, command, payload)
  }

  lemma {:induction false} CapBelow64K(command: nat)
    ensures MaxPayload(command) < 10000
  {
  }

  /**
    Whether a complete frame is accepted or refused, and for whatever reason, the stream moves by
    exactly the frame - except that a frame announcing more than 32 MB moves it by the header only.
  */
  lemma {:induction false} ReadStaysInStep(keys: Keys, net: nat, magic: nat, command: nat, payload: bytes, rest: bytes)
    requires magic < Pow256(4) && command < Pow256(4) && |payload| < Pow256(4)
    ensures var r := ReadOne(keys, net, Header(magic, command, |payload|) + payload + rest);
      && r.outcome == FrameOutcome(keys, net, magic, command, payload)
      && (r.consumed == 12 + |payload| <==> |payload| <= 33_554_432)
      && (|payload| > 33_554_432 ==> r.consumed == 12)
      && (r.total == if magic == net && Schema(command).Some? && |payload| <= MaxPayload(command) then 12 + |payload| else 12)
  {
    hide Header, FromBigEndian, Unmarshal, Schema, MaxPayload;
    CapBelow64K(command);
    SplitFrame(magic, command, payload, rest);
  }

  /** So the frames behind a bad one are read as if it were absent. */
  lemma {:induction false} BadFrameIsSkipped(keys: Keys, net: nat, magic: nat, command: nat, payload: bytes, rest: bytes)
    requires magic < Pow256(4) && command < Pow256(4) && |payload| <= MAX_MESSAGE_PAYLOAD
    ensures ReadAll(keys, net, Header(magic, command, |payload|) + payload + rest)
         == [FrameOutcome(keys, net, magic, command, payload)] + ReadAll(keys, net, rest)
  {
    Pow256Values();
    hide ReadOne, FrameOutcome;
    ReadStaysInStep(keys, net, magic, command, payload, rest);
    SplitFrame(magic, command, payload, rest);
  }

  // ----- Round trip -----

  lemma {:induction false} EncodeListSize(keys: Keys, kind: Kind, vs: seq<Value>, n: nat)
    requires EncodeAll(keys, kind, vs).Some?
    requires forall x :: x in vs ==> Encode(keys, kind, x).Some? && |Encode(keys, kind, x).value| == n
    ensures |EncodeAll(keys, kind, vs).value| == n * |vs|
  {
    hide Encode;
    if vs == [] {
    } else {
      EncodeListSize(keys, kind, vs[1..], n);
      assert n * |vs| == n + n * |vs[1..]|;
    }
  }

  lemma {:induction false} FieldSize(keys: Keys, kinds: seq<Kind>, vs: seq<Value>, i: nat)
    requires |kinds| == |vs| && i < |vs| && EncodeFields(keys, kinds, vs).Some?
    ensures Encode(keys, kinds[i], vs[i]).Some?
    ensures |Encode(keys, kinds[i], vs[i]).value| <= |EncodeFields(keys, kinds, vs).value|
  {
    hide Encode;
    if i == 0 {
    } else {
      FieldSize(keys, kinds[1..], vs[1..], i - 1);
    }
  }

  /** A list of 20-byte hashes that is written whole takes twenty bytes for each. */
  lemma {:induction false} HashListSize(keys: Keys, items: seq<Value>)
    requires HasKind(keys, List(items), HASH20_LIST) && Encode(keys, HASH20_LIST, List(items)).Some?
    ensures |Encode(keys, HASH20_LIST, List(items)).value| == 2 + 20 * |items|
  {
    EncodeListSize(keys, HASH20, items, 20);
  }

  /**
    Only lists of hashes go unchecked, and their uint16 count would wrap at 65536 entries. No
    message that WriteMessage accepts holds such a list: the payload cap is far below.
  */
  lemma {:induction false} AcceptedCountsFit(keys: Keys, m: Message, i: nat)
    requires WellTyped(keys, m) && i < |m.Fields()| && Payload(keys, m).Some?
    requires |Payload(keys, m).value| <= MaxPayload(m.Command())
    ensures CountsFit(Schema(m.Command()).value[i], m.Fields()[i])
  {
    var kind, v := Schema(m.Command()).value[i], m.Fields()[i];
    FieldSize(keys, Schema(m.Command()).value, m.Fields(), i);
    assert HasKind(keys, v, kind);
    Pow256Values();
    CapBelow64K(m.Command());
    if kind == HASH20_LIST {
      HashListSize(keys, v.items);
    } else {
      OtherKindsAreLimited(m.Command(), i);
    }
  }

  lemma {:induction false} OtherKindsAreLimited(command: nat, i: nat)
    requires Schema(command).Some? && i < |Schema(command).value| && Schema(command).value[i] != HASH20_LIST
    ensures var kind := Schema(command).value[i]; kind.KList? ==> kind.limit.Some? && !kind.item.KList?
  {
  }

  /** Reading a written and valid message gives it back, up to the fields that are never sent. */
  lemma {:induction false} ReadWritten(keys: Keys, m: Message, net: nat, rest: bytes)
    requires WellTyped(keys, m) && Validate(m) && net < Pow256(4) && Frame(keys, m, net).Some?
    ensures ReadOne(keys, net, Frame(keys, m, net).value + rest)
         == ReadResult(Accepted(m.Arrived(), Payload(keys, m).value), |Frame(keys, m, net).value|, |Frame(keys, m, net).value|)
  {
    var command, payload := m.Command(), Payload(keys, m).value;
    UnmarshalPayload(keys, m);
    Pow256Values();
    CommandFits(command);
    ReadComplete(keys, net, command, payload, rest);
  }

  lemma {:induction false} ReadComplete(keys: Keys, net: nat, command: nat, payload: bytes, rest: bytes)
    requires net < Pow256(4) && command < Pow256(4) && |payload| < Pow256(4)
    requires Schema(command).Some? && |payload| <= MaxPayload(command) && |payload| <= MAX_MESSAGE_PAYLOAD
    ensures ReadOne(keys, net, Header(net, command, |payload|) + payload + rest)
         == ReadResult(Unmarshal(keys, command, payload), HEADER_SIZE + |payload|, HEADER_SIZE + |payload|)
  {
    hide Header, FromBigEndian, Unmarshal, Schema, MaxPayload;
    SplitFrame(net, command, payload, rest);
  }

  lemma {:induction false} CommandFits(command: nat)
    requires Schema(command).Some?
    ensures command <= 4000
  {
  }

  lemma {:induction false} UnmarshalPayload(keys: Keys, m: Message)
    requires WellTyped(keys, m) && Validate(m) && Payload(keys, m).Some?
    requires |Payload(keys, m).value| <= MaxPayload(m.Command())
    ensures Unmarshal(keys, m.Command(), Payload(keys, m).value) == Accepted(m.Arrived(), Payload(keys, m).value)
  {
    var kinds, vs, p := Schema(m.Command()).value, m.Fields(), Payload(keys, m).value;
    assert AllCountsFit(kinds, vs) by {
      forall i | 0 <= i < |kinds|
        ensures CountsFit(kinds[i], vs[i])
      {
        AcceptedCountsFit(keys, m, i);
      }
    }
    hide Schema, Validate, CountsFit, EncodeFields, DecodeFields;
    DecodeEncodedFields(keys, kinds, vs, []);
    assert p + [] == p;
    AssembleArrived(keys, m);
    ArrivedIsValid(keys, m);
  }

  function FrameAll(keys: Keys, ms: seq<Message>, net: nat): Option<bytes> {
    if ms == [] then Some([])
    else
      match (Frame(keys, ms[0], net), FrameAll(keys, ms[1..], net))
      case (Some(a), Some(b)) => Some(a + b)
      case _ => None
  }

  /** The messages of a stream of outcomes, if all were accepted. */
  function Messages(outcomes: seq<Outcome>): Option<seq<Message>> {
    if outcomes == [] then Some([])
    else
      match (outcomes[0], Messages(outcomes[1..]))
      case (Accepted(m, _), Some(ms)) => Some([m] + ms)
      case _ => None
  }

  function ArrivedAll(ms: seq<Message>): seq<Message> {
    if ms == [] then [] else [ms[0].Arrived()] + ArrivedAll(ms[1..])
  }

  /** Round trip of a whole conversation: every accepted message arrives, in order, and nothing else does. */
  lemma {:induction false} ConversationRoundTrip(keys: Keys, ms: seq<Message>, net: nat)
    requires net < Pow256(4) && FrameAll(keys, ms, net).Some?
    requires forall m :: m in ms ==> WellTyped(keys, m) && Validate(m)
    ensures Messages(ReadAll(keys, net, FrameAll(keys, ms, net).value)) == Some(ArrivedAll(ms))
  {
    hide Frame, ReadOne, WellTyped, Validate;
    if ms == [] {
    } else {
      var a, b := Frame(keys, ms[0], net).value, FrameAll(keys, ms[1..], net).value;
      ReadWritten(keys, ms[0], net, b);
      FrameNotEmpty(keys, ms[0], net);
      ConversationRoundTrip(keys, ms[1..], net);
      Prefix(a, b);
      var r := ReadOne(keys, net, a + b);
      assert ReadAll(keys, net, a + b) == [r.outcome] + ReadAll(keys, net, b);
      assert ([r.outcome] + ReadAll(keys, net, b))[1..] == ReadAll(keys, net, b);
    }
  }

  lemma {:induction false} FrameNotEmpty(keys: Keys, m: Message, net: nat)
    requires Frame(keys, m, net).Some?
    ensures |Frame(keys, m, net).value| >= HEADER_SIZE
  {
    hide Payload, MaxPayload;
  }

  // ----- Size arithmetic -----

  /** Bytes taken by fields i, i+1, ... */
  ghost function SizeFrom(keys: Keys, kinds: seq<Kind>, vs: seq<Value>, i: nat): nat
    requires |kinds| == |vs| && i <= |vs|
    decreases |vs| - i
  {
    if i == |vs| then 0
    else (var e := Encode(keys, kinds[i], vs[i]); if e.Some? then |e.value| else 0) + SizeFrom(keys, kinds, vs, i + 1)
  }

  lemma {:induction false} FieldsSize(keys: Keys, kinds: seq<Kind>, vs: seq<Value>, i: nat)
    requires |kinds| == |vs| && i <= |vs|
    requires forall j :: i <= j < |vs| ==> Encode(keys, kinds[j], vs[j]).Some?
    ensures EncodeFields(keys, kinds[i..], vs[i..]).Some?
    ensures |EncodeFields(keys, kinds[i..], vs[i..]).value| == SizeFrom(keys, kinds, vs, i)
    decreases |vs| - i
  {
    hide Encode;
    if i == |vs| {
    } else {
      FieldsSize(keys, kinds, vs, i + 1);
      assert kinds[i..][1..] == kinds[i + 1..] && vs[i..][1..] == vs[i + 1..];
    }
  }

  lemma {:induction false} InputsSize(keys: Keys, items: seq<Value>)
    requires HasKind(keys, List(items), TXIN_LIST) && |items| <= 127
    ensures Encode(keys, TXIN_LIST, List(items)).Some?
    ensures |Encode(keys, TXIN_LIST, List(items)).value| == 1 + 36 * |items|
  {
    InputsEncode(keys, items);
    EncodeListSize(keys, KTxIn, items, 36);
  }

  lemma {:induction false} InputsEncode(keys: Keys, items: seq<Value>)
    requires forall x :: x in items ==> HasKind(keys, x, KTxIn)
    ensures EncodeAll(keys, KTxIn, items).Some?
  {
    if items == [] {
    } else {
      assert HasKind(keys, items[0], KTxIn);
      InputsEncode(keys, items[1..]);
    }
  }

  /** The encoded size of a single field, where it does not depend on a key or signature. */
  ghost function Width(kind: Kind, v: Value): nat
    requires Shape(v, kind) && (kind.KList? ==> kind == TXIN_LIST)
  {
    match kind
    case KUnsigned(w) => w
    case KSigned(w) => w
    case KFixed(size) => size
    case KBlob(w, _) => w + |v.b|
    case KPubKey => 33
    case KTxIn => 36
    case KSignature => 1 + |v.b|
    case KList(_, w, _) => w + 36 * |v.items|
  }

  ghost predicate WithinLimits(kind: Kind, v: Value)
    requires Shape(v, kind)
  {
    match kind
    case KPubKey => |v.b| == 33
    case KBlob(_, max) => |v.b| <= max
    case KSignature => |v.b| <= 73
    case KList(_, _, _) => kind == TXIN_LIST && |v.items| <= 127
    case _ => true
  }

  lemma {:induction false} EncodedWidth(keys: Keys, kind: Kind, v: Value)
    requires HasKind(keys, v, kind) && Shape(v, kind) && WithinLimits(kind, v)
    ensures Encode(keys, kind, v).Some? && |Encode(keys, kind, v).value| == Width(kind, v)
  {
    if kind.KList? {
      InputsSize(keys, v.items);
    }
  }

  /** Every field of a valid funding request can be encoded. */
  lemma {:induction false} FundingRequestFields(keys: Keys, m: Message)
    requires m.FundingRequest? && WellTyped(keys, m) && Validate(m) && |m.pubkey| == 33
    ensures var kinds, vs := Schema(FUNDING_REQUEST).value, m.Fields();
      && Shapes(vs, kinds)
      && forall j :: 0 <= j < 15 ==>
           Encode(keys, kinds[j], vs[j]).Some? && |Encode(keys, kinds[j], vs[j]).value| == Width(kinds[j], vs[j])
  {
    hide Encode, HasKind;
    var kinds, vs := Schema(FUNDING_REQUEST).value, m.Fields();
    assert Shapes(vs, kinds);
    forall j | 0 <= j < 15
      ensures Encode(keys, kinds[j], vs[j]).Some? && |Encode(keys, kinds[j], vs[j]).value| == Width(kinds[j], vs[j])
    {
      assert WithinLimits(kinds[j], vs[j]);
      EncodedWidth(keys, kinds[j], vs[j]);
    }
  }

  /** The encoded size of a valid funding request. */
  lemma {:induction false} FundingRequestSize(keys: Keys, m: Message)
    requires m.FundingRequest? && WellTyped(keys, m) && Validate(m) && |m.pubkey| == 33
    ensures Payload(keys, m).Some?
    ensures |Payload(keys, m).value| == 114 + |m.deliveryPkScript| + |m.changePkScript| + 36 * |m.inputs|
  {
    var kinds, vs := Schema(FUNDING_REQUEST).value, m.Fields();
    FundingRequestFields(keys, m);
    FieldsSize(keys, kinds, vs, 0);
    assert kinds[0..] == kinds && vs[0..] == vs;
    FundingRequestWidths(keys, m);
  }

  lemma {:induction false} FundingRequestWidths(keys: Keys, m: Message)
    requires m.FundingRequest?
    requires var kinds, vs := Schema(FUNDING_REQUEST).value, m.Fields();
      && Shapes(vs, kinds)
      && forall j :: 0 <= j < 15 ==>
           Encode(keys, kinds[j], vs[j]).Some? && |Encode(keys, kinds[j], vs[j]).value| == Width(kinds[j], vs[j])
    ensures SizeFrom(keys, Schema(FUNDING_REQUEST).value, m.Fields(), 0)
         == 114 + |m.deliveryPkScript| + |m.changePkScript| + 36 * |m.inputs|
  {
    hide Encode, Shapes;
    var kinds, vs := Schema(FUNDING_REQUEST).value, m.Fields();
    assert SizeFrom(keys, kinds, vs, 14) == 1 + 36 * |m.inputs|;
    assert SizeFrom(keys, kinds, vs, 12) == SizeFrom(keys, kinds, vs, 14) + 2 + |m.deliveryPkScript| + |m.changePkScript|;
    assert SizeFrom(keys, kinds, vs, 10) == SizeFrom(keys, kinds, vs, 12) + 5;
    assert SizeFrom(keys, kinds, vs, 8) == SizeFrom(keys, kinds, vs, 10) + 12;
    assert SizeFrom(keys, kinds, vs, 6) == SizeFrom(keys, kinds, vs, 8) + 16;
    assert SizeFrom(keys, kinds, vs, 4) == SizeFrom(keys, kinds, vs, 6) + 53;
    assert SizeFrom(keys, kinds, vs, 2) == SizeFrom(keys, kinds, vs, 4) + 16;
  }

  /** The cap of 4735 is one byte too small for the largest valid funding request, and refuses only that. */
  lemma {:induction false} LargestFundingRequestRefused(keys: Keys, m: Message, net: nat)
    requires m.FundingRequest? && WellTyped(keys, m) && Validate(m) && |m.pubkey| == 33
    ensures Frame(keys, m, net).None?
      <==> |m.inputs| == 127 && |m.deliveryPkScript| == 25 && |m.changePkScript| == 25
  {
    FundingRequestSize(keys, m);
    hide Payload;
  }

  // ----- Streams -----

  /** What is left after reading n bytes, or all there are. */
  function Dropped(b: bytes, n: nat): bytes {
    b[Min(n, |b|)..]
  }

  lemma {:induction false} DroppedTwice(b: bytes, n: nat, k: nat)
    ensures Dropped(Dropped(b, n), k) == Dropped(b, n + k)
  {
    if n + k <= |b| {
      assert b[n..][k..] == b[n + k..];
    }
  }

  class Stream {
    var data: bytes

    constructor ()
      ensures data == []
    {
      data := [];
    }

    method Write(b: bytes)
      modifies this
      ensures data == old(data) + b
    {
      data := data + b;
    }

    /** io.ReadFull: takes n bytes, or what there is and an error. */
    method ReadFull(n: nat) returns (b: bytes, ok: bool)
      modifies this
      ensures ok <==> n <= |old(data)|
      ensures b == old(data)[..Min(n, |old(data)|)]
      ensures data == Dropped(old(data), n)
    {
      var k := Min(n, |data|);
      b, ok := data[..k], n <= |data|;
      data := data[k..];
    }
  }

  /** discardInput: reads in chunks of 10k and drops what it reads. */
  method DiscardInput(r: Stream, n: nat)
    modifies r
    ensures r.data == Dropped(old(r.data), n)
  {
    var numReads, bytesRemaining := n / 10240, n % 10240;
    ghost var all, done: nat := r.data, 0;
    assert Dropped(all, 0) == all;
    hide Dropped;
    var b, ok;
    var i := 0;
    while i < numReads
      invariant i <= numReads
      invariant done == 10240 * i
      invariant r.data == Dropped(all, done)
    {
      DroppedTwice(all, done, 10240);
      b, ok := r.ReadFull(10240);
      done := done + 10240;
      i := i + 1;
    }
    if bytesRemaining > 0 {
      DroppedTwice(all, done, bytesRemaining);
      b, ok := r.ReadFull(bytesRemaining);
    }
  }

  /** writeElements: one element after the other, until one fails. */
  method WriteElements(keys: Keys, w: Stream, kinds: seq<Kind>, vs: seq<Value>) returns (ok: bool)
    requires |kinds| == |vs|
    modifies w
    ensures ok <==> EncodeFields(keys, kinds, vs).Some?
    ensures ok ==> w.data == old(w.data) + EncodeFields(keys, kinds, vs).value
  {
    hide Encode;
    ghost var done: bytes := [];
    var i := 0;
    assert kinds[0..] == kinds && vs[0..] == vs;
    assert EncodeFields(keys, kinds, vs).Some? ==> [] + EncodeFields(keys, kinds, vs).value == EncodeFields(keys, kinds, vs).value;
    while i < |vs|
      invariant i <= |vs|
      invariant w.data == old(w.data) + done
      invariant EncodeFields(keys, kinds, vs)
             == match EncodeFields(keys, kinds[i..], vs[i..]) case None => None case Some(b) => Some(done + b)
    {
      assert kinds[i..][1..] == kinds[i + 1..] && vs[i..][1..] == vs[i + 1..];
      var e := Encode(keys, kinds[i], vs[i]);
      if e.None? {
        return false;
      }
      w.Write(e.value);
      ghost var rest := EncodeFields(keys, kinds[i + 1..], vs[i + 1..]);
      assert rest.Some? ==> done + (e.value + rest.value) == done + e.value + rest.value;
      assert old(w.data) + done + e.value == old(w.data) + (done + e.value);
      done := done + e.value;
      i := i + 1;
    }
    assert done + [] == done;
    ok := true;
  }

  /** readElements: one element after the other, until one fails. */
  method ReadElements(keys: Keys, b: bytes, kinds: seq<Kind>) returns (r: Option<seq<Value>>)
    ensures r.Some? <==> DecodeFields(keys, kinds, b).Some?
    ensures r.Some? ==> r.value == DecodeFields(keys, kinds, b).value.0
  {
    hide Decode;
    var vs: seq<Value>, rest := [], b;
    var i := 0;
    assert kinds[0..] == kinds;
    var all := DecodeFields(keys, kinds, b);
    assert all.Some? ==> [] + all.value.0 == all.value.0;
    while i < |kinds|
      invariant i <= |kinds|
      invariant all == match DecodeFields(keys, kinds[i..], rest) case None => None case Some((ws, end)) => Some((vs + ws, end))
    {
      assert kinds[i..][1..] == kinds[i + 1..];
      var d := Decode(keys, kinds[i], rest);
      if d.None? {
        return None;
      }
      ghost var more := DecodeFields(keys, kinds[i + 1..], d.value.1);
      assert more.Some? ==> vs + ([d.value.0] + more.value.0) == vs + [d.value.0] + more.value.0;
      vs, rest := vs + [d.value.0], d.value.1;
      i := i + 1;
    }
    assert vs + [] == vs;
    r := Some(vs);
  }

  /** WriteMessage: all of a message's frame, or nothing. */
  method WriteMessage(keys: Keys, w: Stream, m: Message, net: nat) returns (n: nat, ok: bool)
    requires Schema(m.Command()).Some? && |Schema(m.Command()).value| == |m.Fields()|
    modifies w
    ensures ok <==> Frame(keys, m, net).Some?
    ensures w.data == if ok then old(w.data) + Frame(keys, m, net).value else old(w.data)
    ensures n == if ok then |Frame(keys, m, net).value| else 0
  {
    hide EncodeFields, Schema, MaxPayload, Header;
    var bw := new Stream();
    var encoded := WriteElements(keys, bw, Schema(m.Command()).value, m.Fields());
    if !encoded {
      return 0, false;
    }
    var payload := bw.data;
    if |payload| > MAX_MESSAGE_PAYLOAD {
      return 0, false;
    }
    if |payload| > MaxPayload(m.Command()) {
      return 0, false;
    }
    w.Write(Header(net, m.Command(), |payload|));
    w.Write(payload);
    n, ok := HEADER_SIZE + |payload|, true;
  }

  /** ReadMessage: refused frames are skipped in chunks or read and dropped. */
  method ReadMessage(keys: Keys, r: Stream, net: nat) returns (total: nat, out: Outcome)
    modifies r
    ensures out == ReadOne(keys, net, old(r.data)).outcome
    ensures total == ReadOne(keys, net, old(r.data)).total
    ensures r.data == old(r.data)[ReadOne(keys, net, old(r.data)).consumed..]
  {
    hide DecodeFields, Schema, MaxPayload, FromBigEndian, Assemble, Validate;
    ghost var all := r.data;
    var header, ok := r.ReadFull(HEADER_SIZE);
    if !ok {
      return |header|, Refused(ShortHeader);
    }
    assert header[..4] == all[..4] && header[4..8] == all[4..8] && header[8..12] == all[8..12];
    var magic, command, length := FromBigEndian(header[..4]), FromBigEndian(header[4..8]), FromBigEndian(header[8..12]);
    total := HEADER_SIZE;
    if length > MAX_MESSAGE_PAYLOAD {
      return total, Refused(TooLarge);
    }
    if magic != net {
      DiscardInput(r, length);
      return total, Refused(OtherNetwork);
    }
    var kinds := Schema(command);
    if kinds.None? {
      DiscardInput(r, length);
      return total, Refused(UnhandledCommand);
    }
    if length > MaxPayload(command) {
      DiscardInput(r, length);
      return total, Refused(OverCap);
    }
    var payload;
    payload, ok := r.ReadFull(length);
    total := total + |payload|;
    if !ok {
      return total, Refused(ShortPayload);
    }
    assert payload == all[HEADER_SIZE..HEADER_SIZE + length];
    var values := ReadElements(keys, payload, kinds.value);
    if values.None? {
      return total, Refused(BadPayload);
    }
    var m := Assemble(command, values.value);
    out := if Validate(m) then Accepted(m, payload) else Refused(Invalid);
  }
}
