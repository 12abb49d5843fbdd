/**
  writeElement and readElement of lnwire/lnwire.go: big-endian, type-directed encoding of single
  values, length-prefixed byte strings and count-prefixed lists.

  Public keys and signatures are represented by their serialisation; parsing them is passed in as
  a `Keys` record.
*/
module WireElements {
  import opened Basics

  // ----- Big-endian numbers -----

  function Pow256(k: nat): (p: nat)
    ensures p >= 1
  {
    if k == 0 then 1 else 0x100 * Pow256(k - 1)
  }

  /** The low k bytes of n, most significant first. */
  function BigEndian(n: nat, k: nat): (b: bytes)
    ensures |b| == k
  {
    if k == 0 then [] else BigEndian(n / 0x100, k - 1) + [n % 0x100]
  }

  function FromBigEndian(b: bytes): (n: nat)
    ensures n < Pow256(|b|)
  {
    if b == [] then 0 else 0x100 * FromBigEndian(b[..|b| - 1]) + b[|b| - 1]
  }

  lemma {:induction false} BigEndianRoundTrip(n: nat, k: nat)
    requires n < Pow256(k)
    ensures FromBigEndian(BigEndian(n, k)) == n
  {
    if k == 0 {
    } else {
      BigEndianRoundTrip(n / 0x100, k - 1);
      assert BigEndian(n, k)[..k - 1] == BigEndian(n / 0x100, k - 1);
    }
  }

  lemma {:induction false} Pow256Values()
    ensures Pow256(1) == 0x100 && Pow256(2) == 0x1_0000 && Pow256(4) == 0x1_0000_0000
    ensures Pow256(8) == 0x1_0000_0000_0000_0000
  {
    assert Pow256(3) == 0x100_0000;
    assert Pow256(6) == 0x1_0000_0000_0000;
  }

  // ----- Values and their types -----

  /** btcec.ParsePubKey and ParseSignature; keys and signatures stand for their serialisations. */
  datatype Keys = Keys(validKey: bytes -> bool, parseSig: bytes -> Option<bytes>)

  datatype Value =
    | Unsigned(n: nat)
    | Signed(i: int)
    | Fixed(b: bytes)
    | PubKey(b: bytes)
    | Signature(b: bytes)
    | Blob(b: bytes)
    | TxIn(hash: bytes, index: nat, script: bytes, sequence: nat)
    | List(items: seq<Value>)

  /** The Go types that the codec switches on. */
  datatype Kind =
    | KUnsigned(width: nat)                       // uint8, uint16, uint32, uint64, HTLCKey, BitcoinNet
    | KSigned(width: nat)                         // CreditsAmount, btcutil.Amount
    | KFixed(size: nat)                           // [20]byte, ShaHash
    | KPubKey
    | KSignature
    | KBlob(width: nat, max: nat)                 // []byte, PkScript, string
    | KTxIn
    | KList(item: Kind, width: nat, limit: Option<nat>)

  const MAX_SEQUENCE := 0xffff_ffff

  ghost predicate HasKind(keys: Keys, v: Value, kind: Kind)
    decreases kind
  {
    match kind
    case KUnsigned(w) => v.Unsigned? && v.n < Pow256(w)
    case KSigned(w) => w > 0 && v.Signed? && 0 - Pow256(w) <= 2 * v.i < Pow256(w)
    case KFixed(size) => v.Fixed? && |v.b| == size
    case KPubKey => v.PubKey? && keys.validKey(v.b)
    case KSignature => v.Signature? && keys.parseSig(v.b) == Some(v.b)
    case KBlob(w, max) => v.Blob? && max < Pow256(w)
    case KTxIn => v.TxIn? && |v.hash| == 32 && v.index < Pow256(4)
    case KList(item, w, limit) =>
      && v.List?
      && (limit.Some? ==> limit.value < Pow256(w))
      && (forall x :: x in v.items ==> HasKind(keys, x, item))
  }

  /** v is built by the constructor that belongs to the kind. */
  predicate Shape(v: Value, kind: Kind) {
    match kind
    case KUnsigned(_) => v.Unsigned?
    case KSigned(_) => v.Signed?
    case KFixed(_) => v.Fixed?
    case KPubKey => v.PubKey?
    case KSignature => v.Signature?
    case KBlob(_, _) => v.Blob?
    case KTxIn => v.TxIn?
    case KList(_, _, _) => v.List?
  }

  /** A value as it can arrive: script and sequence of an input are never sent. */
  function Received(v: Value): Value {
    match v
    case TxIn(hash, index, _, _) => TxIn(hash, index, [], MAX_SEQUENCE)
    case List(items) => List(ReceivedAll(items))
    case _ => v
  }

  function ReceivedAll(vs: seq<Value>): (r: seq<Value>)
    ensures |r| == |vs|
  {
    seq(|vs|, i requires 0 <= i < |vs| => Received(vs[i]))
  }

  // ----- Writing -----

  function TwosComplement(i: int, w: nat): int {
    if i < 0 then i + Pow256(w) else i
  }

  /** writeElement; None is an error. The count of a list without a limit wraps at its width. */
  function Encode(keys: Keys, kind: Kind, v: Value): Option<bytes>
    decreases kind, 1
  {
    match (kind, v)
    case (KUnsigned(w), Unsigned(n)) => Some(BigEndian(n, w))
    case (KSigned(w), Signed(i)) =>
      var n := TwosComplement(i, w);
      if n < 0 then None else Some(BigEndian(n, w))
    case (KFixed(_), Fixed(b)) => Some(b)
    case (KPubKey, PubKey(k)) =>
      if |k| != 33 then None else Some(k)
    case (KSignature, Signature(s)) =>
      if |s| > 73 then None else Some(BigEndian(|s|, 1) + s)
    case (KBlob(w, max), Blob(b)) => if |b| > max then None else Some(BigEndian(|b|, w) + b)
    case (KTxIn, TxIn(hash, index, _, _)) => Some(hash + BigEndian(index, 4))
    case (KList(item, w, limit), List(items)) =>
      if limit.Some? && |items| > limit.value then None
      else
        (match EncodeAll(keys, item, items) case None => None case Some(b) => Some(BigEndian(|items|, w) + b))
    case _ => None
  }

  function EncodeAll(keys: Keys, kind: Kind, vs: seq<Value>): Option<bytes>
    decreases kind, 2, |vs|
  {
    if vs == [] then Some([])
    else
      match (Encode(keys, kind, vs[0]), EncodeAll(keys, kind, vs[1..]))
      case (Some(a), Some(b)) => Some(a + b)
      case _ => None
  }

  // ----- Reading -----

  /** readElement; None is an error. */
  function Decode(keys: Keys, kind: Kind, b: bytes): (r: Option<(Value, bytes)>)
    ensures r.Some? ==> Shape(r.value.0, kind)
    decreases kind, 1
  {
    match kind
    case KUnsigned(w) =>
      if |b| < w then None else Some((Unsigned(FromBigEndian(b[..w])), b[w..]))
    case KSigned(w) =>
      if |b| < w then None
      else
        var n := FromBigEndian(b[..w]);
        Some((Signed(if 2 * n < Pow256(w) then n else n - Pow256(w)), b[w..]))
    case KFixed(size) => if |b| < size then None else Some((Fixed(b[..size]), b[size..]))
    case KPubKey =>
      if |b| < 33 then None
      else if keys.validKey(b[..33]) then Some((PubKey(b[..33]), b[33..])) else None
    case KSignature =>
      if |b| < 1 then None
      else
        var n, rest := FromBigEndian(b[..1]), b[1..];
        if n > 73 || |rest| < n then None
        else (match keys.parseSig(rest[..n]) case None => None case Some(s) => Some((Signature(s), rest[n..])))
    case KBlob(w, max) =>
      if |b| < w then None
      else
        var n, rest := FromBigEndian(b[..w]), b[w..];
        if n > max || |rest| < n then None else Some((Blob(rest[..n]), rest[n..]))
    case KTxIn =>
      if |b| < 36 then None else Some((TxIn(b[..32], FromBigEndian(b[32..36]), [], MAX_SEQUENCE), b[36..]))
    case KList(item, w, limit) =>
      if |b| < w then None
      else
        var n, rest := FromBigEndian(b[..w]), b[w..];
        if limit.Some? && n > limit.value then None
        else (match DecodeCount(keys, item, n, rest) case None => None case Some((vs, rest')) => Some((List(vs), rest')))
  }

  function DecodeCount(keys: Keys, kind: Kind, n: nat, b: bytes): Option<(seq<Value>, bytes)>
    decreases kind, 2, n
  {
    if n == 0 then Some(([], b))
    else
      match Decode(keys, kind, b)
      case None => None
      case Some((v, rest)) =>
        match DecodeCount(keys, kind, n - 1, rest)
        case None => None
        case Some((vs, rest')) => Some(([v] + vs, rest'))
  }

  // ----- Round trip -----

  /** No list in v is so long that its count wraps. */
  ghost predicate CountsFit(kind: Kind, v: Value)
    decreases kind
  {
    kind.KList? && v.List? ==> |v.items| < Pow256(kind.width) && forall x :: x in v.items ==> CountsFit(kind.item, x)
  }

  lemma {:induction false} Prefix(a: bytes, b: bytes)
    ensures (a + b)[..|a|] == a && (a + b)[|a|..] == b
  {
  }

  /** A length prefix followed by that many bytes. */
  lemma {:induction false} PrefixedBytes(b: bytes, w: nat, rest: bytes)
    requires |b| < Pow256(w)
    ensures var all := BigEndian(|b|, w) + b + rest;
      && |all| >= w && FromBigEndian(all[..w]) == |b|
      && |all[w..]| >= |b| && all[w..][..|b|] == b && all[w..][|b|..] == rest
  {
    var p := BigEndian(|b|, w);
    BigEndianRoundTrip(|b|, w);
    assert p + b + rest == p + (b + rest);
    Prefix(p, b + rest);
    Prefix(b, rest);
  }

  lemma {:induction false} DecodeNumber(keys: Keys, kind: Kind, v: Value, rest: bytes)
    requires kind.KUnsigned? || kind.KSigned?
    requires HasKind(keys, v, kind) && Encode(keys, kind, v).Some?
    ensures Decode(keys, kind, Encode(keys, kind, v).value + rest) == Some((v, rest))
  {
    var w, n := kind.width, if kind.KUnsigned? then v.n else TwosComplement(v.i, kind.width);
    BigEndianRoundTrip(n, w);
    Prefix(BigEndian(n, w), rest);
  }

  lemma {:induction false} DecodeBytes(keys: Keys, kind: Kind, v: Value, rest: bytes)
    requires kind.KFixed? || kind.KPubKey?
    requires HasKind(keys, v, kind) && Encode(keys, kind, v).Some?
    ensures Decode(keys, kind, Encode(keys, kind, v).value + rest) == Some((v, rest))
  {
    Prefix(v.b, rest);
  }

  lemma {:induction false} DecodePrefixed(keys: Keys, kind: Kind, v: Value, rest: bytes)
    requires kind.KSignature? || kind.KBlob?
    requires HasKind(keys, v, kind) && Encode(keys, kind, v).Some?
    ensures Decode(keys, kind, Encode(keys, kind, v).value + rest) == Some((v, rest))
  {
    Pow256Values();
    PrefixedBytes(v.b, if kind.KSignature? then 1 else kind.width, rest);
  }

  lemma {:induction false} DecodeTxIn(keys: Keys, v: Value, rest: bytes)
    requires HasKind(keys, v, KTxIn)
    ensures Encode(keys, KTxIn, v).Some?
    ensures Decode(keys, KTxIn, Encode(keys, KTxIn, v).value + rest) == Some((Received(v), rest))
  {
    var index := BigEndian(v.index, 4);
    BigEndianRoundTrip(v.index, 4);
    var all := v.hash + index + rest;
    assert all[..32] == v.hash && all[32..36] == index && all[36..] == rest;
  }

  /** Decoding what was encoded gives the value back and leaves what follows. */
  lemma {:induction false} DecodeEncoded(keys: Keys, kind: Kind, v: Value, rest: bytes)
    requires HasKind(keys, v, kind) && CountsFit(kind, v)
    requires Encode(keys, kind, v).Some?
    ensures Decode(keys, kind, Encode(keys, kind, v).value + rest) == Some((Received(v), rest))
    decreases kind, 1
  {
    assert Shape(v, kind);
    hide Encode, Decode, CountsFit;
    match kind
    case KUnsigned(_) => DecodeNumber(keys, kind, v, rest);
    case KSigned(_) => DecodeNumber(keys, kind, v, rest);
    case KFixed(_) => DecodeBytes(keys, kind, v, rest);
    case KPubKey => DecodeBytes(keys, kind, v, rest);
    case KSignature => DecodePrefixed(keys, kind, v, rest);
    case KBlob(_, _) => DecodePrefixed(keys, kind, v, rest);
    case KTxIn => DecodeTxIn(keys, v, rest);
    case KList(item, w, limit) => DecodeEncodedList(keys, item, w, limit, v.items, rest);
  }

  lemma {:induction false} DecodeEncodedList(keys: Keys, item: Kind, w: nat, limit: Option<nat>, items: seq<Value>, rest: bytes)
    requires HasKind(keys, List(items), KList(item, w, limit)) && CountsFit(KList(item, w, limit), List(items))
    requires Encode(keys, KList(item, w, limit), List(items)).Some?
    ensures Decode(keys, KList(item, w, limit), Encode(keys, KList(item, w, limit), List(items)).value + rest)
         == Some((List(ReceivedAll(items)), rest))
    decreases item, 3
  {
    var p, b := BigEndian(|items|, w), EncodeAll(keys, item, items).value;
    BigEndianRoundTrip(|items|, w);
    assert p + b + rest == p + (b + rest);
    Prefix(p, b + rest);
    DecodeEncodedAll(keys, item, items, rest);
  }

  lemma {:induction false} NoItems(keys: Keys, kind: Kind, rest: bytes)
    ensures EncodeAll(keys, kind, []) == Some([]) && [] + rest == rest
    ensures DecodeCount(keys, kind, 0, rest) == Some((ReceivedAll([]), rest))
  {
  }

  lemma {:induction false} DecodeFirstItem(keys: Keys, kind: Kind, n: nat, b: bytes, v: Value, rest1: bytes, vs: seq<Value>, rest: bytes)
    requires n > 0 && Decode(keys, kind, b) == Some((v, rest1)) && DecodeCount(keys, kind, n - 1, rest1) == Some((vs, rest))
    ensures DecodeCount(keys, kind, n, b) == Some(([v] + vs, rest))
  {
    hide Decode;
  }

  lemma {:induction false} ReceivedFirst(vs: seq<Value>)
    requires vs != []
    ensures ReceivedAll(vs) == [Received(vs[0])] + ReceivedAll(vs[1..])
  {
    hide Received;
  }

  lemma {:induction false} DecodeEncodedAll(keys: Keys, kind: Kind, vs: seq<Value>, rest: bytes)
    requires forall x :: x in vs ==> HasKind(keys, x, kind) && CountsFit(kind, x)
    requires EncodeAll(keys, kind, vs).Some?
    ensures DecodeCount(keys, kind, |vs|, EncodeAll(keys, kind, vs).value + rest) == Some((ReceivedAll(vs), rest))
    decreases kind, 2, |vs|
  {
    hide Encode, Decode, HasKind, CountsFit, Received, ReceivedAll, DecodeCount;
    if vs == [] {
      NoItems(keys, kind, rest);
    } else {
      var a, b := Encode(keys, kind, vs[0]).value, EncodeAll(keys, kind, vs[1..]).value;
      DecodeEncoded(keys, kind, vs[0], b + rest);
      DecodeEncodedAll(keys, kind, vs[1..], rest);
      assert a + b + rest == a + (b + rest);
      DecodeFirstItem(keys, kind, |vs|, a + (b + rest), Received(vs[0]), b + rest, ReceivedAll(vs[1..]), rest);
      ReceivedFirst(vs);
    }
  }
}
