/**
  uspv/header.go and IngestHeaders of uspv/eight333.go: the block header file. Headers are appended
  to a file of 80-byte records, checked in place through its read cursor, and cut back when a
  message does not fit.
*/
module HeaderFile {
  import opened Basics
  import opened WireElements

  const RECORD := 80
  const EPOCH_LENGTH := 2016

  type int32 = i: int | -0x8000_0000 <= i < 0x8000_0000

  /** A block hash, represented by its number. */
  type Sha = n: nat | n < Pow256(32)

  datatype BlockHeader = BlockHeader(version: int32, prevBlock: Sha, merkleRoot: Sha, timestamp: uint32, bits: uint32, nonce: uint32)

  /** Chain parameters and the library calls. */
  datatype Params = Params(powLimit: int, powLimitBits: uint32, resetMinDifficulty: bool,
                           compactToBig: uint32 -> int, blockSha: BlockHeader -> Sha)

  // ----- Records of 80 bytes -----

  /** The low k bytes of n, least significant first. */
  function LowBytes(n: nat, k: nat): (b: bytes)
    ensures |b| == k
  {
    if k == 0 then [] else [n % 0x100] + LowBytes(n / 0x100, k - 1)
  }

  lemma {:induction false} LowBytesRoundTrip(n: nat, k: nat)
    requires n < Pow256(k)
    ensures FromLittleEndian(LowBytes(n, k)) == n
  {
    if k == 0 {
    } else {
      LowBytesRoundTrip(n / 0x100, k - 1);
    }
  }

  lemma {:induction false} LittleEndianBound(b: bytes)
    ensures FromLittleEndian(b) < Pow256(|b|)
  {
    if b == [] {
    } else {
      LittleEndianBound(b[1..]);
    }
  }

  function ReadUint32(b: bytes): uint32
    requires |b| == 4
  {
    LittleEndianBound(b);
    Pow256Values();
    FromLittleEndian(b)
  }

  function ReadSha(b: bytes): Sha
    requires |b| == 32
  {
    LittleEndianBound(b);
    FromLittleEndian(b)
  }

  /** An int32 as the uint32 with the same bytes, and back. */
  function ToUint32(i: int32): uint32 {
    if i < 0 then i + 0x1_0000_0000 else i
  }

  function ToInt32(n: uint32): int32 {
    if n < 0x8000_0000 then n else n - 0x1_0000_0000
  }

  /** BlockHeader.Serialize: version, both hashes, time, difficulty bits and nonce. */
  function Serialize(h: BlockHeader): (b: bytes)
    ensures |b| == RECORD
  {
    LowBytes(ToUint32(h.version), 4) + LowBytes(h.prevBlock, 32) + LowBytes(h.merkleRoot, 32)
    + LowBytes(h.timestamp, 4) + LowBytes(h.bits, 4) + LowBytes(h.nonce, 4)
  }

  /** BlockHeader.Deserialize: every 80 bytes are a header. */
  function Deserialize(b: bytes): BlockHeader
    requires |b| == RECORD
  {
    BlockHeader(ToInt32(ReadUint32(b[..4])), ReadSha(b[4..36]), ReadSha(b[36..68]),
                ReadUint32(b[68..72]), ReadUint32(b[72..76]), ReadUint32(b[76..80]))
  }

  lemma {:induction false} ReadSerialized(h: BlockHeader)
    ensures ToInt32(ReadUint32(LowBytes(ToUint32(h.version), 4))) == h.version
    ensures ReadSha(LowBytes(h.prevBlock, 32)) == h.prevBlock && ReadSha(LowBytes(h.merkleRoot, 32)) == h.merkleRoot
    ensures ReadUint32(LowBytes(h.timestamp, 4)) == h.timestamp && ReadUint32(LowBytes(h.bits, 4)) == h.bits
    ensures ReadUint32(LowBytes(h.nonce, 4)) == h.nonce
  {
    hide LowBytes, FromLittleEndian, Pow256;
    Pow256Values();
    LowBytesRoundTrip(ToUint32(h.version), 4);
    LowBytesRoundTrip(h.prevBlock, 32);
    LowBytesRoundTrip(h.merkleRoot, 32);
    LowBytesRoundTrip(h.timestamp, 4);
    LowBytesRoundTrip(h.bits, 4);
    LowBytesRoundTrip(h.nonce, 4);
  }

  lemma {:induction false} DeserializeSerialized(h: BlockHeader)
    ensures Deserialize(Serialize(h)) == h
  {
    hide LowBytes, ReadUint32, ReadSha, ToInt32, ToUint32;
    ReadSerialized(h);
    var b := Serialize(h);
    assert b[..4] == LowBytes(ToUint32(h.version), 4);
    assert b[4..36] == LowBytes(h.prevBlock, 32);
    assert b[36..68] == LowBytes(h.merkleRoot, 32);
    assert b[68..72] == LowBytes(h.timestamp, 4);
    assert b[72..76] == LowBytes(h.bits, 4);
    assert b[76..80] == LowBytes(h.nonce, 4);
  }

  /** The layout of a record: 80 bytes, numbers with their lowest byte first. */
  lemma {:induction false} RecordLayout(h: BlockHeader)
    ensures var b := Serialize(h);
      && |b| == 80
      && (h.version >= 0 ==> b[0] == h.version % 0x100)
      && b[4] == h.prevBlock % 0x100 && b[36] == h.merkleRoot % 0x100
      && b[68] == h.timestamp % 0x100 && b[72] == h.bits % 0x100 && b[76] == h.nonce % 0x100
      && b[75] == h.bits / 0x100 / 0x100 / 0x100
  {
    assert LowBytes(h.bits, 4)[3] == LowBytes(h.bits / 0x100, 3)[2] == LowBytes(h.bits / 0x100 / 0x100, 2)[1]
        == LowBytes(h.bits / 0x100 / 0x100 / 0x100, 1)[0];
    assert Serialize(h)[75] == LowBytes(h.bits, 4)[3];
  }

  // ----- What a header must satisfy -----

  predicate ProofOfWork(p: Params, h: BlockHeader) {
    var target := p.compactToBig(h.bits);
    0 < target <= p.powLimit && p.blockSha(h) <= target
  }

  /** The difficulty bits expected at a height inside an epoch. */
  function ExpectedBits(p: Params, epochStart: BlockHeader, prev: BlockHeader, cur: BlockHeader): uint32 {
    if p.resetMinDifficulty && cur.timestamp > prev.timestamp + 1200 then p.powLimitBits else epochStart.bits
  }

  /** At height i of the chain: linked to the header before, right difficulty, proof of work. */
  predicate HeaderOk(p: Params, chain: seq<BlockHeader>, i: nat)
    requires i < |chain|
  {
    i == 0 ||
    (&& chain[i].prevBlock == p.blockSha(chain[i - 1])
     && (i % EPOCH_LENGTH != 0 ==> chain[i].bits == ExpectedBits(p, chain[i - i % EPOCH_LENGTH], chain[i - 1], chain[i]))
     && ProofOfWork(p, chain[i]))
  }

  /** A height the chain holds, with a header that checks; height 0 is never looked at. */
  predicate StoredOk(p: Params, chain: seq<BlockHeader>, i: nat) {
    i == 0 || (i < |chain| && HeaderOk(p, chain, i))
  }

  ghost predicate ChainOk(p: Params, chain: seq<BlockHeader>) {
    forall i :: 0 <= i < |chain| ==> HeaderOk(p, chain, i)
  }

  /** A header's check only looks at the chain up to it. */
  lemma {:induction false} OkOnPrefix(p: Params, chain: seq<BlockHeader>, n: nat, i: nat)
    requires i < n <= |chain|
    ensures HeaderOk(p, chain[..n], i) <==> HeaderOk(p, chain, i)
  {
  }

  // ----- The file as records -----

  ghost predicate Whole(data: bytes) {
    |data| % RECORD == 0
  }

  function Records(data: bytes): (chain: seq<BlockHeader>)
    ensures |chain| == |data| / RECORD
  {
    seq(|data| / RECORD, i requires 0 <= i < |data| / RECORD => Deserialize(data[RECORD * i..RECORD * i + RECORD]))
  }

  lemma {:induction false} AppendRecord(data: bytes, h: BlockHeader)
    requires Whole(data)
    ensures Whole(data + Serialize(h))
    ensures Records(data + Serialize(h)) == Records(data) + [h]
  {
    DeserializeSerialized(h);
    var more := data + Serialize(h);
    var n := |data| / RECORD;
    assert |data| == RECORD * n && |more| == RECORD * n + RECORD && |more| / RECORD == n + 1;
    forall i | 0 <= i < n + 1
      ensures Records(more)[i] == (Records(data) + [h])[i]
    {
      if i < n {
        assert more[RECORD * i..RECORD * i + RECORD] == data[RECORD * i..RECORD * i + RECORD];
      } else {
        assert more[RECORD * n..RECORD * n + RECORD] == Serialize(h);
      }
    }
  }

  lemma {:induction false} TruncateRecords(data: bytes, n: nat)
    requires Whole(data) && RECORD * n <= |data|
    ensures Whole(data[..RECORD * n])
    ensures n <= |Records(data)| && Records(data[..RECORD * n]) == Records(data)[..n]
  {
    var cut := data[..RECORD * n];
    assert |cut| / RECORD == n && n <= |data| / RECORD;
    forall i | 0 <= i < n
      ensures Records(cut)[i] == Records(data)[i]
    {
      assert cut[RECORD * i..RECORD * i + RECORD] == data[RECORD * i..RECORD * i + RECORD];
    }
  }

  // ----- The file -----

  /** The file after writing b at an offset; a gap behind the end is filled with zeros. */
  function Overwritten(data: bytes, at: nat, b: bytes): bytes {
    var head := if at <= |data| then data[..at] else data + seq(at - |data|, _ => 0);
    var tail := if at + |b| < |data| then data[at + |b|..] else [];
    head + b + tail
  }

  class File {
    var data: bytes
    var cursor: nat

    constructor (data: bytes)
      ensures this.data == data && cursor == 0
    {
      this.data, cursor := data, 0;
    }

    method SeekStart(offset: nat)
      modifies this`cursor
      ensures cursor == offset
    {
      cursor := offset;
    }

    /** Seek relative to the end, by a distance that is not positive. */
    method SeekBack(distance: nat) returns (ok: bool)
      modifies this`cursor
      ensures ok <==> distance <= |data|
      ensures cursor == if ok then |data| - distance else old(cursor)
    {
      ok := distance <= |data|;
      if ok {
        cursor := |data| - distance;
      }
    }

    /** Deserialize: the 80 bytes at the cursor, or an error at the end of the file. */
    method ReadHeader() returns (h: Option<BlockHeader>)
      modifies this`cursor
      ensures old(cursor) + RECORD <= |data| ==>
        h == Some(Deserialize(data[old(cursor)..old(cursor) + RECORD])) && cursor == old(cursor) + RECORD
      ensures old(cursor) + RECORD > |data| ==> h == None
    {
      if cursor + RECORD <= |data| {
        h := Some(Deserialize(data[cursor..cursor + RECORD]));
        cursor := cursor + RECORD;
      } else {
        h := None;
        cursor := if cursor < |data| then |data| else cursor;
      }
    }

    /** Serialize: overwrites from the cursor on, which need not be the end of the file. */
    method WriteAtCursor(b: bytes)
      modifies this
      ensures cursor == old(cursor) + |b|
      ensures data == Overwritten(old(data), old(cursor), b)
    {
      data := Overwritten(data, cursor, b);
      cursor := cursor + |b|;
    }

    method Truncate(n: nat)
      requires n <= |data|
      modifies this`data
      ensures data == old(data)[..n]
    {
      data := data[..n];
    }

    /** Seek to a height and read the header there. */
    method LoadHeader(height: nat) returns (h: Option<BlockHeader>)
      modifies this`cursor
      ensures height < |Records(data)| ==> h == Some(Records(data)[height]) && cursor == RECORD * (height + 1)
      ensures height >= |Records(data)| ==> h == None
    {
      hide Deserialize;
      SeekStart(RECORD * height);
      h := ReadHeader();
    }

    /**
      CheckHeader: reads three headers through the cursor. On a height that the file holds it
      decides `HeaderOk`, and leaves the cursor right behind the header checked.
    */
    method CheckHeader(p: Params, height: nat) returns (ok: bool)
      modifies this`cursor
      ensures height == 0 ==> ok
      ensures height > 0 && height >= |Records(data)| ==> !ok
      ensures 0 < height < |Records(data)| ==>
        && (ok <==> HeaderOk(p, Records(data), height))
        && cursor == RECORD * (height + 1)
    {
      hide Records, ProofOfWork, ExpectedBits;
      if height == 0 {
        return true;
      }
      var epochStart := LoadHeader(height - height % EPOCH_LENGTH);
      if epochStart.None? {
        return false;
      }
      var prev := LoadHeader(height - 1);
      if prev.None? {
        return false;
      }
      var cur := LoadHeader(height);
      if cur.None? {
        return false;
      }
      if p.blockSha(prev.value) != cur.value.prevBlock {
        return false;
      }
      if height % EPOCH_LENGTH != 0 && cur.value.bits != ExpectedBits(p, epochStart.value, prev.value, cur.value) {
        return false;
      }
      return ProofOfWork(p, cur.value);
    }

    /** CheckRange: all heights from first to last; a height behind the end of the file fails. */
    method CheckRange(p: Params, first: nat, last: nat) returns (ok: bool)
      modifies this`cursor
      ensures ok <==> forall i :: first <= i <= last ==> StoredOk(p, Records(data), i)
    {
      hide Records, HeaderOk;
      var i := first;
      while i <= last
        invariant first <= i && (i <= last + 1 || i == first)
        invariant forall k :: first <= k < i && k <= last ==> StoredOk(p, Records(data), k)
      {
        var good := CheckHeader(p, i);
        if !good {
          assert !StoredOk(p, Records(data), i);
          return false;
        }
        i := i + 1;
      }
      return true;
    }
  }

  // ----- IngestHeaders -----

  datatype Ingested = Synced | Appended | Rejected

  /** How much of the chain a rejected message leaves. */
  function Kept(n: nat): nat {
    if n < 101 then 1 else n - 100
  }

  /** The records after a message, as the source promises them. */
  function Ingest(p: Params, chain: seq<BlockHeader>, headers: seq<BlockHeader>): seq<BlockHeader>
    requires chain != []
  {
    if Fits(p, chain, headers) then chain + headers else chain[..Kept(|chain|)]
  }

  /** Cuts the file back by a hundred headers, or to genesis. */
  method CutBack(f: File, endPos: nat)
    requires Whole(f.data) && RECORD <= endPos <= |f.data| && endPos % RECORD == 0
    modifies f`data
    ensures Whole(f.data) && Kept(endPos / RECORD) <= |old(Records(f.data))|
    ensures Records(f.data) == old(Records(f.data))[..Kept(endPos / RECORD)]
  {
    if endPos < 8080 {
      TruncateRecords(f.data, 1);
      f.Truncate(80);
    } else {
      TruncateRecords(f.data, endPos / RECORD - 100);
      f.Truncate(endPos - 8000);
    }
  }

  /** One turn of the loop: write at the cursor, which is the end of the file, and check in place. */
  method AppendAndCheck(p: Params, f: File, h: BlockHeader) returns (worked: bool)
    requires Whole(f.data) && f.cursor == |f.data| && Records(f.data) != []
    modifies f
    ensures Whole(f.data) && |f.data| == |old(f.data)| + RECORD
    ensures Records(f.data) == old(Records(f.data)) + [h]
    ensures worked <==> HeaderOk(p, Records(f.data), |Records(f.data)| - 1)
    ensures f.cursor == |f.data|
  {
    var tip := |f.data| / RECORD;
    AppendRecord(f.data, h);
    assert Overwritten(f.data, |f.data|, Serialize(h)) == f.data + Serialize(h);
    f.WriteAtCursor(Serialize(h));
    worked := f.CheckHeader(p, tip);
  }

  /** The new heights of a message all check. */
  predicate Fits(p: Params, chain: seq<BlockHeader>, headers: seq<BlockHeader>) {
    forall i :: |chain| <= i < |chain + headers| ==> HeaderOk(p, chain + headers, i)
  }

  lemma {:induction false} FitsOneMore(p: Params, chain: seq<BlockHeader>, headers: seq<BlockHeader>, k: nat)
    requires k < |headers| && Fits(p, chain, headers[..k])
    ensures chain + headers[..k + 1] == chain + headers[..k] + [headers[k]]
    ensures Fits(p, chain, headers[..k + 1]) <==> HeaderOk(p, chain + headers[..k + 1], |chain| + k)
    ensures Fits(p, chain, headers) ==> Fits(p, chain, headers[..k + 1])
  {
    var a, b, all := chain + headers[..k], chain + headers[..k + 1], chain + headers;
    assert b == a + [headers[k]];
    assert b[..|a|] == a && all[..|b|] == b;
    forall i | |chain| <= i < |chain| + k
      ensures HeaderOk(p, b, i) <==> HeaderOk(p, a, i)
    {
      OkOnPrefix(p, b, |a|, i);
    }
    forall i | |chain| <= i < |b|
      ensures HeaderOk(p, all, i) <==> HeaderOk(p, b, i)
    {
      OkOnPrefix(p, all, |b|, i);
    }
  }

  lemma {:induction false} MustLink(p: Params, chain: seq<BlockHeader>, headers: seq<BlockHeader>)
    requires chain != [] && headers != [] && headers[0].prevBlock != p.blockSha(chain[|chain| - 1])
    ensures !Fits(p, chain, headers)
  {
    assert !HeaderOk(p, chain + headers, |chain|);
  }

  /**
    A header that belongs at height i: it names the one before it, its hash does not exceed the
    target its bits stand for, nor that the limit, and inside an epoch of 2016 blocks its bits are
    those of the epoch's first header, or the easiest ones where the network allows it after 20 minutes.
  */
  ghost predicate Genuine(p: Params, chain: seq<BlockHeader>, i: nat)
    requires 0 < i < |chain|
  {
    var cur, prev := chain[i], chain[i - 1];
    var easy := p.resetMinDifficulty && cur.timestamp > prev.timestamp + 20 * 60;
    && cur.prevBlock == p.blockSha(prev)
    && 0 < p.compactToBig(cur.bits)
    && p.blockSha(cur) <= p.compactToBig(cur.bits) <= p.powLimit
    && (forall first :: 0 <= first < i < first + 2016 && first % 2016 == 0 ==>
          cur.bits == if easy then p.powLimitBits else chain[first].bits)
  }

  lemma {:induction false} EpochFirst(i: nat, first: nat)
    requires first % 2016 == 0 && first <= i < first + 2016
    ensures first == i - i % 2016
  {
  }

  /** That is what the check decides. */
  lemma {:induction false} OkMeansGenuine(p: Params, chain: seq<BlockHeader>, i: nat)
    requires 0 < i < |chain|
    ensures HeaderOk(p, chain, i) <==> Genuine(p, chain, i)
  {
    forall first | 0 <= first < i < first + 2016 && first % 2016 == 0
      ensures first == i - i % 2016
    {
      EpochFirst(i, first);
    }
    var start := i - i % 2016;
    assert start % 2016 == 0;
    if i % 2016 != 0 {
      assert 0 <= start < i < start + 2016;
    }
  }

  lemma {:induction false} IngestKeepsChain(p: Params, chain: seq<BlockHeader>, headers: seq<BlockHeader>)
    requires chain != [] && ChainOk(p, chain)
    ensures var after := Ingest(p, chain, headers);
      && after != [] && after[0] == chain[0] && ChainOk(p, after)
      && (after == chain + headers || (after <= chain && |after| == if |chain| <= 100 then 1 else |chain| - 100))
  {
    var all, after := chain + headers, Ingest(p, chain, headers);
    forall i | 0 <= i < |after|
      ensures HeaderOk(p, after, i)
    {
      if after == all {
        if i < |chain| {
          assert all[..|chain|] == chain;
          OkOnPrefix(p, all, |chain|, i);
        }
      } else {
        OkOnPrefix(p, chain, |after|, i);
      }
    }
  }

  /** A message is appended whole if and only if every one of its headers is genuine where it would stand. */
  lemma {:induction false} IngestIffGenuine(p: Params, chain: seq<BlockHeader>, headers: seq<BlockHeader>)
    requires chain != [] && headers != []
    ensures Ingest(p, chain, headers) == chain + headers
      <==> forall i :: |chain| <= i < |chain| + |headers| ==> Genuine(p, chain + headers, i)
    ensures Ingest(p, chain, headers) != chain + headers ==>
      Ingest(p, chain, headers) == chain[..if |chain| <= 100 then 1 else |chain| - 100]
    ensures Fits(p, chain, headers) <==> Ingest(p, chain, headers) == chain + headers
  {
    hide HeaderOk, Genuine;
    forall i | |chain| <= i < |chain| + |headers|
      ensures HeaderOk(p, chain + headers, i) <==> Genuine(p, chain + headers, i)
    {
      OkMeansGenuine(p, chain + headers, i);
    }
  }

  /**
    A message is appended whole if every new height checks, and otherwise the file is cut back to
    a prefix of the chain it held before.
  */
  method IngestHeaders(p: Params, f: File, headers: seq<BlockHeader>) returns (result: Ingested)
    requires Whole(f.data)
    modifies f
    ensures |old(f.data)| < RECORD ==> result == Rejected && f.data == old(f.data)
    ensures |old(f.data)| >= RECORD ==>
      var chain := old(Records(f.data));
      && Whole(f.data)
      && Records(f.data) == Ingest(p, chain, headers)
      && (result == Synced <==> headers == [])
      && (result == Appended <==> headers != [] && forall i :: |chain| <= i < |chain| + |headers| ==> Genuine(p, chain + headers, i))
      && (ChainOk(p, chain) ==> ChainOk(p, Records(f.data)) && Records(f.data)[0] == chain[0])
  {
    hide HeaderOk, ChainOk, Genuine, Deserialize, Pow256;
    ghost var chain := Records(f.data);
    if |f.data| >= RECORD && headers != [] {
      IngestIffGenuine(p, chain, headers);
    }
    if |f.data| >= RECORD && ChainOk(p, chain) {
      IngestKeepsChain(p, chain, headers);
    }
    var ok := f.SeekBack(RECORD);
    if !ok {
      return Rejected;
    }
    var last := f.ReadHeader();
    assert last == Some(chain[|chain| - 1]);
    hide Records;
    assert chain + [] == chain && headers[..0] == [];
    if headers == [] {
      return Synced;
    }
    ok := f.SeekBack(0);
    var endPos := f.cursor;
    if headers[0].prevBlock != p.blockSha(last.value) {
      MustLink(p, chain, headers);
      CutBack(f, endPos);
      return Rejected;
    }
    result := AppendAll(p, f, headers, chain, endPos);
  }

  method AppendAll(p: Params, f: File, headers: seq<BlockHeader>, ghost chain: seq<BlockHeader>, endPos: nat) returns (result: Ingested)
    requires Whole(f.data) && f.cursor == |f.data| == endPos >= RECORD
    requires chain == Records(f.data) && headers != []
    modifies f
    ensures Whole(f.data) && Records(f.data) == Ingest(p, chain, headers)
    ensures result == if Fits(p, chain, headers) then Appended else Rejected
  {
    hide HeaderOk, Records;
    assert chain + headers[..0] == chain;
    var k := 0;
    while k < |headers|
      invariant k <= |headers|
      invariant Whole(f.data) && |f.data| == f.cursor == endPos + RECORD * k
      invariant Records(f.data) == chain + headers[..k]
      invariant Fits(p, chain, headers[..k])
    {
      FitsOneMore(p, chain, headers, k);
      var worked := AppendAndCheck(p, f, headers[k]);
      if !worked {
        CutBack(f, endPos);
        assert (chain + headers[..k + 1])[..Kept(|chain|)] == chain[..Kept(|chain|)];
        return Rejected;
      }
      k := k + 1;
    }
    assert headers[..|headers|] == headers;
    return Appended;
  }

  // ----- Runs -----

  function IngestAll(p: Params, chain: seq<BlockHeader>, messages: seq<seq<BlockHeader>>): (r: seq<BlockHeader>)
    requires chain != []
    ensures r != []
    decreases |messages|
  {
    if messages == [] then chain else IngestAll(p, Ingest(p, chain, messages[0]), messages[1..])
  }

  /** Whatever messages arrive, in whatever order: the file starts with its genesis and every height checks. */
  lemma {:induction false} EveryRunKeepsChain(p: Params, chain: seq<BlockHeader>, messages: seq<seq<BlockHeader>>)
    requires chain != [] && ChainOk(p, chain)
    ensures var after := IngestAll(p, chain, messages); after[0] == chain[0] && ChainOk(p, after)
    decreases |messages|
  {
    if messages == [] {
    } else {
      IngestKeepsChain(p, chain, messages[0]);
      EveryRunKeepsChain(p, Ingest(p, chain, messages[0]), messages[1..]);
    }
  }

  ghost predicate AllGenuine(p: Params, chain: seq<BlockHeader>) {
    forall i :: 0 < i < |chain| ==> Genuine(p, chain, i)
  }

  /** Over every run from a genesis, or from any genuine chain: what is stored is genuine at every height. */
  lemma {:induction false} EveryRunIsGenuine(p: Params, chain: seq<BlockHeader>, messages: seq<seq<BlockHeader>>)
    requires chain != [] && AllGenuine(p, chain)
    ensures var after := IngestAll(p, chain, messages); after[0] == chain[0] && AllGenuine(p, after)
  {
    hide Genuine, HeaderOk;
    forall i | 0 <= i < |chain|
      ensures HeaderOk(p, chain, i)
    {
      if i == 0 {
        GenesisOk(p, chain);
      } else {
        OkMeansGenuine(p, chain, i);
      }
    }
    EveryRunKeepsChain(p, chain, messages);
    var after := IngestAll(p, chain, messages);
    forall i | 0 < i < |after|
      ensures Genuine(p, after, i)
    {
      OkMeansGenuine(p, after, i);
    }
  }

  lemma {:induction false} GenesisOk(p: Params, chain: seq<BlockHeader>)
    requires chain != []
    ensures HeaderOk(p, chain, 0)
  {
  }
}
