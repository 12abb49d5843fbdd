/**
  lndc/conn.go and lndc/netio.go: a byte stream rebuilt from encrypted records. Each Write seals one
  record under the next nonce; Read opens a record when its buffer is empty and hands out what
  the caller has room for.
*/
module Lndc {
  import opened Basics
  import opened WireElements

  const HALF := 0x8000_0000_0000_0000
  const OVERHEAD := 16
  const MAX_CTEXT := 65530

  /** chacha20poly1305, idealised: a record opens under its own nonce and under no other. */
  datatype Aead = Aead(seal: (nat, bytes) -> bytes, open: (nat, bytes) -> Option<bytes>) {
    ghost predicate Lawful() {
      && (forall n: nat, b :: |seal(n, b)| == |b| + OVERHEAD)
      && (forall m: nat, n: nat, b :: m < UINT64 && n < UINT64 ==> open(m, seal(n, b)) == if m == n then Some(b) else None)
    }
  }

  /** The law can be met: here a record carries its nonce in the clear. */
  function NonceInClear(): Aead {
    Aead((n: nat, b) => BigEndian(n, OVERHEAD) + b,
         (m: nat, c) => if |c| >= OVERHEAD && FromBigEndian(c[..OVERHEAD]) == m then Some(c[OVERHEAD..]) else None)
  }

  lemma {:induction false} LawCanHold()
    ensures NonceInClear().Lawful()
  {
    var a := NonceInClear();
    forall m: nat, n: nat, b: bytes | m < UINT64 && n < UINT64
      ensures a.open(m, a.seal(n, b)) == if m == n then Some(b) else None
    {
      NonceFits(n);
      BigEndianRoundTrip(n, OVERHEAD);
      Prefix(BigEndian(n, OVERHEAD), b);
    }
  }

  lemma {:induction false} NonceFits(n: nat)
    requires n < UINT64
    ensures n < Pow256(OVERHEAD)
  {
    Pow256Values();
    assert Pow256(10) >= Pow256(8) && Pow256(12) >= Pow256(10) && Pow256(14) >= Pow256(12) && Pow256(16) >= Pow256(14);
  }

  // ----- Framing -----

  /** writeClear: a two-byte length and the message. */
  function WriteClear(c: bytes): bytes {
    BigEndian(|c|, 2) + c
  }

  /** readClear: the next message, once all of it has arrived. */
  function ReadClear(wire: bytes): Option<(bytes, bytes)> {
    if |wire| < 2 then None
    else
      var n, rest := FromBigEndian(wire[..2]), wire[2..];
      if |rest| < n then None else Some((rest[..n], rest[n..]))
  }

  lemma {:induction false} ReadWritten(c: bytes, rest: bytes)
    requires |c| <= MAX_CTEXT
    ensures ReadClear(WriteClear(c) + rest) == Some((c, rest))
  {
    Pow256Values();
    PrefixedBytes(c, 2, rest);
  }

  // ----- One direction of a connection -----

  /** The sender's nonce, the bytes under way, and the receiver's nonce and buffer. */
  datatype Dir = Dir(sendNonce: nat, wire: bytes, recvNonce: nat, readBuf: bytes)

  function NextNonce(n: nat): nat {
    (n + 1) % UINT64
  }

  /** Write: the nonce is used up even when the record turns out too long to send. */
  function WriteStep(aead: Aead, d: Dir, b: bytes): (Dir, bool) {
    var c := aead.seal(d.sendNonce, b);
    var d' := d.(sendNonce := NextNonce(d.sendNonce));
    if |c| > MAX_CTEXT then (d', false) else (d'.(wire := d.wire + WriteClear(c)), true)
  }

  datatype ReadResult = Got(data: bytes) | Eof | DecryptFailed

  /** A Read of `size` bytes can return. */
  predicate Readable(d: Dir) {
    d.readBuf != [] || ReadClear(d.wire).Some?
  }

  /** bytes.Buffer.Read: an empty buffer is end of file unless nothing was asked for. */
  function TakeBuffer(d: Dir, size: nat): (Dir, ReadResult) {
    if d.readBuf == [] then (d, if size == 0 then Got([]) else Eof)
    else
      var n := if size < |d.readBuf| then size else |d.readBuf|;
      (d.(readBuf := d.readBuf[n..]), Got(d.readBuf[..n]))
  }

  function ReadStep(aead: Aead, d: Dir, size: nat): (Dir, ReadResult)
    requires Readable(d)
  {
    if d.readBuf != [] then TakeBuffer(d, size)
    else
      var (c, rest) := ReadClear(d.wire).value;
      var d' := d.(wire := rest, recvNonce := NextNonce(d.recvNonce));
      match aead.open(d.recvNonce, c)
      case None => (d', DecryptFailed)
      case Some(msg) => TakeBuffer(d'.(readBuf := msg), size)
  }

  // ----- What every run keeps -----

  /** A record under way: the nonce it was sealed with and its plaintext. */
  datatype Record = Record(nonce: nat, plain: bytes)

  /**
    Bookkeeping beside the real state: records under way, the number of writes and of refused ones,
    the bytes written before the first refusal, and the bytes handed out by Read.
  */
  datatype Ghosts = Ghosts(flight: seq<Record>, writes: nat, refused: nat, clean: bytes, delivered: bytes)

  function WireOf(aead: Aead, flight: seq<Record>): bytes {
    if flight == [] then [] else WriteClear(aead.seal(flight[0].nonce, flight[0].plain)) + WireOf(aead, flight[1..])
  }

  /** The plaintext of the leading records that the receiver's nonces will still match. */
  function Openable(flight: seq<Record>, nonce: nat): bytes {
    if flight == [] || flight[0].nonce != nonce then [] else flight[0].plain + Openable(flight[1..], nonce + 1)
  }

  /** The records under way carry increasing nonces, none of them already used by the receiver. */
  ghost predicate Ordered(flight: seq<Record>, recvNonce: nat, sendNonce: nat) {
    && (forall k :: 0 <= k < |flight| ==> recvNonce + k <= flight[k].nonce < sendNonce)
    && (forall k :: 0 < k < |flight| ==> flight[k - 1].nonce < flight[k].nonce)
  }

  ghost predicate InStep(flight: seq<Record>, recvNonce: nat) {
    forall k :: 0 <= k < |flight| ==> flight[k].nonce == recvNonce + k
  }

  ghost predicate Sendable(flight: seq<Record>) {
    forall k :: 0 <= k < |flight| ==> |flight[k].plain| + OVERHEAD <= MAX_CTEXT
  }

  ghost predicate Inv(aead: Aead, start: nat, d: Dir, g: Ghosts) {
    && start + g.writes < UINT64
    && d.sendNonce == start + g.writes
    && d.sendNonce == d.recvNonce + |g.flight| + g.refused
    && d.wire == WireOf(aead, g.flight)
    && Ordered(g.flight, d.recvNonce, d.sendNonce)
    && Sendable(g.flight)
    && (g.refused == 0 ==> InStep(g.flight, d.recvNonce))
    && g.delivered + d.readBuf + Openable(g.flight, d.recvNonce) == g.clean
  }

  lemma {:induction false} OrderedAppend(flight: seq<Record>, recvNonce: nat, sendNonce: nat, r: Record)
    requires Ordered(flight, recvNonce, sendNonce) && recvNonce + |flight| <= sendNonce == r.nonce
    ensures Ordered(flight + [r], recvNonce, sendNonce + 1)
    ensures InStep(flight, recvNonce) && r.nonce == recvNonce + |flight| ==> InStep(flight + [r], recvNonce)
  {
  }

  lemma {:induction false} OrderedTail(flight: seq<Record>, recvNonce: nat, sendNonce: nat)
    requires flight != [] && Ordered(flight, recvNonce, sendNonce)
    ensures Ordered(flight[1..], recvNonce + 1, sendNonce)
    ensures InStep(flight, recvNonce) ==> InStep(flight[1..], recvNonce + 1)
    ensures flight[0].nonce != recvNonce ==> Openable(flight[1..], recvNonce + 1) == []
  {
    assert forall k :: 0 <= k < |flight| - 1 ==> flight[1..][k] == flight[k + 1];
  }

  lemma {:induction false} WireAppend(aead: Aead, flight: seq<Record>, r: Record)
    ensures WireOf(aead, flight + [r]) == WireOf(aead, flight) + WriteClear(aead.seal(r.nonce, r.plain))
  {
    if flight == [] {
      assert (flight + [r])[1..] == [];
    } else {
      assert (flight + [r])[1..] == flight[1..] + [r];
      WireAppend(aead, flight[1..], r);
    }
  }

  lemma {:induction false} OpenableAppend(flight: seq<Record>, nonce: nat, r: Record)
    ensures InStep(flight, nonce) && r.nonce == nonce + |flight| ==> Openable(flight + [r], nonce) == Openable(flight, nonce) + r.plain
    ensures r.nonce > nonce + |flight| ==> Openable(flight + [r], nonce) == Openable(flight, nonce)
  {
    if flight == [] {
      assert (flight + [r])[1..] == [];
    } else {
      assert (flight + [r])[1..] == flight[1..] + [r];
      OpenableAppend(flight[1..], nonce + 1, r);
      assert forall k :: 0 <= k < |flight| - 1 ==> flight[1..][k] == flight[k + 1];
    }
  }

  function AfterWrite(g: Ghosts, nonce: nat, b: bytes, sent: bool): Ghosts {
    if !sent then g.(writes := g.writes + 1, refused := g.refused + 1)
    else g.(writes := g.writes + 1, flight := g.flight + [Record(nonce, b)],
            clean := if g.refused == 0 then g.clean + b else g.clean)
  }

  lemma {:induction false} WriteKeepsInv(aead: Aead, start: nat, d: Dir, g: Ghosts, b: bytes)
    requires aead.Lawful() && Inv(aead, start, d, g) && start + g.writes + 1 < UINT64
    ensures var (d', sent) := WriteStep(aead, d, b);
      && (sent <==> |b| + OVERHEAD <= MAX_CTEXT)
      && Inv(aead, start, d', AfterWrite(g, d.sendNonce, b, sent))
  {
    hide InStep, WireOf, Openable;
    var r := Record(d.sendNonce, b);
    WireAppend(aead, g.flight, r);
    OpenableAppend(g.flight, d.recvNonce, r);
    OrderedAppend(g.flight, d.recvNonce, d.sendNonce, r);
    if |b| + OVERHEAD <= MAX_CTEXT && g.refused == 0 {
      assert g.delivered + d.readBuf + (Openable(g.flight, d.recvNonce) + b) == g.clean + b;
    }
  }

  function AfterRead(d: Dir, g: Ghosts, r: ReadResult): Ghosts {
    g.(flight := if d.readBuf == [] && g.flight != [] then g.flight[1..] else g.flight,
       delivered := if r.Got? then g.delivered + r.data else g.delivered)
  }

  lemma {:induction false} TakeKeepsInv(aead: Aead, start: nat, d: Dir, g: Ghosts, size: nat)
    requires Inv(aead, start, d, g)
    ensures var (d', r) := TakeBuffer(d, size);
      Inv(aead, start, d', g.(delivered := if r.Got? then g.delivered + r.data else g.delivered))
  {
    hide InStep, Ordered, Sendable, WireOf, Openable;
    var (d', r) := TakeBuffer(d, size);
    if r.Got? {
      assert d.readBuf == r.data + d'.readBuf;
      assert g.delivered + r.data + d'.readBuf == g.delivered + d.readBuf;
    }
  }

  /** The first record under way is the next one read, and opens if the nonces agree. */
  lemma {:induction false} FirstRecord(aead: Aead, start: nat, d: Dir, g: Ghosts)
    requires aead.Lawful() && Inv(aead, start, d, g) && g.flight != []
    ensures var r := g.flight[0];
      && ReadClear(d.wire) == Some((aead.seal(r.nonce, r.plain), WireOf(aead, g.flight[1..])))
      && aead.open(d.recvNonce, aead.seal(r.nonce, r.plain)) == (if d.recvNonce == r.nonce then Some(r.plain) else None)
      && NextNonce(d.recvNonce) == d.recvNonce + 1
  {
    hide ReadClear, WriteClear, Openable;
    var r := g.flight[0];
    ReadWritten(aead.seal(r.nonce, r.plain), WireOf(aead, g.flight[1..]));
  }

  /** Taking the first record off the wire and trying to open it. */
  lemma {:induction false} OpenKeepsInv(aead: Aead, start: nat, d: Dir, g: Ghosts)
    requires aead.Lawful() && Inv(aead, start, d, g) && g.flight != [] && d.readBuf == []
    ensures var r := g.flight[0];
      Inv(aead, start,
          Dir(d.sendNonce, WireOf(aead, g.flight[1..]), d.recvNonce + 1, if d.recvNonce == r.nonce then r.plain else []),
          g.(flight := g.flight[1..]))
  {
    var r := g.flight[0];
    OrderedTail(g.flight, d.recvNonce, d.sendNonce);
    hide InStep, Ordered, WireOf;
    if d.recvNonce == r.nonce {
      assert g.delivered + [] + (r.plain + Openable(g.flight[1..], d.recvNonce + 1))
          == g.delivered + r.plain + Openable(g.flight[1..], d.recvNonce + 1);
    }
  }

  lemma {:induction false} NoRecordBlocks(aead: Aead, start: nat, d: Dir, g: Ghosts)
    requires Inv(aead, start, d, g) && g.flight == []
    ensures ReadClear(d.wire).None?
  {
  }

  lemma {:induction false} ReadKeepsInv(aead: Aead, start: nat, d: Dir, g: Ghosts, size: nat)
    requires aead.Lawful() && Inv(aead, start, d, g) && Readable(d)
    ensures var (d', r) := ReadStep(aead, d, size); Inv(aead, start, d', AfterRead(d, g, r))
  {
    hide Inv;
    if d.readBuf != [] {
      TakeKeepsInv(aead, start, d, g, size);
    } else {
      if g.flight == [] {
        NoRecordBlocks(aead, start, d, g);
      }
      FirstRecord(aead, start, d, g);
      OpenKeepsInv(aead, start, d, g);
      var r := g.flight[0];
      if d.recvNonce == r.nonce {
        var d1 := Dir(d.sendNonce, WireOf(aead, g.flight[1..]), d.recvNonce + 1, r.plain);
        TakeKeepsInv(aead, start, d1, g.(flight := g.flight[1..]), size);
      }
    }
  }

  // ----- Runs -----

  datatype Event = Write(b: bytes) | Read(size: nat)

  /** The direction and its bookkeeping after a list of events; a Read that would block is skipped. */
  function Play(aead: Aead, d: Dir, g: Ghosts, events: seq<Event>): (Dir, Ghosts)
    decreases |events|
  {
    if events == [] then (d, g)
    else
      match events[0]
      case Write(b) =>
        var (d', sent) := WriteStep(aead, d, b);
        Play(aead, d', AfterWrite(g, d.sendNonce, b, sent), events[1..])
      case Read(size) =>
        if !Readable(d) then Play(aead, d, g, events[1..])
        else
          var (d', r) := ReadStep(aead, d, size);
          Play(aead, d', AfterRead(d, g, r), events[1..])
  }

  /** How many of the events use up a nonce of the sender. */
  function Writes(events: seq<Event>): nat {
    if events == [] then 0 else (if events[0].Write? then 1 else 0) + Writes(events[1..])
  }

  function Opened(start: nat): Dir {
    Dir(start, [], start, [])
  }

  const NOTHING := Ghosts([], 0, 0, [], [])

  lemma {:induction false} PlayKeepsInv(aead: Aead, start: nat, d: Dir, g: Ghosts, events: seq<Event>)
    requires aead.Lawful() && Inv(aead, start, d, g) && start + g.writes + Writes(events) < UINT64
    ensures var (d', g') := Play(aead, d, g, events); Inv(aead, start, d', g')
    decreases |events|
  {
    hide Inv, WriteStep, ReadStep;
    if events == [] {
    } else {
      match events[0]
      case Write(b) =>
        WriteKeepsInv(aead, start, d, g, b);
        var (d', sent) := WriteStep(aead, d, b);
        PlayKeepsInv(aead, start, d', AfterWrite(g, d.sendNonce, b, sent), events[1..]);
      case Read(size) =>
        if Readable(d) {
          ReadKeepsInv(aead, start, d, g, size);
          var (d', r) := ReadStep(aead, d, size);
          PlayKeepsInv(aead, start, d', AfterRead(d, g, r), events[1..]);
        } else {
          PlayKeepsInv(aead, start, d, g, events[1..]);
        }
    }
  }

  /**
    After any interleaving of writes and reads of any sizes, what was read is a prefix of what was
    written before the first refused write; the nonces differ by the records under way and the
    refusals; and once nothing is under way or buffered, all of that was read.
  */
  lemma {:induction false} StreamIsRebuilt(aead: Aead, start: nat, events: seq<Event>)
    requires aead.Lawful() && start <= HALF && Writes(events) < HALF
    ensures var (d, g) := Play(aead, Opened(start), NOTHING, events);
      && g.delivered <= g.clean
      && d.sendNonce == d.recvNonce + |g.flight| + g.refused
      && (d.wire == [] && d.readBuf == [] ==> g.delivered == g.clean)
  {
    assert Inv(aead, start, Opened(start), NOTHING);
    PlayKeepsInv(aead, start, Opened(start), NOTHING, events);
    var (d, g) := Play(aead, Opened(start), NOTHING, events);
    hide Play;
    assert g.clean == g.delivered + (d.readBuf + Openable(g.flight, d.recvNonce));
    if d.wire == [] && d.readBuf == [] {
      assert g.flight == [];
      assert g.clean == g.delivered + ([] + []);
    }
  }

  /** `clean` is the concatenation of the writes up to the first one that is too long. */
  function WrittenBeforeRefusal(events: seq<Event>): bytes {
    if events == [] then []
    else if events[0].Read? then WrittenBeforeRefusal(events[1..])
    else if |events[0].b| + OVERHEAD > MAX_CTEXT then []
    else events[0].b + WrittenBeforeRefusal(events[1..])
  }

  lemma {:induction false} CleanIsWritten(aead: Aead, start: nat, d: Dir, g: Ghosts, events: seq<Event>)
    requires aead.Lawful() && Inv(aead, start, d, g) && start + g.writes + Writes(events) < UINT64
    ensures Play(aead, d, g, events).1.clean == if g.refused == 0 then g.clean + WrittenBeforeRefusal(events) else g.clean
    decreases |events|
  {
    hide Inv, WriteStep, ReadStep;
    if events == [] {
      assert g.clean + [] == g.clean;
    } else {
      match events[0]
      case Write(b) =>
        WriteKeepsInv(aead, start, d, g, b);
        var (d', sent) := WriteStep(aead, d, b);
        CleanIsWritten(aead, start, d', AfterWrite(g, d.sendNonce, b, sent), events[1..]);
        assert g.clean + b + WrittenBeforeRefusal(events[1..]) == g.clean + (b + WrittenBeforeRefusal(events[1..]));
        assert g.clean + [] == g.clean;
      case Read(size) =>
        if Readable(d) {
          ReadKeepsInv(aead, start, d, g, size);
          var (d', r) := ReadStep(aead, d, size);
          CleanIsWritten(aead, start, d', AfterRead(d, g, r), events[1..]);
        } else {
          CleanIsWritten(aead, start, d, g, events[1..]);
        }
    }
  }

  /** The bytes read are a prefix of the bytes written, up to the first refused write. */
  lemma {:induction false} ReadsArePrefixOfWrites(aead: Aead, start: nat, events: seq<Event>)
    requires aead.Lawful() && start <= HALF && Writes(events) < HALF
    ensures Play(aead, Opened(start), NOTHING, events).1.delivered <= WrittenBeforeRefusal(events)
  {
    assert Inv(aead, start, Opened(start), NOTHING);
    StreamIsRebuilt(aead, start, events);
    CleanIsWritten(aead, start, Opened(start), NOTHING, events);
    hide Inv, Play;
    assert [] + WrittenBeforeRefusal(events) == WrittenBeforeRefusal(events);
  }

  /**
    What a Read that has to open a record returns: it fails exactly when a refused write has put the
    nonces out of step, and ends the stream exactly when the record is empty.
  */
  lemma {:induction false} ReadOutcome(aead: Aead, start: nat, d: Dir, g: Ghosts, size: nat)
    requires aead.Lawful() && Inv(aead, start, d, g) && d.readBuf == [] && g.flight != [] && size > 0
    ensures Readable(d)
    ensures var r := ReadStep(aead, d, size).1;
      && (r == DecryptFailed <==> g.flight[0].nonce != d.recvNonce)
      && (r == Eof <==> g.flight[0].nonce == d.recvNonce && g.flight[0].plain == [])
      && (g.refused == 0 ==> r != DecryptFailed)
  {
    FirstRecord(aead, start, d, g);
    hide Inv, ReadClear;
    assert g.refused == 0 ==> g.flight[0].nonce == d.recvNonce by {
      InvMeansInStep(aead, start, d, g);
    }
  }

  lemma {:induction false} InvMeansInStep(aead: Aead, start: nat, d: Dir, g: Ghosts)
    requires Inv(aead, start, d, g) && g.flight != []
    ensures g.refused == 0 ==> g.flight[0].nonce == d.recvNonce
  {
  }

  // ----- How much a Read hands out -----

  lemma {:induction false} PlayAppend(aead: Aead, d: Dir, g: Ghosts, a: seq<Event>, b: seq<Event>)
    ensures Play(aead, d, g, a + b) == Play(aead, Play(aead, d, g, a).0, Play(aead, d, g, a).1, b)
    decreases |a|
  {
    if a == [] {
      assert a + b == b;
    } else {
      hide WriteStep, ReadStep;
      assert (a + b)[1..] == a[1..] + b && (a + b)[0] == a[0];
      match a[0]
      case Write(x) =>
        var (d', sent) := WriteStep(aead, d, x);
        PlayAppend(aead, d', AfterWrite(g, d.sendNonce, x, sent), a[1..], b);
      case Read(size) =>
        if Readable(d) {
          var (d', r) := ReadStep(aead, d, size);
          PlayAppend(aead, d', AfterRead(d, g, r), a[1..], b);
        } else {
          PlayAppend(aead, d, g, a[1..], b);
        }
    }
  }

  /** What one more Read does: at most what was asked for, and from the buffer all of that or all there is. */
  lemma {:induction false} PlayRead(aead: Aead, start: nat, d: Dir, g: Ghosts, size: nat)
    requires aead.Lawful() && Inv(aead, start, d, g)
    ensures var (d', g') := Play(aead, d, g, [Read(size)]);
      && g.delivered <= g'.delivered && |g'.delivered| <= |g.delivered| + size
      && (d.readBuf != [] ==> g'.delivered == g.delivered + if size <= |d.readBuf| then d.readBuf[..size] else d.readBuf)
      && (d.readBuf == [] && g.flight != [] && g.flight[0].nonce == d.recvNonce ==>
            var plain := g.flight[0].plain; g'.delivered == g.delivered + if size <= |plain| then plain[..size] else plain)
      && g'.clean == g.clean && g'.refused == g.refused
      && (g'.flight == g.flight || (g.flight != [] && g'.flight == g.flight[1..]))
  {
    OneRead(aead, d, g, size);
    if d.readBuf == [] {
      if g.flight == [] {
        NoRecordBlocks(aead, start, d, g);
      } else {
        FirstRecord(aead, start, d, g);
      }
    }
    hide Inv, Play, ReadClear, WireOf;
  }

  lemma {:induction false} OneRead(aead: Aead, d: Dir, g: Ghosts, size: nat)
    ensures Play(aead, d, g, [Read(size)])
         == if !Readable(d) then (d, g) else var (d', r) := ReadStep(aead, d, size); (d', AfterRead(d, g, r))
  {
    hide ReadStep, Readable;
    assert [Read(size)][1..] == [];
  }

  lemma {:induction false} OpenedKeepsInv(aead: Aead, start: nat)
    requires start <= HALF
    ensures Inv(aead, start, Opened(start), NOTHING)
  {
  }

  /** Taking more of what follows. */
  lemma {:induction false} NextOf(done: bytes, buffered: bytes, all: bytes, size: nat)
    requires done + buffered <= all && size <= |buffered|
    ensures |done| + size <= |all| && done + buffered[..size] == all[..|done| + size]
  {
  }

  /**
    Over every run: one more Read never returns more than `size` bytes, and if that many are
    buffered it returns exactly the next `size` bytes of what was written.
  */
  lemma {:induction false} ReadReturnsWhatIsThere(aead: Aead, start: nat, events: seq<Event>, size: nat)
    requires aead.Lawful() && start <= HALF && Writes(events) < HALF
    ensures var (d, g) := Play(aead, Opened(start), NOTHING, events);
      var more := Play(aead, Opened(start), NOTHING, events + [Read(size)]).1.delivered;
      && |g.delivered| <= |more| <= |g.delivered| + size
      && (size <= |d.readBuf| ==> |g.delivered| + size <= |g.clean| && more == g.clean[..|g.delivered| + size])
      && (0 < |d.readBuf| < size ==> more == g.delivered + d.readBuf)
  {
    hide Inv, Play, Writes, Aead.Lawful;
    OpenedKeepsInv(aead, start);
    PlayKeepsInv(aead, start, Opened(start), NOTHING, events);
    PlayAppend(aead, Opened(start), NOTHING, events, [Read(size)]);
    var (d, g) := Play(aead, Opened(start), NOTHING, events);
    PlayRead(aead, start, d, g, size);
    BufferIsNext(aead, start, d, g);
    if size <= |d.readBuf| {
      NextOf(g.delivered, d.readBuf, g.clean, size);
    }
  }

  lemma {:induction false} BufferIsNext(aead: Aead, start: nat, d: Dir, g: Ghosts)
    requires Inv(aead, start, d, g)
    ensures g.delivered + d.readBuf <= g.clean
  {
    hide Openable, WireOf, Ordered, InStep, Sendable;
  }

  /** No write is empty or too long. */
  ghost predicate GoodWrites(events: seq<Event>) {
    forall k :: 0 <= k < |events| && events[k].Write? ==> 0 < |events[k].b| <= 65_514
  }

  ghost predicate Flowing(g: Ghosts) {
    g.refused == 0 && forall k :: 0 <= k < |g.flight| ==> g.flight[k].plain != []
  }

  lemma {:induction false} PlayFlows(aead: Aead, start: nat, d: Dir, g: Ghosts, events: seq<Event>)
    requires aead.Lawful() && Inv(aead, start, d, g) && start + g.writes + Writes(events) < UINT64
    requires Flowing(g) && GoodWrites(events)
    ensures Flowing(Play(aead, d, g, events).1)
    decreases |events|
  {
    hide Inv, WriteStep, ReadStep, Readable;
    if events == [] {
    } else {
      assert GoodWrites(events[1..]);
      match events[0]
      case Write(b) =>
        WriteKeepsInv(aead, start, d, g, b);
        var (d', sent) := WriteStep(aead, d, b);
        PlayFlows(aead, start, d', AfterWrite(g, d.sendNonce, b, sent), events[1..]);
      case Read(size) =>
        if Readable(d) {
          ReadKeepsInv(aead, start, d, g, size);
          var (d', r) := ReadStep(aead, d, size);
          PlayFlows(aead, start, d', AfterRead(d, g, r), events[1..]);
        } else {
          PlayFlows(aead, start, d, g, events[1..]);
        }
    }
  }

  /** As long as something is outstanding, a Read for at least one byte gets at least one. */
  lemma {:induction false} ReadProgress(aead: Aead, start: nat, d: Dir, g: Ghosts, size: nat)
    requires aead.Lawful() && Inv(aead, start, d, g) && Flowing(g) && size > 0
    ensures var g' := Play(aead, d, g, [Read(size)]).1;
      && Flowing(g') && g'.clean == g.clean && |g'.delivered| <= |g.clean|
      && (|g.delivered| < |g.clean| ==> |g'.delivered| > |g.delivered|)
      && (|g.delivered| == |g.clean| ==> |g'.delivered| == |g.delivered|)
  {
    PlayRead(aead, start, d, g, size);
    assert Writes([Read(size)]) == 0;
    PlayKeepsInv(aead, start, d, g, [Read(size)]);
    var (d', g') := Play(aead, d, g, [Read(size)]);
    BufferIsNext(aead, start, d', g');
    NothingOutstanding(aead, start, d, g);
    hide Inv, Play, Writes;
  }

  lemma {:induction false} NothingOutstanding(aead: Aead, start: nat, d: Dir, g: Ghosts)
    requires Inv(aead, start, d, g) && g.refused == 0
    ensures d.readBuf == [] && g.flight == [] ==> g.delivered == g.clean
    ensures g.flight != [] ==> g.flight[0].nonce == d.recvNonce
  {
    assert g.flight == [] ==> Openable(g.flight, d.recvNonce) == [];
  }

  ghost predicate OnlyReads(events: seq<Event>) {
    forall k :: 0 <= k < |events| ==> events[k].Read? && events[k].size > 0
  }

  lemma {:induction false} ReadsDeliver(aead: Aead, start: nat, d: Dir, g: Ghosts, pulls: seq<Event>)
    requires aead.Lawful() && Inv(aead, start, d, g) && Flowing(g) && OnlyReads(pulls)
    ensures var g' := Play(aead, d, g, pulls).1;
      && g'.clean == g.clean && |g'.delivered| <= |g.clean|
      && (|g'.delivered| == |g.clean| || |g'.delivered| >= |g.delivered| + |pulls|)
    decreases |pulls|
  {
    if pulls == [] {
      BufferIsNext(aead, start, d, g);
    } else {
      var first, rest := [pulls[0]], pulls[1..];
      assert pulls == first + rest && pulls[0] == Read(pulls[0].size);
      PlayAppend(aead, d, g, first, rest);
      ReadProgress(aead, start, d, g, pulls[0].size);
      assert Writes(first) == 0 by {
        assert first[1..] == [];
      }
      PlayKeepsInv(aead, start, d, g, first);
      var (d', g') := Play(aead, d, g, first);
      BufferIsNext(aead, start, d, g);
      hide Inv, Play, Writes, Flowing;
      ReadsDeliver(aead, start, d', g', rest);
    }
  }

  /**
    If no write is empty or too long, then after any run followed by k reads of at least one byte
    each, at least k bytes or all bytes were delivered; as many reads as bytes deliver everything.
  */
  lemma {:induction false} EnoughReadsDeliverAll(aead: Aead, start: nat, events: seq<Event>, pulls: seq<Event>)
    requires aead.Lawful() && start <= HALF && Writes(events) < HALF && GoodWrites(events) && OnlyReads(pulls)
    ensures var delivered := Play(aead, Opened(start), NOTHING, events + pulls).1.delivered;
      var written := WrittenBeforeRefusal(events);
      && delivered <= written
      && (|delivered| >= |pulls| || delivered == written)
      && (|pulls| >= |written| ==> delivered == written)
  {
    hide Inv, Play, Writes, GoodWrites, OnlyReads, WrittenBeforeRefusal, Aead.Lawful;
    OpenedKeepsInv(aead, start);
    PlayKeepsInv(aead, start, Opened(start), NOTHING, events);
    PlayFlows(aead, start, Opened(start), NOTHING, events);
    CleanIsWritten(aead, start, Opened(start), NOTHING, events);
    var (d, g) := Play(aead, Opened(start), NOTHING, events);
    PlayAppend(aead, Opened(start), NOTHING, events, pulls);
    ReadsDeliver(aead, start, d, g, pulls);
    ReadsWriteNothing(pulls);
    PlayCountsWrites(aead, Opened(start), NOTHING, events);
    PlayKeepsInv(aead, start, d, g, pulls);
    var (d', g') := Play(aead, d, g, pulls);
    BufferIsNext(aead, start, d', g');
    assert [] + WrittenBeforeRefusal(events) == WrittenBeforeRefusal(events);
  }

  lemma {:induction false} ReadsWriteNothing(pulls: seq<Event>)
    requires OnlyReads(pulls)
    ensures Writes(pulls) == 0
  {
    if pulls == [] {
    } else {
      ReadsWriteNothing(pulls[1..]);
    }
  }

  lemma {:induction false} TwoBytes(n: nat)
    requires n < 0x1_0000
    ensures BigEndian(n, 2) == [n / 0x100, n % 0x100]
  {
    assert BigEndian(n / 0x100, 1) == [n / 0x100];
  }

  /** The longest write that is sent has 65514 bytes: its record still has a length that fits 16 bits. */
  lemma {:induction false} LongestWrite(aead: Aead, d: Dir, b: bytes)
    requires aead.Lawful()
    ensures WriteStep(aead, d, b).1 <==> |b| <= 65_514
    ensures WriteStep(aead, d, b).1 ==>
      WriteStep(aead, d, b).0.wire == d.wire + ([(|b| + 16) / 0x100, (|b| + 16) % 0x100] + aead.seal(d.sendNonce, b))
    ensures !WriteStep(aead, d, b).1 ==> WriteStep(aead, d, b).0.wire == d.wire
  {
    if |b| <= 65_514 {
      TwoBytes(|b| + 16);
    }
  }

  // ----- Nonces of the two directions -----

  /** The nonce of the next record is the number of writes away from the first. */
  lemma {:induction false} NonceAfter(aead: Aead, start: nat, events: seq<Event>)
    requires aead.Lawful() && start <= HALF && Writes(events) < HALF
    ensures Play(aead, Opened(start), NOTHING, events).0.sendNonce == start + Writes(events)
  {
    assert Inv(aead, start, Opened(start), NOTHING);
    hide Play, Writes;
    PlayKeepsInv(aead, start, Opened(start), NOTHING, events);
    PlayCountsWrites(aead, Opened(start), NOTHING, events);
  }

  /**
    Dial starts at 2^63 and the listener at 0. With fewer than 2^63 writes on each side, the nonce
    the next record would be sealed with lies in disjoint halves, so no nonce is ever shared.
  */
  lemma {:induction false} NoncesStayDisjoint(aead: Aead, dialed: seq<Event>, accepted: seq<Event>)
    requires aead.Lawful() && Writes(dialed) < HALF && Writes(accepted) < HALF
    ensures var (d1, g1) := Play(aead, Opened(HALF), NOTHING, dialed);
      var (d2, g2) := Play(aead, Opened(0), NOTHING, accepted);
      d2.sendNonce < HALF <= d1.sendNonce < UINT64
  {
    hide Play, Writes;
    NonceAfter(aead, HALF, dialed);
    NonceAfter(aead, 0, accepted);
  }

  lemma {:induction false} PlayCountsWrites(aead: Aead, d: Dir, g: Ghosts, events: seq<Event>)
    ensures Play(aead, d, g, events).1.writes == g.writes + Writes(events)
    decreases |events|
  {
    hide WriteStep, ReadStep;
    if events == [] {
    } else {
      match events[0]
      case Write(b) =>
        var (d', sent) := WriteStep(aead, d, b);
        PlayCountsWrites(aead, d', AfterWrite(g, d.sendNonce, b, sent), events[1..]);
      case Read(size) =>
        if Readable(d) {
          var (d', r) := ReadStep(aead, d, size);
          PlayCountsWrites(aead, d', AfterRead(d, g, r), events[1..]);
        } else {
          PlayCountsWrites(aead, d, g, events[1..]);
        }
    }
  }

  // ----- The connection -----

  /** One way of the underlying TCP connection: bytes sent and not yet read. */
  class Pipe {
    var data: bytes

    constructor ()
      ensures data == []
    {
      data := [];
    }
  }

  class LNDConn {
    const aead: Aead
    const outgoing: Pipe
    const incoming: Pipe
    var myNonceInt: nat
    var remoteNonceInt: nat
    var readBuf: bytes

    /** The nonces that Dial sets. */
    constructor Dialed(aead: Aead, outgoing: Pipe, incoming: Pipe)
      ensures this.aead == aead && this.outgoing == outgoing && this.incoming == incoming
      ensures myNonceInt == 0x8000_0000_0000_0000 && remoteNonceInt == 0 && readBuf == []
    {
      this.aead, this.outgoing, this.incoming := aead, outgoing, incoming;
      myNonceInt, remoteNonceInt, readBuf := HALF, 0, [];
    }

    /** The nonces that createCipherConn sets. */
    constructor Accepted(aead: Aead, outgoing: Pipe, incoming: Pipe)
      ensures this.aead == aead && this.outgoing == outgoing && this.incoming == incoming
      ensures myNonceInt == 0 && remoteNonceInt == 0x8000_0000_0000_0000 && readBuf == []
    {
      this.aead, this.outgoing, this.incoming := aead, outgoing, incoming;
      myNonceInt, remoteNonceInt, readBuf := 0, HALF, [];
    }

    /** This end of the outgoing direction; the other end's part is whatever it is. */
    ghost function Sending(recvNonce: nat, buffered: bytes): Dir
      reads this, outgoing
    {
      Dir(myNonceInt, outgoing.data, recvNonce, buffered)
    }

    ghost function Receiving(sendNonce: nat): Dir
      reads this, incoming
    {
      Dir(sendNonce, incoming.data, remoteNonceInt, readBuf)
    }

    /** Write; a nil slice is refused before a nonce is used. The count returned includes the framing. */
    method Write(b: Option<bytes>) returns (n: nat, ok: bool)
      requires aead.Lawful()
      modifies this`myNonceInt, outgoing
      ensures b.None? ==> !ok && n == 0 && myNonceInt == old(myNonceInt) && outgoing.data == old(outgoing.data)
      ensures b.Some? ==> forall m: nat, x ::
        (Sending(m, x), ok) == WriteStep(aead, old(Dir(myNonceInt, outgoing.data, 0, [])).(recvNonce := m, readBuf := x), b.value)
      ensures ok ==> n == 2 + |b.value| + OVERHEAD
    {
      if b.None? {
        return 0, false;
      }
      var c := aead.seal(myNonceInt, b.value);
      myNonceInt := NextNonce(myNonceInt);
      if |c| > MAX_CTEXT {
        return 0, false;
      }
      outgoing.data := outgoing.data + WriteClear(c);
      n, ok := |WriteClear(c)|, true;
    }

    /** Read, at the moment it can return: from the buffer, or after opening the next record. */
    method Read(size: nat) returns (r: ReadResult)
      requires readBuf != [] || ReadClear(incoming.data).Some?
      modifies this`remoteNonceInt, this`readBuf, incoming
      ensures forall m: nat ::
        (Receiving(m), r) == ReadStep(aead, old(Dir(0, incoming.data, remoteNonceInt, readBuf)).(sendNonce := m), size)
    {
      if readBuf == [] {
        var (ctext, rest) := ReadClear(incoming.data).value;
        incoming.data := rest;
        var nonce := remoteNonceInt;
        remoteNonceInt := NextNonce(remoteNonceInt);
        var msg := aead.open(nonce, ctext);
        if msg.None? {
          return DecryptFailed;
        }
        readBuf := msg.value;
      }
      if readBuf == [] {
        return if size == 0 then Got([]) else Eof;
      }
      var n := if size < |readBuf| then size else |readBuf|;
      r := Got(readBuf[..n]);
      readBuf := readBuf[n..];
    }
  }
}
