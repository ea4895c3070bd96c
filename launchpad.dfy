/**
 * The dirg Launchpad driver logic: the mapping between buttons and 3-byte
 * MIDI messages, the write cache that suppresses repeated messages, the
 * packing of queued messages into 8-byte USB packets with running status,
 * and the decoding of received packets. libusb, the driver thread and its
 * mutex are not modelled; the `signal_` callback is recorded as the
 * sequence of presses it was given.
 */
module Launchpad {
  import opened Wrappers
  import opened DirgPad

  type byte = x: int | 0 <= x < 0x100

  /** Status of a horizontal-margin ("live") message. */
  const LIVE: byte := 176
  /** Status of a grid or vertical-margin message. */
  const MATRIX: byte := 144
  /** Filler byte for the unused tail of a USB packet. */
  const JUNK: byte := 145
  /** Size of a USB packet. */
  const PACKET: nat := 8

  datatype Msg = Msg(status: byte, d1: byte, d2: byte)

  /** What handleMidi reports through signal_: a button and whether it is pressed. */
  datatype Press = Press(id: ButtonID, pressed: bool)

  /** handleMidi: decodes one 3-byte message. */
  function HandleMidi(m: Msg): Press
  {
    if m.status == LIVE then Press(ButtonID(MarginH, 0, m.d1 - 104), m.d2 == 127)
    else if m.d1 / 8 % 2 == 1 then Press(ButtonID(MarginV, m.d1 / 16, 0), m.d2 == 127)
    else Press(ButtonID(Grid, m.d1 / 16, m.d1 % 16), m.d2 == 127)
  }

  /** The message setButton writes for an id, or None when the id is out of range. */
  function ButtonMessage(id: ButtonID, velocity: byte): (m: Option<Msg>)
    ensures m.Some? <==> Addressable(id)
  {
    match id.group
    case Grid =>
      if 0 <= id.row <= 7 && 0 <= id.col <= 7 then Some(Msg(MATRIX, id.row * 16 + id.col, velocity)) else None
    case MarginH =>
      if 0 <= id.col <= 7 then Some(Msg(LIVE, 104 + id.col, velocity)) else None
    case MarginV =>
      if 0 <= id.row <= 7 then Some(Msg(MATRIX, id.row * 16 + 8, velocity)) else None
  }

  /** An id with the coordinate its group does not use set to zero, as handleMidi builds it. */
  function Canonical(id: ButtonID): ButtonID
  {
    match id.group
    case Grid => id
    case MarginH => id.(row := 0)
    case MarginV => id.(col := 0)
  }

  /**
   * Decoding the message setButton sends for an in-range button yields that
   * button (with its unused coordinate zero), pressed exactly when the
   * velocity is 127.
   */
  lemma DecodeButtonMessage(id: ButtonID, velocity: byte)
    requires Addressable(id)
    ensures ButtonMessage(id, velocity).Some?
    ensures HandleMidi(ButtonMessage(id, velocity).value) == Press(Canonical(id), velocity == 127)
  {
    match id.group {
      case Grid =>
        var d1 := id.row * 16 + id.col;
        assert d1 / 8 == 2 * id.row;
        assert d1 / 16 == id.row && d1 % 16 == id.col;
      case MarginH =>
      case MarginV =>
        var d1 := id.row * 16 + 8;
        assert d1 / 8 == 2 * id.row + 1;
        assert d1 / 16 == id.row;
    }
  }

  /**
   * Distinct buttons are sent with distinct (status, note) pairs, so the
   * write cache never conflates two buttons.
   */
  lemma ButtonMessageKeysDistinct(a: ButtonID, b: ButtonID, va: byte, vb: byte)
    requires Addressable(a) && Addressable(b) && Canonical(a) != Canonical(b)
    ensures var ma := ButtonMessage(a, va).value; var mb := ButtonMessage(b, vb).value;
      (ma.status, ma.d1) != (mb.status, mb.d1)
  {
    var ma := ButtonMessage(a, va).value;
    var mb := ButtonMessage(b, vb).value;
    DecodeButtonMessage(a, va);
    DecodeButtonMessage(b, vb);
  }

  // ---------------------------------------------------------------------
  // Packing the write queue into packets
  // ---------------------------------------------------------------------

  /** The queued bytes read as messages. */
  function Messages(q: seq<byte>): (ms: seq<Msg>)
    requires |q| % 3 == 0
    ensures |ms| == |q| / 3
  {
    if q == [] then [] else [Msg(q[0], q[1], q[2])] + Messages(q[3..])
  }

  /** Running status: a status byte is sent only when it differs from the previous one. */
  function RunningStatus(ms: seq<Msg>, last: int): seq<byte>
  {
    if ms == [] then [] else Encode(ms[0], last) + RunningStatus(ms[1..], ms[0].status)
  }

  /** One message after the status `last`: its status byte only when it differs. */
  function Encode(m: Msg, last: int): (bytes: seq<byte>)
    ensures |bytes| == (if m.status != last then 3 else 2)
  {
    if m.status != last then [m.status, m.d1, m.d2] else [m.d1, m.d2]
  }

  lemma RunningStatusCons(m: Msg, ms: seq<Msg>, last: int)
    ensures RunningStatus([m] + ms, last) == Encode(m, last) + RunningStatus(ms, m.status)
  {
    assert ([m] + ms)[1..] == ms;
  }

  datatype Fill = Fill(bytes: seq<byte>, consumed: nat)

  /** The bytes placed for the first queued message. */
  function Head(q: seq<byte>, last: int): (head: seq<byte>)
    requires |q| >= 3
    ensures |head| == (if q[0] != last then 3 else 2)
  {
    Encode(Msg(q[0], q[1], q[2]), last)
  }

  /**
   * The bytes handleWriteTransfer places from position `pos` on and how
   * many queued bytes it takes, given the queue still waiting and the
   * status last sent. The loop continues while `pos` is below both the
   * remaining queue size and the packet size.
   */
  function FillFrom(q: seq<byte>, last: int, pos: nat): (f: Fill)
    requires |q| % 3 == 0 && pos <= PACKET
    decreases |q|
  {
    if !(pos < |q| && pos < PACKET) then Fill([], 0)
    else
      var change := q[0] != last;
      if (change && pos > 5) || (!change && pos > 6) then Fill([], 0)
      else
        var head := Head(q, last);
        var rest := FillFrom(q[3..], q[0], pos + |head|);
        Fill(head + rest.bytes, 3 + rest.consumed)
  }

  /** A packet never overflows and takes only whole messages. */
  lemma {:induction false} FillFromBounds(q: seq<byte>, last: int, pos: nat)
    requires |q| % 3 == 0 && pos <= PACKET
    ensures var f := FillFrom(q, last, pos);
      pos + |f.bytes| <= PACKET && f.consumed % 3 == 0 && f.consumed <= |q|
    decreases |q|
  {
    if pos < |q| && pos < PACKET {
      var change := q[0] != last;
      if !((change && pos > 5) || (!change && pos > 6)) {
        var head := Head(q, last);
        var rest := FillFrom(q[3..], q[0], pos + |head|);
        FillFromBounds(q[3..], q[0], pos + |head|);
        assert FillFrom(q, last, pos) == Fill(head + rest.bytes, 3 + rest.consumed);
      }
    }
  }

  /** The bytes of a packet are exactly the running-status encoding of the messages it takes. */
  lemma {:induction false} FillFromSpec(q: seq<byte>, last: int, pos: nat)
    requires |q| % 3 == 0 && pos <= PACKET
    ensures FillFrom(q, last, pos).consumed <= |q| && FillFrom(q, last, pos).consumed % 3 == 0
    ensures var f := FillFrom(q, last, pos);
      f.bytes == RunningStatus(Messages(q[..f.consumed]), last)
    decreases |q|
  {
    FillFromBounds(q, last, pos);
    var f := FillFrom(q, last, pos);
    if f.consumed == 0 {
      assert q[..0] == [];
    } else {
      var head := Head(q, last);
      FillFromSpec(q[3..], q[0], pos + |head|);
      var rest := FillFrom(q[3..], q[0], pos + |head|);
      assert f == Fill(head + rest.bytes, 3 + rest.consumed);
      assert q[..f.consumed] == q[..3] + q[3..][..rest.consumed];
      MessagesCons(q[..3], q[3..][..rest.consumed]);
      RunningStatusCons(Msg(q[0], q[1], q[2]), Messages(q[3..][..rest.consumed]), last);
    }
  }

  lemma MessagesCons(m: seq<byte>, rest: seq<byte>)
    requires |m| == 3 && |rest| % 3 == 0
    ensures Messages(m + rest) == [Msg(m[0], m[1], m[2])] + Messages(rest)
  {
    assert (m + rest)[3..] == rest;
  }

  /** A packet started on a non-empty queue takes at least one message. */
  lemma FillFromProgress(q: seq<byte>, last: int)
    requires |q| % 3 == 0 && |q| > 0
    ensures FillFrom(q, last, 0).consumed >= 3
  {
  }

  /** With the status reset to 0, a non-empty packet starts with the status byte of its first message. */
  lemma FillFromStartsWithStatus(q: seq<byte>)
    requires |q| % 3 == 0 && |q| > 0 && q[0] != 0
    ensures FillFrom(q, 0, 0).bytes[0] == q[0]
  {
  }

  /** One turn of the packing loop: a message that fits is placed, then the rest is packed. */
  lemma FillStep(q: seq<byte>, last: int, pos: nat)
    requires |q| % 3 == 0 && pos < |q| && pos < PACKET
    requires !((q[0] != last && pos > 5) || (q[0] == last && pos > 6))
    ensures |q| >= 3
    ensures var head := Head(q, last);
      var rest := FillFrom(q[3..], q[0], pos + |head|);
      FillFrom(q, last, pos) == Fill(head + rest.bytes, 3 + rest.consumed)
  {
  }

  /** A queue of whole messages that is not empty holds a first message and whole messages after it. */
  lemma DropMessage(q: seq<byte>)
    requires |q| % 3 == 0 && |q| > 0
    ensures |q| >= 3 && |q[3..]| % 3 == 0
  {
  }

  function Junk(n: nat): seq<byte>
  {
    seq(n, _ => JUNK)
  }

  /**
   * The packing loop of handleWriteTransfer: starting from the status last
   * sent, places whole messages with running status while they fit and the
   * position is below the remaining queue size; yields the packet bytes and
   * the queue left over.
   */
  method PackPacket(q: seq<byte>, status0: byte) returns (bytes: seq<byte>, remaining: seq<byte>)
    requires |q| % 3 == 0
    ensures var f := FillFrom(q, status0, 0);
      f.consumed <= |q| && bytes == f.bytes && remaining == q[f.consumed..]
  {
    var queue := q;
    var last := status0;
    ghost var f0 := FillFrom(q, status0, 0);
    var buffer: seq<byte> := [];
    var pos: nat := 0;
    ghost var taken: nat := 0;
    while pos < |queue| && pos < PACKET
      invariant pos == |buffer| && PackInv(q, f0, queue, last, buffer, taken)
      decreases |queue|
    {
      DropMessage(queue);
      var status := queue[0];
      var statusChange := status != last;
      if statusChange && pos > 5 {
        break;
      } else if !statusChange && pos > 6 {
        break;
      }
      PackStep(q, f0, queue, last, buffer, taken);
      var head := Head(queue, last);
      buffer := buffer + head;
      pos := pos + |head|;
      last := status;
      queue := queue[3..];
      taken := taken + 3;
    }
    PackDone(q, f0, queue, last, buffer, taken);
    bytes := buffer;
    remaining := queue;
  }

  /** The invariant of the packing loop: what is placed plus what is still to be placed is the whole fill. */
  ghost predicate PackInv(q: seq<byte>, f0: Fill, queue: seq<byte>, last: int, buffer: seq<byte>, taken: nat)
  {
    && |queue| % 3 == 0 && |buffer| <= PACKET
    && taken <= |q| && queue == q[taken..]
    && var r := FillFrom(queue, last, |buffer|); f0 == Fill(buffer + r.bytes, taken + r.consumed)
  }

  /** A turn of the packing loop that places a message keeps the invariant. */
  lemma PackStep(q: seq<byte>, f0: Fill, queue: seq<byte>, last: int, buffer: seq<byte>, taken: nat)
    requires PackInv(q, f0, queue, last, buffer, taken)
    requires |buffer| < |queue| && |buffer| < PACKET
    requires !((queue[0] != last && |buffer| > 5) || (queue[0] == last && |buffer| > 6))
    ensures |queue| >= 3
    ensures PackInv(q, f0, queue[3..], queue[0], buffer + Head(queue, last), taken + 3)
  {
    DropMessage(queue);
    var head := Head(queue, last);
    var buffer' := buffer + head;
    FillStep(queue, last, |buffer|);
    var rest := FillFrom(queue[3..], queue[0], |buffer'|);
    calc {
      f0;
      Fill(buffer + (head + rest.bytes), taken + (3 + rest.consumed));
      { assert buffer + (head + rest.bytes) == buffer' + rest.bytes; }
      Fill(buffer' + rest.bytes, (taken + 3) + rest.consumed);
    }
    DropPrefix(q, taken, queue);
  }

  /** Dropping a message from the unplaced queue moves the taken count on by three. */
  lemma DropPrefix(q: seq<byte>, taken: nat, queue: seq<byte>)
    requires taken <= |q| && queue == q[taken..] && |queue| >= 3
    ensures taken + 3 <= |q| && queue[3..] == q[taken + 3..]
  {
  }

  /** When the packing loop stops, the bytes placed are the whole fill. */
  lemma PackDone(q: seq<byte>, f0: Fill, queue: seq<byte>, last: int, buffer: seq<byte>, taken: nat)
    requires PackInv(q, f0, queue, last, buffer, taken)
    requires !(|buffer| < |queue| && |buffer| < PACKET)
      || (|queue| > 0 && ((queue[0] != last && |buffer| > 5) || (queue[0] == last && |buffer| > 6)))
    ensures buffer == f0.bytes && taken == f0.consumed && queue == q[f0.consumed..]
  {
    assert FillFrom(queue, last, |buffer|) == Fill([], 0);
    assert buffer + [] == buffer;
  }

  // ---------------------------------------------------------------------
  // Decoding received packets
  // ---------------------------------------------------------------------

  /** The transfer buffer's byte at j; past its end, the byte the overrunning read finds. */
  function ByteAt(buffer: seq<byte>, j: nat, overrun: byte): byte
  {
    if j < |buffer| then buffer[j] else overrun
  }

  datatype ReadResult = ReadResult(presses: seq<Press>, matrix: bool)

  /**
   * handleReadTransfer from index i: LIVE and MATRIX switch the mode; any
   * other byte starts a pair with the byte after it, which is dispatched
   * under the current mode's status.
   */
  function ReadFrom(buffer: seq<byte>, n: nat, i: nat, matrix: bool, overrun: byte): ReadResult
    decreases n - i
  {
    if i >= n then ReadResult([], matrix)
    else
      var b := ByteAt(buffer, i, overrun);
      if b == LIVE then ReadFrom(buffer, n, i + 1, false, overrun)
      else if b == MATRIX then ReadFrom(buffer, n, i + 1, true, overrun)
      else
        var p := HandleMidi(Msg(if matrix then MATRIX else LIVE, b, ByteAt(buffer, i + 1, overrun)));
        var rest := ReadFrom(buffer, n, i + 2, matrix, overrun);
        ReadResult([p] + rest.presses, rest.matrix)
  }

  predicate IsDataByte(b: byte) { b < 128 }

  /** Messages the pad can exchange: LIVE or MATRIX status and 7-bit data. */
  predicate PadMessages(ms: seq<Msg>)
  {
    forall k :: 0 <= k < |ms| ==> ms[k].status in {LIVE, MATRIX} && IsDataByte(ms[k].d1) && IsDataByte(ms[k].d2)
  }

  function DecodeAll(ms: seq<Msg>): (ps: seq<Press>)
    ensures |ps| == |ms| && forall k :: 0 <= k < |ms| ==> ps[k] == HandleMidi(ms[k])
  {
    if ms == [] then [] else [HandleMidi(ms[0])] + DecodeAll(ms[1..])
  }

  /** The read mode agrees with the status last sent, when that was LIVE or MATRIX. */
  predicate ModeAgrees(last: int, matrix: bool)
  {
    (last == LIVE ==> !matrix) && (last == MATRIX ==> matrix)
  }

  /**
   * Reading a running-status stream of pad messages decodes every message:
   * the mode switches of the reader undo the status elision of the writer.
   */
  lemma {:induction false} ReadRunningStatus(ms: seq<Msg>, last: int, matrix: bool, rest: seq<byte>, overrun: byte)
    requires PadMessages(ms) && ModeAgrees(last, matrix)
    ensures var enc := RunningStatus(ms, last);
      ReadFrom(enc + rest, |enc|, 0, matrix, overrun).presses == DecodeAll(ms)
    decreases |ms|
  {
    if ms != [] {
      var m := ms[0];
      var e := Encode(m, last);
      var tail := RunningStatus(ms[1..], m.status);
      var matrix' := m.status == MATRIX;
      assert PadMessages(ms[1..]) by {
        forall k | 0 <= k < |ms[1..]| ensures ms[1..][k] == ms[k + 1] { }
      }
      ReadRunningStatus(ms[1..], m.status, matrix', rest, overrun);
      assert RunningStatus(ms, last) + rest == e + (tail + rest);
      ReadOne(m, last, matrix, tail + rest, |tail|, overrun);
      ReadShift(e, tail + rest, |tail|, matrix', overrun);
    }
  }

  /** Reading one encoded pad message dispatches it and leaves the mode at its status. */
  lemma ReadOne(m: Msg, last: int, matrix: bool, s: seq<byte>, k: nat, overrun: byte)
    requires m.status in {LIVE, MATRIX} && IsDataByte(m.d1) && ModeAgrees(last, matrix)
    ensures var e := Encode(m, last);
      var r := ReadFrom(e + s, |e| + k, |e|, m.status == MATRIX, overrun);
      ReadFrom(e + s, |e| + k, 0, matrix, overrun) == ReadResult([HandleMidi(m)] + r.presses, r.matrix)
  {
    var e := Encode(m, last);
    var matrix' := m.status == MATRIX;
    if m.status != last {
      assert ReadFrom(e + s, |e| + k, 0, matrix, overrun) == ReadFrom(e + s, |e| + k, 1, matrix', overrun);
    }
  }

  /** Reading after a prefix equals reading the remainder on its own. */
  lemma {:induction false} ReadShift(pre: seq<byte>, s: seq<byte>, n: nat, matrix: bool, overrun: byte)
    ensures ReadFrom(pre + s, |pre| + n, |pre|, matrix, overrun) == ReadFrom(s, n, 0, matrix, overrun)
  {
    ReadShiftFrom(pre, s, n, 0, matrix, overrun);
  }

  lemma {:induction false} ReadShiftFrom(pre: seq<byte>, s: seq<byte>, n: nat, i: nat, matrix: bool, overrun: byte)
    ensures ReadFrom(pre + s, |pre| + n, |pre| + i, matrix, overrun) == ReadFrom(s, n, i, matrix, overrun)
    decreases n - i
  {
    if i < n {
      assert ByteAt(pre + s, |pre| + i, overrun) == ByteAt(s, i, overrun);
      assert ByteAt(pre + s, |pre| + i + 1, overrun) == ByteAt(s, i + 1, overrun);
      ReadShiftFrom(pre, s, n, i + 1, false, overrun);
      ReadShiftFrom(pre, s, n, i + 1, true, overrun);
      ReadShiftFrom(pre, s, n, i + 2, matrix, overrun);
    }
  }

  // ---------------------------------------------------------------------
  // The driver state
  // ---------------------------------------------------------------------

  /** cache_[key]: the entry, or the 0 that operator[] inserts. */
  function Cached(cache: map<(byte, byte), byte>, key: (byte, byte)): byte
  {
    if key in cache then cache[key] else 0
  }

  /** The keys fillCache sets: statuses 128, 144, 146 and 176 with every note 0..127. */
  predicate FilledKey(key: (byte, byte))
  {
    key.0 in {128, 144, 146, 176} && key.1 < 128
  }

  class LaunchpadState {
    var cache: map<(byte, byte), byte>
    var writeData: seq<byte>
    var lastMidiStatus: byte
    var isMatrixMidiData: bool
    /** Everything handleMidi passed to signal_, in order. */
    var signals: seq<Press>

    ghost predicate Valid()
      reads this
    {
      |writeData| % 3 == 0
    }

    constructor ()
      ensures Valid()
      ensures cache == map[] && writeData == [] && lastMidiStatus == 0 && !isMatrixMidiData && signals == []
    {
      cache := map[];
      writeData := [];
      lastMidiStatus := 0;
      isMatrixMidiData := false;
      signals := [];
    }

    /**
     * writeMidi: the message is queued only when the cache holds a
     * different value for (b1, b2); afterwards the cache holds b3 there.
     */
    method WriteMidi(b1: byte, b2: byte, b3: byte)
      requires Valid()
      modifies this
      ensures Valid()
      ensures writeData == old(writeData) + (if Cached(old(cache), (b1, b2)) != b3 then [b1, b2, b3] else [])
      ensures cache == old(cache)[(b1, b2) := b3]
      ensures lastMidiStatus == old(lastMidiStatus) && isMatrixMidiData == old(isMatrixMidiData)
      ensures signals == old(signals)
    {
      var key := (b1, b2);
      var current := Cached(cache, key);
      cache := cache[key := current];
      if current != b3 {
        writeData := writeData + [b1, b2, b3];
        cache := cache[key := b3];
      }
    }

    /** setButton: writes the button's message, ignoring out-of-range ids. */
    method SetButton(id: ButtonID, velocity: byte)
      requires Valid()
      modifies this
      ensures Valid()
      ensures ButtonMessage(id, velocity).None? ==>
        writeData == old(writeData) && cache == old(cache)
      ensures ButtonMessage(id, velocity).Some? ==>
        var m := ButtonMessage(id, velocity).value;
        && writeData == old(writeData) + (if Cached(old(cache), (m.status, m.d1)) != velocity then [m.status, m.d1, velocity] else [])
        && cache == old(cache)[(m.status, m.d1) := velocity]
      ensures lastMidiStatus == old(lastMidiStatus) && isMatrixMidiData == old(isMatrixMidiData)
      ensures signals == old(signals)
    {
      var row := id.row;
      var col := id.col;
      match id.group {
        case Grid =>
          if row >= 0 && row <= 7 && col >= 0 && col <= 7 {
            WriteMidi(MATRIX, row * 16 + col, velocity);
          }
        case MarginH =>
          if col >= 0 && col <= 7 {
            WriteMidi(LIVE, 104 + col, velocity);
          }
        case MarginV =>
          if row >= 0 && row <= 7 {
            WriteMidi(MATRIX, row * 16 + 8, velocity);
          }
      }
    }

    /** fillCache: the filled keys map to 0; every other entry is kept. */
    method FillCache()
      requires Valid()
      modifies this
      ensures Valid()
      ensures forall key :: FilledKey(key) ==> key in cache && cache[key] == 0
      ensures forall key :: !FilledKey(key) ==> (key in cache <==> key in old(cache))
      ensures forall key :: !FilledKey(key) && key in cache ==> cache[key] == old(cache)[key]
      ensures writeData == old(writeData) && lastMidiStatus == old(lastMidiStatus)
      ensures isMatrixMidiData == old(isMatrixMidiData) && signals == old(signals)
    {
      var c := cache;
      var i := 0;
      while i < 128
        invariant 0 <= i <= 128
        invariant forall key :: FilledKey(key) && key.1 < i ==> key in c && c[key] == 0
        invariant forall key :: !(FilledKey(key) && key.1 < i) ==> (key in c <==> key in cache)
        invariant forall key :: !(FilledKey(key) && key.1 < i) && key in c ==> c[key] == cache[key]
      {
        c := c[(128, i) := 0];
        c := c[(144, i) := 0];
        c := c[(146, i) := 0];
        c := c[(176, i) := 0];
        i := i + 1;
      }
      cache := c;
    }

    /**
     * handleWriteTransfer: fills one 8-byte packet from the queue with
     * running status, pads it with JUNK and resets the running status.
     */
    method HandleWriteTransfer() returns (packet: seq<byte>)
      requires Valid()
      modifies this
      ensures Valid()
      ensures |packet| == PACKET
      ensures old(writeData) == [] ==>
        packet == Junk(PACKET) && writeData == [] && lastMidiStatus == old(lastMidiStatus)
      ensures old(writeData) != [] ==>
        var f := FillFrom(old(writeData), old(lastMidiStatus), 0);
        && |f.bytes| <= PACKET && f.consumed <= |old(writeData)|
        && packet == f.bytes + Junk(PACKET - |f.bytes|)
        && writeData == old(writeData)[f.consumed..]
        && lastMidiStatus == 0
      ensures cache == old(cache) && isMatrixMidiData == old(isMatrixMidiData) && signals == old(signals)
    {
      if writeData == [] {
        packet := Junk(PACKET);
        return;
      }
      FillFromBounds(writeData, lastMidiStatus, 0);
      var bytes, remaining := PackPacket(writeData, lastMidiStatus);
      packet := bytes + Junk(PACKET - |bytes|);
      writeData := remaining;
      lastMidiStatus := 0;
    }

    /**
     * handleReadTransfer over the first `actualLength` bytes of the
     * transfer buffer; `overrun` is what the read one past the buffer
     * finds when a pair starts at its last byte.
     */
    method HandleReadTransfer(buffer: seq<byte>, actualLength: nat, overrun: byte)
      modifies this
      ensures var r := ReadFrom(buffer, actualLength, 0, old(isMatrixMidiData), overrun);
        signals == old(signals) + r.presses && isMatrixMidiData == r.matrix
      ensures cache == old(cache) && writeData == old(writeData) && lastMidiStatus == old(lastMidiStatus)
    {
      var i := 0;
      while i < actualLength
        invariant signals + ReadFrom(buffer, actualLength, i, isMatrixMidiData, overrun).presses
          == old(signals) + ReadFrom(buffer, actualLength, 0, old(isMatrixMidiData), overrun).presses
        invariant ReadFrom(buffer, actualLength, i, isMatrixMidiData, overrun).matrix
          == ReadFrom(buffer, actualLength, 0, old(isMatrixMidiData), overrun).matrix
        invariant cache == old(cache) && writeData == old(writeData) && lastMidiStatus == old(lastMidiStatus)
        decreases actualLength - i
      {
        var b := ByteAt(buffer, i, overrun);
        if b == LIVE {
          isMatrixMidiData := false;
        } else if b == MATRIX {
          isMatrixMidiData := true;
        } else {
          var status := if isMatrixMidiData then MATRIX else LIVE;
          i := i + 1;
          var p := HandleMidi(Msg(status, b, ByteAt(buffer, i, overrun)));
          signals := signals + [p];
        }
        i := i + 1;
      }
    }
  }
}
