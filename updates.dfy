/**
 * Machina's update stream: the engine writes "set property" records into a
 * byte queue and the client reads them back. A record is the update tag,
 * the 64-bit subject id, the 32-bit key and a tagged atom. Multi-byte
 * fields are little-endian; the atom type tag and int/bool payloads take 4
 * bytes and string lengths take 8 (the width of size_t).
 */
module MachinaUpdates {
  import opened Wrappers

  type byte = x: int | 0 <= x < 0x100

  const UPDATE_SET: nat := 1

  /** Raul::Atom type tags, in the order of the atom type enumeration. */
  const NIL_TAG: nat := 0
  const INT_TAG: nat := 1
  const FLOAT_TAG: nat := 2
  const BOOL_TAG: nat := 3
  const URI_TAG: nat := 4
  const STRING_TAG: nat := 5

  /**
   * An atom. A float is held as its 32-bit pattern; strings and URIs as the
   * bytes of a C string, without the terminating zero.
   */
  datatype Atom = Nil | Int(i: int) | Float(bits: nat) | Bool(b: bool) | Uri(text: seq<byte>) | String(text: seq<byte>)

  /** An atom write_atom accepts: not nil, int in 32 bits, float in 32 bits, text without a zero byte. */
  predicate Writable(a: Atom)
  {
    match a
    case Nil => false
    case Int(i) => -0x8000_0000 <= i < 0x8000_0000
    case Float(bits) => bits < 0x1_0000_0000
    case Bool(_) => true
    case Uri(text) => NoZero(text) && |text| + 1 < SIZE_LIMIT
    case String(text) => NoZero(text) && |text| + 1 < SIZE_LIMIT
  }

  /** One more than the largest size_t. */
  const SIZE_LIMIT: nat := 0x1_0000_0000_0000_0000

  predicate NoZero(text: seq<byte>)
  {
    forall i :: 0 <= i < |text| ==> text[i] != 0
  }

  /** An int32_t as its two's-complement bit pattern, and back. */
  function Unsigned32(i: int): (n: nat)
    requires -0x8000_0000 <= i < 0x8000_0000
    ensures n < 0x1_0000_0000
  {
    if i < 0 then i + 0x1_0000_0000 else i
  }

  function Signed32(n: nat): (i: int)
    requires n < 0x1_0000_0000
    ensures -0x8000_0000 <= i < 0x8000_0000
  {
    if n < 0x8000_0000 then n else n - 0x1_0000_0000
  }

  /** The four bytes of a 32-bit value, least significant first. */
  function Word(n: nat): (r: seq<byte>)
    ensures |r| == 4
  {
    var q1 := n / 0x100;
    var q2 := q1 / 0x100;
    var q3 := q2 / 0x100;
    [n % 0x100, q1 % 0x100, q2 % 0x100, q3 % 0x100]
  }

  function FromWord(b: seq<byte>): (n: nat)
    requires |b| == 4
    ensures n < 0x1_0000_0000
  {
    b[0] as int + 0x100 * (b[1] as int + 0x100 * (b[2] as int + 0x100 * b[3] as int))
  }

  lemma FromWordOfWord(n: nat)
    requires n < 0x1_0000_0000
    ensures FromWord(Word(n)) == n
  {
    var q3 := n / 0x100 / 0x100 / 0x100;
    assert q3 < 0x100;
  }

  /** The eight bytes of a 64-bit value, least significant first. */
  function Long(n: nat): (r: seq<byte>)
    ensures |r| == 8
  {
    Word(n % 0x1_0000_0000) + Word(n / 0x1_0000_0000)
  }

  function FromLong(b: seq<byte>): (n: nat)
    requires |b| == 8
    ensures n < SIZE_LIMIT
  {
    FromWord(b[..4]) + 0x1_0000_0000 * FromWord(b[4..])
  }

  lemma FromLongOfLong(n: nat)
    requires n < SIZE_LIMIT
    ensures FromLong(Long(n)) == n
  {
    FromWordOfWord(n % 0x1_0000_0000);
    FromWordOfWord(n / 0x1_0000_0000);
    assert Long(n)[..4] == Word(n % 0x1_0000_0000);
  }

  /** The text of a C string read from b: the bytes before the first zero. */
  function CString(b: seq<byte>): (r: seq<byte>)
    ensures |r| <= |b| && r == b[..|r|] && NoZero(r)
    ensures |r| < |b| ==> b[|r|] == 0
  {
    if b == [] || b[0] == 0 then [] else [b[0]] + CString(b[1..])
  }

  lemma {:induction false} CStringOfTerminated(text: seq<byte>)
    requires NoZero(text)
    ensures CString(text + [0]) == text
  {
    if text != [] {
      assert (text + [0])[1..] == text[1..] + [0];
      CStringOfTerminated(text[1..]);
    }
  }

  /**
   * write_atom as written: the type tag, then the payload. The FLOAT branch
   * stores the value in the integer temporary and writes the uninitialised
   * float temporary, whose bytes are `stale`. Strings and URIs are written
   * as their length including the terminating zero, then those bytes.
   */
  function EncodeAtom(a: Atom, stale: nat): (r: seq<byte>)
    requires Writable(a) && stale < 0x1_0000_0000
  {
    Word(TagOf(a)) + Payload(a, stale)
  }

  function TagOf(a: Atom): nat
  {
    match a
    case Nil => NIL_TAG
    case Int(_) => INT_TAG
    case Float(_) => FLOAT_TAG
    case Bool(_) => BOOL_TAG
    case Uri(_) => URI_TAG
    case String(_) => STRING_TAG
  }

  /** What write_atom writes after the tag. */
  function Payload(a: Atom, stale: nat): (r: seq<byte>)
    requires Writable(a) && stale < 0x1_0000_0000
  {
    match a
    case Int(i) => Word(Unsigned32(i))
    case Float(_) => Word(stale)
    case Bool(b) => Word(if b then 1 else 0)
    case String(text) => Long(|text| + 1) + (text + [0])
    case Uri(text) => Long(|text| + 1) + (text + [0])
  }

  /** write_atom with the FLOAT branch writing the float itself. */
  function EncodeAtomFixed(a: Atom): (r: seq<byte>)
    requires Writable(a)
  {
    EncodeAtom(a, if a.Float? then a.bits else 0)
  }

  /** A decoded value and the number of bytes it took. */
  datatype Decoded<T> = Decoded(value: T, size: nat)

  /**
   * read_atom on the queue contents b: the atom and the byte count it
   * returns (4 for the tag plus the payload, and for strings 8 more for the
   * length). None when the tag is unknown, a bool is neither 0 nor 1 (both
   * are assertions in the source), or the queue runs short.
   */
  function DecodeAtom(b: seq<byte>): (r: Option<Decoded<Atom>>)
    ensures r.Some? ==> 4 <= r.value.size <= |b|
  {
    if |b| < 4 then None
    else
      var tag := FromWord(b[..4]);
      if tag == INT_TAG || tag == FLOAT_TAG || tag == BOOL_TAG then
        if |b| < 8 then None
        else
          var word := FromWord(b[4..8]);
          if tag == INT_TAG then Some(Decoded(Int(Signed32(word)), 8))
          else if tag == FLOAT_TAG then Some(Decoded(Float(word), 8))
          else if word == 0 || word == 1 then Some(Decoded(Bool(word == 1), 8))
          else None
      else if tag == STRING_TAG || tag == URI_TAG then
        if |b| < 12 then None
        else
          var n := FromLong(b[4..12]);
          if |b| < 12 + n then None
          else
            var text := CString(b[12..12 + n]);
            Some(Decoded(if tag == STRING_TAG then String(text) else Uri(text), 12 + n))
      else None
  }

  lemma WordPrefix(n: nat, rest: seq<byte>)
    requires n < 0x1_0000_0000
    ensures (Word(n) + rest)[..4] == Word(n) && (Word(n) + rest)[4..] == rest
    ensures FromWord(Word(n)) == n
  {
    FromWordOfWord(n);
  }

  /**
   * Every atom but a float reads back as written, with the byte count
   * written, whatever follows it in the queue.
   */
  lemma {:induction false} DecodeEncodeAtom(a: Atom, stale: nat, rest: seq<byte>)
    requires Writable(a) && !a.Float? && stale < 0x1_0000_0000
    ensures DecodeAtom(EncodeAtom(a, stale) + rest) == Some(Decoded(a, |EncodeAtom(a, stale)|))
  {
    DecodeEncodeFixed(a, rest);
  }

  /** With the FLOAT branch corrected, every atom reads back as written. */
  lemma {:induction false} DecodeEncodeFixed(a: Atom, rest: seq<byte>)
    requires Writable(a)
    ensures DecodeAtom(EncodeAtomFixed(a) + rest) == Some(Decoded(a, |EncodeAtomFixed(a)|))
  {
    var b := EncodeAtomFixed(a) + rest;
    match a
    case Int(i) =>
      WordPrefix(INT_TAG, Word(Unsigned32(i)) + rest);
      assert b == Word(INT_TAG) + (Word(Unsigned32(i)) + rest);
      WordPrefix(Unsigned32(i), rest);
      assert b[4..8] == Word(Unsigned32(i));
    case Float(bits) =>
      WordPrefix(FLOAT_TAG, Word(bits) + rest);
      assert b == Word(FLOAT_TAG) + (Word(bits) + rest);
      WordPrefix(bits, rest);
      assert b[4..8] == Word(bits);
    case Bool(v) =>
      var w := if v then 1 else 0;
      WordPrefix(BOOL_TAG, Word(w) + rest);
      assert b == Word(BOOL_TAG) + (Word(w) + rest);
      WordPrefix(w, rest);
      assert b[4..8] == Word(w);
    case String(text) =>
      TextDecodes(STRING_TAG, text, rest);
    case Uri(text) =>
      TextDecodes(URI_TAG, text, rest);
  }

  lemma TextDecodes(tag: nat, text: seq<byte>, rest: seq<byte>)
    requires tag == STRING_TAG || tag == URI_TAG
    requires NoZero(text) && |text| + 1 < SIZE_LIMIT
    ensures var b := Word(tag) + (Long(|text| + 1) + (text + [0])) + rest;
      DecodeAtom(b) == Some(Decoded(if tag == STRING_TAG then String(text) else Uri(text), 12 + |text| + 1))
  {
    var b := Word(tag) + (Long(|text| + 1) + (text + [0])) + rest;
    var n := |text| + 1;
    FromWordOfWord(tag);
    assert b[..4] == Word(tag);
    FromLongOfLong(n);
    assert b[4..12] == Long(n);
    assert b[12..12 + n] == text + [0];
    CStringOfTerminated(text);
  }

  /**
   * The finding: as written, a float atom reads back as the stale bytes,
   * whatever its value; two different floats are written identically.
   */
  lemma FloatReadsStale(bits: nat, stale: nat, rest: seq<byte>)
    requires bits < 0x1_0000_0000 && stale < 0x1_0000_0000
    ensures DecodeAtom(EncodeAtom(Float(bits), stale) + rest) == Some(Decoded(Float(stale), 8))
    ensures EncodeAtom(Float(bits), stale) == EncodeAtom(Float(0), stale)
  {
    DecodeEncodeFixed(Float(stale), rest);
  }

  /** One set-property record: subject id, key and value. */
  datatype SetUpdate = SetUpdate(subject: nat, key: nat, value: Atom)

  predicate WritableSet(u: SetUpdate)
  {
    u.subject < SIZE_LIMIT && u.key < 0x1_0000_0000 && Writable(u.value)
  }

  /** write_set: the update tag, the subject, the key, then the atom. */
  function EncodeSet(u: SetUpdate, stale: nat): (r: seq<byte>)
    requires WritableSet(u) && stale < 0x1_0000_0000
  {
    Header(u.subject, u.key) + EncodeAtom(u.value, stale)
  }

  /**
   * read_set: the same fields in the same order; the count is the 16 header
   * bytes plus the atom's. None when the tag is not UPDATE_SET (an
   * assertion in the source) or the atom cannot be read.
   */
  function DecodeSet(b: seq<byte>): (r: Option<Decoded<SetUpdate>>)
    ensures r.Some? ==> 20 <= r.value.size <= |b|
  {
    if |b| < 16 || FromWord(b[..4]) != UPDATE_SET then None
    else
      match DecodeAtom(b[16..])
      case None => None
      case Some(d) => Some(Decoded(SetUpdate(FromLong(b[4..12]), FromWord(b[12..16]), d.value), 16 + d.size))
  }

  /** The 16 bytes that open a set-property record. */
  function Header(subject: nat, key: nat): (r: seq<byte>)
    ensures |r| == 16
  {
    Word(UPDATE_SET) + Long(subject) + Word(key)
  }

  lemma HeaderFields(subject: nat, key: nat, tail: seq<byte>)
    requires subject < SIZE_LIMIT && key < 0x1_0000_0000
    ensures var b := Header(subject, key) + tail;
      FromWord(b[..4]) == UPDATE_SET && FromLong(b[4..12]) == subject
      && FromWord(b[12..16]) == key && b[16..] == tail
  {
    var b := Header(subject, key) + tail;
    FromWordOfWord(UPDATE_SET);
    FromLongOfLong(subject);
    FromWordOfWord(key);
    assert b[..4] == Word(UPDATE_SET);
    assert b[4..12] == Long(subject);
    assert b[12..16] == Word(key);
  }

  /** A record without a float reads back exactly, with its whole length counted. */
  lemma {:induction false} DecodeEncodeSet(u: SetUpdate, stale: nat, rest: seq<byte>)
    requires WritableSet(u) && !u.value.Float? && stale < 0x1_0000_0000
    ensures DecodeSet(EncodeSet(u, stale) + rest) == Some(Decoded(u, |EncodeSet(u, stale)|))
  {
    var atom := EncodeAtom(u.value, stale);
    assert EncodeSet(u, stale) + rest == Header(u.subject, u.key) + (atom + rest);
    HeaderFields(u.subject, u.key, atom + rest);
    DecodeEncodeAtom(u.value, stale, rest);
  }

  /**
   * Records written one after another are read back one after another:
   * reading the first leaves exactly the second.
   */
  lemma RecordsInSequence(u: SetUpdate, v: SetUpdate, stale: nat)
    requires WritableSet(u) && WritableSet(v) && !u.value.Float? && stale < 0x1_0000_0000
    ensures var b := EncodeSet(u, stale) + EncodeSet(v, stale);
      DecodeSet(b) == Some(Decoded(u, |EncodeSet(u, stale)|)) && b[|EncodeSet(u, stale)|..] == EncodeSet(v, stale)
  {
    DecodeEncodeSet(u, stale, EncodeSet(v, stale));
  }

  /** The update queue: bytes are written at the back and read from the front. */
  class UpdateBuffer {
    var contents: seq<byte>

    constructor ()
      ensures contents == []
    {
      contents := [];
    }

    method Write(bytes: seq<byte>)
      modifies this
      ensures contents == old(contents) + bytes
    {
      contents := contents + bytes;
    }

    /** Reads n bytes from the front, or nothing when fewer are queued. */
    method Read(n: nat) returns (r: Option<seq<byte>>)
      modifies this
      ensures n <= |old(contents)| ==> r == Some(old(contents)[..n]) && contents == old(contents)[n..]
      ensures n > |old(contents)| ==> r.None? && contents == old(contents)
    {
      if n > |contents| {
        return None;
      }
      r := Some(contents[..n]);
      contents := contents[n..];
    }
  }

  /** write_atom: appends the atom's encoding; `stale` stands for the uninitialised float temporary. */
  method WriteAtom(buf: UpdateBuffer, value: Atom, stale: nat)
    requires Writable(value) && stale < 0x1_0000_0000
    modifies buf
    ensures buf.contents == old(buf.contents) + EncodeAtom(value, stale)
  {
    var tag := Word(TagOf(value));
    buf.Write(tag);
    ghost var tagged := buf.contents;
    ghost var payload := Payload(value, stale);
    match value {
      case Int(i) =>
        buf.Write(Word(Unsigned32(i)));
      case Float(_) =>
        buf.Write(Word(stale));
      case Bool(b) =>
        buf.Write(Word(if b then 1 else 0));
      case String(text) =>
        WriteText(buf, text);
      case Uri(text) =>
        WriteText(buf, text);
    }
    assert buf.contents == tagged + payload;
    assert EncodeAtom(value, stale) == tag + payload;
    Concatenated(old(buf.contents), tag, payload);
  }

  /** The string branches of write_atom: the length with its terminator, then the bytes. */
  method WriteText(buf: UpdateBuffer, text: seq<byte>)
    requires |text| + 1 < SIZE_LIMIT
    modifies buf
    ensures buf.contents == old(buf.contents) + (Long(|text| + 1) + (text + [0]))
  {
    var size := Long(|text| + 1);
    buf.Write(size);
    buf.Write(text + [0]);
    Concatenated(old(buf.contents), size, text + [0]);
  }

  lemma Concatenated(a: seq<byte>, b: seq<byte>, c: seq<byte>)
    ensures a + b + c == a + (b + c)
  {
  }

  /**
   * read_atom: consumes the atom's bytes and returns the atom with its byte
   * count; on failure what was read stays consumed.
   */
  method ReadAtom(buf: UpdateBuffer) returns (r: Option<Decoded<Atom>>)
    modifies buf
    ensures r == DecodeAtom(old(buf.contents))
    ensures r.Some? ==> buf.contents == old(buf.contents)[r.value.size..]
  {
    ghost var b := buf.contents;
    var tagBytes := buf.Read(4);
    if tagBytes.None? {
      return None;
    }
    var tag := FromWord(tagBytes.value);
    assert buf.contents == b[4..];
    if tag == INT_TAG || tag == FLOAT_TAG || tag == BOOL_TAG {
      var wordBytes := buf.Read(4);
      if wordBytes.None? {
        return None;
      }
      assert wordBytes.value == b[4..8] && buf.contents == b[8..];
      var word := FromWord(wordBytes.value);
      if tag == INT_TAG {
        r := Some(Decoded(Int(Signed32(word)), 8));
      } else if tag == FLOAT_TAG {
        r := Some(Decoded(Float(word), 8));
      } else if word == 0 || word == 1 {
        r := Some(Decoded(Bool(word == 1), 8));
      } else {
        r := None;
      }
    } else if tag == STRING_TAG || tag == URI_TAG {
      var sizeBytes := buf.Read(8);
      if sizeBytes.None? {
        return None;
      }
      assert sizeBytes.value == b[4..12] && buf.contents == b[12..];
      var n := FromLong(sizeBytes.value);
      var textBytes := buf.Read(n);
      if textBytes.None? {
        return None;
      }
      assert textBytes.value == b[12..12 + n] && buf.contents == b[12 + n..];
      var text := CString(textBytes.value);
      r := Some(Decoded(if tag == STRING_TAG then String(text) else Uri(text), 12 + n));
    } else {
      r := None;
    }
  }

  /** write_set: appends one set-property record. */
  method WriteSet(buf: UpdateBuffer, subject: nat, key: nat, value: Atom, stale: nat)
    requires WritableSet(SetUpdate(subject, key, value)) && stale < 0x1_0000_0000
    modifies buf
    ensures buf.contents == old(buf.contents) + EncodeSet(SetUpdate(subject, key, value), stale)
  {
    var header := Header(subject, key);
    buf.Write(header);
    WriteAtom(buf, value, stale);
    Concatenated(old(buf.contents), header, EncodeAtom(value, stale));
  }

  /** read_set: consumes one record and returns it with its byte count. */
  method ReadSet(buf: UpdateBuffer) returns (r: Option<Decoded<SetUpdate>>)
    modifies buf
    ensures r == DecodeSet(old(buf.contents))
    ensures r.Some? ==> buf.contents == old(buf.contents)[r.value.size..]
  {
    ghost var b := buf.contents;
    var typeBytes := buf.Read(4);
    if typeBytes.None? || FromWord(typeBytes.value) != UPDATE_SET {
      return None;
    }
    var subjectBytes := buf.Read(8);
    var keyBytes := buf.Read(4);
    if subjectBytes.None? || keyBytes.None? {
      return None;
    }
    assert subjectBytes.value == b[4..12] && keyBytes.value == b[12..16] && buf.contents == b[16..];
    var atom := ReadAtom(buf);
    if atom.None? {
      return None;
    }
    r := Some(Decoded(SetUpdate(FromLong(subjectBytes.value), FromWord(keyBytes.value), atom.value.value), 16 + atom.value.size));
  }
}
