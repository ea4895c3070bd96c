/**
 * Evoral's Event: a type, a time stamp, a size and a pointer to the size
 * bytes of the event, with a flag saying whether the event owns that
 * buffer. An owning event copies what it is given into its own buffer,
 * growing it with realloc; a non-owning one only points at the caller's
 * bytes, so two events can share one buffer. The buffer is a Dafny array,
 * `null` standing for a NULL pointer; freeing a buffer is dropping the
 * reference to it.
 */
module EvoralEvent {

  /**
   * memcpy(dst, src, n): the first n bytes of src land in dst. A copy of
   * zero bytes touches neither pointer; source and destination are
   * either the same buffer or do not overlap.
   */
  method Memcpy(dst: array?<bv8>, src: array?<bv8>, n: nat)
    requires n == 0 || (dst != null && src != null && n <= dst.Length && n <= src.Length)
    modifies dst
    ensures n > 0 ==> dst[..n] == old(src[..n]) && dst[n..] == old(dst[n..])
  {
    if n == 0 {
      return;
    }
    ghost var bytes := src[..n];
    var i := 0;
    while i < n
      invariant i <= n
      invariant dst[..i] == bytes[..i]
      invariant forall j :: i <= j < n ==> src[j] == bytes[j]
      invariant dst[n..] == old(dst[n..])
    {
      dst[i] := src[i];
      i := i + 1;
    }
  }

  /** realloc(b, n): a new buffer of n bytes that starts with as many of b's bytes as fit; NULL acts as an empty buffer. */
  method Realloc(b: array?<bv8>, n: nat) returns (r: array<bv8>)
    ensures fresh(r) && r.Length == n
    ensures b != null ==> forall i :: 0 <= i < n && i < b.Length ==> r[i] == b[i]
  {
    r := new bv8[n];
    if b != null {
      var i := 0;
      while i < n && i < b.Length
        invariant 0 <= i <= n
        invariant forall j :: 0 <= j < i && j < b.Length ==> r[j] == b[j]
      {
        r[i] := b[i];
        i := i + 1;
      }
    }
  }

  class Event {
    var eventType: nat
    var time: real
    var size: nat
    var buf: array?<bv8>
    var ownsBuf: bool

    /** The size bytes the event describes can be read through its pointer. */
    ghost predicate Readable()
      reads this
    {
      size == 0 || (buf != null && size <= buf.Length)
    }

    /** The event's bytes. */
    ghost function Bytes(): (r: seq<bv8>)
      requires Readable()
      reads this, buf
      ensures |r| == size
    {
      if size == 0 then [] else buf[..size]
    }

    /**
     * Event(type, time, size, buffer, alloc). The out-of-line constructor
     * is not part of this model: the model takes alloc to mean that the
     * event allocates size bytes of its own and copies the given buffer
     * into them, and no alloc to mean that it points at the given buffer.
     */
    constructor (eventType: nat, time: real, size: nat, b: array?<bv8>, alloc: bool)
      requires alloc && b != null ==> size <= b.Length
      ensures this.eventType == eventType && this.time == time && this.size == size && ownsBuf == alloc
      ensures alloc ==> buf != null && fresh(buf) && buf.Length == size && (b != null ==> buf[..] == b[..size])
      ensures !alloc ==> buf == b
    {
      this.eventType := eventType;
      this.time := time;
      this.size := size;
      ownsBuf := alloc;
      if alloc {
        var own := new bv8[size];
        if b != null {
          Memcpy(own, b, size);
        }
        buf := own;
      } else {
        buf := b;
      }
    }

    /**
     * operator=: the header is copied; an owning event copies the other's
     * bytes into its own buffer, grown if too small, or frees its buffer
     * when the other has none; a non-owning one points at the other's
     * buffer.
     */
    method Assign(copy: Event)
      requires copy.Readable()
      requires ownsBuf && copy.buf != null && 0 < copy.size <= size ==> buf != null && copy.size <= buf.Length
      modifies this, buf
      ensures eventType == old(copy.eventType) && time == old(copy.time) && size == old(copy.size)
      ensures ownsBuf == old(ownsBuf)
      ensures !ownsBuf ==> buf == old(copy.buf)
      ensures ownsBuf && old(copy.buf) == null ==> buf == null
      ensures ownsBuf && old(copy.buf) != null ==> Readable() && Bytes() == old(copy.Bytes())
      ensures ownsBuf && old(copy.buf) != null && old(copy.size) > old(size) ==> fresh(buf)
    {
      var copyBuf, copySize := copy.buf, copy.size;
      eventType := copy.eventType;
      time := copy.time;
      if ownsBuf {
        if copyBuf != null {
          if copySize > size {
            buf := Realloc(buf, copySize);
          }
          Memcpy(buf, copyBuf, copySize);
        } else {
          buf := null;
        }
      } else {
        buf := copyBuf;
      }
      size := copySize;
    }

    /** shallow_copy: drop any owned buffer, then take the other's header and point at its buffer. */
    method ShallowCopy(copy: Event)
      modifies this
      ensures eventType == old(copy.eventType) && time == old(copy.time) && size == old(copy.size)
      ensures !ownsBuf
      ensures buf == if copy == this && old(ownsBuf) then null else old(copy.buf)
    {
      if ownsBuf {
        buf := null;
        ownsBuf := false;
      }
      eventType := copy.eventType;
      time := copy.time;
      size := copy.size;
      buf := copy.buf;
    }

    /**
     * set: the time and size always change; an owning event copies the
     * caller's bytes into its buffer, grown if too small, and a
     * non-owning one points at them.
     */
    method Set(b: array?<bv8>, sz: nat, t: real)
      requires ownsBuf && sz > 0 ==> b != null && sz <= b.Length
      requires ownsBuf && 0 < sz <= size ==> buf != null && sz <= buf.Length
      modifies this, buf
      ensures time == t && size == sz && eventType == old(eventType) && ownsBuf == old(ownsBuf)
      ensures !ownsBuf ==> buf == b
      ensures ownsBuf ==> Readable() && Bytes() == if sz == 0 then [] else old(b[..sz])
      ensures ownsBuf && sz > old(size) ==> fresh(buf)
    {
      if ownsBuf {
        if size < sz {
          buf := Realloc(buf, sz);
        }
        Memcpy(buf, b, sz);
      } else {
        buf := b;
      }
      time := t;
      size := sz;
    }

    /**
     * operator==: events are equal when type, time and size agree and
     * either they share a buffer or all size bytes match.
     */
    method Equals(other: Event) returns (r: bool)
      requires Readable() && other.Readable()
      ensures r <==> (eventType == other.eventType && time == other.time && size == other.size
                      && (buf == other.buf || Bytes() == other.Bytes()))
    {
      if eventType != other.eventType || time != other.time || size != other.size {
        return false;
      }
      if buf == other.buf {
        return true;
      }
      var i := 0;
      while i < size
        invariant i <= size
        invariant forall j :: 0 <= j < i ==> buf[j] == other.buf[j]
      {
        if buf[i] != other.buf[i] {
          assert Bytes()[i] != other.Bytes()[i];
          return false;
        }
        i := i + 1;
      }
      if size > 0 {
        assert buf[..size] == other.buf[..size];
      }
      return true;
    }

    /** set_buffer: free any owned buffer, then adopt the given size, buffer and ownership. */
    method SetBuffer(sz: nat, b: array?<bv8>, own: bool)
      modifies this
      ensures size == sz && buf == b && ownsBuf == own
      ensures eventType == old(eventType) && time == old(time)
    {
      if ownsBuf {
        buf := null;
      }
      size := sz;
      buf := b;
      ownsBuf := own;
    }

    /**
     * realloc: afterwards the event owns a buffer and its size is the one
     * asked for. An owned buffer is grown, keeping its bytes, only when
     * the new size is larger; a borrowed one is replaced by a new buffer.
     */
    method Reallocate(sz: nat)
      modifies this
      ensures ownsBuf && size == sz && eventType == old(eventType) && time == old(time)
      ensures old(ownsBuf) && sz <= old(size) ==> buf == old(buf)
      ensures !(old(ownsBuf) && sz <= old(size)) ==> buf != null && fresh(buf) && buf.Length == sz
      ensures old(ownsBuf) && sz > old(size) && old(buf) != null ==>
        forall i :: 0 <= i < old(buf.Length) && i < sz ==> buf[i] == old(buf[i])
    {
      if ownsBuf {
        if sz > size {
          buf := Realloc(buf, sz);
        }
      } else {
        buf := new bv8[sz];
        ownsBuf := true;
      }
      size := sz;
    }

    /** clear: zero type, time and size and forget the buffer, without freeing it or changing ownership. */
    method Clear()
      modifies this
      ensures eventType == 0 && time == 0.0 && size == 0 && buf == null && ownsBuf == old(ownsBuf)
      ensures Readable() && Bytes() == []
    {
      eventType := 0;
      time := 0.0;
      size := 0;
      buf := null;
    }
  }
}
