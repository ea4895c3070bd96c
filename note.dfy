/**
 * Evoral's Note: a note-on event and a note-off event, each owning its
 * three MIDI bytes (status, note number, velocity). The start is the
 * on-event's time, the end the off-event's, and the length their
 * difference. MIDIEvent's byte accessors are not part of this model; the
 * model reads them as the MIDI message's own fields: the note number is
 * the second byte, the velocity the third, and the channel the low four
 * bits of the status byte.
 *
 * Times are musical times, doubles in the source; here they are reals.
 * operator== compares times with musical_time_equal, a tolerance test
 * defined outside this model, so the comparison is a parameter of Equals
 * that is only taken to be reflexive and symmetric.
 */
module EvoralNote {

  const NOTE_ON: bv8 := 0x90
  const NOTE_OFF: bv8 := 0x80
  /** The velocity every note-off carries. */
  const OFF_VELOCITY: bv8 := 0x40

  /** A MIDI event that owns its three bytes. */
  datatype MidiEvent = MidiEvent(time: real, status: bv8, note: bv8, velocity: bv8)

  /** The channel: the status byte's low nibble. */
  function ChannelOf(e: MidiEvent): (c: bv8)
    ensures c < 16
  {
    e.status & 0x0F
  }

  /** set_channel: the status byte keeps its command nibble and takes the channel as its low nibble. */
  function WithChannel(e: MidiEvent, c: bv8): (r: MidiEvent)
    requires c < 16
    ensures ChannelOf(r) == c && r.status & 0xF0 == e.status & 0xF0
    ensures r.time == e.time && r.note == e.note && r.velocity == e.velocity
  {
    e.(status := (e.status & 0xF0) | c)
  }

  /** A status byte built as command plus channel has that channel. */
  lemma CommandChannel(command: bv8, chan: bv8)
    requires command & 0x0F == 0 && chan < 16
    ensures (command + chan) & 0x0F == chan && (command + chan) & 0xF0 == command
  {
  }

  /** A comparison of two times. */
  type TimeComparison = (real, real) -> bool

  ghost predicate Reflexive(near: TimeComparison)
  {
    forall x :: near(x, x)
  }

  ghost predicate Symmetric(near: TimeComparison)
  {
    forall x, y :: near(x, y) ==> near(y, x)
  }

  ghost predicate Transitive(near: TimeComparison)
  {
    forall x, y, z :: near(x, y) && near(y, z) ==> near(x, z)
  }

  /** Two times alike when they differ by at most eps. */
  function Within(eps: real): TimeComparison
  {
    (x: real, y: real) => -eps <= x - y <= eps
  }

  class Note {
    var onEvent: MidiEvent
    var offEvent: MidiEvent

    /** channel() asserts that both events are on one channel. */
    predicate ChannelsAgree()
      reads this
    {
      ChannelOf(onEvent) == ChannelOf(offEvent)
    }

    function Time(): real
      reads this
    {
      onEvent.time
    }

    function EndTime(): real
      reads this
    {
      offEvent.time
    }

    function NoteNumber(): bv8
      reads this
    {
      onEvent.note
    }

    function Velocity(): bv8
      reads this
    {
      onEvent.velocity
    }

    /** The length: from the on-event to the off-event. */
    function Length(): (r: real)
      reads this
      ensures Time() + r == EndTime()
    {
      offEvent.time - onEvent.time
    }

    function Channel(): (r: bv8)
      requires ChannelsAgree()
      reads this
      ensures r < 16 && r == ChannelOf(offEvent)
    {
      ChannelOf(onEvent)
    }

    /**
     * Note(chan, t, l, n, v): a note-on at t and a note-off at t + l, both
     * on channel chan with note number n; the on-event carries velocity v,
     * the off-event velocity 0x40.
     */
    constructor (chan: bv8, t: real, l: real, n: bv8, v: bv8)
      requires chan < 16
      ensures ChannelsAgree() && Channel() == chan
      ensures Time() == t && Length() == l && NoteNumber() == n && Velocity() == v
      ensures onEvent.status == NOTE_ON + chan && offEvent.status == NOTE_OFF + chan
      ensures offEvent.note == n && offEvent.velocity == OFF_VELOCITY
    {
      CommandChannel(NOTE_ON, chan);
      CommandChannel(NOTE_OFF, chan);
      onEvent := MidiEvent(t, NOTE_ON + chan, n, v);
      offEvent := MidiEvent(t + l, NOTE_OFF + chan, n, OFF_VELOCITY);
    }

    /** The copy constructor: both events are copied, so every observer agrees with the original's. */
    constructor Copy(copy: Note)
      requires copy.ChannelsAgree()
      ensures onEvent == copy.onEvent && offEvent == copy.offEvent
      ensures ChannelsAgree() && EndTime() == copy.EndTime()
      ensures forall near {:trigger Equals(copy, near)} :: Reflexive(near) ==> Equals(copy, near)
    {
      onEvent := copy.onEvent;
      offEvent := copy.offEvent;
    }

    /** operator=: both events are copied. */
    method Assign(other: Note)
      requires other.ChannelsAgree()
      modifies this
      ensures onEvent == old(other.onEvent) && offEvent == old(other.offEvent)
      ensures ChannelsAgree() && EndTime() == other.EndTime()
      ensures forall near {:trigger Equals(other, near)} :: Reflexive(near) ==> Equals(other, near)
    {
      onEvent := other.onEvent;
      offEvent := other.offEvent;
    }

    /**
     * operator==: start and length alike under the time comparison near,
     * and the same note number, velocity and channel. The off-event's
     * velocity plays no part.
     */
    predicate Equals(other: Note, near: TimeComparison)
      requires ChannelsAgree() && other.ChannelsAgree()
      reads this, other
    {
      near(Time(), other.Time()) && NoteNumber() == other.NoteNumber() && near(Length(), other.Length())
      && Velocity() == other.Velocity() && Channel() == other.Channel()
    }

    /** set_time: both events move, so the length stays. */
    method SetTime(t: real)
      modifies this
      ensures Time() == t && Length() == old(Length())
      ensures onEvent == old(onEvent).(time := t) && offEvent.(time := 0.0) == old(offEvent).(time := 0.0)
    {
      offEvent := offEvent.(time := t + Length());
      onEvent := onEvent.(time := t);
    }

    /** set_note: the note number of both events. */
    method SetNote(n: bv8)
      modifies this
      ensures onEvent == old(onEvent).(note := n) && offEvent == old(offEvent).(note := n)
      ensures NoteNumber() == n
    {
      onEvent := onEvent.(note := n);
      offEvent := offEvent.(note := n);
    }

    /** set_velocity: the on-event's velocity only. */
    method SetVelocity(v: bv8)
      modifies this
      ensures onEvent == old(onEvent).(velocity := v) && offEvent == old(offEvent)
      ensures Velocity() == v
    {
      onEvent := onEvent.(velocity := v);
    }

    /** set_length: the end moves to start plus length; the start stays. */
    method SetLength(l: real)
      modifies this
      ensures Length() == l && onEvent == old(onEvent)
      ensures offEvent == old(offEvent).(time := old(Time()) + l)
    {
      offEvent := offEvent.(time := onEvent.time + l);
    }

    /** set_channel: both events' status bytes take the channel. */
    method SetChannel(c: bv8)
      requires c < 16
      modifies this
      ensures onEvent == WithChannel(old(onEvent), c) && offEvent == WithChannel(old(offEvent), c)
      ensures ChannelsAgree() && Channel() == c
    {
      onEvent := WithChannel(onEvent, c);
      offEvent := WithChannel(offEvent, c);
    }
  }

  /**
   * Under any reflexive and symmetric time comparison, such as the tolerance
   * test musical_time_equal, equality of notes is reflexive and symmetric.
   */
  lemma EqualsReflexiveSymmetric(a: Note, b: Note, near: TimeComparison)
    requires a.ChannelsAgree() && b.ChannelsAgree()
    requires Reflexive(near) && Symmetric(near)
    ensures a.Equals(a, near)
    ensures a.Equals(b, near) ==> b.Equals(a, near)
  {
    assert near(a.Time(), a.Time()) && near(a.Length(), a.Length());
    if a.Equals(b, near) {
      assert near(b.Time(), a.Time()) && near(b.Length(), a.Length());
    }
  }

  /**
   * Transitivity is inherited from the time comparison alone: it holds
   * for exact comparison, but not for a tolerance test, which can accept
   * x ~ y and y ~ z and refuse x ~ z.
   */
  lemma EqualsTransitive(a: Note, b: Note, c: Note, near: TimeComparison)
    requires a.ChannelsAgree() && b.ChannelsAgree() && c.ChannelsAgree()
    requires Transitive(near)
    ensures a.Equals(b, near) && b.Equals(c, near) ==> a.Equals(c, near)
  {
    if a.Equals(b, near) && b.Equals(c, near) {
      assert near(a.Time(), c.Time()) && near(a.Length(), c.Length());
    }
  }

  /** A tolerance comparison of times, as musical_time_equal is, is not transitive. */
  lemma ToleranceNotTransitive(eps: real)
    requires eps > 0.0
    ensures Reflexive(Within(eps)) && Symmetric(Within(eps))
    ensures Within(eps)(0.0, eps) && Within(eps)(eps, 2.0 * eps) && !Within(eps)(0.0, 2.0 * eps)
  {
  }
}
