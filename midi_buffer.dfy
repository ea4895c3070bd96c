/**
 * Ingen's MidiBuffer: an append-only buffer of timestamped MIDI events in
 * an LV2_MIDI block, read through a byte cursor, with a copy and a two-way
 * merge.
 *
 * A record in the block is an 8-byte double timestamp, a 4-byte length and
 * the payload. The block's bytes are represented here by the sequence of
 * records they hold; the block's `size` field, record offsets and the
 * cursor stay byte counts computed from that sequence.
 */
module IngenMidiBuffer {
  import opened Wrappers

  type byte = x: int | 0 <= x < 0x100

  const UINT32_MAX: nat := 0xFFFF_FFFF

  /** sizeof(double) + sizeof(uint32_t): the header in front of each payload. */
  const HEADER: nat := 12

  datatype Event = Event(time: real, data: seq<byte>)

  /** What append accepts: a non-empty payload starting with a status byte. */
  predicate WellFormed(e: Event)
  {
    0 < |e.data| <= UINT32_MAX && e.data[0] >= 0x80
  }

  function RecordSize(e: Event): nat
  {
    HEADER + |e.data|
  }

  /** The number of bytes the records occupy in the block. */
  function Bytes(es: seq<Event>): nat
  {
    if es == [] then 0 else RecordSize(es[0]) + Bytes(es[1..])
  }

  lemma {:induction false} BytesAppend(xs: seq<Event>, ys: seq<Event>)
    ensures Bytes(xs + ys) == Bytes(xs) + Bytes(ys)
    decreases |xs|
  {
    if xs == [] {
      assert xs + ys == ys;
    } else {
      assert (xs + ys)[0] == xs[0];
      assert (xs + ys)[1..] == xs[1..] + ys;
      BytesAppend(xs[1..], ys);
    }
  }

  /** The byte offset at which record k starts (the end of the block for k == |es|). */
  function Offset(es: seq<Event>, k: nat): nat
    requires k <= |es|
  {
    Bytes(es[..k])
  }

  lemma OffsetStep(es: seq<Event>, k: nat)
    requires k < |es|
    ensures Offset(es, k + 1) == Offset(es, k) + RecordSize(es[k])
  {
    assert es[..k + 1] == es[..k] + [es[k]];
    BytesAppend(es[..k], [es[k]]);
  }

  lemma OffsetBound(es: seq<Event>, k: nat)
    requires k <= |es|
    ensures Offset(es, k) + Bytes(es[k..]) == Bytes(es)
  {
    assert es == es[..k] + es[k..];
    BytesAppend(es[..k], es[k..]);
  }

  /** Appending a record keeps the offsets of the records before it. */
  lemma OffsetSnoc(es: seq<Event>, e: Event, k: nat)
    requires k <= |es|
    ensures Offset(es + [e], k) == Offset(es, k)
  {
    assert (es + [e])[..k] == es[..k];
  }

  /**
   * The record whose header starts at byte `pos`: what the code reads
   * through `_buf->data + _position`.
   */
  function EventAt(es: seq<Event>, pos: nat): Event
    requires es != []
    decreases |es|
  {
    if pos < RecordSize(es[0]) || |es| == 1 then es[0]
    else EventAt(es[1..], pos - RecordSize(es[0]))
  }

  lemma {:induction false} EventAtOffset(es: seq<Event>, k: nat)
    requires k < |es|
    ensures EventAt(es, Offset(es, k)) == es[k]
    decreases k
  {
    if k > 0 {
      assert es[..k] == [es[0]] + es[1..][..k - 1];
      BytesAppend([es[0]], es[1..][..k - 1]);
      assert Offset(es, k) == RecordSize(es[0]) + Offset(es[1..], k - 1);
      EventAtOffset(es[1..], k - 1);
    }
  }

  /**
   * With well-formed records (each at least 13 bytes), the test
   * `position + 12 >= size` at a record boundary holds exactly at the end.
   */
  lemma AtEnd(es: seq<Event>, k: nat)
    requires k <= |es|
    requires forall i | 0 <= i < |es| :: WellFormed(es[i])
    ensures Offset(es, k) + HEADER >= Bytes(es) <==> k == |es|
    ensures Offset(es, k) >= Bytes(es) <==> k == |es|
  {
    OffsetBound(es, k);
    if k < |es| {
      assert Bytes(es[k..]) == RecordSize(es[k]) + Bytes(es[k..][1..]);
    }
  }

  /** Timestamps are non-negative and non-decreasing, as append's assertion keeps them. */
  predicate Ordered(es: seq<Event>)
  {
    (forall i | 0 <= i < |es| :: 0.0 <= es[i].time)
    && (forall i, j | 0 <= i < j < |es| :: es[i].time <= es[j].time)
  }

  /**
   * The records a buffer of the given capacity holds after appending `es`
   * one by one into it from empty: append refuses a record that does not
   * fit in the space left and goes on with the next.
   */
  function Appended(es: seq<Event>, capacity: nat): seq<Event>
    decreases |es|
  {
    if es == [] then []
    else
      var kept := Appended(es[..|es| - 1], capacity);
      if HEADER + |es[|es| - 1].data| <= capacity - Bytes(kept) then kept + [es[|es| - 1]] else kept
  }

  /** Appending respects the capacity and never invents or reorders records. */
  lemma {:induction false} AppendedFits(es: seq<Event>, capacity: nat)
    ensures Bytes(Appended(es, capacity)) <= capacity
    ensures multiset(Appended(es, capacity)) <= multiset(es)
    decreases |es|
  {
    if es != [] {
      var init := es[..|es| - 1];
      assert es == init + [es[|es| - 1]];
      AppendedFits(init, capacity);
      var kept := Appended(init, capacity);
      BytesAppend(kept, [es[|es| - 1]]);
    }
  }

  /** When everything fits, nothing is dropped. */
  lemma {:induction false} AppendedAll(es: seq<Event>, capacity: nat)
    requires Bytes(es) <= capacity
    ensures Appended(es, capacity) == es
    decreases |es|
  {
    if es != [] {
      var init, last := es[..|es| - 1], es[|es| - 1];
      assert es == init + [last];
      BytesAppend(init, [last]);
      assert Bytes([last]) == HEADER + |last.data|;
      AppendedAll(init, capacity);
      assert Appended(es, capacity) == Appended(init, capacity) + [last];
    }
  }

  /** The longest prefix of `es` whose timestamps are below `frames`. */
  function TakeBelow(es: seq<Event>, frames: real): (r: seq<Event>)
    ensures |r| <= |es| && r == es[..|r|]
    ensures forall i | 0 <= i < |r| :: r[i].time < frames
    ensures |r| < |es| ==> es[|r|].time >= frames
  {
    if es == [] || es[0].time >= frames then [] else [es[0]] + TakeBelow(es[1..], frames)
  }

  /**
   * The records `copy` appends: increment runs before the first read, so
   * the source's record 0 is skipped, and the loop goes on while the next
   * timestamp is below the frame count.
   */
  function CopyCandidates(es: seq<Event>, frames: real): seq<Event>
  {
    if es == [] then [] else TakeBelow(es[1..], frames)
  }

  /** A one-event buffer copies to nothing. */
  lemma CopyDropsFirstEvent(e: Event)
    ensures CopyCandidates([e], e.time + 1.0) == []
  {
  }

  /** What copy evidently means to append: every record below the frame count. */
  function CopyCandidatesFixed(es: seq<Event>, frames: real): (r: seq<Event>)
    ensures Ordered(es) ==> forall i | 0 <= i < |es| :: es[i].time < frames <==> i < |r|
  {
    var r := TakeBelow(es, frames);
    assert Ordered(es) ==> forall i | |r| <= i < |es| :: es[|r|].time <= es[i].time;
    r
  }

  lemma CopyFixedKeepsFirstEvent(e: Event)
    ensures CopyCandidatesFixed([e], e.time + 1.0) == [e]
  {
  }

  /**
   * How many of a source's records merge consumes: the first, and then the
   * following ones while increment's result is non-zero (the double is
   * tested as a truth value), so a record stamped 0.0 after the first ends
   * that side.
   */
  function Live(es: seq<Event>): (n: nat)
    ensures n <= |es| && (es != [] ==> 1 <= n)
    ensures forall k | 1 <= k < n :: es[k].time != 0.0
    ensures n < |es| ==> es[n].time == 0.0
  {
    if es == [] then 0 else LiveFrom(es, 1)
  }

  function LiveFrom(es: seq<Event>, i: nat): (n: nat)
    requires 1 <= i <= |es|
    ensures i <= n <= |es|
    ensures forall k | i <= k < n :: es[k].time != 0.0
    ensures n < |es| ==> es[n].time == 0.0
    decreases |es| - i
  {
    if i == |es| || es[i].time == 0.0 then i else LiveFrom(es, i + 1)
  }

  /** Merge order: a's record goes first only when strictly earlier. */
  function MergeSeq(xs: seq<Event>, ys: seq<Event>): seq<Event>
    decreases |xs| + |ys|
  {
    if xs == [] then ys
    else if ys == [] then xs
    else if xs[0].time < ys[0].time then [xs[0]] + MergeSeq(xs[1..], ys)
    else [ys[0]] + MergeSeq(xs, ys[1..])
  }

  /** Merging loses and invents nothing. */
  lemma {:induction false} MergeSeqPermutation(xs: seq<Event>, ys: seq<Event>)
    ensures multiset(MergeSeq(xs, ys)) == multiset(xs) + multiset(ys)
    decreases |xs| + |ys|
  {
    if xs != [] && ys != [] {
      if xs[0].time < ys[0].time {
        MergeSeqPermutation(xs[1..], ys);
        assert xs == [xs[0]] + xs[1..];
      } else {
        MergeSeqPermutation(xs, ys[1..]);
        assert ys == [ys[0]] + ys[1..];
      }
    }
  }

  predicate Sorted(es: seq<Event>)
  {
    forall i, j | 0 <= i < j < |es| :: es[i].time <= es[j].time
  }

  /** Merging two time-ordered sequences gives a time-ordered sequence. */
  lemma {:induction false} MergeSeqSorted(xs: seq<Event>, ys: seq<Event>)
    requires Sorted(xs) && Sorted(ys)
    ensures Sorted(MergeSeq(xs, ys))
    decreases |xs| + |ys|
  {
    if xs != [] && ys != [] {
      if xs[0].time < ys[0].time {
        var rest := MergeSeq(xs[1..], ys);
        MergeSeqSorted(xs[1..], ys);
        HeadBelowMerge(xs[0], xs[1..], ys);
        SortedCons(xs[0], rest);
      } else {
        var rest := MergeSeq(xs, ys[1..]);
        MergeSeqSorted(xs, ys[1..]);
        HeadBelowMerge(ys[0], xs, ys[1..]);
        SortedCons(ys[0], rest);
      }
    }
  }

  /** A record no later than everything merged is no later than any merged record. */
  lemma HeadBelowMerge(h: Event, xs: seq<Event>, ys: seq<Event>)
    requires forall i | 0 <= i < |xs| :: h.time <= xs[i].time
    requires forall i | 0 <= i < |ys| :: h.time <= ys[i].time
    ensures forall j | 0 <= j < |MergeSeq(xs, ys)| :: h.time <= MergeSeq(xs, ys)[j].time
  {
    var m := MergeSeq(xs, ys);
    MergeSeqPermutation(xs, ys);
    forall j | 0 <= j < |m| ensures h.time <= m[j].time {
      assert m[j] in multiset(m);
      if m[j] in multiset(xs) {
        var i :| 0 <= i < |xs| && xs[i] == m[j];
      } else {
        assert m[j] in multiset(ys);
        var i :| 0 <= i < |ys| && ys[i] == m[j];
      }
    }
  }

  lemma SortedCons(h: Event, rest: seq<Event>)
    requires Sorted(rest)
    requires forall j | 0 <= j < |rest| :: h.time <= rest[j].time
    ensures Sorted([h] + rest)
  {
  }

  /** On equal timestamps the record from b comes out first. */
  lemma MergeSeqTiesFavourB(x: Event, y: Event, xs: seq<Event>, ys: seq<Event>)
    requires x.time == y.time
    ensures MergeSeq([x] + xs, [y] + ys)[0] == y
  {
  }

  /** The records merge appends, in order, before capacity is applied. */
  function MergedEvents(fromA: seq<Event>, fromB: seq<Event>): seq<Event>
  {
    MergeSeq(fromA[..Live(fromA)], fromB[..Live(fromB)])
  }

  /** merge's final latest stamp for one side: this_nframes or the last taken time. */
  function FinalTime(es: seq<Event>, nframes: nat): real
  {
    if es == [] || (Live(es) == |es| && nframes != 0) then nframes as real
    else es[Live(es) - 1].time
  }

  /** A second record stamped 0.0 in a ends a's side: it and all after it are lost. */
  lemma ZeroStampEndsStream(x: seq<byte>, y: seq<byte>, z: seq<byte>)
    ensures MergedEvents([Event(0.0, x), Event(0.0, y)], [Event(5.0, z)])
            == [Event(0.0, x), Event(5.0, z)]
  {
    var fromA := [Event(0.0, x), Event(0.0, y)];
    assert Live(fromA) == 1;
    assert fromA[..1] == [Event(0.0, x)];
    var fromB := [Event(5.0, z)];
    assert Live(fromB) == 1;
    assert fromB[..1] == fromB;
    assert [Event(0.0, x)][1..] == [];
    assert MergeSeq([Event(0.0, x)], fromB) == [Event(0.0, x)] + MergeSeq([], fromB);
  }

  /** What merge evidently means: both sources in full, in time order. */
  function MergeAll(fromA: seq<Event>, fromB: seq<Event>): (r: seq<Event>)
    ensures multiset(r) == multiset(fromA) + multiset(fromB)
    ensures Sorted(fromA) && Sorted(fromB) ==> Sorted(r)
  {
    MergeSeqPermutation(fromA, fromB);
    if Sorted(fromA) && Sorted(fromB) then MergeSeqSorted(fromA, fromB); MergeSeq(fromA, fromB)
    else MergeSeq(fromA, fromB)
  }

  /** One side of merge: the cursor, and the record it holds or the final time once the side has ended. */
  ghost predicate Side(es: seq<Event>, cursor: nat, time: real, data: Option<seq<byte>>, nframes: nat)
  {
    cursor <= Live(es)
    && (data.Some? <==> cursor < Live(es))
    && (data.Some? ==> time == es[cursor].time && data.value == es[cursor].data)
    && (data.None? ==> time == FinalTime(es, nframes))
  }

  /**
   * After the record at c is taken, increment yields the next stamp or
   * this_nframes; a non-zero result keeps the side going exactly when
   * another live record follows, and a zero result ends it with c's stamp.
   */
  lemma AdvanceSide(es: seq<Event>, c: nat, nframes: nat)
    requires c < Live(es)
    ensures c + 1 < |es| && es[c + 1].time != 0.0 ==> c + 1 < Live(es)
    ensures c + 1 < |es| && es[c + 1].time == 0.0 ==> c + 1 == Live(es) && FinalTime(es, nframes) == es[c].time
    ensures c + 1 == |es| ==> c + 1 == Live(es)
    ensures c + 1 == |es| && nframes != 0 ==> FinalTime(es, nframes) == nframes as real
    ensures c + 1 == |es| && nframes == 0 ==> FinalTime(es, nframes) == es[c].time
  {
  }

  lemma MergeTakesFirst(xs: seq<Event>, ys: seq<Event>)
    requires xs != [] && (ys == [] || xs[0].time < ys[0].time)
    ensures MergeSeq(xs, ys) == [xs[0]] + MergeSeq(xs[1..], ys)
  {
    if ys == [] {
      assert MergeSeq(xs[1..], ys) == xs[1..];
    }
  }

  lemma MergeTakesSecond(xs: seq<Event>, ys: seq<Event>)
    requires ys != [] && (xs == [] || !(xs[0].time < ys[0].time))
    ensures MergeSeq(xs, ys) == [ys[0]] + MergeSeq(xs, ys[1..])
  {
  }

  /** Appending one more record: it is kept exactly when it fits in the space left. */
  lemma AppendedSnoc(es: seq<Event>, e: Event, capacity: nat)
    ensures Appended(es + [e], capacity)
      == (var kept := Appended(es, capacity);
          if HEADER + |e.data| <= capacity - Bytes(kept) then kept + [e] else kept)
  {
    assert (es + [e])[..|es + [e]| - 1] == es;
  }

  lemma TakeBelowExact(es: seq<Event>, n: nat, frames: real)
    requires n <= |es|
    requires forall j | 0 <= j < n :: es[j].time < frames
    requires n < |es| ==> es[n].time >= frames
    ensures TakeBelow(es, frames) == es[..n]
  {
  }

  /** What copy's loop has done once the source cursor reaches c. */
  ghost predicate CopyProgress(es: seq<Event>, lo: nat, c: nat, frames: real, events: seq<Event>, capacity: nat, latest: real)
  {
    lo <= c <= |es|
    && (forall j | lo <= j < c :: es[j].time < frames)
    && events == Appended(es[lo..c], capacity)
    && (forall j | c <= j < |es| :: latest <= es[j].time)
  }

  lemma CopyStep(es: seq<Event>, lo: nat, c: nat, frames: real, events: seq<Event>, capacity: nat, latest: real,
                 events': seq<Event>, latest': real)
    requires Ordered(es) && CopyProgress(es, lo, c, frames, events, capacity, latest)
    requires c < |es| && es[c].time < frames
    requires HEADER + |es[c].data| <= capacity - Bytes(events) ==> events' == events + [es[c]] && latest' == es[c].time
    requires !(HEADER + |es[c].data| <= capacity - Bytes(events)) ==> events' == events && latest' == latest
    ensures CopyProgress(es, lo, c + 1, frames, events', capacity, latest')
  {
    AppendedSnoc(es[lo..c], es[c], capacity);
    assert es[lo..c + 1] == es[lo..c] + [es[c]];
  }

  /** What merge's loop has done: both sides' state, the records emitted so far and the block contents. */
  ghost predicate MergeProgress(fromA: seq<Event>, fromB: seq<Event>,
                                ca: nat, aTime: real, aData: Option<seq<byte>>, nfA: nat,
                                cb: nat, bTime: real, bData: Option<seq<byte>>, nfB: nat,
                                emitted: seq<Event>, events: seq<Event>, capacity: nat, latest: real)
  {
    MergeSides(fromA, fromB, ca, aTime, aData, nfA, cb, bTime, bData, nfB, latest)
    && MergeOutput(fromA, fromB, ca, cb, emitted, events, capacity)
  }

  /** Both sides' cursors and records, and a latest stamp no later than any record still to come. */
  ghost predicate MergeSides(fromA: seq<Event>, fromB: seq<Event>,
                             ca: nat, aTime: real, aData: Option<seq<byte>>, nfA: nat,
                             cb: nat, bTime: real, bData: Option<seq<byte>>, nfB: nat, latest: real)
  {
    Side(fromA, ca, aTime, aData, nfA) && Side(fromB, cb, bTime, bData, nfB)
    && (forall j | ca <= j < Live(fromA) :: latest <= fromA[j].time)
    && (forall j | cb <= j < Live(fromB) :: latest <= fromB[j].time)
  }

  /** The records emitted so far, followed by the merge of what is left, make up the whole merge. */
  ghost predicate MergeOutput(fromA: seq<Event>, fromB: seq<Event>, ca: nat, cb: nat,
                              emitted: seq<Event>, events: seq<Event>, capacity: nat)
  {
    ca <= Live(fromA) && cb <= Live(fromB)
    && emitted + MergeSeq(fromA[ca..Live(fromA)], fromB[cb..Live(fromB)]) == MergedEvents(fromA, fromB)
    && events == Appended(emitted, capacity)
  }

  lemma MergeStart(fromA: seq<Event>, fromB: seq<Event>,
                   aTime: real, aData: Option<seq<byte>>, nfA: nat,
                   bTime: real, bData: Option<seq<byte>>, nfB: nat, capacity: nat)
    requires Ordered(fromA) && Ordered(fromB)
    requires fromA == [] ==> aTime == nfA as real && aData == None
    requires fromA != [] ==> aTime == fromA[0].time && aData == Some(fromA[0].data)
    requires fromB == [] ==> bTime == nfB as real && bData == None
    requires fromB != [] ==> bTime == fromB[0].time && bData == Some(fromB[0].data)
    ensures MergeProgress(fromA, fromB, 0, aTime, aData, nfA, 0, bTime, bData, nfB, [], [], capacity, 0.0)
  {
    assert fromA[..Live(fromA)] == fromA[0..Live(fromA)];
    assert fromB[..Live(fromB)] == fromB[0..Live(fromB)];
  }

  /** The record a live side offers is well placed for append: not before the latest stamp. */
  lemma MergeHead(es: seq<Event>, c: nat, time: real, data: Option<seq<byte>>, nframes: nat, latest: real)
    requires Side(es, c, time, data, nframes) && data.Some?
    requires forall j | c <= j < Live(es) :: latest <= es[j].time
    ensures c < |es| && data.value == es[c].data && time == es[c].time && latest <= time
  {
  }

  /** A side after its record at c has been taken and increment has answered t. */
  lemma SideAdvance(es: seq<Event>, c: nat, time: real, data: Option<seq<byte>>, nframes: nat,
                    t: real, time': real, data': Option<seq<byte>>)
    requires Side(es, c, time, data, nframes) && data.Some?
    requires t == if c + 1 < |es| then es[c + 1].time else nframes as real
    requires t != 0.0 ==> time' == t && data' == (if c + 1 < |es| then Some(es[c + 1].data) else None)
    requires t == 0.0 ==> time' == time && data' == None
    ensures Side(es, c + 1, time', data', nframes)
    ensures es[c..Live(es)] == [es[c]] + es[c + 1..Live(es)]
  {
    AdvanceSide(es, c, nframes);
  }

  lemma MergeStepA(fromA: seq<Event>, fromB: seq<Event>,
                   ca: nat, aTime: real, aData: Option<seq<byte>>, nfA: nat,
                   cb: nat, bTime: real, bData: Option<seq<byte>>, nfB: nat,
                   emitted: seq<Event>, events: seq<Event>, capacity: nat, latest: real,
                   events': seq<Event>, latest': real, t: real, aTime': real, aData': Option<seq<byte>>)
    requires Ordered(fromA) && Ordered(fromB)
    requires MergeProgress(fromA, fromB, ca, aTime, aData, nfA, cb, bTime, bData, nfB, emitted, events, capacity, latest)
    requires aData.Some? && (bData.None? || aTime < bTime)
    requires ca < |fromA| && (HEADER + |fromA[ca].data| <= capacity - Bytes(events) ==> events' == events + [fromA[ca]] && latest' == fromA[ca].time)
    requires !(HEADER + |fromA[ca].data| <= capacity - Bytes(events)) ==> events' == events && latest' == latest
    requires t == if ca + 1 < |fromA| then fromA[ca + 1].time else nfA as real
    requires t != 0.0 ==> aTime' == t && aData' == (if ca + 1 < |fromA| then Some(fromA[ca + 1].data) else None)
    requires t == 0.0 ==> aTime' == aTime && aData' == None
    ensures MergeProgress(fromA, fromB, ca + 1, aTime', aData', nfA, cb, bTime, bData, nfB,
                          emitted + [fromA[ca]], events', capacity, latest')
  {
    SideAdvance(fromA, ca, aTime, aData, nfA, t, aTime', aData');
    SidesStepA(fromA, fromB, ca, aTime, aData, nfA, cb, bTime, bData, nfB, latest, latest', aTime', aData');
    OutputStepA(fromA, fromB, ca, cb, emitted, events, capacity, events');
  }

  lemma SidesStepA(fromA: seq<Event>, fromB: seq<Event>,
                   ca: nat, aTime: real, aData: Option<seq<byte>>, nfA: nat,
                   cb: nat, bTime: real, bData: Option<seq<byte>>, nfB: nat,
                   latest: real, latest': real, aTime': real, aData': Option<seq<byte>>)
    requires Ordered(fromA) && Ordered(fromB)
    requires MergeSides(fromA, fromB, ca, aTime, aData, nfA, cb, bTime, bData, nfB, latest)
    requires aData.Some? && (bData.None? || aTime < bTime)
    requires Side(fromA, ca + 1, aTime', aData', nfA)
    requires latest' == latest || latest' == aTime
    ensures MergeSides(fromA, fromB, ca + 1, aTime', aData', nfA, cb, bTime, bData, nfB, latest')
  {
  }

  lemma ConcatAssoc(x: seq<Event>, y: seq<Event>, z: seq<Event>)
    ensures (x + y) + z == x + (y + z)
  {
  }

  /** Taking a's head out of what is left to merge moves it to the emitted records. */
  lemma EmitFirst(restA: seq<Event>, restB: seq<Event>, emitted: seq<Event>, whole: seq<Event>)
    requires restA != [] && (restB == [] || restA[0].time < restB[0].time)
    requires emitted + MergeSeq(restA, restB) == whole
    ensures (emitted + [restA[0]]) + MergeSeq(restA[1..], restB) == whole
  {
    MergeTakesFirst(restA, restB);
    ConcatAssoc(emitted, [restA[0]], MergeSeq(restA[1..], restB));
  }

  /** The same for b's head. */
  lemma EmitSecond(restA: seq<Event>, restB: seq<Event>, emitted: seq<Event>, whole: seq<Event>)
    requires restB != [] && (restA == [] || !(restA[0].time < restB[0].time))
    requires emitted + MergeSeq(restA, restB) == whole
    ensures (emitted + [restB[0]]) + MergeSeq(restA, restB[1..]) == whole
  {
    MergeTakesSecond(restA, restB);
    ConcatAssoc(emitted, [restB[0]], MergeSeq(restA, restB[1..]));
  }

  lemma OutputStepA(fromA: seq<Event>, fromB: seq<Event>, ca: nat, cb: nat,
                    emitted: seq<Event>, events: seq<Event>, capacity: nat, events': seq<Event>)
    requires MergeOutput(fromA, fromB, ca, cb, emitted, events, capacity)
    requires ca < Live(fromA) && (cb == Live(fromB) || fromA[ca].time < fromB[cb].time)
    requires HEADER + |fromA[ca].data| <= capacity - Bytes(events) ==> events' == events + [fromA[ca]]
    requires !(HEADER + |fromA[ca].data| <= capacity - Bytes(events)) ==> events' == events
    ensures MergeOutput(fromA, fromB, ca + 1, cb, emitted + [fromA[ca]], events', capacity)
  {
    var la, lb := Live(fromA), Live(fromB);
    var restA, restB := fromA[ca..la], fromB[cb..lb];
    assert restA[0] == fromA[ca] && restA[1..] == fromA[ca + 1..la];
    assert restB != [] ==> restB[0] == fromB[cb];
    EmitFirst(restA, restB, emitted, MergedEvents(fromA, fromB));
    AppendedSnoc(emitted, fromA[ca], capacity);
  }

  lemma MergeStepB(fromA: seq<Event>, fromB: seq<Event>,
                   ca: nat, aTime: real, aData: Option<seq<byte>>, nfA: nat,
                   cb: nat, bTime: real, bData: Option<seq<byte>>, nfB: nat,
                   emitted: seq<Event>, events: seq<Event>, capacity: nat, latest: real,
                   events': seq<Event>, latest': real, t: real, bTime': real, bData': Option<seq<byte>>)
    requires Ordered(fromA) && Ordered(fromB)
    requires MergeProgress(fromA, fromB, ca, aTime, aData, nfA, cb, bTime, bData, nfB, emitted, events, capacity, latest)
    requires bData.Some? && !(aData.Some? && aTime < bTime)
    requires cb < |fromB| && (HEADER + |fromB[cb].data| <= capacity - Bytes(events) ==> events' == events + [fromB[cb]] && latest' == fromB[cb].time)
    requires !(HEADER + |fromB[cb].data| <= capacity - Bytes(events)) ==> events' == events && latest' == latest
    requires t == if cb + 1 < |fromB| then fromB[cb + 1].time else nfB as real
    requires t != 0.0 ==> bTime' == t && bData' == (if cb + 1 < |fromB| then Some(fromB[cb + 1].data) else None)
    requires t == 0.0 ==> bTime' == bTime && bData' == None
    ensures MergeProgress(fromA, fromB, ca, aTime, aData, nfA, cb + 1, bTime', bData', nfB,
                          emitted + [fromB[cb]], events', capacity, latest')
  {
    SideAdvance(fromB, cb, bTime, bData, nfB, t, bTime', bData');
    SidesStepB(fromA, fromB, ca, aTime, aData, nfA, cb, bTime, bData, nfB, latest, latest', bTime', bData');
    OutputStepB(fromA, fromB, ca, cb, emitted, events, capacity, events');
  }

  lemma SidesStepB(fromA: seq<Event>, fromB: seq<Event>,
                   ca: nat, aTime: real, aData: Option<seq<byte>>, nfA: nat,
                   cb: nat, bTime: real, bData: Option<seq<byte>>, nfB: nat,
                   latest: real, latest': real, bTime': real, bData': Option<seq<byte>>)
    requires Ordered(fromA) && Ordered(fromB)
    requires MergeSides(fromA, fromB, ca, aTime, aData, nfA, cb, bTime, bData, nfB, latest)
    requires bData.Some? && !(aData.Some? && aTime < bTime)
    requires Side(fromB, cb + 1, bTime', bData', nfB)
    requires latest' == latest || latest' == bTime
    ensures MergeSides(fromA, fromB, ca, aTime, aData, nfA, cb + 1, bTime', bData', nfB, latest')
  {
  }

  lemma OutputStepB(fromA: seq<Event>, fromB: seq<Event>, ca: nat, cb: nat,
                    emitted: seq<Event>, events: seq<Event>, capacity: nat, events': seq<Event>)
    requires MergeOutput(fromA, fromB, ca, cb, emitted, events, capacity)
    requires cb < Live(fromB) && (ca == Live(fromA) || !(fromA[ca].time < fromB[cb].time))
    requires HEADER + |fromB[cb].data| <= capacity - Bytes(events) ==> events' == events + [fromB[cb]]
    requires !(HEADER + |fromB[cb].data| <= capacity - Bytes(events)) ==> events' == events
    ensures MergeOutput(fromA, fromB, ca, cb + 1, emitted + [fromB[cb]], events', capacity)
  {
    var la, lb := Live(fromA), Live(fromB);
    var restA, restB := fromA[ca..la], fromB[cb..lb];
    assert restB[0] == fromB[cb] && restB[1..] == fromB[cb + 1..lb];
    assert restA != [] ==> restA[0] == fromA[ca];
    EmitSecond(restA, restB, emitted, MergedEvents(fromA, fromB));
    AppendedSnoc(emitted, fromB[cb], capacity);
  }

  /** When both sides have ended, everything merge meant to emit has been emitted. */
  lemma MergeDone(fromA: seq<Event>, fromB: seq<Event>,
                  ca: nat, aTime: real, aData: Option<seq<byte>>, nfA: nat,
                  cb: nat, bTime: real, bData: Option<seq<byte>>, nfB: nat,
                  emitted: seq<Event>, events: seq<Event>, capacity: nat, latest: real)
    requires MergeProgress(fromA, fromB, ca, aTime, aData, nfA, cb, bTime, bData, nfB, emitted, events, capacity, latest)
    requires aData.None? && bData.None?
    ensures events == Appended(MergedEvents(fromA, fromB), capacity)
    ensures aTime == FinalTime(fromA, nfA) && bTime == FinalTime(fromB, nfB)
    ensures ca == Live(fromA) && cb == Live(fromB)
  {
    assert fromA[ca..Live(fromA)] == [] && fromB[cb..Live(fromB)] == [];
    assert MergeSeq([], []) == [];
    assert emitted + [] == emitted;
  }

  lemma CopyStart(es: seq<Event>, lo: nat, c: nat, frames: real, capacity: nat)
    requires Ordered(es) && lo == (if es == [] then 0 else 1) && c == lo
    ensures CopyProgress(es, lo, c, frames, [], capacity, 0.0)
  {
    assert es[lo..c] == [];
  }

  /** When increment's answer reaches the frame count, copy has appended exactly its candidates. */
  lemma CopyDone(es: seq<Event>, lo: nat, c: nat, frames: real, events: seq<Event>, capacity: nat, latest: real,
                 t: real, nframes: nat)
    requires CopyProgress(es, lo, c, frames, events, capacity, latest)
    requires lo == (if es == [] then 0 else 1) && frames <= nframes as real
    requires t == (if c < |es| then es[c].time else nframes as real) && t >= frames
    ensures events == Appended(CopyCandidates(es, frames), capacity)
  {
    TakeBelowExact(es[lo..], c - lo, frames);
    assert es[lo..][..c - lo] == es[lo..c];
  }

  function MinFrames(x: nat, y: nat): nat { if x < y then x else y }

  /** std::max on doubles: the second when the first is smaller, else the first. */
  function MaxTime(x: real, y: real): real { if x < y then y else x }

  /** One LV2_MIDI block: a fixed capacity, the size in use, the event count and the records. */
  class MidiData {
    const capacity: nat
    var size: nat
    var eventCount: nat
    var events: seq<Event>

    ghost predicate Valid()
      reads this
    {
      capacity <= UINT32_MAX && size == Bytes(events) <= capacity
      && eventCount == |events|
      && forall i | 0 <= i < |events| :: WellFormed(events[i])
    }

    constructor (capacity: nat)
      requires capacity <= UINT32_MAX
      ensures Valid() && this.capacity == capacity && events == []
    {
      this.capacity := capacity;
      size, eventCount, events := 0, 0, [];
    }
  }

  class MidiBuffer {
    /** _local_buf: allocated by the constructor, never replaced. */
    const local: MidiData
    /** _buf: the block in use, the local one or the one of a joined buffer. */
    var buf: MidiData
    var joined: MidiBuffer?
    /** _position: a byte offset into buf. */
    var position: nat
    /** The index of the record at `position`. */
    ghost var cursor: nat
    var latestStamp: real
    var thisNframes: nat

    /** The cursor sits on a record boundary of a well-formed block. */
    ghost predicate Valid()
      reads this`buf, this`position, this`cursor, buf
    {
      local.capacity <= UINT32_MAX && buf.Valid()
      && cursor <= |buf.events| && position == Offset(buf.events, cursor)
    }

    /** Starts on its own empty block, with no frames and a zero latest stamp. */
    constructor (capacity: nat)
      requires capacity <= UINT32_MAX
      ensures Valid() && fresh(local) && buf == local && joined == null
      ensures local.capacity == capacity && buf.events == [] && cursor == 0
      ensures latestStamp == 0.0 && thisNframes == 0
    {
      local := new MidiData(capacity);
      buf := local;
      joined := null;
      latestStamp := 0.0;
      thisNframes, position, cursor := 0, 0, 0;
    }

    /** reset(nframes): empties the block in use and rewinds. */
    method Reset(nframes: nat)
      requires Valid()
      modifies this, buf
      ensures Valid() && buf == old(buf) && joined == old(joined)
      ensures buf.events == [] && cursor == 0 && latestStamp == 0.0 && thisNframes == nframes
    {
      buf.events, buf.size, buf.eventCount := [], 0, 0;
      position, cursor := 0, 0;
      latestStamp := 0.0;
      thisNframes := nframes;
    }

    /** rewind(): back to the first record. */
    method Rewind()
      requires Valid()
      modifies this
      ensures Valid() && cursor == 0
      ensures buf == old(buf) && joined == old(joined)
      ensures latestStamp == old(latestStamp) && thisNframes == old(thisNframes)
    {
      position, cursor := 0, 0;
    }

    /** prepare_read: rewind and take the cycle's frame count. */
    method PrepareRead(nframes: nat)
      requires Valid()
      modifies this
      ensures Valid() && cursor == 0 && thisNframes == nframes
      ensures buf == old(buf) && buf.events == old(buf.events) && joined == old(joined)
    {
      Rewind();
      thisNframes := nframes;
    }

    /** prepare_write: reset for the cycle's frame count. */
    method PrepareWrite(nframes: nat)
      requires Valid()
      modifies this, buf
      ensures Valid() && buf == old(buf) && buf.events == [] && cursor == 0
      ensures thisNframes == nframes
    {
      Reset(nframes);
    }

    /**
     * increment: step past exactly one record; the result is the timestamp
     * of the record now under the cursor, or this_nframes at the end, where
     * the cursor stays.
     */
    method Increment() returns (t: real)
      requires Valid()
      modifies this
      ensures Valid() && buf == old(buf) && joined == old(joined)
      ensures latestStamp == old(latestStamp) && thisNframes == old(thisNframes)
      ensures cursor == if old(cursor) < |buf.events| then old(cursor) + 1 else old(cursor)
      ensures t == if cursor < |buf.events| then buf.events[cursor].time else thisNframes as real
    {
      AtEnd(buf.events, cursor);
      if position + HEADER >= buf.size {
        assert buf.events[..cursor] == buf.events;
        position := buf.size;
        return thisNframes as real;
      }
      EventAtOffset(buf.events, cursor);
      OffsetStep(buf.events, cursor);
      position := position + HEADER + |EventAt(buf.events, position).data|;
      cursor := cursor + 1;
      AtEnd(buf.events, cursor);
      if position >= buf.size {
        assert buf.events[..cursor] == buf.events;
        position := buf.size;
        t := thisNframes as real;
      } else {
        EventAtOffset(buf.events, cursor);
        t := EventAt(buf.events, position).time;
      }
    }

    /**
     * get_event: the record under the cursor, without moving; at the end
     * the timestamp is this_nframes, the size 0 and the data null. (The
     * clamp of the position there leaves it where it is, since a valid
     * cursor past the last record already equals the size.)
     */
    method GetEvent() returns (time: real, size: nat, data: Option<seq<byte>>)
      requires Valid()
      ensures cursor == |buf.events| ==> time == thisNframes as real && size == 0 && data == None
      ensures cursor < |buf.events| ==>
        time == buf.events[cursor].time && data == Some(buf.events[cursor].data) && size == |buf.events[cursor].data|
    {
      AtEnd(buf.events, cursor);
      if position >= buf.size {
        return thisNframes as real, 0, None;
      }
      EventAtOffset(buf.events, cursor);
      var e := EventAt(buf.events, position);
      time, size, data := e.time, |e.data|, Some(e.data);
    }

    /**
     * append: refused, with nothing changed, when the free space is less
     * than the header plus the payload; otherwise the record goes at the
     * end and becomes the latest stamp.
     */
    method Append(timestamp: real, data: seq<byte>) returns (ok: bool)
      requires Valid() && |data| <= UINT32_MAX
      requires HEADER + |data| <= buf.capacity - buf.size ==>
        |data| > 0 && data[0] >= 0x80 && timestamp >= latestStamp
      modifies this, buf
      ensures Valid() && buf == old(buf) && joined == old(joined)
      ensures cursor == old(cursor) && thisNframes == old(thisNframes)
      ensures ok <==> HEADER + |data| <= buf.capacity - old(buf.size)
      ensures ok ==> (buf.events == old(buf.events) + [Event(timestamp, data)]
        && buf.size == old(buf.size) + HEADER + |data|
        && buf.eventCount == old(buf.eventCount) + 1 && latestStamp == timestamp)
      ensures !ok ==> (buf.events == old(buf.events) && buf.size == old(buf.size)
        && latestStamp == old(latestStamp))
    {
      if buf.capacity - buf.size < HEADER + |data| {
        return false;
      }
      OffsetSnoc(buf.events, Event(timestamp, data), cursor);
      BytesAppend(buf.events, [Event(timestamp, data)]);
      buf.events := buf.events + [Event(timestamp, data)];
      buf.size := buf.size + HEADER + |data|;
      buf.eventCount := buf.eventCount + 1;
      latestStamp := timestamp;
      ok := true;
    }

    /**
     * join: use the other buffer's local block and its position. The call
     * reports false in every case.
     */
    method Join(other: MidiBuffer) returns (r: bool)
      requires Valid() && other.Valid() && other.buf == other.local
      modifies this
      ensures Valid() && !r
      ensures buf == other.local && joined == other && position == other.position
      ensures latestStamp == old(latestStamp) && thisNframes == old(thisNframes)
    {
      position := other.position;
      cursor := other.cursor;
      buf := other.local;
      joined := other;
      r := false;
    }

    /** unjoin: back to the local block, which is reset. */
    method Unjoin()
      requires Valid()
      modifies this, local
      ensures Valid() && buf == local && joined == null
      ensures buf.events == [] && cursor == 0 && thisNframes == old(thisNframes)
    {
      joined := null;
      buf := local;
      local.events, local.size, local.eventCount := [], 0, 0;
      position, cursor := 0, 0;
      latestStamp := 0.0;
    }

    /**
     * copy: clear, rewind the source, and append the source's records while
     * increment's timestamp is below the smaller of the two frame counts.
     * Since increment runs before the first read, the record under the
     * rewound cursor is never appended.
     */
    method Copy(src: MidiBuffer)
      requires Valid() && src.Valid() && src != this && src.buf != buf
      requires Ordered(src.buf.events)
      modifies this, buf, src
      ensures Valid() && src.Valid() && buf == old(buf) && joined == old(joined)
      ensures src.buf == old(src.buf) && src.buf.events == old(src.buf.events)
      ensures thisNframes == old(thisNframes)
      ensures buf.events == Appended(CopyCandidates(src.buf.events, MinFrames(thisNframes, src.thisNframes) as real), buf.capacity)
    {
      Reset(thisNframes);
      src.Rewind();
      var frameCount := MinFrames(thisNframes, src.thisNframes);
      ghost var es := src.buf.events;
      ghost var lo := if es == [] then 0 else 1;
      var t := src.Increment();
      CopyStart(es, lo, src.cursor, frameCount as real, buf.capacity);
      while t < frameCount as real
        invariant Valid() && src.Valid()
        invariant buf == old(buf) && joined == old(joined) && src.buf == old(src.buf) && src.buf.events == es
        invariant thisNframes == old(thisNframes) && src.thisNframes == old(src.thisNframes)
        invariant frameCount == MinFrames(thisNframes, src.thisNframes)
        invariant t == if src.cursor < |es| then es[src.cursor].time else src.thisNframes as real
        invariant CopyProgress(es, lo, src.cursor, frameCount as real, buf.events, buf.capacity, latestStamp)
        decreases |es| - src.cursor
      {
        t := CopyTurn(src, es, lo, frameCount, t);
      }
      CopyDone(es, lo, src.cursor, frameCount as real, buf.events, buf.capacity, latestStamp, t, src.thisNframes);
    }

    /** One turn of copy's loop: read the source's record, append it, and step the source. */
    method CopyTurn(src: MidiBuffer, ghost es: seq<Event>, ghost lo: nat, frameCount: nat, t: real) returns (t': real)
      requires Valid() && src.Valid() && src != this && src.buf != buf
      requires src.buf.events == es && Ordered(es) && frameCount <= src.thisNframes
      requires t == (if src.cursor < |es| then es[src.cursor].time else src.thisNframes as real) && t < frameCount as real
      requires CopyProgress(es, lo, src.cursor, frameCount as real, buf.events, buf.capacity, latestStamp)
      modifies this, buf, src
      ensures Valid() && src.Valid() && buf == old(buf) && joined == old(joined) && thisNframes == old(thisNframes)
      ensures src.buf == old(src.buf) && src.buf.events == es && src.thisNframes == old(src.thisNframes)
      ensures src.cursor == old(src.cursor) + 1
      ensures t' == if src.cursor < |es| then es[src.cursor].time else src.thisNframes as real
      ensures CopyProgress(es, lo, src.cursor, frameCount as real, buf.events, buf.capacity, latestStamp)
    {
      ghost var c, before, latest := src.cursor, buf.events, latestStamp;
      var time, size, data := src.GetEvent();
      var ok := Append(time, data.value);
      CopyStep(es, lo, c, frameCount as real, before, buf.capacity, latest, buf.events, latestStamp);
      t' := src.Increment();
    }

    /**
     * merge: reset, then append the records of a and b in timestamp order,
     * b first on equal stamps; a side ends at its last record or when
     * increment yields 0.0. The latest stamp becomes the larger of the two
     * sides' final times. Appends that do not fit are skipped.
     */
    method Merge(a: MidiBuffer, b: MidiBuffer) returns (r: bool)
      requires Valid() && a.Valid() && b.Valid()
      requires this != a && this != b && a != b && buf != a.buf && buf != b.buf
      requires Ordered(a.buf.events) && Ordered(b.buf.events)
      modifies this, buf, a, b
      ensures r && Valid() && a.Valid() && b.Valid()
      ensures buf == old(buf) && joined == old(joined) && thisNframes == old(thisNframes)
      ensures a.buf == old(a.buf) && a.buf.events == old(a.buf.events)
      ensures b.buf == old(b.buf) && b.buf.events == old(b.buf.events)
      ensures buf.events == Appended(MergedEvents(a.buf.events, b.buf.events), buf.capacity)
      ensures latestStamp == MaxTime(FinalTime(a.buf.events, a.thisNframes), FinalTime(b.buf.events, b.thisNframes))
      ensures a.cursor == Live(a.buf.events) && b.cursor == Live(b.buf.events)
    {
      Reset(thisNframes);
      a.Rewind();
      b.Rewind();
      ghost var fromA, fromB := a.buf.events, b.buf.events;
      var aTime, aSize, aData := a.GetEvent();
      var bTime, bSize, bData := b.GetEvent();
      MergeStart(fromA, fromB, aTime, aData, a.thisNframes, bTime, bData, b.thisNframes, buf.capacity);
      aTime, bTime := MergeLoop(a, b, aTime, aData, bTime, bData);
      latestStamp := MaxTime(aTime, bTime);
      r := true;
    }

    /**
     * The loop of merge, from the two sides' first records to the point
     * where neither side has a record left; the result is the two sides'
     * final times.
     */
    method MergeLoop(a: MidiBuffer, b: MidiBuffer, aTime0: real, aData0: Option<seq<byte>>, bTime0: real, bData0: Option<seq<byte>>)
      returns (aTimeEnd: real, bTimeEnd: real)
      requires Valid() && a.Valid() && b.Valid()
      requires this != a && this != b && a != b && buf != a.buf && buf != b.buf
      requires Ordered(a.buf.events) && Ordered(b.buf.events)
      requires MergeProgress(a.buf.events, b.buf.events, a.cursor, aTime0, aData0, a.thisNframes, b.cursor, bTime0, bData0, b.thisNframes,
                             [], buf.events, buf.capacity, latestStamp)
      modifies this, buf, a, b
      ensures Valid() && a.Valid() && b.Valid()
      ensures buf == old(buf) && joined == old(joined) && thisNframes == old(thisNframes)
      ensures a.buf == old(a.buf) && a.buf.events == old(a.buf.events) && a.thisNframes == old(a.thisNframes)
      ensures b.buf == old(b.buf) && b.buf.events == old(b.buf.events) && b.thisNframes == old(b.thisNframes)
      ensures buf.events == Appended(MergedEvents(a.buf.events, b.buf.events), buf.capacity)
      ensures aTimeEnd == FinalTime(a.buf.events, a.thisNframes) && bTimeEnd == FinalTime(b.buf.events, b.thisNframes)
      ensures a.cursor == Live(a.buf.events) && b.cursor == Live(b.buf.events)
    {
      ghost var fromA, fromB := a.buf.events, b.buf.events;
      var aTime, aData, bTime, bData := aTime0, aData0, bTime0, bData0;
      ghost var emitted: seq<Event> := [];
      while true
        invariant Valid() && a.Valid() && b.Valid()
        invariant buf == old(buf) && joined == old(joined) && thisNframes == old(thisNframes)
        invariant a.buf == old(a.buf) && a.buf.events == fromA && b.buf == old(b.buf) && b.buf.events == fromB
        invariant a.thisNframes == old(a.thisNframes) && b.thisNframes == old(b.thisNframes)
        invariant MergeProgress(fromA, fromB, a.cursor, aTime, aData, a.thisNframes, b.cursor, bTime, bData, b.thisNframes,
                                emitted, buf.events, buf.capacity, latestStamp)
        decreases Live(fromA) - a.cursor + Live(fromB) - b.cursor
      {
        if aData.Some? && (bData.None? || aTime < bTime) {
          aTime, aData, emitted := TakeA(a, b, fromA, fromB, aTime, aData, bTime, bData, emitted);
        } else if bData.Some? {
          bTime, bData, emitted := TakeB(a, b, fromA, fromB, aTime, aData, bTime, bData, emitted);
        } else {
          break;
        }
      }
      MergeDone(fromA, fromB, a.cursor, aTime, aData, a.thisNframes, b.cursor, bTime, bData, b.thisNframes,
                emitted, buf.events, buf.capacity, latestStamp);
      aTimeEnd, bTimeEnd := aTime, bTime;
    }

    /** merge's branch that appends a's record: the loop's state is carried forward. */
    method TakeA(a: MidiBuffer, b: MidiBuffer, ghost fromA: seq<Event>, ghost fromB: seq<Event>,
                 aTime: real, aData: Option<seq<byte>>, bTime: real, bData: Option<seq<byte>>, ghost emitted: seq<Event>)
      returns (aTime': real, aData': Option<seq<byte>>, ghost emitted': seq<Event>)
      requires Valid() && a.Valid() && b.Valid()
      requires this != a && this != b && a != b && buf != a.buf && buf != b.buf
      requires a.buf.events == fromA && b.buf.events == fromB && Ordered(fromA) && Ordered(fromB)
      requires MergeProgress(fromA, fromB, a.cursor, aTime, aData, a.thisNframes, b.cursor, bTime, bData, b.thisNframes,
                             emitted, buf.events, buf.capacity, latestStamp)
      requires aData.Some? && (bData.None? || aTime < bTime)
      modifies this, buf, a
      ensures Valid() && a.Valid()
      ensures buf == old(buf) && joined == old(joined) && thisNframes == old(thisNframes)
      ensures a.buf == old(a.buf) && a.buf.events == fromA && a.thisNframes == old(a.thisNframes)
      ensures a.cursor == old(a.cursor) + 1
      ensures MergeProgress(fromA, fromB, a.cursor, aTime', aData', a.thisNframes, b.cursor, bTime, bData, b.thisNframes,
                            emitted', buf.events, buf.capacity, latestStamp)
    {
      ghost var ca, before, latest := a.cursor, buf.events, latestStamp;
      MergeHead(fromA, ca, aTime, aData, a.thisNframes, latest);
      var t;
      t, aTime', aData' := TakeAndAdvance(a, aTime, aData.value);
      MergeStepA(fromA, fromB, ca, aTime, aData, a.thisNframes, b.cursor, bTime, bData, b.thisNframes,
                 emitted, before, buf.capacity, latest, buf.events, latestStamp, t, aTime', aData');
      emitted' := emitted + [fromA[ca]];
    }

    /** merge's branch that appends b's record. */
    method TakeB(a: MidiBuffer, b: MidiBuffer, ghost fromA: seq<Event>, ghost fromB: seq<Event>,
                 aTime: real, aData: Option<seq<byte>>, bTime: real, bData: Option<seq<byte>>, ghost emitted: seq<Event>)
      returns (bTime': real, bData': Option<seq<byte>>, ghost emitted': seq<Event>)
      requires Valid() && a.Valid() && b.Valid()
      requires this != a && this != b && a != b && buf != a.buf && buf != b.buf
      requires a.buf.events == fromA && b.buf.events == fromB && Ordered(fromA) && Ordered(fromB)
      requires MergeProgress(fromA, fromB, a.cursor, aTime, aData, a.thisNframes, b.cursor, bTime, bData, b.thisNframes,
                             emitted, buf.events, buf.capacity, latestStamp)
      requires bData.Some? && !(aData.Some? && aTime < bTime)
      modifies this, buf, b
      ensures Valid() && b.Valid()
      ensures buf == old(buf) && joined == old(joined) && thisNframes == old(thisNframes)
      ensures b.buf == old(b.buf) && b.buf.events == fromB && b.thisNframes == old(b.thisNframes)
      ensures b.cursor == old(b.cursor) + 1
      ensures MergeProgress(fromA, fromB, a.cursor, aTime, aData, a.thisNframes, b.cursor, bTime', bData', b.thisNframes,
                            emitted', buf.events, buf.capacity, latestStamp)
    {
      ghost var cb, before, latest := b.cursor, buf.events, latestStamp;
      MergeHead(fromB, cb, bTime, bData, b.thisNframes, latest);
      var t;
      t, bTime', bData' := TakeAndAdvance(b, bTime, bData.value);
      MergeStepB(fromA, fromB, a.cursor, aTime, aData, a.thisNframes, cb, bTime, bData, b.thisNframes,
                 emitted, before, buf.capacity, latest, buf.events, latestStamp, t, bTime', bData');
      emitted' := emitted + [fromB[cb]];
    }

    /**
     * One turn of merge's loop for the side `src`: append its current
     * record, step it, and fetch its next record unless increment answered
     * 0.0 (then the side has no record: its data becomes null and its time
     * stays).
     */
    method TakeAndAdvance(src: MidiBuffer, time: real, data: seq<byte>) returns (t: real, time': real, data': Option<seq<byte>>)
      requires Valid() && src.Valid() && src != this && src.buf != buf
      requires src.cursor < |src.buf.events|
      requires time == src.buf.events[src.cursor].time && data == src.buf.events[src.cursor].data
      requires time >= latestStamp
      modifies this, buf, src
      ensures Valid() && src.Valid()
      ensures buf == old(buf) && joined == old(joined) && thisNframes == old(thisNframes)
      ensures src.buf == old(src.buf) && src.buf.events == old(src.buf.events) && src.thisNframes == old(src.thisNframes)
      ensures src.cursor == old(src.cursor) + 1
      ensures HEADER + |data| <= buf.capacity - Bytes(old(buf.events)) ==>
        (buf.events == old(buf.events) + [Event(time, data)] && latestStamp == time)
      ensures !(HEADER + |data| <= buf.capacity - Bytes(old(buf.events))) ==>
        (buf.events == old(buf.events) && latestStamp == old(latestStamp))
      ensures t == if src.cursor < |src.buf.events| then src.buf.events[src.cursor].time else src.thisNframes as real
      ensures t != 0.0 ==> (time' == t &&
        data' == if src.cursor < |src.buf.events| then Some(src.buf.events[src.cursor].data) else None)
      ensures t == 0.0 ==> time' == time && data' == None
    {
      var ok := Append(time, data);
      t := src.Increment();
      if t != 0.0 {
        var size;
        time', size, data' := src.GetEvent();
      } else {
        time', data' := time, None;
      }
    }

    /** is_joined_to: the two buffers use the same block. */
    method IsJoinedTo(other: MidiBuffer) returns (r: bool)
      ensures r <==> buf == other.buf
    {
      r := buf == other.buf;
    }
  }

  /** The constructor refuses a capacity beyond 32 bits (std::bad_alloc). */
  method NewMidiBuffer(capacity: nat) returns (r: Option<MidiBuffer>)
    ensures r.None? <==> capacity > UINT32_MAX
    ensures r.Some? ==> (fresh(r.value) && r.value.Valid() && r.value.buf.events == []
      && r.value.buf.capacity == capacity && r.value.latestStamp == 0.0)
  {
    if capacity > UINT32_MAX {
      return None;
    }
    var b := new MidiBuffer(capacity);
    r := Some(b);
  }
}
