/** Reading one WAL segment (wal.rs, `read_segment`): header, frames, sequence
    continuity, and the torn-tail rule. */
module WalSegment {
  import opened Words
  import opened WalCodec

  const HEADER_LEN := 32

  type PartitionId = id: Bytes | |id| == 16 witness seq(16, _ => 0)

  /** "DHWL", version 1, reserved, partition id, first sequence. */
  function HeaderOf(id: PartitionId, first: nat): (h: Bytes)
    ensures |h| == HEADER_LEN
  {
    [0x44, 0x48, 0x57, 0x4C] + ToLe(1, 2) + [0, 0] + id + ToLe(first, 8)
  }

  function DecodeHeader(b: Bytes, expected: PartitionId): Result<nat, WalError> {
    if |b| < HEADER_LEN then Err(BadHeader("short header"))
    else if b[..4] != [0x44, 0x48, 0x57, 0x4C] then Err(BadHeader("magic"))
    else if FromLe(b[4..6]) != 1 then Err(UnsupportedVersion(FromLe(b[4..6])))
    else if b[8..24] != expected then Err(WrongPartition(b[8..24]))
    else Ok(FromLe(b[24..32]))
  }

  /** Entries read, and the offset of a torn tail if there is one. */
  datatype SegmentRead = SegmentRead(entries: seq<Entry>, torn: Option<nat>)

  /** Offset of the first complete, CRC-valid frame at or after `from`. */
  function NextValidFrame(crc: Checksum, b: Bytes, from: nat): (r: Option<nat>)
    ensures r.None? ==> forall at :: from <= at <= |b| ==> !FrameValid(crc, b[at..])
    ensures r.Some? ==> from <= r.value <= |b| && FrameValid(crc, b[r.value..])
    decreases |b| - from
  {
    if from + 7 >= |b| then None
    else if FrameValid(crc, b[from..]) then Some(from)
    else NextValidFrame(crc, b, from + 1)
  }

  function Prepend(entries: seq<Entry>, r: Result<SegmentRead, WalError>): Result<SegmentRead, WalError> {
    match r
    case Err(error) => Err(error)
    case Ok(rest) => Ok(SegmentRead(entries + rest.entries, rest.torn))
  }

  /** The frame loop from `offset` on. */
  function ReadFrames(crc: Checksum, b: Bytes, offset: nat, expected: nat, active: bool): Result<SegmentRead, WalError>
    decreases |b| - offset
  {
    if offset >= |b| then Ok(SegmentRead([], None))
    else match ParseEntry(crc, b[offset..])
      case Frame(entry, consumed) =>
        if entry.seqNo != expected then Err(SequenceGap(expected, entry.seqNo))
        else Prepend([entry], ReadFrames(crc, b, offset + consumed, expected + 1, active))
      case Corrupt(_) => Err(CorruptAt(offset))
      case Unreadable(_) =>
        if !active || NextValidFrame(crc, b, offset + 1).Some? then Err(CorruptAt(offset))
        else Ok(SegmentRead([], Some(offset)))
  }

  predicate AllZero(b: Bytes) {
    forall i :: 0 <= i < |b| ==> b[i] == 0
  }

  /** Read a whole segment file named after `named`. */
  function ReadSegment(crc: Checksum, id: PartitionId, named: nat, b: Bytes,
                       active: bool): Result<SegmentRead, WalError>
  {
    if active && (|b| < HEADER_LEN || AllZero(b)) then Ok(SegmentRead([], Some(0)))
    else match DecodeHeader(b, id)
      case Err(error) => Err(error)
      case Ok(first) =>
        if named != first then Err(BadHeader("first sequence disagrees with the segment name"))
        else ReadFrames(crc, b, HEADER_LEN, first, active)
  }

  /** The bytes of a run of frames. */
  function Frames(crc: Checksum, entries: seq<Entry>): Bytes {
    if entries == [] then [] else FrameOf(crc, entries[0]) + Frames(crc, entries[1..])
  }

  /** Storable entries numbered from `first` on. */
  ghost predicate Numbered(entries: seq<Entry>, first: nat) {
    forall i :: 0 <= i < |entries| ==> Storable(entries[i]) && entries[i].seqNo == first + i
  }

  lemma HeaderRoundTrip(id: PartitionId, first: nat, rest: Bytes)
    requires first < 0x1_0000_0000_0000_0000
    ensures DecodeHeader(HeaderOf(id, first) + rest, id) == Ok(first)
    ensures !AllZero(HeaderOf(id, first) + rest)
  {
    Widths();
    var b := HeaderOf(id, first) + rest;
    FromLeToLe(1, 2);
    FromLeToLe(first, 8);
    assert b[..4] == [0x44, 0x48, 0x57, 0x4C];
    assert b[4..6] == ToLe(1, 2);
    assert b[8..24] == id;
    assert b[24..32] == ToLe(first, 8);
    assert b[0] == 0x44;
  }

  lemma {:induction false} FramesAppend(crc: Checksum, a: seq<Entry>, e: seq<Entry>)
    ensures Frames(crc, a + e) == Frames(crc, a) + Frames(crc, e)
  {
    if a == [] {
      assert a + e == e;
    } else {
      assert (a + e)[0] == a[0] && (a + e)[1..] == a[1..] + e;
      FramesAppend(crc, a[1..], e);
    }
  }

  /** One intact frame. */
  lemma ReadOne(crc: Checksum, b: Bytes, offset: nat, e: Entry, more: Bytes, active: bool)
    requires offset <= |b| && b[offset..] == FrameOf(crc, e) + more && Storable(e)
    ensures ReadFrames(crc, b, offset, e.seqNo, active)
         == Prepend([e], ReadFrames(crc, b, offset + |FrameOf(crc, e)|, e.seqNo + 1, active))
  {
    hide ParseEntry, FrameOf;
    ParseFrame(crc, e, more);
    assert |b[offset..]| > 0;
  }

  lemma PrependNone(r: Result<SegmentRead, WalError>)
    ensures Prepend([], r) == r
  {
    if r.Ok? {
      assert [] + r.value.entries == r.value.entries;
    }
  }

  lemma NumberedTail(entries: seq<Entry>, first: nat)
    requires entries != [] && Numbered(entries, first)
    ensures Storable(entries[0]) && entries[0].seqNo == first && Numbered(entries[1..], first + 1)
  {
    assert forall i :: 0 <= i < |entries[1..]| ==> entries[1..][i] == entries[i + 1];
  }

  /** Reading past intact frames: the result is an error, or those entries
      followed by what the rest of the bytes gives. */
  lemma {:induction false} ReadIntact(crc: Checksum, b: Bytes, offset: nat, entries: seq<Entry>, tail: Bytes,
                                      first: nat, active: bool)
    requires Numbered(entries, first) && offset <= |b| && b[offset..] == Frames(crc, entries) + tail
    ensures ReadFrames(crc, b, offset, first, active)
         == Prepend(entries, ReadFrames(crc, b, offset + |Frames(crc, entries)|, first + |entries|, active))
    decreases |entries|
  {
    hide ParseEntry, FrameOf, ReadFrames, Prepend, Storable;
    var rest := ReadFrames(crc, b, offset + |Frames(crc, entries)|, first + |entries|, active);
    if entries == [] {
      PrependNone(rest);
    } else {
      var e := entries[0];
      var f := FrameOf(crc, e);
      NumberedTail(entries, first);
      assert b[offset..] == f + (Frames(crc, entries[1..]) + tail);
      ReadOne(crc, b, offset, e, Frames(crc, entries[1..]) + tail, active);
      assert b[offset + |f|..] == b[offset..][|f|..] == Frames(crc, entries[1..]) + tail;
      ReadIntact(crc, b, offset + |f|, entries[1..], tail, first + 1, active);
      PrependHead(e, entries, rest);
    }
  }

  lemma PrependHead(e: Entry, entries: seq<Entry>, r: Result<SegmentRead, WalError>)
    requires entries != [] && e == entries[0]
    ensures Prepend([e], Prepend(entries[1..], r)) == Prepend(entries, r)
  {
    if r.Ok? {
      assert [e] + (entries[1..] + r.value.entries) == entries + r.value.entries;
    }
  }

  ghost function Image(crc: Checksum, id: PartitionId, first: nat, entries: seq<Entry>, tail: Bytes): Bytes {
    HeaderOf(id, first) + Frames(crc, entries) + tail
  }

  lemma ReadImage(crc: Checksum, id: PartitionId, first: nat, entries: seq<Entry>, tail: Bytes, active: bool)
    requires Numbered(entries, first) && first < 0x1_0000_0000_0000_0000
    ensures var b := Image(crc, id, first, entries, tail);
            && |b| == HEADER_LEN + |Frames(crc, entries)| + |tail|
            && ReadSegment(crc, id, first, b, active)
               == Prepend(entries, ReadFrames(crc, b, HEADER_LEN + |Frames(crc, entries)|, first + |entries|, active))
  {
    hide Frames, HeaderOf, DecodeHeader, FrameOf, ParseEntry, ReadFrames, AllZero;
    var b := Image(crc, id, first, entries, tail);
    var rest := Frames(crc, entries) + tail;
    assert b == HeaderOf(id, first) + rest;
    HeaderRoundTrip(id, first, rest);
    assert b[HEADER_LEN..] == rest;
    ReadIntact(crc, b, HEADER_LEN, entries, tail, first, active);
  }

  /** No intact entry is ever lost, whatever bytes follow: the read fails or
      returns them all, first and in order. */
  lemma IntactEntriesSurvive(crc: Checksum, id: PartitionId, first: nat, entries: seq<Entry>, tail: Bytes, active: bool)
    requires Numbered(entries, first) && first < 0x1_0000_0000_0000_0000
    ensures var r := ReadSegment(crc, id, first, Image(crc, id, first, entries, tail), active);
            r.Ok? ==> entries <= r.value.entries
  {
    ReadImage(crc, id, first, entries, tail, active);
  }

  /** An undamaged segment reads back exactly. */
  lemma WholeSegment(crc: Checksum, id: PartitionId, first: nat, entries: seq<Entry>, active: bool)
    requires Numbered(entries, first) && first < 0x1_0000_0000_0000_0000
    ensures ReadSegment(crc, id, first, Image(crc, id, first, entries, []), active) == Ok(SegmentRead(entries, None))
  {
    hide Frames, HeaderOf, ReadSegment;
    ReadImage(crc, id, first, entries, [], active);
    assert entries + [] == entries;
  }

  /** A write cut short inside frame `e` is repaired, unless the cut bytes
      happen to hold a CRC-valid frame: then the read fails closed. Exactly. */
  lemma TornWrite(crc: Checksum, id: PartitionId, first: nat, entries: seq<Entry>, e: Entry, cut: nat)
    requires Numbered(entries, first) && Storable(e) && first < 0x1_0000_0000_0000_0000
    requires 0 < cut < |FrameOf(crc, e)|
    ensures var b := Image(crc, id, first, entries, FrameOf(crc, e)[..cut]);
            var at := HEADER_LEN + |Frames(crc, entries)|;
            ReadSegment(crc, id, first, b, true)
            == if NextValidFrame(crc, b, at + 1).Some? then Err(CorruptAt(at)) else Ok(SegmentRead(entries, Some(at)))
  {
    hide Frames, HeaderOf, FrameOf, ParseEntry, ReadSegment, NextValidFrame;
    var tail := FrameOf(crc, e)[..cut];
    var b := Image(crc, id, first, entries, tail);
    var at := HEADER_LEN + |Frames(crc, entries)|;
    ReadImage(crc, id, first, entries, tail, true);
    assert b[at..] == tail;
    ParseCutFrame(crc, e, cut);
    assert entries + [] == entries;
  }

  /** What a successful read returns is exactly what the consumed bytes hold. */
  lemma {:induction false} ReadFramesSound(crc: Checksum, b: Bytes, offset: nat, expected: nat, active: bool)
    requires offset <= |b| && ReadFrames(crc, b, offset, expected, active).Ok?
    ensures var r := ReadFrames(crc, b, offset, expected, active).value;
            var end := if r.torn.Some? then r.torn.value else |b|;
            && Numbered(r.entries, expected)
            && offset <= end <= |b| && b[offset..end] == Frames(crc, r.entries)
            && (r.torn.Some? ==> active && end < |b| && forall at :: end < at <= |b| ==> !FrameValid(crc, b[at..]))
    decreases |b| - offset
  {
    hide FrameOf, FrameValid, ParseEntry, Storable, NextValidFrame;
    if offset < |b| {
      match ParseEntry(crc, b[offset..])
      case Frame(entry, consumed) =>
        ParseReencode(crc, b[offset..]);
        ReadFramesSound(crc, b, offset + consumed, expected + 1, active);
        var rest := ReadFrames(crc, b, offset + consumed, expected + 1, active).value;
        ConsNumbered(entry, rest.entries, expected);
        var end := if rest.torn.Some? then rest.torn.value else |b|;
        assert ([entry] + rest.entries)[1..] == rest.entries;
        SliceSplit(b, offset, consumed, end);
      case Corrupt(_) =>
      case Unreadable(_) =>
    }
  }

  lemma SliceSplit(b: Bytes, from: nat, n: nat, to: nat)
    requires from + n <= to <= |b|
    ensures b[from..to] == b[from..][..n] + b[from + n..to]
  {
  }

  lemma ConsNumbered(e: Entry, rest: seq<Entry>, first: nat)
    requires Storable(e) && e.seqNo == first && Numbered(rest, first + 1)
    ensures Numbered([e] + rest, first)
  {
  }

  /** A torn tail is reported only in the newest segment, only where no frame
      with a matching checksum starts later, and re-encoding what was read
      gives exactly the bytes before it. */
  lemma ReadSegmentSound(crc: Checksum, id: PartitionId, named: nat, b: Bytes, active: bool)
    requires named < 0x1_0000_0000_0000_0000
    requires ReadSegment(crc, id, named, b, active).Ok?
    ensures var r := ReadSegment(crc, id, named, b, active).value;
            && Numbered(r.entries, named)
            && (r.torn.Some? ==> active)
            && (r.torn.Some? && r.torn.value < HEADER_LEN ==> r.entries == [] && (|b| < HEADER_LEN || AllZero(b)))
            && (r.torn.None? || r.torn.value >= HEADER_LEN ==>
                  var end := if r.torn.Some? then r.torn.value else |b|;
                  && HEADER_LEN <= end <= |b|
                  && DecodeHeader(b, id) == Ok(named) && b[HEADER_LEN..end] == Frames(crc, r.entries)
                  && (r.torn.Some? ==> forall at :: end < at <= |b| ==> !FrameValid(crc, b[at..])))
  {
    if !(active && (|b| < HEADER_LEN || AllZero(b))) {
      ReadFramesSound(crc, b, HEADER_LEN, named, active);
    }
  }

  /** The read loop of the reader. */
  method ReadSegmentLoop(crc: Checksum, id: PartitionId, named: nat, b: Bytes, active: bool)
    returns (r: Result<SegmentRead, WalError>)
    ensures r == ReadSegment(crc, id, named, b, active)
  {
    hide ParseEntry, FrameOf, NextValidFrame;
    if active && (|b| < HEADER_LEN || AllZero(b)) {
      return Ok(SegmentRead([], Some(0)));
    }
    var header := DecodeHeader(b, id);
    if header.Err? {
      return Err(header.error);
    }
    if named != header.value {
      return Err(BadHeader("first sequence disagrees with the segment name"));
    }
    var offset, expected := HEADER_LEN, header.value;
    var entries: seq<Entry> := [];
    PrependNone(ReadFrames(crc, b, offset, expected, active));
    while offset < |b|
      invariant HEADER_LEN <= offset
      invariant ReadFrames(crc, b, HEADER_LEN, header.value, active)
             == Prepend(entries, ReadFrames(crc, b, offset, expected, active))
      decreases |b| - offset
    {
      match ParseEntry(crc, b[offset..]) {
        case Frame(entry, consumed) =>
          if entry.seqNo != expected {
            return Err(SequenceGap(expected, entry.seqNo));
          }
          PrependOne(entries, entry, ReadFrames(crc, b, offset + consumed, expected + 1, active));
          expected := expected + 1;
          entries := entries + [entry];
          offset := offset + consumed;
        case Corrupt(_) =>
          return Err(CorruptAt(offset));
        case Unreadable(_) =>
          if !active {
            return Err(CorruptAt(offset));
          }
          if NextValidFrame(crc, b, offset + 1).Some? {
            return Err(CorruptAt(offset));
          }
          assert entries + [] == entries;
          return Ok(SegmentRead(entries, Some(offset)));
      }
    }
    assert entries + [] == entries;
    r := Ok(SegmentRead(entries, None));
  }

  lemma PrependOne(entries: seq<Entry>, e: Entry, r: Result<SegmentRead, WalError>)
    ensures Prepend(entries, Prepend([e], r)) == Prepend(entries + [e], r)
  {
    if r.Ok? {
      assert entries + ([e] + r.value.entries) == entries + [e] + r.value.entries;
    }
  }
}
