/** The partition directory: WAL segment files with what of them is durable,
    snapshot files, and what a power loss may leave of them. */
module Disk {
  import opened Words
  import opened WalCodec
  import opened WalSegment
  import opened LogFold
  import opened PartitionState

  /** A segment file. `Whole` has its header; then the frames of `entries`,
      the first `synced` of them durable (-1 when not even the header is), then
      `tail`, which is empty or the rest of a write that was cut or damaged.
      `settled` says that the file is durable exactly as it stands. `Headless`
      is a file whose header was never completely written. `linked` says that
      the directory entry is durable. */
  datatype SegFile =
    | Whole(first: nat, entries: seq<Entry>, tail: Bytes, synced: int, settled: bool, linked: bool)
    | Headless(first: nat, junk: Bytes, linked: bool)

  /** A snapshot file: the state it holds, and whether it still verifies. */
  datatype SnapFile = SnapFile(mem: Mem, good: bool)

  /** `limbo` holds removed segments whose removal is not yet durable, and
      `before` what a snapshot name held before a rename that is not. */
  datatype Disk = Disk(
    segs: seq<SegFile>, limbo: seq<SegFile>,
    snaps: map<nat, SnapFile>, before: map<nat, Option<SnapFile>>)

  function FileBytes(crc: Checksum, id: PartitionId, f: SegFile): Bytes {
    match f
    case Whole(first, entries, tail, _, _, _) => HeaderOf(id, first) + Frames(crc, entries) + tail
    case Headless(_, junk, _) => junk
  }

  function ReadFile(crc: Checksum, id: PartitionId, f: SegFile, active: bool): Result<SegmentRead, WalError> {
    ReadSegment(crc, id, f.first, FileBytes(crc, id, f), active)
  }

  /** The file has the shape its constructor says: numbered storable entries,
      nothing after them that reads as a frame, and nothing loose in a settled
      file. */
  ghost predicate FileOk(crc: Checksum, f: SegFile) {
    && 1 <= f.first < 0x1_0000_0000_0000_0000
    && match f
       case Whole(first, entries, tail, synced, settled, _) =>
         && Numbered(entries, first) && -1 <= synced <= |entries|
         && (tail == [] || ParseEntry(crc, tail).Unreadable?)
         && (settled ==> synced == |entries| && tail == [])
       case Headless(_, junk, _) => |junk| < HEADER_LEN || AllZero(junk)
  }

  function EntriesOf(f: SegFile): seq<Entry> {
    if f.Whole? then f.entries else []
  }

  /** Sequence of the last entry in the file, or the one before its first. */
  function EndOf(f: SegFile): int {
    f.first - 1 + |EntriesOf(f)|
  }

  /** What reading a file can return: its entries, with a torn tail only where
      there is one, or an error. */
  lemma ReadFileResult(crc: Checksum, id: PartitionId, f: SegFile, active: bool)
    requires FileOk(crc, f)
    ensures var r := ReadFile(crc, id, f, active);
            && (r.Ok? ==> r.value.entries == EntriesOf(f))
            && (r.Ok? && r.value.torn.None? <==> f.Whole? && f.tail == [])
            && (r.Ok? && r.value.torn.Some? ==>
                  if f.Whole? then r.value.torn.value == HEADER_LEN + |Frames(crc, f.entries)|
                  else r.value.torn.value == 0)
  {
    hide Frames, HeaderOf, AllZero, DecodeHeader, ParseEntry, NextValidFrame;
    match f
    case Whole(first, entries, tail, _, _, _) =>
      ReadImage(crc, id, first, entries, tail, active);
      var b := FileBytes(crc, id, f);
      var at := HEADER_LEN + |Frames(crc, entries)|;
      assert b[at..] == tail;
      assert entries + [] == entries;
    case Headless(first, junk, _) =>
      HeadlessRead(crc, id, first, junk, active);
  }

  lemma HeadlessRead(crc: Checksum, id: PartitionId, first: nat, junk: Bytes, active: bool)
    requires |junk| < HEADER_LEN || AllZero(junk)
    ensures active ==> ReadSegment(crc, id, first, junk, active) == Ok(SegmentRead([], Some(0)))
    ensures !active ==> ReadSegment(crc, id, first, junk, active).Err?
  {
    if !active && |junk| >= HEADER_LEN {
      assert junk[..4][0] == 0;
      assert junk[..4] != [0x44, 0x48, 0x57, 0x4C];
    }
  }

  /** The file once its directory entry is durable. */
  function Link(f: SegFile): SegFile {
    match f
    case Whole(first, entries, tail, synced, settled, _) => Whole(first, entries, tail, synced, settled, true)
    case Headless(first, junk, _) => Headless(first, junk, true)
  }

  // ----- power loss

  /** `g` is what a power loss may leave of the file `f`: a settled file as it
      is; of any other every synced entry, possibly more of them, then possibly
      bytes in which no frame can be read at their start (a frame cut short, or
      damage its checksum detects). Only a file whose header was never synced
      comes back without one. What is left is durable. */
  ghost predicate MayLeave(crc: Checksum, f: SegFile, g: SegFile) {
    && FileOk(crc, g) && g.linked && g.first == f.first
    && (g.Whole? ==> g.synced == |g.entries| && (g.settled <==> g.tail == []))
    && match f
       case Whole(_, entries, _, synced, settled, _) =>
         && (settled ==> g == Link(f))
         && (g.Whole? ==> g.entries <= entries && synced <= |g.entries|)
         && (g.Headless? ==> synced < 0)
       case Headless(_, _, _) => g.Headless?
  }

  ghost predicate Ascending(segs: seq<SegFile>) {
    forall i, j :: 0 <= i < j < |segs| ==> segs[i].first < segs[j].first
  }

  /** What a power loss may leave of the snapshots: every name whose rename is
      durable as it is; any other with what it holds, or held before. */
  ghost predicate SnapsLeft(d: Disk, snaps: map<nat, SnapFile>) {
    && (forall h :: h in snaps ==>
          || (h in d.snaps && snaps[h] == d.snaps[h])
          || (h in d.before && d.before[h] == Some(snaps[h])))
    && (forall h :: h in d.snaps && (h in d.before ==> d.before[h].Some?) ==> h in snaps)
  }

  /** A power loss: unsynced suffixes go, unlinked files may go, and files
      whose removal was not durable may come back. */
  ghost predicate PowerLoss(crc: Checksum, d: Disk, d': Disk) {
    && Ascending(d'.segs) && d'.limbo == [] && d'.before == map[]
    && (forall g :: g in d'.segs ==> exists f :: (f in d.segs || f in d.limbo) && MayLeave(crc, f, g))
    && (forall f :: f in d.segs && f.linked ==> exists g :: g in d'.segs && MayLeave(crc, f, g))
    && SnapsLeft(d, d'.snaps)
  }

  /** Frames cut anywhere are some whole frames and bytes that start no frame. */
  lemma {:induction false} CutFrames(crc: Checksum, entries: seq<Entry>, tail: Bytes, first: nat, n: nat)
    returns (k: nat, rest: Bytes)
    requires Numbered(entries, first)
    requires n <= |Frames(crc, entries)|
    ensures k <= |entries| && (Frames(crc, entries) + tail)[..n] == Frames(crc, entries[..k]) + rest
    ensures rest == [] || ParseEntry(crc, rest).Unreadable?
    decreases |entries|
  {
    hide FrameOf, ParseEntry, Storable, Frames, Numbered;
    if entries == [] {
      k, rest := 0, [];
      NoFrames(crc);
    } else {
      var e, es := entries[0], entries[1..];
      NumberedTail(entries, first);
      var f := FrameOf(crc, e);
      assert entries == [e] + es;
      FramesCons(crc, e, es);
      if n < |f| {
        k, rest := 0, f[..n];
        CutFirst(crc, entries, tail, e, n);
      } else {
        var j;
        j, rest := CutFrames(crc, es, tail, first + 1, n - |f|);
        FramesCons(crc, e, es[..j]);
        Regroup(f, Frames(crc, es), tail, Frames(crc, es[..j]), rest, n);
        k := j + 1;
        assert entries[..k] == [e] + es[..j];
      }
    }
  }

  lemma NoFrames(crc: Checksum)
    ensures Frames(crc, []) == []
  {
  }

  lemma FramesCons(crc: Checksum, e: Entry, es: seq<Entry>)
    ensures Frames(crc, [e] + es) == FrameOf(crc, e) + Frames(crc, es)
  {
    assert ([e] + es)[1..] == es;
  }

  lemma CutFirst(crc: Checksum, entries: seq<Entry>, tail: Bytes, e: Entry, n: nat)
    requires entries != [] && e == entries[0] && Storable(e) && n < |FrameOf(crc, e)|
    ensures |Frames(crc, entries) + tail| >= n
            && (Frames(crc, entries) + tail)[..n] == Frames(crc, entries[..0]) + FrameOf(crc, e)[..n]
    ensures ParseEntry(crc, FrameOf(crc, e)[..n]).Unreadable?
  {
    hide FrameOf, ParseEntry, Storable;
    ParseCutFrame(crc, e, n);
    FramesCons(crc, e, entries[1..]);
    assert entries == [e] + entries[1..];
  }

  lemma Regroup(f: Bytes, all: Bytes, tail: Bytes, part: Bytes, rest: Bytes, n: nat)
    requires |f| <= n <= |f| + |all| && (all + tail)[..n - |f|] == part + rest
    ensures ((f + all) + tail)[..n] == (f + part) + rest
  {
    assert (f + all) + tail == f + (all + tail);
    assert (f + (all + tail))[..n] == f + (all + tail)[..n - |f|];
  }

  /** Losing an unsynced byte suffix of a file with a durable header is a
      `MayLeave`. */
  lemma CutIsLoss(crc: Checksum, id: PartitionId, f: SegFile, n: nat) returns (g: SegFile)
    requires FileOk(crc, f) && f.Whole? && f.synced >= 0
    requires HEADER_LEN + |Frames(crc, f.entries[..f.synced])| <= n <= HEADER_LEN + |Frames(crc, f.entries)|
    requires f.settled ==> n == HEADER_LEN + |Frames(crc, f.entries)|
    ensures MayLeave(crc, f, g) && FileBytes(crc, id, g) == FileBytes(crc, id, f)[..n]
  {
    hide Frames, HeaderOf, ParseEntry, Storable;
    if f.settled {
      g := Link(f);
      assert FileBytes(crc, id, f)[..n] == FileBytes(crc, id, g);
    } else {
      var kept, loose := f.entries[..f.synced], f.entries[f.synced..];
      assert f.entries == kept + loose;
      FramesAppend(crc, kept, loose);
      var fixed := |Frames(crc, kept)|;
      assert Numbered(loose, f.first + f.synced) by {
        assert forall i :: 0 <= i < |loose| ==> loose[i] == f.entries[f.synced + i];
      }
      var k, rest := CutFrames(crc, loose, f.tail, f.first + f.synced, n - HEADER_LEN - fixed);
      g := Whole(f.first, kept + loose[..k], rest, f.synced + k, rest == [], true);
      FramesAppend(crc, kept, loose[..k]);
      assert FileBytes(crc, id, f)[..n]
          == HeaderOf(id, f.first) + (Frames(crc, kept) + (Frames(crc, loose) + f.tail)[..n - HEADER_LEN - fixed]);
      assert kept + loose[..k] == f.entries[..f.synced + k];
      NumberedPrefix(f.entries, f.first, f.synced + k);
    }
  }

  lemma NumberedPrefix(entries: seq<Entry>, first: nat, k: nat)
    requires Numbered(entries, first) && k <= |entries|
    ensures Numbered(entries[..k], first)
  {
  }
}
