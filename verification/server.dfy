/** An open partition: what holds between its memory, its writer and its
    directory, and that every operation keeps it. */
module Serving {
  import opened Words
  import opened WalCodec
  import opened WalSegment
  import opened LogFold
  import opened PartitionState
  import opened Compaction
  import opened Disk
  import opened StoreOps
  import opened Recovery
  import opened Directory

  /** Index of the writer's segment: the newest, or the one before it when the
      newest is what a failed rotation left. */
  function CurrentAt(segs: seq<SegFile>, w: Writer): int {
    if segs != [] && segs[|segs| - 1].first == w.current then |segs| - 1 else |segs| - 2
  }

  /** A writer that may append stands at the end of the log, and everything
      logged is applied. */
  ghost predicate Ready(cfg: Config, log: seq<Entry>, segs: seq<SegFile>, w: Writer) {
    && segs != [] && segs[|segs| - 1].Whole? && segs[|segs| - 1].tail == []
    && w.current == segs[|segs| - 1].first
    && w.bytes == |FileBytes(cfg.crc, cfg.id, segs[|segs| - 1])|
    && w.nextSeq == |log| + 1
  }

  ghost predicate WriterOk(cfg: Config, log: seq<Entry>, segs: seq<SegFile>, w: Writer) {
    && CurrentAt(segs, w) >= 0 && Reaches(log, segs)
    && (forall i :: 0 <= i < |segs| - 1 ==> segs[i].Whole?)
    && segs[CurrentAt(segs, w)].Whole? && segs[CurrentAt(segs, w)].first == w.current
    && (!w.poisoned ==> Ready(cfg, log, segs, w))
  }

  /** Plans mean the log up to their high-water marks. */
  ghost predicate PlansOk(cfg: Config, base: Logical, log: seq<Entry>, plans: seq<Mem>, high: nat) {
    forall i :: 0 <= i < |plans| ==> MemOk(cfg, base, log, plans[i]) && plans[i].high <= high
  }

  ghost predicate ServerInv(cfg: Config, base: Logical, log: seq<Entry>, d: Disk, s: Server) {
    && MemOk(cfg, base, log, s.mem) && |log| <= s.mem.high + 1 && s.snapHigh <= s.mem.high
    && (!s.wal.poisoned ==> s.mem.high == |log|)
    && PlansOk(cfg, base, log, s.plans, s.mem.high)
    && WriterOk(cfg, log, d.segs, s.wal)
  }

  /** The log the files hold after a mutation. */
  function Grown(log: seq<Entry>, segs: seq<SegFile>): (r: seq<Entry>)
    ensures log <= r
  {
    if segs != [] && segs[|segs| - 1].Whole? && segs[|segs| - 1].entries != []
       && EndOf(segs[|segs| - 1]) == |log| + 1
    then log + [segs[|segs| - 1].entries[|segs[|segs| - 1].entries| - 1]]
    else log
  }

  lemma GrownNone(log: seq<Entry>, segs: seq<SegFile>)
    requires Reaches(log, segs)
    ensures Grown(log, segs) == log
  {
  }

  // ----- files of the directory change

  lemma ApartSetLast(files: seq<SegFile>, f: SegFile)
    requires Apart(files) && files != [] && files[|files| - 1].Whole? && f.first == files[|files| - 1].first
    ensures Apart(files[|files| - 1 := f])
  {
    var after := files[|files| - 1 := f];
    forall i, j | 0 <= i < j < |after| && after[i].Whole? && after[j].Whole?
      ensures EndOf(after[i]) < after[j].first
    {
      assert EndOf(files[i]) < files[j].first;
    }
  }

  lemma SegsInSetLast(cfg: Config, log: seq<Entry>, log': seq<Entry>, segs: seq<SegFile>, f: SegFile)
    requires SegsIn(cfg, log, segs) && segs != [] && SegIn(cfg, log', f)
    requires log' == log || exists e :: log' == log + [e]
    ensures SegsIn(cfg, log', segs[|segs| - 1 := f])
  {
    hide SegIn;
    forall i | 0 <= i < |segs| - 1
      ensures SegIn(cfg, log', segs[i])
    {
      if log' != log {
        assert log' == log + [log'[|log|]];
        SegInGrow(cfg, log, log'[|log|], segs[i]);
      }
    }
  }

  /** Changing the newest segment, perhaps by the entry that extends the log. */
  lemma SetNewestOk(cfg: Config, log: seq<Entry>, log': seq<Entry>, d: Disk, f: SegFile)
    requires FilesOk(cfg, log, d) && d.segs != [] && NewestSeg(d).Whole?
    requires f.Whole? && f.first == NewestSeg(d).first
    requires log' == log || exists e :: log' == log + [e]
    requires SegIn(cfg, log', f) && (EndOf(f) == |log'| || (log' == log && EndOf(f) == EndOf(NewestSeg(d))))
    ensures FilesOk(cfg, log', SetNewest(d, f))
    ensures EndOf(f) == |log'| ==> Reaches(log', SetNewest(d, f).segs)
  {
    hide SegIn, Apart, SegsIn;
    var d' := SetNewest(d, f);
    var all := d.limbo + d.segs;
    assert d'.limbo + d'.segs == all[|all| - 1 := f];
    ApartSetLast(all, f);
    SegsInSetLast(cfg, log, log', all, f);
    EndIs(d'.segs, |d'.segs| - 1);
    EndIs(d.segs, |d.segs| - 1);
  }

  lemma LinkedFile(cfg: Config, log: seq<Entry>, f: SegFile)
    ensures Link(f).linked && Link(f).first == f.first && EndOf(Link(f)) == EndOf(f) && (Link(f).Whole? <==> f.Whole?)
    ensures SegIn(cfg, log, f) ==> SegIn(cfg, log, Link(f))
    ensures FileBytes(cfg.crc, cfg.id, Link(f)) == FileBytes(cfg.crc, cfg.id, f)
  {
  }

  lemma SameWhole(segs: seq<SegFile>, linked: seq<SegFile>)
    requires |linked| == |segs| && forall i :: 0 <= i < |segs| ==> (linked[i].Whole? <==> segs[i].Whole?)
    ensures LastWhole(linked) == LastWhole(segs)
  {
    if LastWhole(segs) >= 0 {
      EndIs(linked, LastWhole(segs));
    }
  }

  /** Linking files changes neither their order nor what they hold. */
  lemma LinkedFiles(cfg: Config, log: seq<Entry>, segs: seq<SegFile>)
    requires Ascending(segs) && Apart(segs) && SegsIn(cfg, log, segs)
    ensures Ascending(LinkAll(segs)) && Apart(LinkAll(segs)) && SegsIn(cfg, log, LinkAll(segs))
    ensures LastWhole(LinkAll(segs)) == LastWhole(segs) && End(LinkAll(segs)) == End(segs)
  {
    hide SegIn, LastWhole, Link, EndOf;
    var all := LinkAll(segs);
    forall i | 0 <= i < |all|
      ensures all[i].first == segs[i].first && EndOf(all[i]) == EndOf(segs[i]) && (all[i].Whole? <==> segs[i].Whole?)
      ensures SegIn(cfg, log, all[i])
    {
      LinkedFile(cfg, log, segs[i]);
    }
    SameWhole(segs, all);
  }

  lemma LinkedEndOf(segs: seq<SegFile>, i: nat)
    requires i < |segs|
    ensures EndOf(LinkAll(segs)[i]) == EndOf(segs[i])
  {
  }

  /** Syncing the directory links every file and makes removals durable. */
  lemma LinkAllOk(cfg: Config, log: seq<Entry>, d: Disk)
    requires FilesOk(cfg, log, d)
    ensures FilesOk(cfg, log, d.(segs := LinkAll(d.segs), limbo := []))
    ensures End(LinkAll(d.segs)) == End(d.segs) && (Reaches(log, LinkAll(d.segs)) <==> Reaches(log, d.segs))
  {
    hide SegIn, LastWhole, Apart, Ascending, LinkAll, EndOf;
    SegsOf(cfg, log, d);
    LinkedFiles(cfg, log, d.segs);
    if LastWhole(d.segs) >= 0 {
      LinkedEndOf(d.segs, LastWhole(d.segs));
    }
    assert [] + LinkAll(d.segs) == LinkAll(d.segs);
  }

  /** Every segment starts within the log, so one for the next entry fits. */
  ghost predicate RoomFor(log: seq<Entry>, segs: seq<SegFile>) {
    forall i :: 0 <= i < |segs| ==> segs[i].first <= |log|
  }

  lemma EmptySlice(cfg: Config, log: seq<Entry>, f: SegFile)
    requires FileOk(cfg.crc, f) && EntriesOf(f) == [] && f.first == |log| + 1
    ensures SegIn(cfg, log, f) && EndOf(f) == |log|
  {
    hide FileOk;
    assert log[|log|..|log|] == [];
  }

  lemma AddFileOk(cfg: Config, log: seq<Entry>, d: Disk, f: SegFile)
    requires FilesOk(cfg, log, d) && RoomFor(log, d.segs)
    requires FileOk(cfg.crc, f) && EntriesOf(f) == [] && f.first == |log| + 1
    ensures FilesOk(cfg, log, d.(segs := d.segs + [f]))
    ensures f.Whole? || Reaches(log, d.segs) ==> Reaches(log, d.segs + [f])
  {
    hide FileOk, SegIn, LastWhole;
    var all := d.limbo + d.segs;
    assert d.limbo + (d.segs + [f]) == all + [f];
    EmptySlice(cfg, log, f);
    EndAppend(d.segs, f);
    forall i | 0 <= i < |all| && all[i].Whole?
      ensures EndOf(all[i]) < f.first
    {
      SliceWithin(cfg, log, all[i]);
    }
    assert Apart(all + [f]) by { hide EndOf; }
  }

  lemma SliceWithin(cfg: Config, log: seq<Entry>, f: SegFile)
    requires SegIn(cfg, log, f) && f.Whole?
    ensures 1 <= f.first <= |log| + 1 && EndOf(f) <= |log|
  {
  }

  /** Creating the segment for the next entry. */
  lemma CreateOk(cfg: Config, log: seq<Entry>, d: Disk, made: Option<Made>)
    requires FilesOk(cfg, log, d) && RoomFor(log, d.segs) && |log| + 2 < 0x1_0000_0000_0000_0000
    ensures FilesOk(cfg, log, Create(cfg, d, |log| + 1, made))
    ensures Reaches(log, d.segs) || made.None? ==> Reaches(log, Create(cfg, d, |log| + 1, made).segs)
  {
    hide RoomFor, FilesOk, LinkAll, LastWhole;
    match made
    case None => CreatedFilesOk(cfg, log, d);
    case Some(NotReopened) => CreatedFilesOk(cfg, log, d);
    case Some(NoFile) =>
    case Some(PartHeader(k)) =>
      AddFileOk(cfg, log, d,
                Headless(|log| + 1, HeaderOf(cfg.id, |log| + 1)[..if k < HEADER_LEN then k else 0], false));
    case Some(HeaderUnsynced) => AddFileOk(cfg, log, d, Whole(|log| + 1, [], [], -1, false, false));
    case Some(NotLinked) => AddFileOk(cfg, log, d, Whole(|log| + 1, [], [], 0, true, false));
  }

  lemma CreatedFilesOk(cfg: Config, log: seq<Entry>, d: Disk)
    requires FilesOk(cfg, log, d) && RoomFor(log, d.segs) && |log| + 2 < 0x1_0000_0000_0000_0000
    ensures FilesOk(cfg, log, WithSegment(d, |log| + 1)) && Reaches(log, WithSegment(d, |log| + 1).segs)
  {
    hide FilesOk, Link, LastWhole;
    LinkAllOk(cfg, log, d);
    forall i | 0 <= i < |d.segs|
      ensures LinkAll(d.segs)[i].first <= |log|
    {
      LinkedFile(cfg, log, d.segs[i]);
    }
    AddFileOk(cfg, log, d.(segs := LinkAll(d.segs), limbo := []), Whole(|log| + 1, [], [], 0, true, true));
  }

  /** A segment with entries leaves room for its successor. */
  lemma RoomAfter(cfg: Config, log: seq<Entry>, d: Disk)
    requires FilesOk(cfg, log, d) && d.segs != [] && NewestSeg(d).Whole? && NewestSeg(d).entries != []
    ensures RoomFor(log, d.segs)
  {
    SegsOf(cfg, log, d);
    SliceWithin(cfg, log, NewestSeg(d));
  }

  lemma LongHasEntries(cfg: Config, f: SegFile)
    requires f.Whole? && f.tail == [] && |FileBytes(cfg.crc, cfg.id, f)| > HEADER_LEN
    ensures f.entries != []
  {
    if f.entries == [] {
      NoFrames(cfg.crc);
    }
  }

  // ----- appending

  /** What an append leaves behind, whatever fails in it. */
  ghost predicate AppendedOk(cfg: Config, log: seq<Entry>, d: Disk, w: Writer, e: Entry, a: Appended) {
    var log' := if a.result.Ok? then log + [e] else log;
    && FilesOk(cfg, log', a.disk) && a.disk.snaps == d.snaps && a.disk.before == d.before
    && WriterOk(cfg, log', a.disk.segs, a.wal)
    && Grown(log, a.disk.segs) == log'
    && (a.result.Ok? ==> !a.wal.poisoned && a.result.value == |log'|)
    && (a.result.Err? ==> a.wal.poisoned || (a.disk == d && a.wal == w))
  }

  ghost predicate Appendable(cfg: Config, log: seq<Entry>, d: Disk, w: Writer) {
    && FilesOk(cfg, log, d) && WriterOk(cfg, log, d.segs, w) && !w.poisoned
    && |log| + 2 < 0x1_0000_0000_0000_0000
  }

  lemma NewestSegIn(cfg: Config, log: seq<Entry>, d: Disk)
    requires FilesOk(cfg, log, d) && d.segs != [] && NewestSeg(d).Whole?
    ensures SegIn(cfg, log, NewestSeg(d)) && (Reaches(log, d.segs) ==> EndOf(NewestSeg(d)) == |log|)
  {
    hide SegIn, Apart;
    SegsOf(cfg, log, d);
    EndIs(d.segs, |d.segs| - 1);
  }

  lemma LongerFile(cfg: Config, f: SegFile, e: Entry)
    requires f.Whole? && f.tail == []
    ensures |FileBytes(cfg.crc, cfg.id, Whole(f.first, f.entries + [e], [], f.synced, false, f.linked))|
         == |FileBytes(cfg.crc, cfg.id, f)| + |FrameOf(cfg.crc, e)|
  {
    hide FrameOf;
    FramesAppend(cfg.crc, f.entries, [e]);
    FramesCons(cfg.crc, e, []);
    NoFrames(cfg.crc);
    assert [e] + [] == [e];
  }

  lemma LongerSlice(cfg: Config, log: seq<Entry>, f: SegFile, e: Entry)
    requires SegIn(cfg, log, f) && f.Whole? && EndOf(f) == |log| && Storable(e) && e.seqNo == |log| + 1
    ensures SegIn(cfg, log + [e], Whole(f.first, f.entries + [e], [], f.synced, false, f.linked))
  {
    hide Storable;
    SegInGrow(cfg, log, e, f);
    assert (log + [e])[f.first - 1..f.first - 1 + |f.entries| + 1] == f.entries + [e];
  }

  lemma CutSlice(cfg: Config, log: seq<Entry>, f: SegFile, e: Entry, n: nat)
    requires SegIn(cfg, log, f) && f.Whole? && Storable(e) && n < |FrameOf(cfg.crc, e)|
    ensures SegIn(cfg, log, Whole(f.first, f.entries, FrameOf(cfg.crc, e)[..n], f.synced, false, f.linked))
  {
    hide Storable, FrameOf, ParseEntry;
    ParseCutFrame(cfg.crc, e, n);
  }

  lemma WriteOk(cfg: Config, log: seq<Entry>, d: Disk, w: Writer, e: Entry, fault: Fault)
    requires Appendable(cfg, log, d, w) && Storable(e) && e.seqNo == |log| + 1
    ensures AppendedOk(cfg, log, d, w, e, WriteFrame(cfg, d, w, e, fault))
    ensures |WriteFrame(cfg, d, w, e, fault).disk.segs| == |d.segs|
    ensures WriteFrame(cfg, d, w, e, fault).result.Err? ==> WriteFrame(cfg, d, w, e, fault).wal.poisoned
  {
    hide SegIn, FilesOk, FrameOf, FileBytes, Storable, LastWhole;
    NewestSegIn(cfg, log, d);
    var f := NewestSeg(d);
    var a := WriteFrame(cfg, d, w, e, fault);
    if fault.WriteFails? {
      var n := if fault.part < |FrameOf(cfg.crc, e)| then fault.part else 0;
      FrameNotEmpty(cfg.crc, e);
      CutSlice(cfg, log, f, e, n);
      SetNewestOk(cfg, log, log, d, f.(tail := FrameOf(cfg.crc, e)[..n], settled := false));
    } else {
      LongerFile(cfg, f, e);
      LongerSlice(cfg, log, f, e);
      SetNewestOk(cfg, log, log + [e], d, f.(entries := f.entries + [e], settled := false));
    }
  }

  lemma FrameNotEmpty(crc: Checksum, e: Entry)
    requires Storable(e)
    ensures |FrameOf(crc, e)| > 0
  {
  }

  lemma SyncOk(cfg: Config, log: seq<Entry>, d: Disk, w: Writer)
    requires FilesOk(cfg, log, d) && WriterOk(cfg, log, d.segs, w) && NewestSeg(d).Whole?
    ensures FilesOk(cfg, log, SyncNewest(d)) && WriterOk(cfg, log, SyncNewest(d).segs, w)
    ensures SyncNewest(d).snaps == d.snaps && SyncNewest(d).before == d.before
    ensures NewestSeg(SyncNewest(d)) == SyncFile(NewestSeg(d)) && |SyncNewest(d).segs| == |d.segs|
  {
    hide FilesOk, FileBytes, WriterOk, SegIn, SyncFile, Reaches;
    WriterReaching(cfg, log, d.segs, w);
    NewestSegIn(cfg, log, d);
    var f := NewestSeg(d);
    SyncSlice(cfg, log, f);
    SetNewestOk(cfg, log, log, d, SyncFile(f));
    WriterSynced(cfg, log, d, w);
  }

  lemma WriterReaching(cfg: Config, log: seq<Entry>, segs: seq<SegFile>, w: Writer)
    requires WriterOk(cfg, log, segs, w)
    ensures Reaches(log, segs) && segs != []
  {
  }

  lemma WriterSynced(cfg: Config, log: seq<Entry>, d: Disk, w: Writer)
    requires WriterOk(cfg, log, d.segs, w) && d.segs != [] && NewestSeg(d).Whole?
    requires Reaches(log, SyncNewest(d).segs)
    ensures WriterOk(cfg, log, SyncNewest(d).segs, w)
  {
    hide LastWhole, FileBytes;
    SyncBytes(cfg, NewestSeg(d));
  }

  lemma SyncGrown(log: seq<Entry>, d: Disk)
    requires d.segs != []
    ensures Grown(log, SyncNewest(d).segs) == Grown(log, d.segs)
  {
  }

  lemma SyncSlice(cfg: Config, log: seq<Entry>, f: SegFile)
    requires SegIn(cfg, log, f) && f.Whole?
    ensures SegIn(cfg, log, SyncFile(f)) && SyncFile(f).Whole? && SyncFile(f).first == f.first
    ensures SyncFile(f).synced == |f.entries| && EndOf(SyncFile(f)) == EndOf(f)
  {
  }

  lemma SyncBytes(cfg: Config, f: SegFile)
    ensures FileBytes(cfg.crc, cfg.id, SyncFile(f)) == FileBytes(cfg.crc, cfg.id, f)
  {
  }

  /** A rotation: afterwards the writer may append to a new segment that is
      durable by name, or is poisoned; once the old segment's sync succeeded it
      is durable as it stands. */
  lemma RotateOk(cfg: Config, log: seq<Entry>, d: Disk, w: Writer, fault: Fault)
    requires Appendable(cfg, log, d, w) && w.bytes >= ROTATE_BYTES
    ensures var r := Rotate(cfg, d, w, fault);
            && FilesOk(cfg, log, r.disk) && WriterOk(cfg, log, r.disk.segs, r.wal)
            && r.disk.segs != [] && r.disk.snaps == d.snaps && r.disk.before == d.before
            && (r.result.Ok? <==> !r.wal.poisoned)
            && (r.result.Ok? ==> NewestSeg(r.disk) == Whole(|log| + 1, [], [], 0, true, true))
            && (!fault.RotateSyncFails? ==>
                  && |r.disk.segs| >= |d.segs| && r.disk.segs[|d.segs| - 1].Whole? && r.disk.segs[|d.segs| - 1].settled
                  && r.disk.segs[|d.segs| - 1].entries == NewestSeg(d).entries)
            && (r.result.Err? ==> Grown(log, r.disk.segs) == log)
  {
    hide SegIn, FilesOk, LastWhole, FileBytes, RoomFor, LinkAll;
    NewestSegIn(cfg, log, d);
    if fault.RotateSyncFails? {
      GrownNone(log, d.segs);
    } else {
      SyncOk(cfg, log, d, w);
      var sealed := SyncNewest(d);
      LongHasEntries(cfg, NewestSeg(d));
      RoomAfter(cfg, log, sealed);
      SliceWithin(cfg, log, NewestSeg(d));
      CreateOk(cfg, log, sealed, if fault.CreateFails? then Some(fault.made) else None);
      SealedStays(cfg, sealed, |log| + 1, if fault.CreateFails? then Some(fault.made) else None);
      if fault.CreateFails? {
        CreateFailedOk(cfg, log, sealed, w, fault.made);
      } else {
        CreatedOk(cfg, log, sealed, w);
      }
    }
  }

  /** Creating a segment keeps the one before it, whatever fails. */
  lemma SealedStays(cfg: Config, d: Disk, first: nat, made: Option<Made>)
    requires d.segs != [] && NewestSeg(d).Whole?
    ensures var segs := Create(cfg, d, first, made).segs;
            && |segs| >= |d.segs| && segs[|d.segs| - 1].Whole?
            && segs[|d.segs| - 1].settled == NewestSeg(d).settled && segs[|d.segs| - 1].entries == NewestSeg(d).entries
  {
    hide HeaderOf;
  }

  lemma CreatedOk(cfg: Config, log: seq<Entry>, d: Disk, w: Writer)
    requires WriterOk(cfg, log, d.segs, w) && NewestSeg(d).Whole? && w.nextSeq == |log| + 1
    requires Reaches(log, WithSegment(d, |log| + 1).segs)
    ensures WriterOk(cfg, log, WithSegment(d, |log| + 1).segs, w.(current := |log| + 1, bytes := HEADER_LEN))
    ensures CurrentAt(WithSegment(d, |log| + 1).segs, w.(current := |log| + 1, bytes := HEADER_LEN)) == |d.segs|
  {
    hide Frames, HeaderOf, LastWhole;
    NoFrames(cfg.crc);
    forall i | 0 <= i < |d.segs|
      ensures LinkAll(d.segs)[i].Whole?
    {
      LinkedFile(cfg, log, d.segs[i]);
    }
  }

  lemma CreateFailedOk(cfg: Config, log: seq<Entry>, d: Disk, w: Writer, made: Made)
    requires WriterOk(cfg, log, d.segs, w) && NewestSeg(d).Whole? && CurrentAt(d.segs, w) == |d.segs| - 1
    requires w.current <= |log| && Reaches(log, Create(cfg, d, |log| + 1, Some(made)).segs)
    ensures var d' := Create(cfg, d, |log| + 1, Some(made));
            && WriterOk(cfg, log, d'.segs, w.(poisoned := true))
            && CurrentAt(d'.segs, w.(poisoned := true)) == CurrentAt(d.segs, w)
            && Grown(log, d'.segs) == log
  {
    hide FileBytes, HeaderOf, LastWhole;
    GrownNone(log, Create(cfg, d, |log| + 1, Some(made)).segs);
    forall i | 0 <= i < |d.segs|
      ensures LinkAll(d.segs)[i].Whole? && LinkAll(d.segs)[i].first == d.segs[i].first
    {
      LinkedFile(cfg, log, d.segs[i]);
    }
  }

  lemma AppendOk(cfg: Config, log: seq<Entry>, d: Disk, w: Writer, opId: OpId, op: Operation, fault: Fault)
    requires Appendable(cfg, log, d, w)
    ensures AppendedOk(cfg, log, d, w, Entry(|log| + 1, opId, op), AppendUnsynced(cfg, d, w, opId, op, fault))
  {
    hide FilesOk, Rotate, WriteFrame, LastWhole, FrameOf, FileBytes;
    var e := Entry(|log| + 1, opId, op);
    NewestSegIn(cfg, log, d);
    GrownNone(log, d.segs);
    if Encode(cfg.crc, e).Ok? {
      if w.bytes < ROTATE_BYTES {
        WriteOk(cfg, log, d, w, e, fault);
      } else {
        RotateOk(cfg, log, d, w, fault);
        var r := Rotate(cfg, d, w, fault);
        if r.result.Ok? {
          WriteOk(cfg, log, r.disk, r.wal, e, fault);
        }
      }
    }
  }

  // ----- mutations

  ghost predicate SysOk(cfg: Config, base: Logical, log: seq<Entry>, d: Disk, s: Server) {
    LogOk(cfg, log) && DiskInv(cfg, base, log, d) && ServerInv(cfg, base, log, d, s)
  }

  lemma LookupInWindow(w: Window, op: OpId)
    ensures Lookup(w, op).None? <==> !InWindow(w, op)
    ensures Lookup(w, op).Some? ==> (op, Lookup(w, op).value) in w
  {
    if w != [] {
      var n := |w| - 1;
      LookupInWindow(w[..n], op);
      if InWindow(w[..n], op) {
        var i :| 0 <= i < |w[..n]| && w[..n][i].0 == op;
        assert w[i].0 == op;
      }
      if InWindow(w, op) && w[n].0 != op {
        var i :| 0 <= i < |w| && w[i].0 == op;
        assert w[..n][i].0 == op;
      }
    }
  }

  /** A fresh entry extends a good log. */
  lemma LogOkGrow(cfg: Config, base: Logical, log: seq<Entry>, m: Mem, e: Entry)
    requires LogOk(cfg, log) && BaseOk(cfg, base) && 0 < cfg.capacity && MemOk(cfg, base, log, m) && m.high == |log|
    requires Lookup(m.window, e.opId).None? && Applicable(cfg, e) && Storable(e) && e.seqNo == |log| + 1
    ensures LogOk(cfg, log + [e])
  {
    hide MemOk, Storable, Applicable, NoRepeat, Fold, InWindow;
    LookupInWindow(m.window, e.opId);
    WindowOfLog(cfg, base, log, m);
    NoRepeatGrow(base, cfg.norm, cfg.capacity, log, e);
  }

  lemma WindowOfLog(cfg: Config, base: Logical, log: seq<Entry>, m: Mem)
    requires MemOk(cfg, base, log, m) && m.high == |log|
    ensures m.window == Fold(base, cfg.norm, cfg.capacity, log).window
  {
    hide RepOk, RowsBelow, Fold;
    assert log[..|log|] == log;
  }

  lemma SnapsGrow(cfg: Config, base: Logical, log: seq<Entry>, e: Entry, d: Disk)
    requires SnapsOk(cfg, base, log, d)
    ensures SnapsOk(cfg, base, log + [e], d)
  {
    hide MemOk;
    forall h | h in d.snaps && d.snaps[h].good
      ensures MemOk(cfg, base, log + [e], d.snaps[h].mem)
    {
      MemOkSame(cfg, base, log, log + [e], d.snaps[h].mem);
    }
    forall h | h in d.before && d.before[h].Some? && d.before[h].value.good
      ensures MemOk(cfg, base, log + [e], d.before[h].value.mem)
    {
      MemOkSame(cfg, base, log, log + [e], d.before[h].value.mem);
    }
  }

  lemma PlansGrow(cfg: Config, base: Logical, log: seq<Entry>, e: Entry, plans: seq<Mem>, high: nat)
    requires PlansOk(cfg, base, log, plans, high)
    ensures PlansOk(cfg, base, log + [e], plans, high)
  {
    hide MemOk;
    forall i | 0 <= i < |plans|
      ensures MemOk(cfg, base, log + [e], plans[i])
    {
      MemOkSame(cfg, base, log, log + [e], plans[i]);
    }
  }

  /** What a mutation leaves: the invariant over the log its files now hold,
      which has grown by the entry of the mutation or not at all, and by it
      when the mutation is acknowledged. */
  ghost predicate MutationOk(cfg: Config, base: Logical, log: seq<Entry>, d: Disk, s: Server, opId: OpId, op: Operation,
                             o: Outcome)
  {
    var log' := Grown(log, o.disk.segs);
    && SysOk(cfg, base, log', o.disk, o.server)
    && (log' == log || (!s.wal.poisoned && log' == log + [Entry(|log| + 1, opId, op)]))
    && (o.result.Ok? ==> log' != log && o.result.value == Reply(|log'|, false) && !o.server.wal.poisoned)
  }

  ghost predicate Mutable(cfg: Config, base: Logical, log: seq<Entry>, d: Disk, s: Server, opId: OpId, op: Operation) {
    && SysOk(cfg, base, log, d, s) && BaseOk(cfg, base) && 0 < cfg.capacity
    && Lookup(s.mem.window, opId).None? && Applicable(cfg, Entry(|log| + 1, opId, op))
    && |log| + 2 < 0x1_0000_0000_0000_0000
  }

  /** The state after the append (and perhaps the sync), poisoned: the entry
      may be logged and is not applied. */
  lemma PoisonedOk(cfg: Config, base: Logical, log: seq<Entry>, log': seq<Entry>, d: Disk, d': Disk, s: Server,
                   w: Writer)
    requires SysOk(cfg, base, log, d, s) && s.mem.high == |log|
    requires log' == log || exists e :: log' == log + [e]
    requires LogOk(cfg, log') && FilesOk(cfg, log', d') && d'.snaps == d.snaps && d'.before == d.before
    requires WriterOk(cfg, log', d'.segs, w)
    ensures SysOk(cfg, base, log', d', s.(wal := w.(poisoned := true)))
    ensures log' == log ==> SysOk(cfg, base, log', d', s.(wal := w))
  {
    hide LogOk, MemOk, FilesOk, WriterOk;
    SameSnaps(cfg, base, log, d, d');
    if log' != log {
      var e :| log' == log + [e];
      SnapsGrow(cfg, base, log, e, d');
      PlansGrow(cfg, base, log, e, s.plans, s.mem.high);
      MemOkSame(cfg, base, log, log', s.mem);
    }
    WriterPoisoned(cfg, log', d'.segs, w);
  }

  lemma WriterPoisoned(cfg: Config, log: seq<Entry>, segs: seq<SegFile>, w: Writer)
    requires WriterOk(cfg, log, segs, w)
    ensures WriterOk(cfg, log, segs, w.(poisoned := true))
            && CurrentAt(segs, w.(poisoned := true)) == CurrentAt(segs, w)
  {
  }

  lemma SameSnaps(cfg: Config, base: Logical, log: seq<Entry>, d: Disk, d': Disk)
    requires SnapsOk(cfg, base, log, d) && d'.snaps == d.snaps && d'.before == d.before
    ensures SnapsOk(cfg, base, log, d')
  {
    hide SnapOk;
  }

  /** The state after the entry is logged, synced and applied. */
  lemma AppliedOk(cfg: Config, base: Logical, log: seq<Entry>, e: Entry, d: Disk, d': Disk, s: Server, w: Writer)
    requires SysOk(cfg, base, log, d, s) && s.mem.high == |log| && Storable(e) && e.seqNo == |log| + 1
    requires LogOk(cfg, log + [e]) && FilesOk(cfg, log + [e], d') && d'.snaps == d.snaps && d'.before == d.before
    requires WriterOk(cfg, log + [e], d'.segs, w)
    ensures SysOk(cfg, base, log + [e], d', s.(wal := w, mem := ApplyMem(s.mem, cfg.norm, cfg.capacity, e)))
  {
    hide MemOk, FilesOk, WriterOk, ApplyMem, NoRepeat, Applicable;
    SameSnaps(cfg, base, log, d, d');
    SnapsGrow(cfg, base, log, e, d');
    PlansGrow(cfg, base, log, e, s.plans, s.mem.high);
    MemOkSame(cfg, base, log, log + [e], s.mem);
    ApplyNext(cfg, base, log + [e], s.mem, e);
  }

  lemma MutateOk(cfg: Config, base: Logical, log: seq<Entry>, d: Disk, s: Server, opId: OpId, op: Operation,
                 fault: Fault)
    requires Mutable(cfg, base, log, d, s, opId, op)
    ensures MutationOk(cfg, base, log, d, s, opId, op, Mutate(cfg, d, s, opId, op, fault))
  {
    hide SysOk, Mutable, AppendUnsynced, ApplyMem, SyncNewest, Grown;
    MutableParts(cfg, base, log, d, s, opId, op);
    if s.wal.poisoned {
      PoisonedRefuses(cfg, d, s.wal, opId, op, fault);
      GrownNone(log, d.segs);
    } else if AppendUnsynced(cfg, d, s.wal, opId, op, fault).result.Err? {
      FailedAppend(cfg, base, log, d, s, opId, op, fault);
    } else {
      LoggedAppend(cfg, base, log, d, s, opId, op, fault);
    }
  }

  lemma MutableParts(cfg: Config, base: Logical, log: seq<Entry>, d: Disk, s: Server, opId: OpId, op: Operation)
    requires Mutable(cfg, base, log, d, s, opId, op)
    ensures SysOk(cfg, base, log, d, s) && Reaches(log, d.segs) && d.segs != []
            && Applicable(cfg, Entry(|log| + 1, opId, op))
  {
    hide DiskInv, MemOk, LogOk, Ready;
  }

  /** An append that failed left the log as it was. */
  lemma FailedAppend(cfg: Config, base: Logical, log: seq<Entry>, d: Disk, s: Server, opId: OpId, op: Operation,
                     fault: Fault)
    requires Mutable(cfg, base, log, d, s, opId, op) && !s.wal.poisoned
    requires AppendUnsynced(cfg, d, s.wal, opId, op, fault).result.Err?
    ensures var a := AppendUnsynced(cfg, d, s.wal, opId, op, fault);
            SysOk(cfg, base, log, a.disk, s.(wal := a.wal)) && Grown(log, a.disk.segs) == log
  {
    hide LogOk, FilesOk, MemOk, SnapsOk, PlansOk, AppendUnsynced, LastWhole, FileBytes, BaseOk, Grown;
    AppendOk(cfg, log, d, s.wal, opId, op, fault);
    var a := AppendUnsynced(cfg, d, s.wal, opId, op, fault);
    PoisonedOk(cfg, base, log, log, d, a.disk, s, a.wal);
  }

  /** The states a mutation passes through once its entry is logged. */
  lemma LoggedAppend(cfg: Config, base: Logical, log: seq<Entry>, d: Disk, s: Server, opId: OpId, op: Operation,
                     fault: Fault)
    requires Mutable(cfg, base, log, d, s, opId, op) && !s.wal.poisoned
    requires AppendUnsynced(cfg, d, s.wal, opId, op, fault).result.Ok?
    ensures var a, e := AppendUnsynced(cfg, d, s.wal, opId, op, fault), Entry(|log| + 1, opId, op);
            && a.disk.segs != [] && a.result.value == |log| + 1 && !a.wal.poisoned
            && SysOk(cfg, base, log + [e], a.disk, s.(wal := a.wal.(poisoned := true)))
            && SysOk(cfg, base, log + [e], SyncNewest(a.disk), s.(wal := a.wal.(poisoned := true)))
            && SysOk(cfg, base, log + [e], SyncNewest(a.disk),
                     s.(wal := a.wal, mem := ApplyMem(s.mem, cfg.norm, cfg.capacity, e)))
            && Grown(log, a.disk.segs) == log + [e] == Grown(log, SyncNewest(a.disk).segs)
  {
    hide LogOk, FilesOk, MemOk, SnapsOk, PlansOk, AppendUnsynced, LastWhole, FileBytes, ApplyMem, BaseOk, SyncNewest,
         Grown;
    var e := Entry(|log| + 1, opId, op);
    AppendOk(cfg, log, d, s.wal, opId, op, fault);
    var a := AppendUnsynced(cfg, d, s.wal, opId, op, fault);
    AppendedStorable(cfg, d, s.wal, opId, op, fault, |log| + 1);
    LogOkGrow(cfg, base, log, s.mem, e);
    PoisonedOk(cfg, base, log, log + [e], d, a.disk, s, a.wal);
    SyncOk(cfg, log + [e], a.disk, a.wal);
    SyncGrown(log, a.disk);
    PoisonedOk(cfg, base, log, log + [e], d, SyncNewest(a.disk), s, a.wal);
    AppliedOk(cfg, base, log, e, d, SyncNewest(a.disk), s, a.wal);
  }

  lemma PoisonedRefuses(cfg: Config, d: Disk, w: Writer, opId: OpId, op: Operation, fault: Fault)
    requires w.poisoned && d.segs != []
    ensures AppendUnsynced(cfg, d, w, opId, op, fault) == Appended(d, w, Err(Poisoned))
  {
  }

  lemma AppendedStorable(cfg: Config, d: Disk, w: Writer, opId: OpId, op: Operation, fault: Fault, seqNo: nat)
    requires d.segs != [] && w.nextSeq == seqNo < 0x1_0000_0000_0000_0000
    requires AppendUnsynced(cfg, d, w, opId, op, fault).result.Ok?
    ensures Storable(Entry(seqNo, opId, op))
  {
    hide Rotate, WriteFrame, FrameOf;
  }
}
