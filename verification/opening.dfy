/** Opening a partition: whatever the directory holds, an open that succeeds
    serves exactly the fold of the log. */
module Opening {
  import opened Words
  import opened WalCodec
  import opened WalSegment
  import opened LogFold
  import opened PartitionState
  import opened Disk
  import opened StoreOps
  import opened Recovery
  import opened Directory
  import opened Serving
  import opened Upkeep

  /** A replay that succeeds could read every segment. */
  lemma {:induction false} ReplayReads(cfg: Config, segs: seq<SegFile>, i: nat, st: Replaying, j: nat)
    requires i <= j < |segs| && ReplaySegs(cfg, segs, i, st).Ok?
    ensures ReadFile(cfg.crc, cfg.id, segs[j], j == |segs| - 1).Ok?
    decreases |segs| - i
  {
    hide ReadFile, ReplayEntries, SegmentEnd;
    if i < j {
      var read := ReadFile(cfg.crc, cfg.id, segs[i], i == |segs| - 1).value;
      var end := SegmentEnd(read, segs[i]);
      var m := ReplayEntries(cfg, read.entries, st.mem).value;
      ReplayReads(cfg, segs, i + 1,
        Replaying(m, st.saw || segs[i].first <= st.mem.high + 1,
                  Some(if st.end.Some? && st.end.value > end then st.end.value else end)), j);
    }
  }

  /** A sealed segment that reads is whole and has no tail. */
  lemma SealedReads(cfg: Config, f: SegFile)
    requires FileOk(cfg.crc, f) && ReadFile(cfg.crc, cfg.id, f, false).Ok?
    ensures f.Whole? && f.tail == []
  {
    hide ReadFile, FileOk;
    ReadFileResult(cfg.crc, cfg.id, f, false);
    SealedNotTorn(cfg, f);
  }

  lemma SealedNotTorn(cfg: Config, f: SegFile)
    requires FileOk(cfg.crc, f) && ReadFile(cfg.crc, cfg.id, f, false).Ok?
    ensures ReadFile(cfg.crc, cfg.id, f, false).value.torn.None?
  {
    hide ReadSegment, FileBytes;
    ReadSegmentSound(cfg.crc, cfg.id, f.first, FileBytes(cfg.crc, cfg.id, f), false);
  }

  /** What a successful `recover` establishes. */
  ghost predicate RecoveredOk(cfg: Config, base: Logical, log: seq<Entry>, d: Disk, r: Recovered) {
    && MemOk(cfg, base, log, r.mem) && r.snapHigh <= r.mem.high
    && (forall h :: h in d.snaps && d.snaps[h].good ==> h <= r.snapHigh)
    && (forall i :: 0 <= i < |d.segs| - 1 ==> d.segs[i].Whole? && d.segs[i].tail == [])
    && (d.segs != [] ==> ReadFile(cfg.crc, cfg.id, NewestSeg(d), true).Ok?)
    && (d.segs == [] ==> r.mem.high == 0)
    && (|d.segs| == 1 && d.segs[0].Headless? ==> r.mem.high == EndOf(d.segs[0]))
  }

  lemma OneHeadless(cfg: Config, segs: seq<SegFile>, st: Replaying)
    requires |segs| == 1 && segs[0].Headless? && FileOk(cfg.crc, segs[0]) && ReplaySegs(cfg, segs, 0, st).Ok?
    ensures ReplaySegs(cfg, segs, 0, st)
         == Ok(Replaying(st.mem, st.saw || segs[0].first <= st.mem.high + 1,
                         Some(if st.end.Some? && st.end.value > EndOf(segs[0]) then st.end.value else EndOf(segs[0]))))
  {
    hide ReadFile, FileOk;
    ReadFileResult(cfg.crc, cfg.id, segs[0], true);
  }

  lemma StartOk(cfg: Config, base: Logical, log: seq<Entry>, d: Disk)
    requires SnapsOk(cfg, base, log, d) && BaseOk(cfg, base) && (NewestGood(d.snaps).Some? || !cfg.baseSnapshot)
    ensures var newest := NewestGood(d.snaps);
            var m := if newest.Some? then Loaded(cfg, d.snaps[newest.value]) else EMPTY_MEM;
            && MemOk(cfg, base, log, m)
            && (forall h :: h in d.snaps && d.snaps[h].good ==> h <= m.high)
  {
    hide MemOk, Loaded;
    var newest := NewestGood(d.snaps);
    if newest.Some? {
      assert SnapOk(cfg, base, log, newest.value, d.snaps[newest.value]);
      LoadedSame(cfg, base, log, d.snaps[newest.value]);
    } else {
      EmptyMemOk(cfg, base, log);
    }
  }

  /** The state an open starts from: the newest snapshot that verifies, or
      nothing. */
  ghost function StartMem(d: Disk): Mem {
    if NewestGood(d.snaps).Some? then d.snaps[NewestGood(d.snaps).value].mem else EMPTY_MEM
  }

  /** A recovery that succeeds has replayed the log onto that state. */
  lemma RecoverReplays(cfg: Config, base: Logical, log: seq<Entry>, d: Disk)
    requires LogOk(cfg, log) && DiskInv(cfg, base, log, d) && BaseOk(cfg, base) && Recover(cfg, d).Ok?
    ensures Replayed(cfg, log, StartMem(d), Recover(cfg, d).value.mem)
    ensures Recover(cfg, d).value.snapHigh == StartMem(d).high
  {
    hide FilesOk, SnapsOk, MemOk, ReplaySegs, SegIn, NewestGood, Loaded, Replayed;
    SegsOf(cfg, log, d);
    StartLoaded(cfg, base, log, d);
    var m := StartMem(d);
    ReplaySegsReplays(cfg, log, d.segs, 0, Replaying(m, m.high == 0 && d.segs == [], None));
  }

  lemma StartLoaded(cfg: Config, base: Logical, log: seq<Entry>, d: Disk)
    requires SnapsOk(cfg, base, log, d) && BaseOk(cfg, base) && (NewestGood(d.snaps).Some? || !cfg.baseSnapshot)
    ensures StartMem(d).high <= |log|
    ensures NewestGood(d.snaps).Some? ==> Loaded(cfg, d.snaps[NewestGood(d.snaps).value]) == StartMem(d)
  {
    hide RepOk, Abs, Loaded;
    var newest := NewestGood(d.snaps);
    if newest.Some? {
      assert SnapOk(cfg, base, log, newest.value, d.snaps[newest.value]);
      LoadedSame(cfg, base, log, d.snaps[newest.value]);
    }
  }

  lemma RecoverOk(cfg: Config, base: Logical, log: seq<Entry>, d: Disk)
    requires LogOk(cfg, log) && DiskInv(cfg, base, log, d) && BaseOk(cfg, base)
    ensures Recover(cfg, d).Ok? ==> RecoveredOk(cfg, base, log, d, Recover(cfg, d).value)
  {
    hide LogOk, FilesOk, SnapsOk, MemOk, BaseOk, ReplaySegs, SegIn, NewestGood, ReadFile;
    SegsOf(cfg, log, d);
    if Recover(cfg, d).Ok? {
      StartOk(cfg, base, log, d);
      var newest := NewestGood(d.snaps);
      var m := if newest.Some? then Loaded(cfg, d.snaps[newest.value]) else EMPTY_MEM;
      var st := Replaying(m, m.high == 0 && d.segs == [], None);
      ReplaySegsSound(cfg, base, log, d.segs, 0, st);
      forall i | 0 <= i < |d.segs| - 1
        ensures d.segs[i].Whole? && d.segs[i].tail == []
      {
        ReplayReads(cfg, d.segs, 0, st, i);
        IsFile(cfg, log, d.segs[i]);
        SealedReads(cfg, d.segs[i]);
      }
      if d.segs != [] {
        ReplayReads(cfg, d.segs, 0, st, |d.segs| - 1);
        if |d.segs| == 1 && d.segs[0].Headless? {
          IsFile(cfg, log, d.segs[0]);
          OneHeadless(cfg, d.segs, st);
        }
      } else {
        ReplayEmpty(cfg, st);
      }
    }
  }

  lemma IsFile(cfg: Config, log: seq<Entry>, f: SegFile)
    requires SegIn(cfg, log, f)
    ensures FileOk(cfg.crc, f)
  {
  }

  lemma ReplayEmpty(cfg: Config, st: Replaying)
    ensures ReplaySegs(cfg, [], 0, st) == Ok(st)
  {
  }

  // ----- repair

  /** A torn tail is where the newest file says. */
  lemma TornIs(cfg: Config, log: seq<Entry>, d: Disk)
    requires FilesOk(cfg, log, d)
    ensures var torn := TornAt(cfg, d);
            && (torn.Some? ==> d.segs != [] && (torn.value < HEADER_LEN <==> NewestSeg(d).Headless?))
            && (d.segs != [] && ReadFile(cfg.crc, cfg.id, NewestSeg(d), true).Ok? ==>
                  (torn.None? <==> NewestSeg(d).Whole? && NewestSeg(d).tail == []))
  {
    hide ReadFile, FileOk, Apart, Ascending;
    SegsOf(cfg, log, d);
    if d.segs != [] {
      IsFile(cfg, log, NewestSeg(d));
      ReadFileResult(cfg.crc, cfg.id, NewestSeg(d), true);
    }
  }

  /** Removing a newest file without a header. */
  lemma RemoveHeadless(cfg: Config, log: seq<Entry>, d: Disk)
    requires FilesOk(cfg, log, d) && d.segs != [] && NewestSeg(d).Headless?
    ensures FilesOk(cfg, log, d.(segs := d.segs[..|d.segs| - 1], limbo := d.limbo + [NewestSeg(d)]))
    ensures LastWhole(d.segs[..|d.segs| - 1]) == LastWhole(d.segs)
  {
    hide SegIn;
    var init := d.segs[..|d.segs| - 1];
    var old_, new_ := d.limbo + d.segs, (d.limbo + [NewestSeg(d)]) + init;
    forall i | 0 <= i < |new_|
      ensures SegIn(cfg, log, new_[i])
    {
      assert SegIn(cfg, log, old_[Before(|d.limbo|, |d.segs|, i)]);
    }
    forall i, j | 0 <= i < j < |new_| && new_[i].Whole? && new_[j].Whole?
      ensures EndOf(new_[i]) < new_[j].first
    {
      var a, b := Before(|d.limbo|, |d.segs|, i), Before(|d.limbo|, |d.segs|, j);
      assert old_[a] == new_[i] && old_[b] == new_[j] && a < b;
    }
  }

  /** Where a file of the shortened directory was. */
  function Before(limbo: nat, segs: nat, i: nat): nat
    requires segs > 0
  {
    if i < limbo then i else if i == limbo then limbo + segs - 1 else i - 1
  }

  lemma CutTail(cfg: Config, log: seq<Entry>, d: Disk)
    requires FilesOk(cfg, log, d) && d.segs != [] && NewestSeg(d).Whole?
    ensures var half := SetNewest(d, NewestSeg(d).(tail := [], settled := false));
            && FilesOk(cfg, log, half) && FilesOk(cfg, log, SyncNewest(half))
            && End(SyncNewest(half).segs) == End(d.segs)
  {
    hide FilesOk, LastWhole;
    NewestSegIn(cfg, log, d);
    var f := NewestSeg(d).(tail := [], settled := false);
    SetNewestOk(cfg, log, log, d, f);
    SetNewestOk(cfg, log, log, SetNewest(d, f), SyncFile(f));
    EndIs(d.segs, |d.segs| - 1);
    EndIs(SyncNewest(SetNewest(d, f)).segs, |d.segs| - 1);
  }

  lemma RepairKeepsSnaps(cfg: Config, d: Disk)
    ensures HalfRepair(cfg, d).snaps == d.snaps && HalfRepair(cfg, d).before == d.before
    ensures Repair(cfg, d).snaps == d.snaps && Repair(cfg, d).before == d.before
  {
    hide TornAt, LinkAll;
  }

  lemma SnapsCarried(cfg: Config, base: Logical, log: seq<Entry>, d: Disk, d': Disk)
    requires SnapsOk(cfg, base, log, d) && d'.snaps == d.snaps && d'.before == d.before
    ensures SnapsOk(cfg, base, log, d')
  {
    hide SnapOk;
  }

  /** A repair stopped half-way keeps the invariant, and so does a whole one. */
  lemma RepairFiles(cfg: Config, log: seq<Entry>, d: Disk)
    requires FilesOk(cfg, log, d)
    ensures FilesOk(cfg, log, HalfRepair(cfg, d)) && FilesOk(cfg, log, Repair(cfg, d))
  {
    hide FilesOk, TornAt, LinkAll, LastWhole, SyncNewest;
    TornIs(cfg, log, d);
    var torn := TornAt(cfg, d);
    if torn.Some? {
      if torn.value < HEADER_LEN {
        RemoveHeadless(cfg, log, d);
        LinkAllOk(cfg, log, HalfRepair(cfg, d));
      } else {
        CutTail(cfg, log, d);
      }
    }
  }

  lemma RepairInv(cfg: Config, base: Logical, log: seq<Entry>, d: Disk)
    requires DiskInv(cfg, base, log, d)
    ensures DiskInv(cfg, base, log, HalfRepair(cfg, d)) && DiskInv(cfg, base, log, Repair(cfg, d))
  {
    hide FilesOk, SnapsOk, HalfRepair, Repair;
    RepairFiles(cfg, log, d);
    RepairKeepsSnaps(cfg, d);
    SnapsCarried(cfg, base, log, d, HalfRepair(cfg, d));
    SnapsCarried(cfg, base, log, d, Repair(cfg, d));
  }

  /** Every file of the directory ends where its entries do. */
  predicate Tidied(d: Disk) {
    forall i :: 0 <= i < |d.segs| ==> d.segs[i].Whole? && d.segs[i].tail == []
  }

  /** The repaired directory. */
  ghost predicate RepairedOk(cfg: Config, base: Logical, log: seq<Entry>, d: Disk, d1: Disk) {
    && DiskInv(cfg, base, log, d1) && Tidied(d1) && d1.snaps == d.snaps && d1.before == d.before
    && (if d1.segs == [] then d.segs == [] || (|d.segs| == 1 && d.segs[0].Headless?) else End(d1.segs) == End(d.segs))
  }

  /** Repairing the torn tail drops no entry. */
  lemma RepairOk(cfg: Config, base: Logical, log: seq<Entry>, d: Disk, r: Recovered)
    requires DiskInv(cfg, base, log, d) && RecoveredOk(cfg, base, log, d, r)
    ensures RepairedOk(cfg, base, log, d, Repair(cfg, d))
  {
    hide ReadFile, MemOk, SnapsOk, LastWhole, FilesOk, LinkAll, TornAt;
    RepairInv(cfg, base, log, d);
    RepairKeepsSnaps(cfg, d);
    TornIs(cfg, log, d);
    var torn := TornAt(cfg, d);
    if torn.Some? {
      if torn.value < HEADER_LEN {
        RemoveHeadless(cfg, log, d);
        LinkAllOk(cfg, log, HalfRepair(cfg, d));
        LinkedTidied(HalfRepair(cfg, d));
        if |d.segs| > 1 {
          assert LastWhole(d.segs[..|d.segs| - 1]) == |d.segs| - 2 by {
            EndIs(d.segs[..|d.segs| - 1], |d.segs| - 2);
          }
          EndIs(d.segs, |d.segs| - 2);
        }
      } else {
        CutTail(cfg, log, d);
      }
    }
  }

  lemma LinkedTidied(d: Disk)
    requires Tidied(d)
    ensures Tidied(d.(segs := LinkAll(d.segs), limbo := []))
  {
    hide Link;
    forall i | 0 <= i < |d.segs|
      ensures LinkAll(d.segs)[i].Whole? && LinkAll(d.segs)[i].tail == []
    {
      LinkedWhole(d.segs[i]);
    }
  }

  lemma LinkedWhole(f: SegFile)
    ensures Link(f).Whole? <==> f.Whole?
    ensures f.Whole? ==> Link(f).tail == f.tail
  {
  }

  // ----- the writer

  /** A writer positioned after `high` on a repaired directory: when that
      succeeds, the files end at `high`. */
  lemma OpenWriterOk(cfg: Config, log: seq<Entry>, d: Disk, high: nat)
    requires FilesOk(cfg, log, d) && Tidied(d) && OpenWriter(cfg, d, high).Ok?
    ensures d.segs != [] ==> EndOf(NewestSeg(d)) == high && End(d.segs) == high
    ensures var (w, create) := OpenWriter(cfg, d, high).value;
            && w.nextSeq == high + 1 && !w.poisoned
            && (create ==> w == Writer(high + 1, HEADER_LEN, high + 1, false)
                           && forall i :: 0 <= i < |d.segs| ==> d.segs[i].first <= high)
            && (!create ==> d.segs != [] && w.current == NewestSeg(d).first
                            && w.bytes == |FileBytes(cfg.crc, cfg.id, NewestSeg(d))| < ROTATE_BYTES)
  {
    hide SegIn, ReadFile, FileBytes, FilesOk, LastWhole;
    if d.segs != [] {
      var f := NewestSeg(d);
      NewestSegIn(cfg, log, d);
      SegSlice(cfg, log, f, true);
      EndIs(d.segs, |d.segs| - 1);
      if |FileBytes(cfg.crc, cfg.id, f)| >= ROTATE_BYTES {
        LongHasEntries(cfg, f);
        FirstsBelow(cfg, log, d);
      }
    }
  }

  lemma FirstsBelow(cfg: Config, log: seq<Entry>, d: Disk)
    requires FilesOk(cfg, log, d) && d.segs != [] && NewestSeg(d).Whole? && NewestSeg(d).entries != []
    ensures forall i :: 0 <= i < |d.segs| ==> d.segs[i].first <= EndOf(NewestSeg(d))
  {
    hide SegIn, Apart;
  }

  /** Once a writer is positioned, what lies beyond it in the log is in no file
      and no snapshot. */
  lemma CutToHigh(cfg: Config, base: Logical, log: seq<Entry>, d: Disk, high: nat)
    requires DiskInv(cfg, base, log, d) && Tidied(d) && OpenWriter(cfg, d, high).Ok? && high <= |log|
    requires forall h :: h in d.snaps && d.snaps[h].good ==> h <= high
    ensures DiskInv(cfg, base, log[..high], d) && (d.before != map[] ==> high == |log|)
    ensures d.segs != [] ==> Reaches(log[..high], d.segs)
  {
    hide SegIn, SnapsOk, OpenWriter, LastWhole, FileBytes, Ascending;
    OpenWriterOk(cfg, log, d, high);
    var files := d.limbo + d.segs;
    if d.segs != [] {
      EndIs(d.segs, |d.segs| - 1);
      NewestSegIn(cfg, log, d);
      SliceWithin(cfg, log, NewestSeg(d));
      assert files[|files| - 1] == NewestSeg(d);
    }
    forall i | 0 <= i < |files| && files[i].Whole?
      ensures EndOf(files[i]) <= high
    {
      if d.segs != [] && i < |files| - 1 {
        assert EndOf(files[i]) < NewestSeg(d).first;
      }
    }
    DiskCut(cfg, base, log, high, d);
  }

  // ----- the open

  /** The outcome of an open: the history is kept, or cut to what is served. */
  ghost predicate OpenedOk(cfg: Config, base: Logical, log: seq<Entry>, d: Disk, d': Disk,
                           r: Result<Server, StoreError>)
  {
    && d'.snaps == d.snaps
    && (r.Err? ==> DiskInv(cfg, base, log, d'))
    && (r.Ok? ==>
          var high := r.value.mem.high;
          && high <= |log| && DiskInv(cfg, base, log[..high], d') && ServerInv(cfg, base, log[..high], d', r.value)
          && !r.value.wal.poisoned && r.value.plans == [] && End(d'.segs) == high
          && RepOk(r.value.mem) && Abs(r.value.mem) == Fold(base, cfg.norm, cfg.capacity, log[..high]))
  }

  lemma CreateKeepsSnaps(cfg: Config, d: Disk, first: nat, made: Option<Made>)
    ensures Create(cfg, d, first, made).snaps == d.snaps && Create(cfg, d, first, made).before == d.before
  {
    hide LinkAll;
  }

  lemma CreateInv(cfg: Config, base: Logical, log: seq<Entry>, d: Disk, made: Option<Made>)
    requires DiskInv(cfg, base, log, d) && RoomFor(log, d.segs) && |log| + 2 < 0x1_0000_0000_0000_0000
    ensures DiskInv(cfg, base, log, Create(cfg, d, |log| + 1, made))
    ensures made.None? ==> Reaches(log, Create(cfg, d, |log| + 1, made).segs)
  {
    hide FilesOk, SnapsOk, RoomFor, Create, Reaches;
    CreateOk(cfg, log, d, made);
    CreateKeepsSnaps(cfg, d, |log| + 1, made);
    SnapsCarried(cfg, base, log, d, Create(cfg, d, |log| + 1, made));
  }

  /** The writer of a directory that needs no new segment. */
  lemma ContinuedWriter(cfg: Config, log: seq<Entry>, d: Disk, w: Writer)
    requires d.segs != [] && Tidied(d) && Reaches(log, d.segs) && w.nextSeq == |log| + 1 && !w.poisoned
    requires w.current == NewestSeg(d).first && w.bytes == |FileBytes(cfg.crc, cfg.id, NewestSeg(d))|
    ensures WriterOk(cfg, log, d.segs, w) && End(d.segs) == |log|
  {
    hide FileBytes;
  }

  /** The writer of a new segment. */
  lemma NewWriter(cfg: Config, log: seq<Entry>, d: Disk)
    requires Tidied(d) && Reaches(log, WithSegment(d, |log| + 1).segs)
    ensures var w := Writer(|log| + 1, HEADER_LEN, |log| + 1, false);
            WriterOk(cfg, log, WithSegment(d, |log| + 1).segs, w) && End(WithSegment(d, |log| + 1).segs) == |log|
  {
    hide Frames, HeaderOf, LastWhole, Link;
    NoFrames(cfg.crc);
    forall i | 0 <= i < |d.segs|
      ensures LinkAll(d.segs)[i].Whole?
    {
      LinkedWhole(d.segs[i]);
    }
  }

  lemma MeansWhole(cfg: Config, base: Logical, log: seq<Entry>, m: Mem)
    requires MemOk(cfg, base, log, m)
    ensures RepOk(m) && m.high <= |log| && Abs(m) == Fold(base, cfg.norm, cfg.capacity, log[..m.high])
    ensures MemOk(cfg, base, log[..m.high], m)
  {
    MemOkPrefix(cfg, base, log, m.high, m);
  }

  /** The end of an open, on the repaired directory. */
  lemma StartedOk(cfg: Config, base: Logical, log: seq<Entry>, d: Disk, r: Recovered, fault: OpenFault)
    requires DiskInv(cfg, base, log, d) && Tidied(d) && MemOk(cfg, base, log, r.mem) && r.snapHigh <= r.mem.high
    requires forall h :: h in d.snaps && d.snaps[h].good ==> h <= r.mem.high
    requires |log| + 2 < 0x1_0000_0000_0000_0000
    ensures var (d', s) := StartWriter(cfg, d, r, fault);
            OpenedOk(cfg, base, log, d, d', s)
  {
    hide DiskInv, MemOk, OpenWriter, WriterOk, Tidied, RepOk, Abs, Fold, Reaches, LastWhole, Create, WithSegment;
    var high := r.mem.high;
    MeansWhole(cfg, base, log, r.mem);
    if OpenWriter(cfg, d, high).Ok? {
      var short := log[..high];
      var (w, create) := OpenWriter(cfg, d, high).value;
      InvFiles(cfg, base, log, d);
      CutToHigh(cfg, base, log, d, high);
      OpenWriterOk(cfg, log, d, high);
      if create {
        assert RoomFor(short, d.segs);
        CreateInv(cfg, base, short, d, None);
        NewestCreated(cfg, d, high + 1);
        NewWriter(cfg, short, d);
        CreateKeepsSnaps(cfg, d, high + 1, None);
        if fault.OpenCreateFails? {
          CreateInv(cfg, base, short, d, Some(fault.made));
          CreateKeepsSnaps(cfg, d, high + 1, Some(fault.made));
          DiskUncut(cfg, base, log, high, Create(cfg, d, high + 1, Some(fault.made)));
        }
      } else {
        ContinuedWriter(cfg, short, d, w);
      }
    }
  }

  lemma NewestCreated(cfg: Config, d: Disk, first: nat)
    ensures Create(cfg, d, first, None) == WithSegment(d, first)
  {
  }

  lemma InvFiles(cfg: Config, base: Logical, log: seq<Entry>, d: Disk)
    requires DiskInv(cfg, base, log, d)
    ensures FilesOk(cfg, log, d) && SnapsOk(cfg, base, log, d)
  {
  }

  /** An open, whatever fails in it: the invariant holds, and an open that
      succeeds serves the fold of the history up to where the files end, with
      its writer there. */
  lemma OpenOk(cfg: Config, base: Logical, log: seq<Entry>, d: Disk, fault: OpenFault)
    requires LogOk(cfg, log) && DiskInv(cfg, base, log, d) && BaseOk(cfg, base) && |log| + 2 < 0x1_0000_0000_0000_0000
    ensures var (d', r) := Open(cfg, d, fault);
            OpenedOk(cfg, base, log, d, d', r)
  {
    hide LogOk, DiskInv, BaseOk, MemOk, Recover, Repair, HalfRepair, StartWriter, RecoveredOk, ServerInv, Tidied;
    RepairInv(cfg, base, log, d);
    RepairKeepsSnaps(cfg, d);
    if Recover(cfg, d).Ok? {
      RecoverOk(cfg, base, log, d);
      var r := Recover(cfg, d).value;
      RepairOk(cfg, base, log, d, r);
      RecoveredParts(cfg, base, log, d, r);
      StartedOk(cfg, base, log, Repair(cfg, d), r, fault);
    }
  }

  lemma RecoveredParts(cfg: Config, base: Logical, log: seq<Entry>, d: Disk, r: Recovered)
    requires RecoveredOk(cfg, base, log, d, r)
    ensures MemOk(cfg, base, log, r.mem) && r.snapHigh <= r.mem.high
    ensures forall h :: h in d.snaps && d.snaps[h].good ==> h <= r.mem.high
  {
    hide MemOk, ReadFile;
  }
}
