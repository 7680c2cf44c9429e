/** Exactly when an open succeeds, in terms of the files of the directory. */
module Reopening {
  import opened Words
  import opened WalCodec
  import opened WalSegment
  import opened LogFold
  import opened PartitionState
  import opened Disk
  import opened StoreOps
  import opened Recovery
  import opened Directory
  import opened Serving
  import opened Upkeep
  import opened Opening
  import opened Durability
  import opened System

  /** How far replaying a file brings a state that has reached `high`. */
  function HighAfter(high: nat, f: SegFile): nat {
    if f.Whole? && f.entries != [] && EndOf(f) > high then EndOf(f) else high
  }

  function HighOver(segs: seq<SegFile>, i: nat, high: nat): nat
    requires i <= |segs|
    decreases |segs| - i
  {
    if i == |segs| then high else HighOver(segs, i + 1, HighAfter(high, segs[i]))
  }

  /** No file leaves a gap before its first entry. */
  predicate Continues(segs: seq<SegFile>, i: nat, high: nat)
    requires i <= |segs|
    decreases |segs| - i
  {
    i == |segs|
    || ((segs[i].Whole? && segs[i].entries != [] ==> segs[i].first <= high + 1)
        && Continues(segs, i + 1, HighAfter(high, segs[i])))
  }

  predicate AllRead(cfg: Config, segs: seq<SegFile>, i: nat) {
    forall j :: i <= j < |segs| ==> ReadFile(cfg.crc, cfg.id, segs[j], j == |segs| - 1).Ok?
  }

  lemma GapRefused(cfg: Config, log: seq<Entry>, entries: seq<Entry>, first: nat, m: Mem)
    requires LogOk(cfg, log) && SliceFrom(log, entries, first) && entries != [] && first > m.high + 1
    ensures ReplayEntries(cfg, entries, m).Err?
  {
    SliceTail(log, entries, first);
  }

  /** Replaying one file that reads. */
  lemma ReplayFile(cfg: Config, base: Logical, log: seq<Entry>, f: SegFile, active: bool, m: Mem)
    requires LogOk(cfg, log) && MemOk(cfg, base, log, m) && SegIn(cfg, log, f)
    requires ReadFile(cfg.crc, cfg.id, f, active).Ok?
    ensures var read := ReadFile(cfg.crc, cfg.id, f, active).value;
            var r := ReplayEntries(cfg, read.entries, m);
            && SegmentEnd(read, f) == EndOf(f)
            && (r.Ok? <==> (f.Whole? && f.entries != [] ==> f.first <= m.high + 1))
            && (r.Ok? ==> MemOk(cfg, base, log, r.value) && r.value.high == HighAfter(m.high, f))
  {
    hide MemOk, ReadFile, ReplayEntries, LogOk, SegmentEnd, FileOk;
    var read := ReadFile(cfg.crc, cfg.id, f, active).value;
    SegSlice(cfg, log, f, active);
    ReadEntries(cfg, log, f, active);
    if f.Whole? && f.entries != [] {
      ReplayEntriesSound(cfg, base, log, read.entries, f.first, m);
      if f.first > m.high + 1 {
        GapRefused(cfg, log, read.entries, f.first, m);
      }
    } else {
      ReplayNone(cfg, m);
    }
  }

  lemma ReadEntries(cfg: Config, log: seq<Entry>, f: SegFile, active: bool)
    requires SegIn(cfg, log, f) && ReadFile(cfg.crc, cfg.id, f, active).Ok?
    ensures ReadFile(cfg.crc, cfg.id, f, active).value.entries == EntriesOf(f)
  {
    hide ReadFile;
    ReadFileResult(cfg.crc, cfg.id, f, active);
  }

  /** The highest sequence any of the files ends at, or `end` if that is
      higher. */
  function EndOver(segs: seq<SegFile>, i: nat, end: Option<int>): Option<int>
    requires i <= |segs|
    decreases |segs| - i
  {
    if i == |segs| then end
    else EndOver(segs, i + 1, Some(if end.Some? && end.value > EndOf(segs[i]) then end.value else EndOf(segs[i])))
  }

  /** A replay succeeds exactly when every file reads and none leaves a gap;
      then how far it gets, whether history connects, and where the log ends. */
  lemma {:induction false} ReplayExactly(cfg: Config, base: Logical, log: seq<Entry>, segs: seq<SegFile>, i: nat,
                                         st: Replaying)
    requires LogOk(cfg, log) && MemOk(cfg, base, log, st.mem) && SegsIn(cfg, log, segs) && Ascending(segs)
             && i <= |segs|
    ensures var r := ReplaySegs(cfg, segs, i, st);
            && (r.Ok? <==> AllRead(cfg, segs, i) && Continues(segs, i, st.mem.high))
            && (r.Ok? ==> r.value.mem.high == HighOver(segs, i, st.mem.high))
            && (r.Ok? ==> (r.value.saw <==> st.saw || (i < |segs| && segs[i].first <= st.mem.high + 1)))
            && (r.Ok? ==> r.value.end == EndOver(segs, i, st.end))
    decreases |segs| - i
  {
    hide MemOk, ReadFile, ReplayEntries, SegmentEnd, LogOk, SegIn, HighAfter, EndOf, Ascending;
    if i < |segs| && ReadFile(cfg.crc, cfg.id, segs[i], i == |segs| - 1).Ok? {
      ReplayFile(cfg, base, log, segs[i], i == |segs| - 1, st.mem);
      var read := ReadFile(cfg.crc, cfg.id, segs[i], i == |segs| - 1).value;
      var m := ReplayEntries(cfg, read.entries, st.mem);
      if m.Ok? {
        var end := EndOf(segs[i]);
        var next := Replaying(m.value, st.saw || segs[i].first <= st.mem.high + 1,
                              Some(if st.end.Some? && st.end.value > end then st.end.value else end));
        ReplayExactly(cfg, base, log, segs, i + 1, next);
        assert AllRead(cfg, segs, i) <==> AllRead(cfg, segs, i + 1);
        StartsLate(segs, i, st.mem.high);
      }
    }
  }

  lemma {:induction false} EndOverReaches(segs: seq<SegFile>, i: nat, end: Option<int>)
    requires i <= |segs|
    ensures var e := EndOver(segs, i, end);
            && (e.None? <==> end.None? && i == |segs|) && (end.Some? ==> e.value >= end.value)
            && forall j :: i <= j < |segs| ==> e.Some? && e.value >= EndOf(segs[j])
    decreases |segs| - i
  {
    if i < |segs| {
      var next := if end.Some? && end.value > EndOf(segs[i]) then end.value else EndOf(segs[i]);
      EndOverReaches(segs, i + 1, Some(next));
    }
  }

  lemma StartsLate(segs: seq<SegFile>, i: nat, high: nat)
    requires Ascending(segs) && i < |segs| && (segs[i].Whole? && segs[i].entries != [] ==> segs[i].first <= high + 1)
    ensures segs[i].first > high + 1 && i + 1 < |segs| ==> segs[i + 1].first > HighAfter(high, segs[i]) + 1
  {
  }

  /** The high-water mark an open starts from. */
  ghost function StartHigh(d: Disk): nat {
    if NewestGood(d.snaps).Some? then NewestGood(d.snaps).value else 0
  }

  /** Every file reads, replaying from the newest verifiable snapshot (or from
      nothing) leaves no gap and ends where the log does. */
  ghost predicate Openable(cfg: Config, d: Disk) {
    && (NewestGood(d.snaps).Some? || !cfg.baseSnapshot)
    && AllRead(cfg, d.segs, 0) && Continues(d.segs, 0, StartHigh(d))
    && (if d.segs == [] then StartHigh(d) == 0 else d.segs[0].first <= StartHigh(d) + 1)
    && HighOver(d.segs, 0, StartHigh(d)) == End(d.segs)
  }

  lemma StartsAt(cfg: Config, base: Logical, log: seq<Entry>, d: Disk)
    requires SnapsOk(cfg, base, log, d) && BaseOk(cfg, base) && (NewestGood(d.snaps).Some? || !cfg.baseSnapshot)
    ensures (if NewestGood(d.snaps).Some? then Loaded(cfg, d.snaps[NewestGood(d.snaps).value]) else EMPTY_MEM).high
            == StartHigh(d)
  {
    hide MemOk;
    var newest := NewestGood(d.snaps);
    if newest.Some? {
      assert SnapOk(cfg, base, log, newest.value, d.snaps[newest.value]);
    }
  }

  lemma {:induction false} HighOverGrows(segs: seq<SegFile>, i: nat, high: nat)
    requires i <= |segs|
    ensures HighOver(segs, i, high) >= high
    decreases |segs| - i
  {
    if i < |segs| {
      HighOverGrows(segs, i + 1, HighAfter(high, segs[i]));
    }
  }

  /** Recovery reaches the end of the files exactly when the directory is
      `Openable`. */
  lemma RecoverExactly(cfg: Config, base: Logical, log: seq<Entry>, d: Disk)
    requires LogOk(cfg, log) && DiskInv(cfg, base, log, d) && BaseOk(cfg, base)
    ensures Openable(cfg, d) <==> Recover(cfg, d).Ok? && Recover(cfg, d).value.mem.high == End(d.segs)
    ensures Openable(cfg, d) ==> Recover(cfg, d).value.snapHigh == StartHigh(d)
  {
    hide LogOk, SnapsOk, MemOk, BaseOk, ReplaySegs, SegIn, NewestGood, ReadFile, Continues, HighOver, AllRead, Apart,
         EndOver, Ascending;
    var newest := NewestGood(d.snaps);
    if newest.Some? || !cfg.baseSnapshot {
      SegsOf(cfg, log, d);
      StartOk(cfg, base, log, d);
      StartsAt(cfg, base, log, d);
      var m := if newest.Some? then Loaded(cfg, d.snaps[newest.value]) else EMPTY_MEM;
      var st := Replaying(m, m.high == 0 && d.segs == [], None);
      ReplayExactly(cfg, base, log, d.segs, 0, st);
      HighOverGrows(d.segs, 0, m.high);
      EndOverReaches(d.segs, 0, None);
      if d.segs == [] {
        HighOverNone(m.high);
      } else if LastWhole(d.segs) >= 0 {
        assert EndOf(d.segs[LastWhole(d.segs)]) == End(d.segs);
      } else {
        assert EndOf(d.segs[|d.segs| - 1]) == End(d.segs);
      }
    }
  }

  lemma HighOverNone(high: nat)
    ensures HighOver([], 0, high) == high
  {
  }

  // ----- the writer opens on the repaired directory

  lemma RepairedReads(cfg: Config, log: seq<Entry>, f: SegFile)
    requires SegIn(cfg, log, f) && f.Whole? && f.tail == []
    ensures ReadFile(cfg.crc, cfg.id, f, true) == Ok(SegmentRead(f.entries, None))
  {
    hide Frames, HeaderOf, ReadSegment;
    WholeSegment(cfg.crc, cfg.id, f.first, f.entries, true);
    assert FileBytes(cfg.crc, cfg.id, f) == HeaderOf(cfg.id, f.first) + Frames(cfg.crc, f.entries);
  }

  lemma WriterOpens(cfg: Config, log: seq<Entry>, d: Disk)
    requires FilesOk(cfg, log, d) && Tidied(d) && d.segs != []
    ensures End(d.segs) >= 0 && OpenWriter(cfg, d, End(d.segs)).Ok?
  {
    hide SegIn, FilesOk, ReadFile, FileBytes, LastWhole;
    NewestSegIn(cfg, log, d);
    EndIs(d.segs, |d.segs| - 1);
    RepairedReads(cfg, log, NewestSeg(d));
    SegSlice(cfg, log, NewestSeg(d), true);
    SliceWithin(cfg, log, NewestSeg(d));
  }

  lemma OpensEmpty(cfg: Config, d: Disk, last: nat)
    requires d.segs == []
    ensures OpenWriter(cfg, d, last).Ok?
  {
  }

  /** With nothing serving, an open that meets no fault succeeds exactly when
      the directory is `Openable`; then it serves all the files reach. */
  lemma OpensExactly(cfg: Config, base: Logical, s: Sys)
    requires Inv(cfg, base, s) && Enabled(cfg, s, OpenWith(OpenDone))
    ensures var t := Step(cfg, s, OpenWith(OpenDone));
            && (t.server.Some? <==> Openable(cfg, s.disk))
            && (t.server.Some? ==>
                 t.server.value.mem.high == End(s.disk.segs)
                 && t.server.value.snapHigh == StartHigh(s.disk))
            && (t.server.Some? ==>
                  && Recover(cfg, s.disk).Ok?
                  && t.disk == StartWriter(cfg, Repair(cfg, s.disk), Recover(cfg, s.disk).value, OpenDone).0)
  {
    hide LogOk, DiskInv, BaseOk, ConfigOk, Openable, Recover, Repair, ServerInv, End, StartWriter, StartHigh,
         RecoveredOk, RepairedOk;
    hide Open, Snapshot, FinishCompaction, Truncate, Capture, Mutated, PowerLoss, OpenWriter;
    OpenIs(cfg, s.disk);
    RecoverExactly(cfg, base, s.log, s.disk);
    if Recover(cfg, s.disk).Ok? {
      var r := Recover(cfg, s.disk).value;
      RecoverOk(cfg, base, s.log, s.disk);
      RepairOk(cfg, base, s.log, s.disk, r);
      RepairedOpens(cfg, base, s.log, s.disk, Repair(cfg, s.disk), r);
      StartedIs(cfg, Repair(cfg, s.disk), r);
    }
  }

  lemma OpenIs(cfg: Config, d: Disk)
    ensures Recover(cfg, d).Ok? ==>
      Open(cfg, d, OpenDone) == StartWriter(cfg, Repair(cfg, d), Recover(cfg, d).value, OpenDone)
    ensures Recover(cfg, d).Err? ==> Open(cfg, d, OpenDone).0 == d && Open(cfg, d, OpenDone).1.Err?
  {
    hide Recover, Repair, StartWriter;
  }

  lemma StartedIs(cfg: Config, d: Disk, r: Recovered)
    ensures var (_, s) := StartWriter(cfg, d, r, OpenDone);
            && (s.Ok? <==> OpenWriter(cfg, d, r.mem.high).Ok?)
            && (s.Ok? ==> s.value.mem == r.mem && s.value.snapHigh == r.snapHigh)
  {
    hide OpenWriter, WithSegment;
  }

  /** After the repair a writer opens exactly where the files end. */
  lemma RepairedOpens(cfg: Config, base: Logical, log: seq<Entry>, d: Disk, d1: Disk, r: Recovered)
    requires RecoveredOk(cfg, base, log, d, r) && RepairedOk(cfg, base, log, d, d1)
    ensures OpenWriter(cfg, d1, r.mem.high).Ok? <==> r.mem.high == End(d.segs)
  {
    hide MemOk, SnapsOk, FilesOk, OpenWriter, ReadFile;
    if d1.segs == [] {
      OpensEmpty(cfg, d1, r.mem.high);
    } else {
      WriterOpens(cfg, log, d1);
      if OpenWriter(cfg, d1, r.mem.high).Ok? {
        OpenWriterOk(cfg, log, d1, r.mem.high);
      }
    }
  }

  // ----- an open succeeds exactly when the files hold the log to its end

  /** Where the segments hold everything after the start, no file leaves a gap
      and the replay reaches the end. */
  lemma {:induction false} HeldContinues(segs: seq<SegFile>, i: nat, start: nat, high: nat)
    requires Ascending(segs) && Apart(segs) && i <= |segs| && start <= high <= End(segs) && LastWhole(segs) >= 0
    requires HeldFrom(segs, start, End(segs))
    requires forall j :: 0 <= j < i && segs[j].Whole? ==> EndOf(segs[j]) <= high
    ensures Continues(segs, i, high) && HighOver(segs, i, high) == End(segs)
    decreases |segs| - i
  {
    hide Ascending, Apart, LastWhole;
    if i < |segs| {
      if segs[i].Whole? {
        EndReaches(segs, i);
        NoGapAt(segs, i, start, high);
      }
      HeldContinues(segs, i + 1, start, HighAfter(high, segs[i]));
    }
  }

  lemma NoGapAt(segs: seq<SegFile>, i: nat, start: nat, high: nat)
    requires Ascending(segs) && i < |segs| && segs[i].Whole? && start <= high && EndOf(segs[i]) <= End(segs)
    requires End(segs) >= 0 && HeldFrom(segs, start, End(segs))
    requires forall j :: 0 <= j < i && segs[j].Whole? ==> EndOf(segs[j]) <= high
    ensures segs[i].first <= high + 1
  {
    if high < End(segs) {
      assert InFiles(segs, high + 1);
      var k :| 0 <= k < |segs| && Holds(segs[k], high + 1);
      assert k > i ==> segs[i].first < segs[k].first;
    }
  }

  /** Where no file leaves a gap, the files hold all the replay passed. */
  lemma {:induction false} ContinuesHolds(segs: seq<SegFile>, i: nat, high: nat, s: nat)
    requires i <= |segs| && Continues(segs, i, high) && high < s <= HighOver(segs, i, high)
    ensures InFiles(segs, s)
    decreases |segs| - i
  {
    if s <= HighAfter(high, segs[i]) {
      assert Holds(segs[i], s);
    } else {
      ContinuesHolds(segs, i + 1, HighAfter(high, segs[i]), s);
    }
  }

  /** The directory opens exactly when every file reads, no verifying snapshot
      is ahead of the files, and the files hold the log to their end. */
  lemma HeldOpens(cfg: Config, log: seq<Entry>, d: Disk)
    requires FilesOk(cfg, log, d)
    ensures Openable(cfg, d)
       <==> AllRead(cfg, d.segs, 0) && 0 <= StartHigh(d) <= End(d.segs) && Held(cfg, d, End(d.segs))
  {
    hide FilesOk, AllRead, Continues, HighOver, End, NewestGood, InFiles;
    SegsOf(cfg, log, d);
    HighOverGrows(d.segs, 0, StartHigh(d));
    if Openable(cfg, d) {
      forall s: nat | StartHigh(d) < s <= End(d.segs)
        ensures InFiles(d.segs, s)
      {
        ContinuesHolds(d.segs, 0, StartHigh(d), s);
      }
      StartIsPoint(cfg, d);
      assert HeldFrom(d.segs, StartHigh(d), End(d.segs));
    }
    if AllRead(cfg, d.segs, 0) && 0 <= StartHigh(d) <= End(d.segs) && Held(cfg, d, End(d.segs)) {
      var h: nat :| Point(cfg, d, h) && HeldFrom(d.segs, h, End(d.segs));
      PointIsStart(cfg, d, h);
      assert HeldFrom(d.segs, StartHigh(d), End(d.segs));
      HeldReplays(cfg, log, d);
    }
  }

  lemma StartIsPoint(cfg: Config, d: Disk)
    requires NewestGood(d.snaps).Some? || !cfg.baseSnapshot
    ensures Point(cfg, d, StartHigh(d))
  {
  }

  lemma PointIsStart(cfg: Config, d: Disk, h: nat)
    requires Point(cfg, d, h)
    ensures (NewestGood(d.snaps).Some? || !cfg.baseSnapshot) && h <= StartHigh(d)
  {
  }

  lemma HeldReplays(cfg: Config, log: seq<Entry>, d: Disk)
    requires FilesOk(cfg, log, d) && StartHigh(d) <= End(d.segs) && HeldFrom(d.segs, StartHigh(d), End(d.segs))
    ensures Continues(d.segs, 0, StartHigh(d)) && HighOver(d.segs, 0, StartHigh(d)) == End(d.segs)
    ensures if d.segs == [] then StartHigh(d) == 0 else d.segs[0].first <= StartHigh(d) + 1
  {
    hide NewestGood, FilesOk, StartHigh, Apart;
    SegsOf(cfg, log, d);
    FilesAscend(cfg, log, d);
    var start := StartHigh(d);
    if LastWhole(d.segs) >= 0 {
      HeldContinues(d.segs, 0, start, start);
    } else {
      assert start < End(d.segs) ==> InFiles(d.segs, start + 1);
      NoneHold(d.segs, start + 1);
      HeadlessReplays(d.segs, 0, start);
    }
    if d.segs != [] {
      FirstReached(d.segs, start);
    }
  }

  lemma FilesAscend(cfg: Config, log: seq<Entry>, d: Disk)
    requires FilesOk(cfg, log, d)
    ensures Ascending(d.segs)
  {
  }

  lemma {:induction false} HeadlessReplays(segs: seq<SegFile>, i: nat, high: nat)
    requires i <= |segs| && forall j :: i <= j < |segs| ==> segs[j].Headless?
    ensures Continues(segs, i, high) && HighOver(segs, i, high) == high
    decreases |segs| - i
  {
    if i < |segs| {
      HeadlessReplays(segs, i + 1, high);
    }
  }

  lemma NoneHold(segs: seq<SegFile>, s: nat)
    requires LastWhole(segs) < 0
    ensures !InFiles(segs, s)
  {
  }

  lemma FirstReached(segs: seq<SegFile>, start: nat)
    requires Ascending(segs) && segs != [] && start <= End(segs) && HeldFrom(segs, start, End(segs))
    ensures segs[0].first <= start + 1
  {
    if start < End(segs) {
      assert InFiles(segs, start + 1);
      var k :| 0 <= k < |segs| && Holds(segs[k], start + 1);
      assert k > 0 ==> segs[0].first < segs[k].first;
    } else if LastWhole(segs) > 0 {
      assert segs[0].first < segs[LastWhole(segs)].first;
    } else if LastWhole(segs) < 0 && |segs| > 1 {
      assert segs[0].first < segs[|segs| - 1].first;
    }
  }

  // ----- dropping covered segments

  lemma LinkedReads(cfg: Config, log: seq<Entry>, segs: seq<SegFile>)
    requires AllRead(cfg, segs, 0)
    ensures AllRead(cfg, LinkAll(segs), 0)
  {
    hide ReadSegment, FileBytes, Link;
    forall j | 0 <= j < |segs|
      ensures ReadFile(cfg.crc, cfg.id, LinkAll(segs)[j], j == |segs| - 1).Ok?
    {
      LinkedFile(cfg, log, segs[j]);
      assert ReadFile(cfg.crc, cfg.id, segs[j], j == |segs| - 1).Ok?;
    }
  }

  lemma SuffixReads(cfg: Config, segs: seq<SegFile>, k: nat)
    requires AllRead(cfg, segs, 0) && k <= |segs|
    ensures AllRead(cfg, segs[k..], 0)
  {
    hide ReadFile;
    forall j | 0 <= j < |segs[k..]|
      ensures ReadFile(cfg.crc, cfg.id, segs[k..][j], j == |segs[k..]| - 1).Ok?
    {
      assert segs[k..][j] == segs[k + j];
    }
  }

  /** Segments that end at or below the start hold nothing that is needed. */
  lemma KeptHolds(segs: seq<SegFile>, k: nat, start: nat, n: nat)
    requires k <= |segs| && HeldFrom(segs, start, n) && forall j :: 0 <= j < k ==> EndOf(segs[j]) <= start
    ensures HeldFrom(segs[k..], start, n) && HeldFrom(LinkAll(segs[k..]), start, n)
  {
    forall s: nat | start < s <= n
      ensures InFiles(segs[k..], s) && InFiles(LinkAll(segs[k..]), s)
    {
      assert InFiles(segs, s);
      var i :| 0 <= i < |segs| && Holds(segs[i], s);
      assert segs[k..][i - k] == segs[i];
      assert Holds(segs[k..][i - k], s) && Holds(LinkAll(segs[k..])[i - k], s);
    }
  }

  lemma SameStart(d: Disk, d': Disk)
    requires NewestGood(d'.snaps) == NewestGood(d.snaps)
    ensures StartHigh(d') == StartHigh(d)
  {
    hide NewestGood;
  }

  /** Without segments wholly below the start, a directory that opens still
      does, as long as its files end where they did. */
  lemma DropKeepsOpenable(cfg: Config, log: seq<Entry>, d: Disk, d': Disk, k: nat)
    requires FilesOk(cfg, log, d) && FilesOk(cfg, log, d') && Openable(cfg, d)
    requires k <= |d.segs| && forall j :: 0 <= j < k ==> EndOf(d.segs[j]) <= StartHigh(d)
    requires d'.segs == d.segs[k..] || d'.segs == LinkAll(d.segs[k..])
    requires NewestGood(d'.snaps) == NewestGood(d.snaps)
    ensures Openable(cfg, d') <==> StartHigh(d) <= End(d'.segs) <= End(d.segs)
  {
    hide FilesOk, NewestGood, AllRead, Openable, End, StartHigh, LinkAll, InFiles;
    HeldOpens(cfg, log, d);
    HeldOpens(cfg, log, d');
    SameStart(d, d');
    SuffixReads(cfg, d.segs, k);
    LinkedReads(cfg, log, d.segs[k..]);
    var start := StartHigh(d);
    StartPoints(cfg, d);
    SamePoint(cfg, d, d');
    var h: nat :| Point(cfg, d, h) && HeldFrom(d.segs, h, End(d.segs));
    PointIsStart(cfg, d, h);
    assert HeldFrom(d.segs, start, End(d.segs));
    KeptHolds(d.segs, k, start, End(d.segs));
    if start <= End(d'.segs) <= End(d.segs) {
      assert HeldFrom(d'.segs, start, End(d'.segs));
    }
    if LastWhole(d.segs) >= k {
      SuffixEnd(d.segs, k);
    } else if Openable(cfg, d') {
      HeadlessEnd(cfg, d', d.segs, k);
    }
  }

  lemma StartPoints(cfg: Config, d: Disk)
    requires Openable(cfg, d)
    ensures Point(cfg, d, StartHigh(d)) && StartHigh(d) >= 0
  {
    hide NewestGood, AllRead, Continues, HighOver;
    StartIsPoint(cfg, d);
  }

  lemma SamePoint(cfg: Config, d: Disk, d': Disk)
    requires Point(cfg, d, StartHigh(d)) && NewestGood(d'.snaps) == NewestGood(d.snaps)
    ensures Point(cfg, d', StartHigh(d))
  {
  }

  lemma SuffixEnd(segs: seq<SegFile>, k: nat)
    requires k <= LastWhole(segs)
    ensures End(segs[k..]) == End(segs) == End(LinkAll(segs[k..]))
  {
    hide LinkAll, LastWhole;
    DropPrefix(segs, k);
    SameEnd(segs[k..]);
  }

  /** A directory without headers that opens ends where it starts. */
  lemma HeadlessEnd(cfg: Config, d: Disk, segs: seq<SegFile>, k: nat)
    requires LastWhole(segs) < k <= |segs| && (d.segs == segs[k..] || d.segs == LinkAll(segs[k..])) && Openable(cfg, d)
    ensures End(d.segs) == StartHigh(d)
  {
    hide StartHigh, AllRead, NewestGood, End;
    HeadlessReplays(d.segs, 0, StartHigh(d));
  }

  lemma SameEnd(segs: seq<SegFile>)
    ensures End(LinkAll(segs)) == End(segs)
  {
    forall i | 0 <= i < |segs|
      ensures LinkAll(segs)[i].Whole? <==> segs[i].Whole?
    {
      LinkedWhole(segs[i]);
    }
    SameWhole(segs, LinkAll(segs));
  }

  // ----- truncating

  lemma HeldAtStart(cfg: Config, d: Disk, n: nat)
    ensures Held(cfg, d, n)
       <==> (NewestGood(d.snaps).Some? || !cfg.baseSnapshot) && HeldFrom(d.segs, StartHigh(d), n)
  {
    hide NewestGood, InFiles, StartHigh;
    if Held(cfg, d, n) {
      var h: nat :| Point(cfg, d, h) && HeldFrom(d.segs, h, n);
      PointIsStart(cfg, d, h);
      assert HeldFrom(d.segs, StartHigh(d), n);
    }
    if (NewestGood(d.snaps).Some? || !cfg.baseSnapshot) && HeldFrom(d.segs, StartHigh(d), n) {
      StartIsPoint(cfg, d);
    }
  }

  /** What is held from the start is held by the kept segments exactly when the
      first of them reaches it. */
  lemma KeptHoldsExactly(segs: seq<SegFile>, c: nat, current: nat, k: nat, start: nat)
    requires c < |segs| && WriterAt(segs, c, current) && 0 < k <= c
    requires start <= End(segs) == End(segs[k..]) && HeldFrom(segs, start, End(segs))
    ensures HeldFrom(segs[k..], start, End(segs)) <==> segs[k].first <= start + 1
  {
    hide End, WriterAt, HeldFrom;
    if segs[k].first <= start + 1 {
      forall s: nat | start < s <= End(segs)
        ensures InFiles(segs[k..], s)
      {
        HeldIn(segs, start, End(segs), s);
        KeptHas(segs, c, current, k, s);
      }
      FromEach(segs[k..], start, End(segs));
    }
    if HeldFrom(segs[k..], start, End(segs)) {
      KeptStarts(segs, c, current, k, start);
    }
  }

  lemma HeldIn(segs: seq<SegFile>, start: nat, n: nat, s: nat)
    requires HeldFrom(segs, start, n) && start < s <= n
    ensures InFiles(segs, s)
  {
  }

  lemma FromEach(segs: seq<SegFile>, start: nat, n: nat)
    requires forall s: nat :: start < s <= n ==> InFiles(segs, s)
    ensures HeldFrom(segs, start, n)
  {
  }

  lemma KeptHas(segs: seq<SegFile>, c: nat, current: nat, k: nat, s: nat)
    requires WriterAt(segs, c, current) && 0 < k <= c && InFiles(segs, s) && segs[k].first <= s
    ensures InFiles(segs[k..], s)
  {
    assert forall i :: 0 <= i < k ==> EndOf(segs[i]) < segs[k].first;
    var i :| 0 <= i < |segs| && Holds(segs[i], s);
    assert segs[k..][i - k] == segs[i];
  }

  lemma KeptStarts(segs: seq<SegFile>, c: nat, current: nat, k: nat, start: nat)
    requires WriterAt(segs, c, current) && 0 < k <= c && start <= End(segs) == End(segs[k..])
    requires HeldFrom(segs[k..], start, End(segs))
    ensures segs[k].first <= start + 1
  {
    hide End, LastWhole;
    var kept := segs[k..];
    assert segs == segs[..k] + kept;
    ApartRight(segs[..k], kept);
    EndReaches(kept, 0);
    if start < End(segs) {
      HeldIn(kept, start, End(segs), start + 1);
      var i :| 0 <= i < |kept| && Holds(kept[i], start + 1);
      assert i > 0 ==> segs[k].first < segs[k + i].first;
    }
  }

  /** The files a truncation leaves of a serving partition open exactly when
      they read, no verifying snapshot is ahead of them, and they hold the log
      from the newest of those to its end. They go on opening exactly when
      nothing is removed or that snapshot reaches the first segment kept. */
  lemma TruncateOpens(cfg: Config, base: Logical, log: seq<Entry>, d: Disk, s: Server, stop: nat, synced: bool)
    requires SysOk(cfg, base, log, d, s)
    ensures var t := Truncate(d, s, stop, synced);
            && (Openable(cfg, t) <==>
                 && (NewestGood(d.snaps).Some? || !cfg.baseSnapshot) && AllRead(cfg, t.segs, 0)
                 && StartHigh(d) <= End(d.segs) && HeldFrom(t.segs, StartHigh(d), End(d.segs)))
            && t.segs != []
            && (Openable(cfg, d) ==> (Openable(cfg, t) <==> t == d || t.segs[0].first <= StartHigh(d) + 1))
  {
    hide LogOk, MemOk, FilesOk, SnapsOk, PlansOk, WriterOk, LastWhole, Kept, Removed, LinkAll, WriterAt, CurrentAt,
         Held, HeldFrom, Openable, AllRead, StartHigh, End, NewestGood;
    var t := Truncate(d, s, stop, synced);
    TruncateOk(cfg, base, log, d, s, stop, synced);
    WriterPlace(cfg, log, d, s.wal);
    var c := CurrentAt(d.segs, s.wal);
    var k := KeptIsSuffix(d.segs, 0, c, s.snapHigh, s.wal.current, stop);
    TruncatedIs(d, s, stop, synced, k);
    SuffixEnd(d.segs, k);
    EndHere(cfg, log, d);
    SameStart(d, t);
    HeldOpens(cfg, log, t);
    HeldAtStart(cfg, t, End(t.segs));
    if Openable(cfg, d) {
      HeldOpens(cfg, log, d);
      HeldAtStart(cfg, d, End(d.segs));
      SuffixReads(cfg, d.segs, k);
      LinkedReads(cfg, log, d.segs[k..]);
      if k > 0 {
        KeptHoldsExactly(d.segs, c, s.wal.current, k, StartHigh(d));
        LinkedHolds(d.segs[k..], StartHigh(d), End(d.segs));
      }
    }
  }

  lemma EndHere(cfg: Config, log: seq<Entry>, d: Disk)
    requires FilesOk(cfg, log, d) && LastWhole(d.segs) >= 0
    ensures End(d.segs) >= 0
  {
    hide LastWhole;
    SegsOf(cfg, log, d);
    assert SegIn(cfg, log, d.segs[LastWhole(d.segs)]);
  }

  lemma TruncatedIs(d: Disk, s: Server, stop: nat, synced: bool, k: nat)
    requires k < |d.segs| && Kept(d.segs, 0, s.snapHigh, s.wal.current, stop) == d.segs[k..]
    requires Removed(d.segs, 0, s.snapHigh, s.wal.current, stop) == d.segs[0..k]
    ensures var t := Truncate(d, s, stop, synced);
            && t.snaps == d.snaps && t.before == d.before && t.segs != [] && t.segs[0].first == d.segs[k].first
            && (if k == 0 then t == d && d.segs == d.segs[k..]
                else t != d && t.segs == if synced then LinkAll(d.segs[k..]) else d.segs[k..])
  {
    hide Kept, Removed;
    assert k > 0 ==> |Truncate(d, s, stop, synced).segs| < |d.segs|;
  }

  lemma LinkedHolds(segs: seq<SegFile>, start: nat, n: nat)
    ensures HeldFrom(LinkAll(segs), start, n) <==> HeldFrom(segs, start, n)
  {
    forall s: nat
      ensures InFiles(LinkAll(segs), s) <==> InFiles(segs, s)
    {
      if InFiles(segs, s) {
        var i :| 0 <= i < |segs| && Holds(segs[i], s);
        assert Holds(LinkAll(segs)[i], s);
      }
      if InFiles(LinkAll(segs), s) {
        var i :| 0 <= i < |segs| && Holds(LinkAll(segs)[i], s);
        assert Holds(segs[i], s);
      }
    }
  }
}
