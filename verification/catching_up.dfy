/** Exactly when finishing a compaction succeeds: what the log must still hold
    for the rebuilt state to catch up with the served one. */
module CatchingUp {
  import opened Words
  import opened WalCodec
  import opened WalSegment
  import opened LogFold
  import opened PartitionState
  import opened Disk
  import opened StoreOps
  import opened Recovery
  import opened Directory
  import opened Serving
  import opened Upkeep
  import opened Durability

  /** Every segment the catch-up reads, one that begins at or below `high`,
      reads. */
  predicate ReadsTo(cfg: Config, segs: seq<SegFile>, i: nat, high: nat) {
    forall j :: i <= j < |segs| && segs[j].first <= high ==> ReadFile(cfg.crc, cfg.id, segs[j], j == |segs| - 1).Ok?
  }

  /** How far one file brings a state that has caught up to `h`. */
  function CatchAfter(h: nat, f: SegFile, high: nat): nat {
    if f.Whole? && f.entries != [] && EndOf(f) > h then (if EndOf(f) <= high then EndOf(f) else high) else h
  }

  function CatchOver(segs: seq<SegFile>, i: nat, h: nat, high: nat): nat
    requires i <= |segs|
    decreases |segs| - i
  {
    if i == |segs| then h
    else CatchOver(segs, i + 1, if segs[i].first > high then h else CatchAfter(h, segs[i], high), high)
  }

  /** No file that is read leaves a gap before its first entry. */
  predicate Catches(segs: seq<SegFile>, i: nat, h: nat, high: nat)
    requires i <= |segs|
    decreases |segs| - i
  {
    i == |segs|
    || (segs[i].first > high && Catches(segs, i + 1, h, high))
    || (segs[i].first <= high && (segs[i].Whole? && segs[i].entries != [] ==> segs[i].first <= h + 1)
        && Catches(segs, i + 1, CatchAfter(h, segs[i], high), high))
  }

  // ----- one file

  lemma GapStops(cfg: Config, log: seq<Entry>, entries: seq<Entry>, first: nat, m: Mem, from: nat, high: nat)
    requires LogOk(cfg, log) && SliceFrom(log, entries, first) && entries != []
    requires from <= m.high && m.high + 1 < first <= high
    ensures CatchEntries(cfg, entries, m, from, high).Err?
  {
    SliceTail(log, entries, first);
  }

  lemma CatchFile(cfg: Config, base: Logical, log: seq<Entry>, f: SegFile, active: bool, m: Mem, from: nat, high: nat)
    requires LogOk(cfg, log) && MemOk(cfg, base, log, m) && SegIn(cfg, log, f)
    requires ReadFile(cfg.crc, cfg.id, f, active).Ok? && from <= m.high <= high && f.first <= high
    requires m.high == from || (f.Whole? ==> f.first > m.high)
    ensures var r := CatchEntries(cfg, ReadFile(cfg.crc, cfg.id, f, active).value.entries, m, from, high);
            && (r.Ok? <==> (f.Whole? && f.entries != [] ==> f.first <= m.high + 1))
            && (r.Ok? ==> MemOk(cfg, base, log, r.value) && r.value.high == CatchAfter(m.high, f, high))
  {
    hide MemOk, ReadFile, CatchEntries, LogOk, SegmentEnd, FileOk;
    var read := ReadFile(cfg.crc, cfg.id, f, active).value;
    SegSlice(cfg, log, f, active);
    if f.Whole? && f.entries != [] {
      CatchEntriesSound(cfg, base, log, read.entries, f.first, m, from, high);
      if f.first > m.high + 1 {
        GapStops(cfg, log, read.entries, f.first, m, from, high);
      }
    } else {
      CatchNone(cfg, m, from, high);
    }
  }

  // ----- all of them

  /** The catch-up succeeds exactly when every file it reads reads and none
      leaves a gap; then how far it gets. */
  lemma {:induction false} CatchExactly(cfg: Config, base: Logical, log: seq<Entry>, segs: seq<SegFile>, i: nat, m: Mem,
                                        from: nat, high: nat)
    requires LogOk(cfg, log) && MemOk(cfg, base, log, m) && SegsIn(cfg, log, segs) && Apart(segs) && i <= |segs|
    requires from <= m.high <= high
    requires m.high == from || forall j :: i <= j < |segs| && segs[j].Whole? ==> segs[j].first > m.high
    ensures var r := CatchUp(cfg, segs, i, m, from, high);
            && (r.Ok? <==> ReadsTo(cfg, segs, i, high) && Catches(segs, i, m.high, high))
            && (r.Ok? ==> r.value.high == CatchOver(segs, i, m.high, high))
    decreases |segs| - i
  {
    hide MemOk, ReadFile, CatchEntries, LogOk, SegIn, EndOf;
    if i < |segs| {
      if segs[i].first > high {
        CatchExactly(cfg, base, log, segs, i + 1, m, from, high);
        assert ReadsTo(cfg, segs, i, high) <==> ReadsTo(cfg, segs, i + 1, high);
      } else if ReadFile(cfg.crc, cfg.id, segs[i], i == |segs| - 1).Ok? {
        CatchFile(cfg, base, log, segs[i], i == |segs| - 1, m, from, high);
        var next := CatchEntries(cfg, ReadFile(cfg.crc, cfg.id, segs[i], i == |segs| - 1).value.entries, m, from, high);
        if next.Ok? {
          CatchExactly(cfg, base, log, segs, i + 1, next.value, from, high);
          assert ReadsTo(cfg, segs, i, high) <==> ReadsTo(cfg, segs, i + 1, high);
        }
      }
    }
  }

  lemma {:induction false} CatchOverGrows(segs: seq<SegFile>, i: nat, h: nat, high: nat)
    requires i <= |segs| && h <= high
    ensures CatchOver(segs, i, h, high) >= h
    decreases |segs| - i
  {
    if i < |segs| {
      CatchOverGrows(segs, i + 1, if segs[i].first > high then h else CatchAfter(h, segs[i], high), high);
    }
  }

  /** Where no file leaves a gap, the files hold all the catch-up applied. */
  lemma {:induction false} CatchesHolds(segs: seq<SegFile>, i: nat, h: nat, high: nat, s: nat)
    requires i <= |segs| && Catches(segs, i, h, high) && h < s <= CatchOver(segs, i, h, high)
    ensures InFiles(segs, s)
    decreases |segs| - i
  {
    if segs[i].first > high {
      CatchesHolds(segs, i + 1, h, high, s);
    } else if s <= CatchAfter(h, segs[i], high) {
      assert Holds(segs[i], s);
    } else {
      CatchesHolds(segs, i + 1, CatchAfter(h, segs[i], high), high, s);
    }
  }

  /** Every file before the `i`-th that is read is passed. */
  ghost predicate Passed(segs: seq<SegFile>, i: nat, h: nat, high: nat)
    requires i <= |segs|
  {
    forall j :: 0 <= j < i && segs[j].Whole? && segs[j].first <= high ==> EndOf(segs[j]) <= h || h == high
  }

  /** Where the files hold all from the rebuild point on, the catch-up leaves no
      gap and gets there. */
  lemma {:induction false} HeldCatches(segs: seq<SegFile>, i: nat, from: nat, h: nat, high: nat)
    requires Ascending(segs) && i <= |segs| && from <= h <= high
    requires HeldFrom(segs, from, high) && Passed(segs, i, h, high)
    ensures Catches(segs, i, h, high) && CatchOver(segs, i, h, high) == high
    decreases |segs| - i
  {
    hide HeldFrom, Ascending;
    if i == |segs| {
      NothingLeft(segs, from, h, high);
    } else if segs[i].first > high {
      HeldCatches(segs, i + 1, from, h, high);
    } else {
      if segs[i].Whole? {
        NoGapBefore(segs, i, from, h, high);
      }
      HeldCatches(segs, i + 1, from, CatchAfter(h, segs[i], high), high);
    }
  }

  lemma NothingLeft(segs: seq<SegFile>, from: nat, h: nat, high: nat)
    requires from <= h <= high && HeldFrom(segs, from, high) && Passed(segs, |segs|, h, high)
    ensures h == high
  {
    assert h < high ==> InFiles(segs, h + 1);
    NoneBeyond(segs, h, high);
  }

  lemma NoneBeyond(segs: seq<SegFile>, h: nat, high: nat)
    requires Passed(segs, |segs|, h, high)
    ensures forall s: nat :: h < s <= high ==> !InFiles(segs, s)
  {
  }

  lemma NoGapBefore(segs: seq<SegFile>, i: nat, from: nat, h: nat, high: nat)
    requires Ascending(segs) && i < |segs| && segs[i].Whole? && segs[i].first <= high
    requires from <= h <= high && HeldFrom(segs, from, high) && Passed(segs, i, h, high)
    ensures segs[i].first <= h + 1
  {
    if h < high {
      assert InFiles(segs, h + 1);
      var k :| 0 <= k < |segs| && Holds(segs[k], h + 1);
      assert k > i ==> segs[i].first < segs[k].first;
    }
  }

  // ----- finishing

  /** The segments still hold what the rebuilt state of a plan lacks, and those
      the catch-up reads read. */
  ghost predicate CanFinish(cfg: Config, d: Disk, s: Server, i: nat)
    requires i < |s.plans|
  {
    ReadsTo(cfg, d.segs, 0, s.mem.high) && HeldFrom(d.segs, s.plans[i].high, s.mem.high)
  }

  /** Exactly then the rebuilt state catches up with the served one. */
  lemma CatchesUpExactly(cfg: Config, base: Logical, log: seq<Entry>, d: Disk, s: Server, i: nat)
    requires SysOk(cfg, base, log, d, s) && i < |s.plans|
    ensures var r := CatchUp(cfg, d.segs, 0, s.plans[i], s.plans[i].high, s.mem.high);
            r.Ok? && r.value.high == s.mem.high <==> CanFinish(cfg, d, s, i)
  {
    hide LogOk, MemOk, SnapsOk, WriterOk, CatchUp, ReadsTo, FilesOk, HeldFrom, Ascending, Catches, CatchOver;
    var from, high := s.plans[i].high, s.mem.high;
    SegsOf(cfg, log, d);
    FilesInOrder(cfg, log, d);
    CatchExactly(cfg, base, log, d.segs, 0, s.plans[i], from, high);
    CatchOverGrows(d.segs, 0, from, high);
    if HeldFrom(d.segs, from, high) {
      HeldCatches(d.segs, 0, from, from, high);
    }
    if Catches(d.segs, 0, from, high) && CatchOver(d.segs, 0, from, high) == high {
      forall n: nat | from < n <= high
        ensures InFiles(d.segs, n)
      {
        CatchesHolds(d.segs, 0, from, high, n);
      }
      HeldEach(d.segs, from, high);
    }
  }

  // ----- what the catch-up makes of the rebuilt state

  lemma {:induction false} CatchEntriesReplays(cfg: Config, log: seq<Entry>, entries: seq<Entry>, first: nat, m: Mem,
                                               from: nat, high: nat)
    requires Numbered(log, 1) && SliceFrom(log, entries, first) && m.high <= |log|
    requires CatchEntries(cfg, entries, m, from, high).Ok?
    ensures Replayed(cfg, log, m, CatchEntries(cfg, entries, m, from, high).value)
    decreases |entries|
  {
    hide ApplyMem, Replayed, Finite;
    ReplayedNone(cfg, log, m);
    if entries != [] {
      SliceTail(log, entries, first);
      var e := entries[0];
      if e.seqNo <= from || e.seqNo > high {
        CatchEntriesReplays(cfg, log, entries[1..], first + 1, m, from, high);
      } else {
        var next := ApplyMem(m, cfg.norm, cfg.capacity, e);
        ReplayedOne(cfg, log, m);
        assert next.high <= |log| by { AppliedHigh(m, cfg, e); }
        CatchEntriesReplays(cfg, log, entries[1..], first + 1, next, from, high);
        ReplayedBoth(cfg, log, m, next, CatchEntries(cfg, entries[1..], next, from, high).value);
      }
    }
  }

  /** A catch-up that succeeds has replayed onto the rebuilt state the log from
      its mark on. */
  lemma {:induction false} CatchUpReplays(cfg: Config, log: seq<Entry>, segs: seq<SegFile>, i: nat, m: Mem, from: nat,
                                          high: nat)
    requires Numbered(log, 1) && SegsIn(cfg, log, segs) && i <= |segs| && m.high <= |log|
    requires CatchUp(cfg, segs, i, m, from, high).Ok?
    ensures Replayed(cfg, log, m, CatchUp(cfg, segs, i, m, from, high).value)
    decreases |segs| - i
  {
    hide Replayed, ReadFile, CatchEntries, SegIn;
    ReplayedNone(cfg, log, m);
    if i < |segs| {
      if segs[i].first > high {
        CatchUpReplays(cfg, log, segs, i + 1, m, from, high);
      } else {
        var entries := ReadFile(cfg.crc, cfg.id, segs[i], i == |segs| - 1).value.entries;
        ReadSlice(cfg, log, segs[i], i == |segs| - 1);
        CatchEntriesReplays(cfg, log, entries, if segs[i].Whole? then segs[i].first else 1, m, from, high);
        var next := CatchEntries(cfg, entries, m, from, high).value;
        assert next.high <= |log| by { ReplayedHigh(cfg, log, m, next); }
        CatchUpReplays(cfg, log, segs, i + 1, next, from, high);
        ReplayedBoth(cfg, log, m, next, CatchUp(cfg, segs, i + 1, next, from, high).value);
      }
    }
  }

  /** Finishing a compaction succeeds exactly when it meets no fault, every
      segment the catch-up reads reads, and the segments hold every entry after
      the rebuild point up to the served high-water mark. What is served from
      then on is the rebuilt state with exactly those entries replayed onto it,
      and the snapshot at that mark is of that state. */
  lemma FinishExactly(cfg: Config, base: Logical, log: seq<Entry>, d: Disk, s: Server, i: nat, fault: FinishFault)
    requires SysOk(cfg, base, log, d, s) && i < |s.plans|
    ensures var (d', s', r) := FinishCompaction(cfg, d, s, s.plans[i], fault);
            && (r.Ok? <==> fault.FinishDone? && CanFinish(cfg, d, s, i))
            && (r.Ok? ==> r.value == s'.mem.high == s'.snapHigh == s.mem.high && s.mem.high in d'.snaps
                          && d'.snaps[s.mem.high] == SnapFile(s'.mem, true) && d'.before == map[]
                          && s.plans[i].high <= s.mem.high <= |log|
                          && s'.mem == Replay(s.plans[i], cfg.norm, cfg.capacity, log[s.plans[i].high..s.mem.high]))
            && (!CanFinish(cfg, d, s, i) ==> d' == d && s' == s)
  {
    hide CanFinish, CatchUp, SysOk, Replay;
    CatchesUpExactly(cfg, base, log, d, s, i);
    if CatchUp(cfg, d.segs, 0, s.plans[i], s.plans[i].high, s.mem.high).Ok? {
      PlanReplays(cfg, base, log, d, s, i);
    }
  }

  lemma PlanReplays(cfg: Config, base: Logical, log: seq<Entry>, d: Disk, s: Server, i: nat)
    requires SysOk(cfg, base, log, d, s) && i < |s.plans|
    requires CatchUp(cfg, d.segs, 0, s.plans[i], s.plans[i].high, s.mem.high).Ok?
    ensures Replayed(cfg, log, s.plans[i], CatchUp(cfg, d.segs, 0, s.plans[i], s.plans[i].high, s.mem.high).value)
  {
    hide CatchUp, FilesOk, SnapsOk, WriterOk, NoRepeat, Replayed, RepOk, Abs;
    SegsOf(cfg, log, d);
    CatchUpReplays(cfg, log, d.segs, 0, s.plans[i], s.plans[i].high, s.mem.high);
  }

  lemma FilesInOrder(cfg: Config, log: seq<Entry>, d: Disk)
    requires FilesOk(cfg, log, d)
    ensures Ascending(d.segs)
  {
  }

  lemma HeldEach(segs: seq<SegFile>, h: nat, n: nat)
    requires forall s: nat :: h < s <= n ==> InFiles(segs, s)
    ensures HeldFrom(segs, h, n)
  {
  }
}
