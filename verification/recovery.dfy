/** Replaying the log: whatever the directory holds, a replay that succeeds
    has applied a contiguous run of the true log. */
module Recovery {
  import opened Words
  import opened WalCodec
  import opened WalSegment
  import opened LogFold
  import opened PartitionState
  import opened Compaction
  import opened Disk
  import opened StoreOps

  /** The true log: numbered from 1, applicable, operation ids kept apart. */
  ghost predicate LogOk(cfg: Config, log: seq<Entry>) {
    && Numbered(log, 1)
    && (forall i :: 0 <= i < |log| ==> Applicable(cfg, log[i]))
    && NoRepeat(log, cfg.capacity)
  }

  /** What the partition holds before its first entry. */
  ghost predicate BaseOk(cfg: Config, base: Logical) {
    base.high == 0 && base.window == [] && DistinctKeys(base.rows) && (!cfg.baseSnapshot ==> base == EMPTY)
  }

  ghost function FoldTo(cfg: Config, base: Logical, log: seq<Entry>, n: nat): Logical
    requires n <= |log|
  {
    Fold(base, cfg.norm, cfg.capacity, log[..n])
  }

  /** A state that means the fold of the log up to its high-water mark. */
  ghost predicate MemOk(cfg: Config, base: Logical, log: seq<Entry>, m: Mem) {
    && RepOk(m) && WindowOk(m.window, cfg.capacity)
    && m.high <= |log| && Abs(m) == FoldTo(cfg, base, log, m.high)
  }

  lemma EmptyMemOk(cfg: Config, base: Logical, log: seq<Entry>)
    requires base == EMPTY
    ensures MemOk(cfg, base, log, EMPTY_MEM)
  {
    EmptyOk();
    assert log[..0] == [];
  }

  /** A file of the partition holds a slice of the log. */
  ghost predicate SegIn(cfg: Config, log: seq<Entry>, f: SegFile) {
    && FileOk(cfg.crc, f)
    && (f.Whole? ==> EndOf(f) <= |log| && f.entries == log[f.first - 1..f.first - 1 + |f.entries|])
  }

  lemma ApplyNext(cfg: Config, base: Logical, log: seq<Entry>, m: Mem, e: Entry)
    requires MemOk(cfg, base, log, m) && m.high < |log| && e == log[m.high] && Numbered(log, 1)
    ensures var next := ApplyMem(m, cfg.norm, cfg.capacity, e);
            MemOk(cfg, base, log, next) && next.high == m.high + 1
  {
    hide RepOk, Abs, Fold, Apply, Retire, Append, Recorded;
    ApplyRefines(m, cfg.norm, cfg.capacity, e);
    RecordedOk(m.window, cfg.capacity, e.opId, e.seqNo);
    assert log[..m.high + 1] == log[..m.high] + [e];
    FoldOne(base, cfg.norm, cfg.capacity, log[..m.high], e);
  }

  /** Entries that are a slice of the log from sequence `first` on. */
  ghost predicate SliceFrom(log: seq<Entry>, entries: seq<Entry>, first: nat) {
    1 <= first && first - 1 + |entries| <= |log| && entries == log[first - 1..first - 1 + |entries|]
  }

  lemma SliceTail(log: seq<Entry>, entries: seq<Entry>, first: nat)
    requires SliceFrom(log, entries, first) && entries != [] && Numbered(log, 1)
    ensures entries[0] == log[first - 1] && entries[0].seqNo == first && SliceFrom(log, entries[1..], first + 1)
  {
    assert log[first - 1].seqNo == 1 + (first - 1);
  }

  ghost function Max(a: int, b: int): int { if a >= b then a else b }

  lemma {:induction false} ReplayEntriesSound(cfg: Config, base: Logical, log: seq<Entry>, entries: seq<Entry>,
                                              first: nat, m: Mem)
    requires LogOk(cfg, log) && MemOk(cfg, base, log, m) && SliceFrom(log, entries, first)
    ensures var r := ReplayEntries(cfg, entries, m);
            && (r.Ok? ==> MemOk(cfg, base, log, r.value))
            && (r.Ok? ==> r.value.high == if entries == [] then m.high else Max(m.high, first - 1 + |entries|))
            && (first <= m.high + 1 ==> r.Ok?)
    decreases |entries|
  {
    hide MemOk, ApplyMem;
    if entries != [] {
      SliceTail(log, entries, first);
      var e := entries[0];
      if e.seqNo <= m.high {
        ReplayEntriesSound(cfg, base, log, entries[1..], first + 1, m);
      } else if e.seqNo == m.high + 1 {
        assert Applicable(cfg, log[first - 1]);
        ApplyNext(cfg, base, log, m, e);
        ReplayEntriesSound(cfg, base, log, entries[1..], first + 1, ApplyMem(m, cfg.norm, cfg.capacity, e));
      }
    }
  }

  /** Catch-up applies only entries up to the served high-water mark. */
  lemma {:induction false} CatchEntriesSound(cfg: Config, base: Logical, log: seq<Entry>, entries: seq<Entry>,
                                             first: nat, m: Mem, from: nat, high: nat)
    requires LogOk(cfg, log) && MemOk(cfg, base, log, m) && SliceFrom(log, entries, first)
    ensures var r := CatchEntries(cfg, entries, m, from, high);
            r.Ok? ==> MemOk(cfg, base, log, r.value) && m.high <= r.value.high
    ensures from <= m.high <= high && (m.high == from || first - 1 == m.high) && first <= m.high + 1 ==>
            var r := CatchEntries(cfg, entries, m, from, high);
            r.Ok? && r.value.high == Max(m.high, if first - 1 + |entries| <= high then first - 1 + |entries| else high)
    decreases |entries|
  {
    hide MemOk, ApplyMem;
    if entries != [] {
      SliceTail(log, entries, first);
      var e := entries[0];
      if e.seqNo <= from || e.seqNo > high {
        CatchEntriesSound(cfg, base, log, entries[1..], first + 1, m, from, high);
        if e.seqNo > high {
          CatchNothing(cfg, log, entries, first, m, from, high);
        }
      } else if e.seqNo == m.high + 1 {
        assert Applicable(cfg, log[first - 1]);
        ApplyNext(cfg, base, log, m, e);
        CatchEntriesSound(cfg, base, log, entries[1..], first + 1, ApplyMem(m, cfg.norm, cfg.capacity, e), from, high);
      }
    }
  }

  lemma {:induction false} CatchNothing(cfg: Config, log: seq<Entry>, entries: seq<Entry>, first: nat, m: Mem,
                                        from: nat, high: nat)
    requires Numbered(log, 1) && SliceFrom(log, entries, first) && first > high
    ensures CatchEntries(cfg, entries, m, from, high) == Ok(m)
    decreases |entries|
  {
    if entries != [] {
      SliceTail(log, entries, first);
      CatchNothing(cfg, log, entries[1..], first + 1, m, from, high);
    }
  }

  lemma SegSlice(cfg: Config, log: seq<Entry>, f: SegFile, active: bool)
    requires SegIn(cfg, log, f)
    ensures var r := ReadFile(cfg.crc, cfg.id, f, active);
            r.Ok? ==> r.value.entries == EntriesOf(f)
                      && (f.Whole? ==> SliceFrom(log, r.value.entries, f.first))
                      && SegmentEnd(r.value, f) == EndOf(f)
  {
    hide ReadFile;
    ReadFileResult(cfg.crc, cfg.id, f, active);
    if f.Whole? && f.entries != [] {
      assert f.entries[|f.entries| - 1].seqNo == f.first + (|f.entries| - 1);
    }
  }

  ghost predicate SegsIn(cfg: Config, log: seq<Entry>, segs: seq<SegFile>) {
    forall i :: 0 <= i < |segs| ==> SegIn(cfg, log, segs[i])
  }

  /** A replay of segments that succeeds has applied a run of the log. */
  lemma {:induction false} ReplaySegsSound(cfg: Config, base: Logical, log: seq<Entry>, segs: seq<SegFile>, i: nat,
                                           st: Replaying)
    requires LogOk(cfg, log) && MemOk(cfg, base, log, st.mem) && SegsIn(cfg, log, segs) && i <= |segs|
    ensures var r := ReplaySegs(cfg, segs, i, st);
            r.Ok? ==> MemOk(cfg, base, log, r.value.mem) && st.mem.high <= r.value.mem.high
    decreases |segs| - i
  {
    hide MemOk, ReadFile, ReplayEntries, SegmentEnd;
    if i < |segs| {
      SegSlice(cfg, log, segs[i], i == |segs| - 1);
      var read := ReadFile(cfg.crc, cfg.id, segs[i], i == |segs| - 1);
      if read.Ok? {
        if segs[i].Whole? {
          ReplayEntriesSound(cfg, base, log, read.value.entries, segs[i].first, st.mem);
        } else {
          assert ReplayEntries(cfg, [], st.mem) == Ok(st.mem) by { ReplayNone(cfg, st.mem); }
        }
        var m := ReplayEntries(cfg, read.value.entries, st.mem);
        if m.Ok? {
          var end := SegmentEnd(read.value, segs[i]);
          ReplaySegsSound(cfg, base, log, segs, i + 1,
            Replaying(m.value, st.saw || segs[i].first <= st.mem.high + 1,
                      Some(if st.end.Some? && st.end.value > end then st.end.value else end)));
        }
      }
    }
  }

  lemma ReplayNone(cfg: Config, m: Mem)
    ensures ReplayEntries(cfg, [], m) == Ok(m)
  {
  }

  lemma CatchNone(cfg: Config, m: Mem, from: nat, high: nat)
    ensures CatchEntries(cfg, [], m, from, high) == Ok(m)
  {
  }

  lemma {:induction false} CatchUpSound(cfg: Config, base: Logical, log: seq<Entry>, segs: seq<SegFile>, i: nat, m: Mem,
                                        from: nat, high: nat)
    requires LogOk(cfg, log) && MemOk(cfg, base, log, m) && SegsIn(cfg, log, segs) && i <= |segs|
    ensures var r := CatchUp(cfg, segs, i, m, from, high);
            r.Ok? ==> MemOk(cfg, base, log, r.value)
    decreases |segs| - i
  {
    hide MemOk, ReadFile, CatchEntries;
    if i < |segs| {
      if segs[i].first > high {
        CatchUpSound(cfg, base, log, segs, i + 1, m, from, high);
      } else {
        SegSlice(cfg, log, segs[i], i == |segs| - 1);
        var read := ReadFile(cfg.crc, cfg.id, segs[i], i == |segs| - 1);
        if read.Ok? {
          if segs[i].Whole? {
            CatchEntriesSound(cfg, base, log, read.value.entries, segs[i].first, m, from, high);
          } else {
            CatchNone(cfg, m, from, high);
          }
          var next := CatchEntries(cfg, read.value.entries, m, from, high);
          if next.Ok? {
            CatchUpSound(cfg, base, log, segs, i + 1, next.value, from, high);
          }
        }
      }
    }
  }

  /** Loading a snapshot gives back the state it was written from. */
  lemma LoadedSame(cfg: Config, base: Logical, log: seq<Entry>, f: SnapFile)
    requires MemOk(cfg, base, log, f.mem)
    ensures Loaded(cfg, f) == f.mem
  {
    RecordAllRebuilds(cfg.capacity, f.mem.window);
  }

  // ----- the state a replay arrives at

  lemma AppliedHigh(m: Mem, cfg: Config, e: Entry)
    ensures ApplyMem(m, cfg.norm, cfg.capacity, e).high == e.seqNo
  {
    hide Recorded, Retire, Append;
  }

  /** `r` is the state `m` after the entries of the log up to its mark. */
  ghost predicate Replayed(cfg: Config, log: seq<Entry>, m: Mem, r: Mem) {
    m.high <= r.high <= |log| && r == Replay(m, cfg.norm, cfg.capacity, log[m.high..r.high])
  }

  lemma ReplayedNone(cfg: Config, log: seq<Entry>, m: Mem)
    requires m.high <= |log|
    ensures Replayed(cfg, log, m, m)
  {
    assert log[m.high..m.high] == [];
  }

  lemma ReplayedOne(cfg: Config, log: seq<Entry>, m: Mem)
    requires m.high < |log| && Numbered(log, 1)
    ensures Replayed(cfg, log, m, ApplyMem(m, cfg.norm, cfg.capacity, log[m.high]))
  {
    hide ApplyMem;
    AppliedHigh(m, cfg, log[m.high]);
    assert log[m.high..m.high + 1] == [log[m.high]];
    assert Replay(m, cfg.norm, cfg.capacity, [log[m.high]][..0]) == m;
  }

  lemma ReplayedBoth(cfg: Config, log: seq<Entry>, m: Mem, mid: Mem, r: Mem)
    requires Replayed(cfg, log, m, mid) && Replayed(cfg, log, mid, r)
    ensures Replayed(cfg, log, m, r)
  {
    hide ApplyMem, Replay;
    ReplayConcat(m, cfg.norm, cfg.capacity, log[m.high..mid.high], log[mid.high..r.high]);
    assert log[m.high..r.high] == log[m.high..mid.high] + log[mid.high..r.high];
  }

  lemma ReplayedHigh(cfg: Config, log: seq<Entry>, m: Mem, r: Mem)
    requires Replayed(cfg, log, m, r)
    ensures m.high <= r.high <= |log|
  {
  }

  lemma ReadSlice(cfg: Config, log: seq<Entry>, f: SegFile, active: bool)
    requires SegIn(cfg, log, f) && ReadFile(cfg.crc, cfg.id, f, active).Ok?
    ensures SliceFrom(log, ReadFile(cfg.crc, cfg.id, f, active).value.entries, if f.Whole? then f.first else 1)
  {
    hide ReadFile, FileOk;
    SegSlice(cfg, log, f, active);
  }

  lemma {:induction false} ReplayEntriesReplays(cfg: Config, log: seq<Entry>, entries: seq<Entry>, first: nat, m: Mem)
    requires Numbered(log, 1) && SliceFrom(log, entries, first) && m.high <= |log|
    requires ReplayEntries(cfg, entries, m).Ok?
    ensures Replayed(cfg, log, m, ReplayEntries(cfg, entries, m).value)
    decreases |entries|
  {
    hide ApplyMem, Replayed, Finite;
    ReplayedNone(cfg, log, m);
    if entries != [] {
      SliceTail(log, entries, first);
      var e := entries[0];
      if e.seqNo <= m.high {
        ReplayEntriesReplays(cfg, log, entries[1..], first + 1, m);
      } else {
        var next := ApplyMem(m, cfg.norm, cfg.capacity, e);
        ReplayedOne(cfg, log, m);
        AppliedHigh(m, cfg, e);
        ReplayEntriesReplays(cfg, log, entries[1..], first + 1, next);
        ReplayedBoth(cfg, log, m, next, ReplayEntries(cfg, entries[1..], next).value);
      }
    }
  }

  /** A replay of segments that succeeds arrives at the starting state with the
      log from its mark on applied, entry by entry. */
  lemma {:induction false} ReplaySegsReplays(cfg: Config, log: seq<Entry>, segs: seq<SegFile>, i: nat, st: Replaying)
    requires Numbered(log, 1) && SegsIn(cfg, log, segs) && i <= |segs| && st.mem.high <= |log|
    requires ReplaySegs(cfg, segs, i, st).Ok?
    ensures Replayed(cfg, log, st.mem, ReplaySegs(cfg, segs, i, st).value.mem)
    decreases |segs| - i
  {
    hide Replayed, ReadFile, ReplayEntries, SegIn, SegmentEnd;
    ReplayedNone(cfg, log, st.mem);
    if i < |segs| {
      var read := ReadFile(cfg.crc, cfg.id, segs[i], i == |segs| - 1).value;
      ReadSlice(cfg, log, segs[i], i == |segs| - 1);
      ReplayEntriesReplays(cfg, log, read.entries, if segs[i].Whole? then segs[i].first else 1, st.mem);
      var next, end := ReplayEntries(cfg, read.entries, st.mem).value, SegmentEnd(read, segs[i]);
      ReplayedHigh(cfg, log, st.mem, next);
      var after := Replaying(next, st.saw || segs[i].first <= st.mem.high + 1,
                             Some(if st.end.Some? && st.end.value > end then st.end.value else end));
      ReplaySegsReplays(cfg, log, segs, i + 1, after);
      ReplayedBoth(cfg, log, st.mem, next, ReplaySegs(cfg, segs, i + 1, after).value.mem);
    }
  }
}
