/** What the partition directory knows of the log: the invariant that ties its
    files and snapshots to the history of the partition, and that a power loss
    keeps it. */
module Directory {
  import opened Words
  import opened WalCodec
  import opened WalSegment
  import opened LogFold
  import opened PartitionState
  import opened Disk
  import opened StoreOps
  import opened Recovery

  /** Index of the last file that has its header, or -1. */
  function LastWhole(segs: seq<SegFile>): (r: int)
    ensures -1 <= r < |segs|
    ensures r >= 0 ==> segs[r].Whole?
    ensures forall i :: r < i < |segs| ==> !segs[i].Whole?
  {
    if segs == [] then -1
    else if segs[|segs| - 1].Whole? then |segs| - 1
    else LastWhole(segs[..|segs| - 1])
  }

  /** Sequence the segments reach. */
  function End(segs: seq<SegFile>): int {
    if LastWhole(segs) >= 0 then EndOf(segs[LastWhole(segs)])
    else if segs == [] then 0
    else EndOf(segs[|segs| - 1])
  }

  /** The segments end where the log does. */
  ghost predicate Reaches(log: seq<Entry>, segs: seq<SegFile>) {
    LastWhole(segs) >= 0 && EndOf(segs[LastWhole(segs)]) == |log|
  }

  /** Files with entries follow one another in sequence order. */
  ghost predicate Apart(files: seq<SegFile>) {
    forall i, j :: 0 <= i < j < |files| && files[i].Whole? && files[j].Whole? ==> EndOf(files[i]) < files[j].first
  }

  /** A snapshot file that verifies holds the state its name says. */
  ghost predicate SnapOk(cfg: Config, base: Logical, log: seq<Entry>, h: nat, f: SnapFile) {
    f.good ==> f.mem.high == h && MemOk(cfg, base, log, f.mem)
  }

  ghost predicate SnapsOk(cfg: Config, base: Logical, log: seq<Entry>, d: Disk) {
    && (forall h :: h in d.snaps ==> SnapOk(cfg, base, log, h, d.snaps[h]))
    && (forall h :: h in d.before && d.before[h].Some? ==> SnapOk(cfg, base, log, h, d.before[h].value))
  }

  /** Every segment, and every removed one that may come back, is a slice of
      the log; removed ones with entries lie before a segment that remains; and
      while some rename is not durable nothing is missing at the log's end. */
  ghost predicate FilesOk(cfg: Config, log: seq<Entry>, d: Disk) {
    && Ascending(d.segs) && Apart(d.limbo + d.segs) && SegsIn(cfg, log, d.limbo + d.segs)
    && (LastWhole(d.segs) < 0 ==> forall i :: 0 <= i < |d.limbo| ==> d.limbo[i].Headless?)
    && (d.before != map[] ==> Reaches(log, d.segs))
  }

  /** The invariant of the directory. */
  ghost predicate DiskInv(cfg: Config, base: Logical, log: seq<Entry>, d: Disk) {
    FilesOk(cfg, log, d) && SnapsOk(cfg, base, log, d)
  }

  // ----- the log may grow or lose its end

  lemma MemOkSame(cfg: Config, base: Logical, log: seq<Entry>, other: seq<Entry>, m: Mem)
    requires MemOk(cfg, base, log, m) && log <= other
    ensures MemOk(cfg, base, other, m)
  {
    assert other[..m.high] == log[..m.high];
  }

  lemma MemOkPrefix(cfg: Config, base: Logical, log: seq<Entry>, n: nat, m: Mem)
    requires MemOk(cfg, base, log, m) && m.high <= n <= |log|
    ensures MemOk(cfg, base, log[..n], m)
  {
    assert log[..n][..m.high] == log[..m.high];
  }

  lemma LogOkPrefix(cfg: Config, log: seq<Entry>, n: nat)
    requires LogOk(cfg, log) && n <= |log|
    ensures LogOk(cfg, log[..n])
  {
    NoRepeatPrefix(log, n, cfg.capacity);
  }

  lemma SegInGrow(cfg: Config, log: seq<Entry>, e: Entry, f: SegFile)
    requires SegIn(cfg, log, f)
    ensures SegIn(cfg, log + [e], f)
  {
    if f.Whole? {
      var at := f.first - 1;
      assert (log + [e])[at..at + |f.entries|] == log[at..at + |f.entries|];
    }
  }

  lemma SegInCut(cfg: Config, log: seq<Entry>, n: nat, f: SegFile)
    requires SegIn(cfg, log, f) && n <= |log| && (f.Whole? ==> EndOf(f) <= n)
    ensures SegIn(cfg, log[..n], f)
  {
    if f.Whole? {
      var at := f.first - 1;
      assert log[..n][at..at + |f.entries|] == log[at..at + |f.entries|];
    }
  }

  /** The log may lose an end no file and no snapshot reaches. */
  lemma DiskCut(cfg: Config, base: Logical, log: seq<Entry>, n: nat, d: Disk)
    requires DiskInv(cfg, base, log, d) && n <= |log|
    requires forall i :: 0 <= i < |d.limbo + d.segs| ==>
               (d.limbo + d.segs)[i].Whole?
               ==> EndOf((d.limbo + d.segs)[i]) <= n
    requires forall h :: h in d.snaps && d.snaps[h].good ==> h <= n
    requires d.before != map[] ==> n == |log|
    ensures DiskInv(cfg, base, log[..n], d)
  {
    hide SegIn, MemOk, Apart, Ascending, LastWhole;
    if n == |log| {
      assert log[..n] == log;
    } else {
      forall i | 0 <= i < |d.limbo + d.segs|
        ensures SegIn(cfg, log[..n], (d.limbo + d.segs)[i])
      {
        SegInCut(cfg, log, n, (d.limbo + d.segs)[i]);
      }
      forall h | h in d.snaps
        ensures SnapOk(cfg, base, log[..n], h, d.snaps[h])
      {
        if d.snaps[h].good {
          assert SnapOk(cfg, base, log, h, d.snaps[h]);
          MemOkPrefix(cfg, base, log, n, d.snaps[h].mem);
        }
      }
    }
  }

  /** And it may gain one back. */
  lemma DiskUncut(cfg: Config, base: Logical, log: seq<Entry>, n: nat, d: Disk)
    requires n <= |log| && DiskInv(cfg, base, log[..n], d) && (d.before != map[] ==> n == |log|)
    ensures DiskInv(cfg, base, log, d)
  {
    hide SegIn, MemOk, Apart, Ascending, LastWhole;
    if n == |log| {
      assert log[..n] == log;
    } else {
      forall i | 0 <= i < |d.limbo + d.segs|
        ensures SegIn(cfg, log, (d.limbo + d.segs)[i])
      {
        SegInUncut(cfg, log, n, (d.limbo + d.segs)[i]);
      }
      forall h | h in d.snaps
        ensures SnapOk(cfg, base, log, h, d.snaps[h])
      {
        if d.snaps[h].good {
          assert SnapOk(cfg, base, log[..n], h, d.snaps[h]);
          MemOkSame(cfg, base, log[..n], log, d.snaps[h].mem);
        }
      }
    }
  }

  lemma SegInUncut(cfg: Config, log: seq<Entry>, n: nat, f: SegFile)
    requires n <= |log| && SegIn(cfg, log[..n], f)
    ensures SegIn(cfg, log, f)
  {
    if f.Whole? {
      var at := f.first - 1;
      assert log[..n][at..at + |f.entries|] == log[at..at + |f.entries|];
    }
  }

  // ----- where the files end

  lemma EndIs(segs: seq<SegFile>, k: nat)
    requires k < |segs| && segs[k].Whole? && forall i :: k < i < |segs| ==> !segs[i].Whole?
    ensures LastWhole(segs) == k && End(segs) == EndOf(segs[k])
  {
  }

  /** The segments' reach is at least where any of them ends. */
  lemma EndReaches(segs: seq<SegFile>, i: nat)
    requires Apart(segs) && i < |segs| && segs[i].Whole?
    ensures EndOf(segs[i]) <= End(segs)
  {
    assert LastWhole(segs) >= i;
  }

  lemma EndAppend(segs: seq<SegFile>, f: SegFile)
    ensures f.Whole? ==> LastWhole(segs + [f]) == |segs| && End(segs + [f]) == EndOf(f)
    ensures f.Headless? && LastWhole(segs) >= 0 ==>
      LastWhole(segs + [f]) == LastWhole(segs) && End(segs + [f]) == End(segs)
  {
    if f.Headless? && LastWhole(segs) >= 0 {
      EndIs(segs + [f], LastWhole(segs));
    }
  }

  lemma ApartRight(a: seq<SegFile>, b: seq<SegFile>)
    requires Apart(a + b)
    ensures Apart(b)
  {
    forall i, j | 0 <= i < j < |b| && b[i].Whole? && b[j].Whole?
      ensures EndOf(b[i]) < b[j].first
    {
      assert (a + b)[|a| + i] == b[i] && (a + b)[|a| + j] == b[j];
    }
  }

  /** The segments of a directory by themselves. */
  lemma SegsOf(cfg: Config, log: seq<Entry>, d: Disk)
    requires FilesOk(cfg, log, d)
    ensures Apart(d.segs) && SegsIn(cfg, log, d.segs)
  {
    hide SegIn;
    ApartRight(d.limbo, d.segs);
    forall i | 0 <= i < |d.segs|
      ensures SegIn(cfg, log, d.segs[i])
    {
      assert SegIn(cfg, log, (d.limbo + d.segs)[|d.limbo| + i]);
    }
  }

  // ----- power loss

  /** What one file keeps is still a slice of the log. */
  lemma KeptSlice(cfg: Config, log: seq<Entry>, f: SegFile, g: SegFile)
    requires SegIn(cfg, log, f) && MayLeave(cfg.crc, f, g)
    ensures SegIn(cfg, log, g) && g.first == f.first && (g.Whole? ==> f.Whole? && EndOf(g) <= EndOf(f))
  {
    if g.Whole? {
      assert g.entries == f.entries[..|g.entries|];
    }
  }

  /** The file of the old directory a surviving file comes from. */
  lemma Origin(crc: Checksum, d: Disk, d': Disk, j: nat) returns (i: nat)
    requires PowerLoss(crc, d, d') && j < |d'.segs|
    ensures i < |d.limbo + d.segs| && MayLeave(crc, (d.limbo + d.segs)[i], d'.segs[j])
  {
    assert d'.segs[j] in d'.segs;
    var f :| (f in d.segs || f in d.limbo) && MayLeave(crc, f, d'.segs[j]);
    assert f in d.limbo + d.segs;
    i :| 0 <= i < |d.limbo + d.segs| && (d.limbo + d.segs)[i] == f;
  }

  lemma IndexOrder(files: seq<SegFile>, a: nat, b: nat)
    requires Apart(files) && a < |files| && b < |files| && files[a].Whole? && files[b].Whole?
    requires files[a].first < files[b].first
    ensures a < b && EndOf(files[a]) < files[b].first
  {
  }

  lemma SurvivorsApart(cfg: Config, log: seq<Entry>, d: Disk, d': Disk)
    requires Apart(d.limbo + d.segs) && SegsIn(cfg, log, d.limbo + d.segs) && PowerLoss(cfg.crc, d, d')
    ensures Apart(d'.segs) && SegsIn(cfg, log, d'.segs)
  {
    hide MayLeave, SegIn, EndOf;
    var files := d.limbo + d.segs;
    forall i | 0 <= i < |d'.segs|
      ensures SegIn(cfg, log, d'.segs[i])
    {
      var a := Origin(cfg.crc, d, d', i);
      KeptSlice(cfg, log, files[a], d'.segs[i]);
    }
    forall i, j | 0 <= i < j < |d'.segs| && d'.segs[i].Whole? && d'.segs[j].Whole?
      ensures EndOf(d'.segs[i]) < d'.segs[j].first
    {
      var a := Origin(cfg.crc, d, d', i);
      var b := Origin(cfg.crc, d, d', j);
      KeptSlice(cfg, log, files[a], d'.segs[i]);
      KeptSlice(cfg, log, files[b], d'.segs[j]);
      IndexOrder(files, a, b);
    }
  }

  /** After a power loss what is left is still of the same log. */
  lemma AfterLoss(cfg: Config, base: Logical, log: seq<Entry>, d: Disk, d': Disk)
    requires DiskInv(cfg, base, log, d) && PowerLoss(cfg.crc, d, d')
    ensures DiskInv(cfg, base, log, d')
  {
    hide MemOk, MayLeave, Apart, SegIn;
    SurvivorsApart(cfg, log, d, d');
    assert d'.limbo + d'.segs == d'.segs;
    forall h | h in d'.snaps
      ensures SnapOk(cfg, base, log, h, d'.snaps[h])
    {
      if !(h in d.snaps && d'.snaps[h] == d.snaps[h]) {
        assert h in d.before && d.before[h] == Some(d'.snaps[h]);
      }
    }
  }
}
