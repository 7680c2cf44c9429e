/** Archiving a partition's directory and restoring it (index_archive.rs): the
    rows an archive records of a directory, through the choice of rows to
    restore, to the state recovery finds; and what removing archived segments
    leaves. */
module Restoring {
  import opened Words
  import opened WalCodec
  import opened WalSegment
  import opened LogFold
  import opened PartitionState
  import opened Disk
  import opened StoreOps
  import opened Recovery
  import opened Directory
  import opened Serving
  import opened Upkeep
  import opened Opening
  import opened Durability
  import opened Reopening
  import A = Archive

  // ----- the rows an archive records of a directory

  predicate NamesSnapshot(rows: seq<A.Row>, h: nat) {
    exists i :: 0 <= i < |rows| && rows[i].part == Some(A.Part.Snapshot) && A.FirstOf(rows[i]) == h
  }

  /** The rows of the segments, in their order. */
  predicate InDirectoryOrder(segRows: seq<A.Row>, segs: seq<SegFile>) {
    |segRows| == |segs| && forall i :: 0 <= i < |segs| ==> A.FirstOf(segRows[i]) == segs[i].first
  }

  /** Of the snapshots only the newest that verifies is recorded, besides older
      ones that earlier archives recorded. */
  ghost predicate SnapshotsRecorded(rows: seq<A.Row>, d: Disk) {
    var newest := NewestGood(d.snaps);
    && (newest.Some? ==> NamesSnapshot(rows, newest.value))
    && forall h: nat :: NamesSnapshot(rows, h) ==> newest.Some? && h <= newest.value
  }

  /** Every segment is recorded, behind `old`, those removed since an earlier
      archive recorded them. */
  ghost predicate SegmentsRecorded(rows: seq<A.Row>, d: Disk, old_: seq<A.Row>, segRows: seq<A.Row>) {
    && multiset(A.Segments(rows)) == multiset(old_ + segRows) && Distinct(old_ + segRows)
    && InDirectoryOrder(segRows, d.segs) && (old_ != [] ==> d.segs != [])
  }

  /** The rows recorded for a partition once its directory has been archived. */
  ghost predicate Archived(rows: seq<A.Row>, d: Disk) {
    && (forall i :: 0 <= i < |rows| ==> A.RowOk(rows[i])) && SnapshotsRecorded(rows, d)
    && exists old_, segRows :: SegmentsRecorded(rows, d, old_, segRows)
  }

  ghost predicate Distinct(rows: seq<A.Row>) {
    forall i, j :: 0 <= i < j < |rows| ==> A.FirstOf(rows[i]) < A.FirstOf(rows[j])
  }

  /** Rows in ascending order with distinct numbers are sorted in one way. */
  lemma {:induction false} SortedUnique(a: seq<A.Row>, b: seq<A.Row>)
    requires A.InOrder(a) && Distinct(b) && multiset(a) == multiset(b)
    ensures a == b
    decreases |b|
  {
    hide A.InOrder, Distinct;
    SameSize(a, b);
    if b != [] {
      var n := |b| - 1;
      LastAgrees(a, b);
      InitOrder(a, b);
      InitRows(a, b);
      SortedUnique(a[..n], b[..n]);
      assert a == a[..n] + [a[n]] && b == b[..n] + [b[n]];
    }
  }

  lemma InitRows(a: seq<A.Row>, b: seq<A.Row>)
    requires |a| == |b| > 0 && a[|a| - 1] == b[|b| - 1] && multiset(a) == multiset(b)
    ensures multiset(a[..|a| - 1]) == multiset(b[..|b| - 1])
  {
    LastRow(a);
    LastRow(b);
    WithoutOne(multiset(a[..|a| - 1]), a[|a| - 1]);
    WithoutOne(multiset(b[..|b| - 1]), b[|b| - 1]);
  }

  lemma LastRow(a: seq<A.Row>)
    requires a != []
    ensures multiset(a) == multiset(a[..|a| - 1]) + multiset{a[|a| - 1]}
  {
    assert a == a[..|a| - 1] + [a[|a| - 1]];
  }

  lemma WithoutOne(s: multiset<A.Row>, x: A.Row)
    ensures (s + multiset{x}) - multiset{x} == s
  {
  }

  lemma InitOrder(a: seq<A.Row>, b: seq<A.Row>)
    requires |a| == |b| > 0 && A.InOrder(a) && Distinct(b)
    ensures A.InOrder(a[..|a| - 1]) && Distinct(b[..|b| - 1])
  {
  }

  lemma SameSize(a: seq<A.Row>, b: seq<A.Row>)
    requires multiset(a) == multiset(b)
    ensures |a| == |b|
  {
    assert |multiset(a)| == |a| && |multiset(b)| == |b|;
  }

  lemma LastAgrees(a: seq<A.Row>, b: seq<A.Row>)
    requires |a| == |b| > 0 && A.InOrder(a) && Distinct(b) && multiset(a) == multiset(b)
    ensures a[|a| - 1] == b[|b| - 1]
  {
    var n := |b| - 1;
    assert b[n] in multiset(b) && a[n] in multiset(a);
    var i :| 0 <= i < |a| && a[i] == b[n];
    var j :| 0 <= j < |b| && b[j] == a[n];
    assert i < n ==> A.FirstOf(a[i]) <= A.FirstOf(a[n]);
    assert j < n ==> A.FirstOf(b[j]) < A.FirstOf(b[n]);
  }

  // ----- the restored directory

  function FileNamed(segs: seq<SegFile>, first: nat): seq<SegFile> {
    if segs == [] then []
    else if segs[0].first == first then [Link(segs[0])]
    else FileNamed(segs[1..], first)
  }

  /** The segment files a list of restored parts names, in its order. */
  function FilesNamed(segs: seq<SegFile>, parts: seq<(A.Part, A.Row)>): seq<SegFile> {
    if parts == [] then []
    else (if parts[0].0.WalSegment? then FileNamed(segs, A.FirstOf(parts[0].1)) else []) + FilesNamed(segs, parts[1..])
  }

  predicate RestoresSnapshot(parts: seq<(A.Part, A.Row)>, h: nat) {
    exists i :: 0 <= i < |parts| && parts[i].0 == A.Part.Snapshot && A.FirstOf(parts[i].1) == h
  }

  /** The directory written from the restored parts, its names durable. */
  function Restored(d: Disk, parts: seq<(A.Part, A.Row)>): Disk {
    Disk(FilesNamed(d.segs, parts), [], map h | h in d.snaps && RestoresSnapshot(parts, h) :: d.snaps[h], map[])
  }

  lemma {:induction false} FileAt(segs: seq<SegFile>, i: nat)
    requires Ascending(segs) && i < |segs|
    ensures FileNamed(segs, segs[i].first) == [Link(segs[i])]
  {
    if i > 0 {
      assert segs[0].first < segs[i].first;
      assert segs[1..][i - 1] == segs[i];
      FileAt(segs[1..], i - 1);
    }
  }

  lemma {:induction false} FilesSplit(segs: seq<SegFile>, a: seq<(A.Part, A.Row)>, b: seq<(A.Part, A.Row)>)
    ensures FilesNamed(segs, a + b) == FilesNamed(segs, a) + FilesNamed(segs, b)
  {
    if a == [] {
      assert a + b == b;
    } else {
      assert (a + b)[0] == a[0] && (a + b)[1..] == a[1..] + b;
      FilesSplit(segs, a[1..], b);
    }
  }

  lemma {:induction false} SuffixFiles(segs: seq<SegFile>, segRows: seq<A.Row>, k: nat)
    requires Ascending(segs) && InDirectoryOrder(segRows, segs) && k <= |segs|
    ensures FilesNamed(segs, A.AsSegments(segRows[k..])) == LinkAll(segs[k..])
    decreases |segs| - k
  {
    var parts := A.AsSegments(segRows[k..]);
    if k < |segs| {
      SuffixFiles(segs, segRows, k + 1);
      assert parts[0] == (A.WalSegment, segRows[k]) && parts[1..] == A.AsSegments(segRows[k + 1..]);
      FileAt(segs, k);
      assert LinkAll(segs[k..]) == [Link(segs[k])] + LinkAll(segs[k + 1..]);
    }
  }

  /** Some first segments dropped, which a verifying snapshot covers but for
      what the next file's name hides. */
  ghost predicate Drops(d: Disk, r: Disk, k: nat) {
    && k <= |d.segs| && (d.segs != [] ==> k < |d.segs|) && (r.segs == d.segs[k..] || r.segs == LinkAll(d.segs[k..]))
    && (0 < k ==> d.segs[k].first <= StartHigh(d) + 1)
    && NewestGood(r.snaps) == NewestGood(d.snaps)
    && (forall h :: h in r.snaps ==> h in d.snaps && r.snaps[h] == d.snaps[h])
  }

  /** What `restore_set` restores of a directory: the newest verifying snapshot,
      and the segments from the last one that starts at or before the entry
      after it. */
  ghost predicate Shape(d: Disk, r: Disk, k: nat) {
    && Drops(d, r, k) && r.limbo == [] && r.before == map[]
    && (k + 1 < |d.segs| ==> d.segs[k + 1].first > StartHigh(d) + 1)
  }

  /** Which rows of segments `restore_set` keeps: those of the directory from
      some `k`-th on, and none of the old ones. */
  lemma RestoredFrom(rows: seq<A.Row>, d: Disk, old_: seq<A.Row>, segRows: seq<A.Row>) returns (k: nat)
    requires SegmentsRecorded(rows, d, old_, segRows)
    requires d.segs != [] ==> d.segs[0].first <= A.Covered(rows) + 1
    ensures var sorted := A.SortByFirst(A.Segments(rows));
            k <= |segRows| && A.KeptFrom(sorted, A.Firsts(sorted), 0, A.Covered(rows)) == segRows[k..]
    ensures d.segs != [] ==> k < |d.segs|
    ensures 0 < k ==> d.segs[k].first <= A.Covered(rows) + 1
    ensures k + 1 < |d.segs| ==> d.segs[k + 1].first > A.Covered(rows) + 1
  {
    hide A.SortByFirst, A.Segments, A.KeptFrom, A.Covered, Distinct, A.InOrder, A.Firsts;
    var sorted, n := A.SortByFirst(A.Segments(rows)), |old_|;
    SortedRows(rows, d, old_, segRows);
    if d.segs == [] {
      k := 0;
      KeptNone(sorted, A.Firsts(sorted), A.Covered(rows));
    } else {
      var at := A.RestoredSegments(rows);
      k := BehindOld(sorted, old_, segRows, at, A.Covered(rows));
    }
  }

  /** Where the directory's first segment starts no later than the entry after
      the snapshot, none of the old rows is kept. */
  lemma BehindOld(sorted: seq<A.Row>, old_: seq<A.Row>, segRows: seq<A.Row>, at: nat, covered: nat) returns (k: nat)
    requires sorted == old_ + segRows && A.InOrder(sorted) && segRows != [] && at < |sorted|
    requires A.FirstOf(segRows[0]) <= covered + 1
    requires 0 < at ==> A.FirstOf(sorted[at]) <= covered + 1
    requires at + 1 < |sorted| ==> A.FirstOf(sorted[at + 1]) > covered + 1
    ensures k < |segRows| && sorted[at..] == segRows[k..] && (0 < k ==> A.FirstOf(segRows[k]) <= covered + 1)
    ensures k + 1 < |segRows| ==> A.FirstOf(segRows[k + 1]) > covered + 1
  {
    hide A.InOrder;
    FirstsBefore(sorted, |old_|);
    assert sorted[|old_|] == segRows[0];
    k := at - |old_|;
  }

  lemma SortedRows(rows: seq<A.Row>, d: Disk, old_: seq<A.Row>, segRows: seq<A.Row>)
    requires SegmentsRecorded(rows, d, old_, segRows)
    ensures A.SortByFirst(A.Segments(rows)) == old_ + segRows && A.InOrder(old_ + segRows)
    ensures |A.Segments(rows)| == |old_ + segRows|
  {
    hide A.SortByFirst, A.Segments, Distinct, A.InOrder;
    A.SortKeeps(A.Segments(rows));
    SortedUnique(A.SortByFirst(A.Segments(rows)), old_ + segRows);
    SameSize(A.Segments(rows), old_ + segRows);
  }

  lemma FirstsBefore(sorted: seq<A.Row>, n: nat)
    requires A.InOrder(sorted) && n < |sorted|
    ensures forall i :: 0 <= i <= n ==> A.FirstOf(sorted[i]) <= A.FirstOf(sorted[n])
  {
  }

  lemma RestoredShape(rows: seq<A.Row>, manifest: A.Row, d: Disk) returns (k: nat)
    requires Archived(rows, d) && Ascending(d.segs) && (d.segs != [] ==> d.segs[0].first <= StartHigh(d) + 1)
    ensures Shape(d, Restored(d, A.RestoreRows(rows, manifest)), k)
  {
    hide A.RowOk, A.SortByFirst, A.Segments, A.NewestSnapshot, A.KeptFrom, A.Covered, FilesNamed, Distinct, StartHigh;
    hide NewestGood, SnapshotsRecorded, A.RestoreRows, LinkAll;
    var old_, segRows :| SegmentsRecorded(rows, d, old_, segRows);
    NewestRecorded(rows, d);
    k := RestoredFrom(rows, d, old_, segRows);
    PartsFiles(rows, manifest, d, segRows, k);
    PartsSnaps(rows, manifest, d);
  }

  lemma KeptNone(segments: seq<A.Row>, firsts: seq<nat>, covered: nat)
    requires segments == [] && |firsts| == 0
    ensures A.KeptFrom(segments, firsts, 0, covered) == []
  {
  }

  /** The rows' newest snapshot is the one recovery starts from. */
  lemma NewestRecorded(rows: seq<A.Row>, d: Disk)
    requires Archived(rows, d)
    ensures var newest, good := A.NewestSnapshot(rows), NewestGood(d.snaps);
            && (newest.Some? <==> good.Some?) && (newest.Some? ==> A.FirstOf(newest.value) == good.value)
            && A.Covered(rows) == StartHigh(d)
  {
    hide A.NewestSnapshot, A.RowOk, A.Segments, NewestGood, SegmentsRecorded;
    A.NewestIsNewest(rows);
    var newest, good := A.NewestSnapshot(rows), NewestGood(d.snaps);
    if newest.Some? {
      var i :| 0 <= i < |rows| && rows[i] == newest.value;
      assert NamesSnapshot(rows, A.FirstOf(newest.value));
    }
    if good.Some? {
      assert NamesSnapshot(rows, good.value);
    }
  }

  lemma PartsFiles(rows: seq<A.Row>, manifest: A.Row, d: Disk, segRows: seq<A.Row>, k: nat)
    requires Ascending(d.segs) && InDirectoryOrder(segRows, d.segs) && k <= |d.segs|
    requires var sorted := A.SortByFirst(A.Segments(rows));
             A.KeptFrom(sorted, A.Firsts(sorted), 0, A.Covered(rows)) == segRows[k..]
    ensures FilesNamed(d.segs, A.RestoreRows(rows, manifest)) == LinkAll(d.segs[k..])
  {
    hide A.SortByFirst, A.Segments, A.NewestSnapshot, A.KeptFrom, A.Covered;
    var head := [(A.Manifest, manifest)];
    var kept := A.AsSegments(segRows[k..]);
    var tail := if A.NewestSnapshot(rows).Some? then [(A.Part.Snapshot, A.NewestSnapshot(rows).value)] else [];
    assert A.RestoreRows(rows, manifest) == head + kept + tail;
    FilesSplit(d.segs, head + kept, tail);
    FilesSplit(d.segs, head, kept);
    SuffixFiles(d.segs, segRows, k);
    NoSegmentPart(d.segs, head);
    NoSegmentPart(d.segs, tail);
  }

  lemma NoSegmentPart(segs: seq<SegFile>, parts: seq<(A.Part, A.Row)>)
    requires |parts| <= 1 && forall i :: 0 <= i < |parts| ==> !parts[i].0.WalSegment?
    ensures FilesNamed(segs, parts) == []
  {
    if parts != [] {
      assert FilesNamed(segs, parts[1..]) == [];
    }
  }

  lemma PartsSnaps(rows: seq<A.Row>, manifest: A.Row, d: Disk)
    requires Archived(rows, d)
    ensures var good := NewestGood(d.snaps);
            Restored(d, A.RestoreRows(rows, manifest)).snaps
            == if good.Some? then map[good.value := d.snaps[good.value]] else map[]
    ensures NewestGood(Restored(d, A.RestoreRows(rows, manifest)).snaps) == NewestGood(d.snaps)
  {
    hide A.SortByFirst, A.Segments, A.NewestSnapshot, A.KeptFrom, FilesNamed, Archived;
    NewestRecorded(rows, d);
    var parts, good := A.RestoreRows(rows, manifest), NewestGood(d.snaps);
    var newest := A.NewestSnapshot(rows);
    forall h: nat | h in d.snaps
      ensures RestoresSnapshot(parts, h) <==> good.Some? && h == good.value
    {
      if newest.Some? && h == good.value {
        assert parts[|parts| - 1] == (A.Part.Snapshot, newest.value);
      }
    }
    if good.Some? {
      assert good.value in Restored(d, parts).snaps;
    }
  }

  // ----- dropping covered segments

  /** The newest segment never got its header, yet its name says that it begins
      behind neither the log's end nor the entry after the snapshot. */
  predicate Shadowed(d: Disk, covered: nat) {
    && d.segs != [] && NewestSeg(d).Headless?
    && NewestSeg(d).first <= End(d.segs) && NewestSeg(d).first <= covered + 1
  }

  /** Only a newest file without its header is left, whose name says that it
      begins no later than the log ends. */
  predicate Shadows(d: Disk, k: nat) {
    0 < k && k + 1 == |d.segs| && NewestSeg(d).Headless? && NewestSeg(d).first <= End(d.segs)
  }

  lemma SuffixIn(cfg: Config, log: seq<Entry>, segs: seq<SegFile>, k: nat)
    requires k <= |segs| && Ascending(segs) && Apart(segs) && SegsIn(cfg, log, segs)
    ensures Ascending(segs[k..]) && Apart(segs[k..]) && SegsIn(cfg, log, segs[k..])
  {
    hide SegIn, EndOf;
    forall i | 0 <= i < |segs[k..]|
      ensures SegIn(cfg, log, segs[k..][i])
    {
      assert segs[k..][i] == segs[k + i];
    }
    assert segs == segs[..k] + segs[k..];
    ApartRight(segs[..k], segs[k..]);
  }

  /** The files that are left, all durable, are a directory of the same
      partition. */
  lemma DropsInv(cfg: Config, base: Logical, log: seq<Entry>, d: Disk, r: Disk, k: nat)
    requires DiskInv(cfg, base, log, d) && Drops(d, r, k) && r.limbo == [] && r.before == map[]
    ensures DiskInv(cfg, base, log, r)
  {
    hide FilesOk, SnapOk, LinkAll, NewestGood, StartHigh;
    DropsFiles(cfg, log, d, r, k);
  }

  lemma DropsFiles(cfg: Config, log: seq<Entry>, d: Disk, r: Disk, k: nat)
    requires FilesOk(cfg, log, d) && k <= |d.segs| && (r.segs == d.segs[k..] || r.segs == LinkAll(d.segs[k..]))
    requires r.limbo == [] && r.before == map[]
    ensures FilesOk(cfg, log, r)
  {
    hide SegIn, LastWhole, Apart, Ascending, SegsIn, LinkAll;
    SegsOf(cfg, log, d);
    FilesAscend(cfg, log, d);
    SuffixIn(cfg, log, d.segs, k);
    LinkedFiles(cfg, log, d.segs[k..]);
    assert r.limbo + r.segs == r.segs;
  }

  lemma OthersWhole(cfg: Config, log: seq<Entry>, d: Disk, j: nat)
    requires FilesOk(cfg, log, d) && AllRead(cfg, d.segs, 0) && j + 1 < |d.segs|
    ensures d.segs[j].Whole?
  {
    hide ReadFile;
    assert ReadFile(cfg.crc, cfg.id, d.segs[j], false).Ok?;
    SegsOf(cfg, log, d);
    SealedReads(cfg, d.segs[j]);
  }

  /** The segments dropped hold nothing after the snapshot, unless the newest
      file shadows them. */
  lemma DroppedCovered(cfg: Config, log: seq<Entry>, d: Disk, r: Disk, k: nat, j: nat)
    requires FilesOk(cfg, log, d) && AllRead(cfg, d.segs, 0) && Drops(d, r, k) && j < k && !Shadows(d, k)
    ensures EndOf(d.segs[j]) <= StartHigh(d)
  {
    hide LinkAll, StartHigh, NewestGood;
    SegsOf(cfg, log, d);
    OthersWhole(cfg, log, d, j);
    if d.segs[k].Headless? {
      if k + 1 < |d.segs| {
        OthersWhole(cfg, log, d, k);
      }
      EndReaches(d.segs, j);
    }
  }

  /** Where the segments that are left end, when the whole directory opens:
      where all of them do, unless the newest file shadows them. */
  lemma DropsEnd(cfg: Config, log: seq<Entry>, d: Disk, r: Disk, k: nat)
    requires FilesOk(cfg, log, d) && AllRead(cfg, d.segs, 0) && Drops(d, r, k) && StartHigh(d) <= End(d.segs)
    ensures if Shadows(d, k) then End(r.segs) < End(d.segs) else End(r.segs) == End(d.segs)
  {
    hide FilesOk, AllRead, LinkAll, End, EndOf, LastWhole, StartHigh, NewestGood;
    FilesAscend(cfg, log, d);
    SameEnd(d.segs[k..]);
    if d.segs == [] {
      assert d.segs[k..] == [];
    } else {
      var n := |d.segs| - 1;
      if k == n && 0 < n && NewestSeg(d).Headless? {
        assert d.segs[k..] == [d.segs[n]];
        HeadlessEnds(d.segs[n]);
      } else {
        if k < n {
          OthersWhole(cfg, log, d, k);
        }
        if n == 0 {
          assert d.segs[k..] == d.segs;
        } else {
          DropPrefix(d.segs, k);
        }
      }
    }
  }

  lemma HeadlessEnds(f: SegFile)
    ensures f.Headless? ==> End([f]) == f.first - 1
  {
  }

  /** What is left recovers what the whole directory does: it opens, and both
      recoveries mean the fold of the log to one and the same end. */
  ghost predicate RecoversSame(cfg: Config, base: Logical, log: seq<Entry>, d: Disk, r: Disk) {
    && Openable(cfg, r) && End(r.segs) == End(d.segs)
    && Recover(cfg, d).Ok? && Recover(cfg, r).Ok?
    && RepOk(Recover(cfg, d).value.mem) && RepOk(Recover(cfg, r).value.mem)
    && 0 <= End(d.segs) <= |log|
    && Abs(Recover(cfg, d).value.mem) == Abs(Recover(cfg, r).value.mem) == FoldTo(cfg, base, log, End(d.segs))
  }

  lemma BothRecover(cfg: Config, base: Logical, log: seq<Entry>, d: Disk, r: Disk)
    requires LogOk(cfg, log) && DiskInv(cfg, base, log, d) && DiskInv(cfg, base, log, r) && BaseOk(cfg, base)
    requires Openable(cfg, d) && Openable(cfg, r) && End(r.segs) == End(d.segs)
    ensures RecoversSame(cfg, base, log, d, r)
  {
    hide LogOk, DiskInv, BaseOk, Openable, Recover, RepOk, Abs, Fold, End;
    RecoverExactly(cfg, base, log, d);
    RecoverExactly(cfg, base, log, r);
    RecoverOk(cfg, base, log, d);
    RecoverOk(cfg, base, log, r);
  }

  lemma DropsExactly(cfg: Config, base: Logical, log: seq<Entry>, d: Disk, r: Disk, k: nat)
    requires LogOk(cfg, log) && DiskInv(cfg, base, log, d) && BaseOk(cfg, base) && Openable(cfg, d)
    requires Drops(d, r, k) && r.limbo == [] && r.before == map[]
    ensures DiskInv(cfg, base, log, r) && (RecoversSame(cfg, base, log, d, r) <==> !Shadows(d, k))
  {
    hide LogOk, DiskInv, BaseOk, Openable, Drops, Shadows, FilesOk, Recover, RepOk, Abs, End, StartHigh, EndOf;
    InvFiles(cfg, base, log, d);
    DropsInv(cfg, base, log, d, r, k);
    InvFiles(cfg, base, log, r);
    HeldOpens(cfg, log, d);
    DropsEnd(cfg, log, d, r, k);
    if !Shadows(d, k) {
      DropsIs(d, r, k);
      forall j | 0 <= j < k
        ensures EndOf(d.segs[j]) <= StartHigh(d)
      {
        DroppedCovered(cfg, log, d, r, k, j);
      }
      DropKeepsOpenable(cfg, log, d, r, k);
      BothRecover(cfg, base, log, d, r);
    }
  }

  lemma DropsIs(d: Disk, r: Disk, k: nat)
    requires Drops(d, r, k)
    ensures k <= |d.segs| && (r.segs == d.segs[k..] || r.segs == LinkAll(d.segs[k..]))
    ensures NewestGood(r.snaps) == NewestGood(d.snaps)
  {
  }

  // ----- restoring recovers the same state

  /** From the rows recorded of a directory, through `restore_set`: the restored
      directory recovers the same state exactly when no headless newest file
      shadows the log's end. */
  lemma RestoreRecoversSame(cfg: Config, base: Logical, log: seq<Entry>, d: Disk, rows: seq<A.Row>, manifest: A.Row)
    requires LogOk(cfg, log) && DiskInv(cfg, base, log, d) && BaseOk(cfg, base) && Openable(cfg, d)
    requires Archived(rows, d)
    ensures var r := Restored(d, A.RestoreRows(rows, manifest));
            && DiskInv(cfg, base, log, r)
            && (RecoversSame(cfg, base, log, d, r) <==> !Shadowed(d, StartHigh(d)))
  {
    hide LogOk, DiskInv, BaseOk, Openable, Archived, Shape, A.RestoreRows, Shadowed, Shadows, FilesOk, StartHigh,
         RecoversSame;
    var r := Restored(d, A.RestoreRows(rows, manifest));
    InvFiles(cfg, base, log, d);
    FilesAscend(cfg, log, d);
    OpenableStarts(cfg, d);
    var k := RestoredShape(rows, manifest, d);
    ShadowedShape(d, r, k);
    DropsExactly(cfg, base, log, d, r, k);
  }

  lemma OpenableStarts(cfg: Config, d: Disk)
    requires Openable(cfg, d)
    ensures d.segs != [] ==> d.segs[0].first <= StartHigh(d) + 1
  {
    hide AllRead, Continues, HighOver, StartHigh;
  }

  lemma ShadowedShape(d: Disk, r: Disk, k: nat)
    requires Shape(d, r, k) && Ascending(d.segs)
    ensures Drops(d, r, k) && r.limbo == [] && r.before == map[]
    ensures Shadows(d, k) <==> Shadowed(d, StartHigh(d))
  {
    hide LinkAll, NewestGood, LastWhole;
    assert k + 1 < |d.segs| ==> d.segs[k + 1].first <= NewestSeg(d).first;
    if |d.segs| == 1 {
      HeadlessEnds(d.segs[0]);
    }
    assert |d.segs| == 1 ==> d.segs == [d.segs[0]];
  }

  // ----- removing archived segments

  /** The removal loop of `archive`: the segments the snapshot covers but never
      the newest. `stop` is how many neighbours it examines before the process
      stops, if it does. No file's name begins at 0, so none is spared as a
      writer's. */
  method RemoveArchived(segs: seq<SegFile>, snapHigh: nat, stop: nat) returns (kept: seq<SegFile>, gone: seq<SegFile>)
    requires forall i :: 0 <= i < |segs| ==> segs[i].first != 0
    ensures kept == Kept(segs, 0, snapHigh, 0, stop) && gone == Removed(segs, 0, snapHigh, 0, stop)
  {
    kept, gone := [], [];
    var i := 0;
    while i < |segs|
      invariant 0 <= i <= |segs|
      invariant kept + Kept(segs, i, snapHigh, 0, stop) == Kept(segs, 0, snapHigh, 0, stop)
      invariant gone + Removed(segs, i, snapHigh, 0, stop) == Removed(segs, 0, snapHigh, 0, stop)
    {
      if i < stop && i + 1 < |segs| && segs[i + 1].first <= snapHigh + 1 {
        gone := gone + [segs[i]];
      } else {
        kept := kept + [segs[i]];
      }
      i := i + 1;
    }
    assert kept + [] == kept && gone + [] == gone;
  }

  /** The directory after `archive` removed segments, stopped anywhere, the
      removals synced or not. */
  ghost function ArchiveTruncated(d: Disk, stop: nat, synced: bool): Disk {
    var kept, gone := Kept(d.segs, 0, StartHigh(d), 0, stop), Removed(d.segs, 0, StartHigh(d), 0, stop);
    d.(segs := if synced then LinkAll(kept) else kept, limbo := if synced then [] else d.limbo + gone)
  }

  lemma {:induction false} RemovedPrefix(segs: seq<SegFile>, i: nat, snapHigh: nat, stop: nat) returns (k: nat)
    requires Ascending(segs) && i < |segs| && forall j :: 0 <= j < |segs| ==> segs[j].first != 0
    ensures i <= k < |segs| && Kept(segs, i, snapHigh, 0, stop) == segs[k..]
    ensures i < k ==> segs[k].first <= snapHigh + 1 && k <= stop
    ensures k + 1 < |segs| && k < stop ==> segs[k + 1].first > snapHigh + 1
    decreases |segs| - i
  {
    hide Ascending, Kept;
    if i < stop && Removable(segs, i, snapHigh, 0) {
      RemovesOne(segs, i, snapHigh, 0, stop);
      k := RemovedPrefix(segs, i + 1, snapHigh, stop);
    } else {
      k := i;
      AscendingStops(segs, i, snapHigh, stop);
      NoneRemoved(segs, i, snapHigh, 0, stop);
    }
  }

  lemma AscendingStops(segs: seq<SegFile>, i: nat, snapHigh: nat, stop: nat)
    requires Ascending(segs) && i < |segs| && segs[i].first != 0 && !(i < stop && Removable(segs, i, snapHigh, 0))
    ensures forall j :: i <= j < |segs| ==> !(j < stop && Removable(segs, j, snapHigh, 0))
  {
    forall j | i <= j < |segs|
      ensures !(j < stop && Removable(segs, j, snapHigh, 0))
    {
      if i < j && j + 1 < |segs| {
        assert segs[i + 1].first < segs[j + 1].first;
      }
    }
  }

  /** Removing the archived segments leaves a directory that recovers the same
      state exactly when the removal never comes as far as a headless newest
      file that shadows the log's end. */
  lemma ArchiveKeepsSame(cfg: Config, base: Logical, log: seq<Entry>, d: Disk, stop: nat, synced: bool)
    requires LogOk(cfg, log) && DiskInv(cfg, base, log, d) && BaseOk(cfg, base) && Openable(cfg, d)
    ensures RecoversSame(cfg, base, log, d, ArchiveTruncated(d, stop, synced))
       <==> !(Shadowed(d, StartHigh(d)) && |d.segs| <= stop + 1)
  {
    hide LogOk, DiskInv, BaseOk, Openable, FilesOk, StartHigh, RecoversSame, Kept, LinkAll, Shadowed, Shadows;
    var t := ArchiveTruncated(d, stop, synced);
    var r := Disk(t.segs, [], t.snaps, map[]);
    InvFiles(cfg, base, log, d);
    FilesAscend(cfg, log, d);
    var k := 0;
    if d.segs == [] {
      NothingKept(d.segs, StartHigh(d), stop);
    } else {
      FirstsPositive(cfg, log, d);
      k := RemovedPrefix(d.segs, 0, StartHigh(d), stop);
    }
    ShadowedStop(d, k, StartHigh(d), stop);
    DropsExactly(cfg, base, log, d, r, k);
    SameFiles(cfg, base, log, d, r, t);
  }

  lemma NothingKept(segs: seq<SegFile>, snapHigh: nat, stop: nat)
    requires segs == []
    ensures Kept(segs, 0, snapHigh, 0, stop) == [] == LinkAll(segs) == segs[0..]
  {
  }

  lemma FirstsPositive(cfg: Config, log: seq<Entry>, d: Disk)
    requires FilesOk(cfg, log, d)
    ensures forall i :: 0 <= i < |d.segs| ==> d.segs[i].first != 0
  {
    SegsOf(cfg, log, d);
    forall i | 0 <= i < |d.segs|
      ensures d.segs[i].first != 0
    {
      assert SegIn(cfg, log, d.segs[i]);
    }
  }

  lemma ShadowedStop(d: Disk, k: nat, covered: nat, stop: nat)
    requires Ascending(d.segs) && k <= |d.segs| && (d.segs != [] ==> k < |d.segs|)
    requires 0 < k ==> d.segs[k].first <= covered + 1 && k <= stop
    requires k + 1 < |d.segs| && k < stop ==> d.segs[k + 1].first > covered + 1
    ensures Shadows(d, k) <==> Shadowed(d, covered) && |d.segs| <= stop + 1
  {
    hide LastWhole;
    assert k + 1 < |d.segs| ==> d.segs[k + 1].first <= NewestSeg(d).first;
    if |d.segs| == 1 {
      HeadlessEnds(d.segs[0]);
    }
    assert |d.segs| == 1 ==> d.segs == [d.segs[0]];
  }

  /** Recovery depends on the segments and the snapshots only. */
  lemma SameFiles(cfg: Config, base: Logical, log: seq<Entry>, d: Disk, r: Disk, t: Disk)
    requires r.segs == t.segs && r.snaps == t.snaps
    ensures RecoversSame(cfg, base, log, d, r) <==> RecoversSame(cfg, base, log, d, t)
  {
    hide AllRead, Continues, HighOver, NewestGood, ReplaySegs, RepOk, Abs, End, Fold;
  }
}
