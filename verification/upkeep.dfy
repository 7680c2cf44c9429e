/** Snapshots, compaction and log truncation while a partition serves: each
    keeps the invariant, and none changes what is served. */
module Upkeep {
  import opened Words
  import opened WalCodec
  import opened WalSegment
  import opened LogFold
  import opened PartitionState
  import opened Compaction
  import opened Disk
  import opened StoreOps
  import opened Recovery
  import opened Directory
  import opened Serving

  // ----- snapshots

  /** Writing a snapshot of a state the log reaches. */
  lemma WriteSnapOk(cfg: Config, base: Logical, log: seq<Entry>, d: Disk, m: Mem, fault: SnapFault)
    requires DiskInv(cfg, base, log, d) && Reaches(log, d.segs) && MemOk(cfg, base, log, m)
    ensures DiskInv(cfg, base, log, WriteSnap(d, m, fault))
    ensures WriteSnap(d, m, fault).segs == d.segs && WriteSnap(d, m, fault).limbo == d.limbo
  {
    hide MemOk, SegsIn, Apart, LastWhole;
    var d' := WriteSnap(d, m, fault);
    forall h | h in d'.snaps
      ensures SnapOk(cfg, base, log, h, d'.snaps[h])
    {
      if h != m.high {
        assert h in d.snaps && d'.snaps[h] == d.snaps[h];
      }
    }
  }

  /** The snapshots after one of `m` was written: unless that failed before its
      rename there is a file of `m` under its mark, durable by name once the
      directory was synced; the files of other marks stay. */
  ghost predicate Wrote(d: Disk, m: Mem, fault: SnapFault, d': Disk) {
    && d'.snaps.Keys == (if fault.BeforeRename? then d.snaps.Keys else d.snaps.Keys + {m.high})
    && (forall h :: h in d.snaps && (h != m.high || fault.BeforeRename?) ==> d'.snaps[h] == d.snaps[h])
    && (!fault.BeforeRename? ==> d'.snaps[m.high] == SnapFile(m, true))
    && (fault.SnapDone? || fault.AfterRename? ==> d'.before == map[])
  }

  /** A snapshot keeps the invariant and what is served, and writes the served
      state. */
  lemma SnapshotOk(cfg: Config, base: Logical, log: seq<Entry>, d: Disk, s: Server, fault: SnapFault)
    requires SysOk(cfg, base, log, d, s)
    ensures var (d', s') := Snapshot(d, s, fault);
            && SysOk(cfg, base, log, d', s') && s'.mem == s.mem && s'.wal == s.wal && d'.segs == d.segs
            && Wrote(d, s.mem, fault, d')
            && s'.snapHigh == if fault.SnapDone? || fault.AfterRename? then s.mem.high else s.snapHigh
  {
    assert Wrote(d, s.mem, fault, WriteSnap(d, s.mem, fault));
    hide LogOk, MemOk, WriteSnap, DiskInv, Ready, LastWhole;
    WriteSnapOk(cfg, base, log, d, s.mem, fault);
  }

  // ----- compaction

  lemma CaptureOk(cfg: Config, base: Logical, log: seq<Entry>, d: Disk, s: Server)
    requires SysOk(cfg, base, log, d, s)
    ensures RepOk(s.mem) && |s.mem.vectors| == |s.mem.slots|
    ensures Capture(cfg, s).Ok? ==>
      var plan := Capture(cfg, s).value;
      && RepOk(plan) && Abs(plan) == Abs(s.mem)
      && SysOk(cfg, base, log, d, s.(plans := s.plans + [plan]))
  {
    hide LogOk, DiskInv, WriterOk, Staged, Abs, SlotOk, OwnsSlot;
    RepRanges(s.mem);
    StagedMeansSame(s.mem, cfg.capacity);
    StagedHigh(s.mem, cfg.capacity);
    RecordAllRebuilds(cfg.capacity, s.mem.window);
  }

  lemma RepRanges(m: Mem)
    requires RepOk(m)
    ensures |m.vectors| == |m.slots|
  {
  }

  lemma StagedHigh(m: Mem, capacity: nat)
    requires |m.vectors| == |m.slots|
    ensures Staged(m, capacity).high == m.high && Staged(m, capacity).window == RecordAll([], capacity, m.window)
  {
  }

  /** Two states of the same high-water mark within the log mean the same. */
  lemma SameMeaning(cfg: Config, base: Logical, log: seq<Entry>, a: Mem, b: Mem)
    requires MemOk(cfg, base, log, a) && MemOk(cfg, base, log, b) && a.high == b.high
    ensures RepOk(a) && RepOk(b) && Abs(a) == Abs(b)
  {
  }

  function DropAt<T>(s: seq<T>, i: nat): seq<T>
    requires i < |s|
  {
    s[..i] + s[i + 1..]
  }

  /** `finish_compaction` keeps the invariant and is a stutter: the served
      state means the same before and after, whether it succeeds, fails before
      or after its snapshot is written, or finds log entries missing. */
  lemma FinishOk(cfg: Config, base: Logical, log: seq<Entry>, d: Disk, s: Server, i: nat, fault: FinishFault)
    requires SysOk(cfg, base, log, d, s) && i < |s.plans|
    ensures var (d', s', r) := FinishCompaction(cfg, d, s, s.plans[i], fault);
            && SysOk(cfg, base, log, d', s'.(plans := DropAt(s'.plans, i)))
            && RepOk(s.mem) && RepOk(s'.mem) && Abs(s'.mem) == Abs(s.mem)
            && s'.wal == s.wal && d'.segs == d.segs && s'.plans == s.plans
            && (r.Err? ==> s' == s)
  {
    hide LogOk, MemOk, WriteSnap, FilesOk, SnapsOk, WriterOk, CatchUp, Abs;
    var plan := s.plans[i];
    SegsOf(cfg, log, d);
    CatchUpSound(cfg, base, log, d.segs, 0, plan, plan.high, s.mem.high);
    SameMeaning(cfg, base, log, s.mem, s.mem);
    var staged := CatchUp(cfg, d.segs, 0, plan, plan.high, s.mem.high);
    WriterReaches(cfg, log, d.segs, s.wal);
    DropPlan(cfg, base, log, s.plans, i, s.mem.high);
    if staged.Ok? && staged.value.high == s.mem.high {
      SameMeaning(cfg, base, log, staged.value, s.mem);
      if fault.FinishSnap? {
        WriteSnapOk(cfg, base, log, d, staged.value, fault.fault);
      } else {
        WriteSnapOk(cfg, base, log, d, staged.value, SnapDone);
      }
    }
  }

  lemma WriterReaches(cfg: Config, log: seq<Entry>, segs: seq<SegFile>, w: Writer)
    requires WriterOk(cfg, log, segs, w)
    ensures Reaches(log, segs)
  {
  }

  lemma DropPlan(cfg: Config, base: Logical, log: seq<Entry>, plans: seq<Mem>, i: nat, high: nat)
    requires PlansOk(cfg, base, log, plans, high) && i < |plans|
    ensures PlansOk(cfg, base, log, DropAt(plans, i), high)
  {
    hide MemOk;
  }

  // ----- truncation

  lemma {:induction false} NoneRemoved(segs: seq<SegFile>, i: nat, snapHigh: nat, current: nat, stop: nat)
    requires i <= |segs| && forall j :: i <= j < |segs| ==> !(j < stop && Removable(segs, j, snapHigh, current))
    ensures Kept(segs, i, snapHigh, current, stop) == segs[i..]
    ensures Removed(segs, i, snapHigh, current, stop) == []
    decreases |segs| - i
  {
    if i < |segs| {
      NoneRemoved(segs, i + 1, snapHigh, current, stop);
    }
  }

  /** The segments up to the writer's have their headers, and at most one file
      follows it. */
  ghost predicate WriterAt(segs: seq<SegFile>, c: nat, current: nat) {
    && Ascending(segs) && Apart(segs) && c < |segs| <= c + 2 && segs[c].first == current
    && forall i :: 0 <= i <= c ==> segs[i].Whole?
  }

  /** What truncation removes is a prefix that ends before the writer's
      segment, all of it at or below the snapshot's high-water mark; what it
      keeps starts no later than the entry after that mark. Unless stopped it
      removes every such segment. */
  lemma {:induction false} KeptIsSuffix(segs: seq<SegFile>, i: nat, c: nat, snapHigh: nat, current: nat, stop: nat)
    returns (k: nat)
    requires WriterAt(segs, c, current) && i <= c
    ensures i <= k <= c
    ensures Kept(segs, i, snapHigh, current, stop) == segs[k..]
    ensures Removed(segs, i, snapHigh, current, stop) == segs[i..k]
    ensures forall j :: i <= j < k ==> EndOf(segs[j]) <= snapHigh
    ensures i < k ==> segs[k].first <= snapHigh + 1
    ensures k < stop && k < c ==> segs[k + 1].first > snapHigh + 1
    decreases |segs| - i
  {
    hide WriterAt, Removable, EndOf, Kept, Removed;
    CoveredSegment(segs, i, c, snapHigh, current);
    if i < stop && Removable(segs, i, snapHigh, current) {
      RemovesOne(segs, i, snapHigh, current, stop);
      k := KeptIsSuffix(segs, i + 1, c, snapHigh, current, stop);
      assert segs[i..k] == [segs[i]] + segs[i + 1..k];
    } else {
      k := i;
      StopsForGood(segs, i, c, snapHigh, current, stop);
      NoneRemoved(segs, i, snapHigh, current, stop);
    }
  }

  lemma RemovesOne(segs: seq<SegFile>, i: nat, snapHigh: nat, current: nat, stop: nat)
    requires i < stop && i < |segs| && Removable(segs, i, snapHigh, current)
    ensures Kept(segs, i, snapHigh, current, stop) == Kept(segs, i + 1, snapHigh, current, stop)
    ensures Removed(segs, i, snapHigh, current, stop) == [segs[i]] + Removed(segs, i + 1, snapHigh, current, stop)
  {
  }

  lemma CoveredSegment(segs: seq<SegFile>, i: nat, c: nat, snapHigh: nat, current: nat)
    requires WriterAt(segs, c, current) && i <= c
    ensures i <= c < |segs|
    ensures Removable(segs, i, snapHigh, current) ==>
      i < c && EndOf(segs[i]) <= snapHigh && segs[i + 1].first <= snapHigh + 1
    ensures !Removable(segs, i, snapHigh, current) && i < c ==> segs[i + 1].first > snapHigh + 1
  {
    assert i < c ==> segs[i].first < segs[c].first;
    if Removable(segs, i, snapHigh, current) {
      assert i < c && EndOf(segs[i]) < segs[i + 1].first;
    }
  }

  lemma StopsForGood(segs: seq<SegFile>, i: nat, c: nat, snapHigh: nat, current: nat, stop: nat)
    requires WriterAt(segs, c, current) && i <= c && !(i < stop && Removable(segs, i, snapHigh, current))
    ensures forall j :: i <= j < |segs| ==> !(j < stop && Removable(segs, j, snapHigh, current))
  {
    hide Apart;
    forall j | i <= j < |segs|
      ensures !(j < stop && Removable(segs, j, snapHigh, current))
    {
      if i < j && i < stop && j + 1 < |segs| {
        assert segs[i + 1].first < segs[j + 1].first;
        assert i < c ==> segs[i].first < segs[c].first;
      }
    }
  }

  lemma DropPrefix(segs: seq<SegFile>, k: nat)
    requires k <= |segs| && LastWhole(segs) >= k
    ensures LastWhole(segs[k..]) == LastWhole(segs) - k && End(segs[k..]) == End(segs)
  {
    hide LastWhole;
    var rest := segs[k..];
    assert forall i :: 0 <= i < |rest| ==> rest[i] == segs[i + k];
    EndIs(rest, LastWhole(segs) - k);
    assert rest[LastWhole(segs) - k] == segs[LastWhole(segs)];
  }

  lemma TruncateFiles(cfg: Config, log: seq<Entry>, d: Disk, k: nat)
    requires FilesOk(cfg, log, d) && k <= LastWhole(d.segs)
    ensures FilesOk(cfg, log, d.(segs := d.segs[k..], limbo := d.limbo + d.segs[..k]))
    ensures Reaches(log, d.segs) ==> Reaches(log, d.segs[k..])
  {
    hide SegIn, Apart, LastWhole;
    DropPrefix(d.segs, k);
    assert (d.limbo + d.segs[..k]) + d.segs[k..] == d.limbo + d.segs;
  }

  lemma WriterSuffix(cfg: Config, log: seq<Entry>, segs: seq<SegFile>, w: Writer, k: nat)
    requires WriterOk(cfg, log, segs, w) && k <= CurrentAt(segs, w)
    ensures WriterOk(cfg, log, segs[k..], w) && CurrentAt(segs[k..], w) == CurrentAt(segs, w) - k
  {
    hide FileBytes, LastWhole;
    WriterLast(cfg, log, segs, w);
    DropPrefix(segs, k);
    assert segs[k..][LastWhole(segs[k..])] == segs[LastWhole(segs)];
  }

  lemma WriterLast(cfg: Config, log: seq<Entry>, segs: seq<SegFile>, w: Writer)
    requires WriterOk(cfg, log, segs, w)
    ensures 0 <= CurrentAt(segs, w) <= LastWhole(segs)
  {
  }

  lemma WriterLinked(cfg: Config, log: seq<Entry>, segs: seq<SegFile>, w: Writer)
    requires WriterOk(cfg, log, segs, w) && Reaches(log, LinkAll(segs))
    ensures WriterOk(cfg, log, LinkAll(segs), w) && CurrentAt(LinkAll(segs), w) == CurrentAt(segs, w)
  {
    hide FileBytes, LastWhole, Link;
    var all := LinkAll(segs);
    forall i | 0 <= i < |segs|
      ensures all[i].first == segs[i].first && (all[i].Whole? <==> segs[i].Whole?)
    {
      LinkedFile(cfg, log, segs[i]);
    }
    LinkedFile(cfg, log, segs[|segs| - 1]);
    LinkedTail(segs[|segs| - 1]);
  }

  lemma LinkedTail(f: SegFile)
    ensures f.Whole? ==> Link(f).tail == f.tail && Link(f).entries == f.entries && Link(f).synced == f.synced
                         && Link(f).settled == f.settled
  {
  }

  /** Truncating the log, however far it gets, keeps the invariant. */
  lemma TruncateOk(cfg: Config, base: Logical, log: seq<Entry>, d: Disk, s: Server, stop: nat, synced: bool)
    requires SysOk(cfg, base, log, d, s)
    ensures SysOk(cfg, base, log, Truncate(d, s, stop, synced), s)
  {
    hide LogOk, MemOk, FilesOk, SnapOk, PlansOk, WriterOk, LastWhole, Kept, Removed, LinkAll;
    WriterPlace(cfg, log, d, s.wal);
    var k := KeptIsSuffix(d.segs, 0, CurrentAt(d.segs, s.wal), s.snapHigh, s.wal.current, stop);
    if k > 0 {
      var cut := d.(segs := d.segs[k..], limbo := d.limbo + d.segs[..k]);
      assert Removed(d.segs, 0, s.snapHigh, s.wal.current, stop) == d.segs[..k];
      TruncateFiles(cfg, log, d, k);
      WriterSuffix(cfg, log, d.segs, s.wal, k);
      if synced {
        LinkAllOk(cfg, log, cut);
        WriterReaches(cfg, log, cut.segs, s.wal);
        WriterLinked(cfg, log, cut.segs, s.wal);
      }
    }
  }

  lemma WriterPlace(cfg: Config, log: seq<Entry>, d: Disk, w: Writer)
    requires FilesOk(cfg, log, d) && WriterOk(cfg, log, d.segs, w)
    ensures 0 <= CurrentAt(d.segs, w) <= LastWhole(d.segs) && WriterAt(d.segs, CurrentAt(d.segs, w), w.current)
  {
    hide Apart, Ascending, SegIn, Ready;
    SegsOf(cfg, log, d);
    WriterLast(cfg, log, d.segs, w);
  }
}
