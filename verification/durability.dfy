/** What a directory holds of the log, and what of it survives every power
    loss. An entry is held when some verifying snapshot covers it, or the
    segments continue such a snapshot (or the empty start) up to it. */
module Durability {
  import opened Words
  import opened WalCodec
  import opened WalSegment
  import opened LogFold
  import opened PartitionState
  import opened Disk
  import opened StoreOps
  import opened Recovery
  import opened Directory
  import opened Serving
  import opened Upkeep
  import opened Opening

  // ----- what the files hold

  /** A state a recovery can start from: the empty one, or a snapshot that
      verifies. */
  predicate Point(cfg: Config, d: Disk, h: nat) {
    (h == 0 && !cfg.baseSnapshot) || (h in d.snaps && d.snaps[h].good)
  }

  predicate Holds(f: SegFile, s: nat) {
    f.Whole? && f.first <= s <= EndOf(f)
  }

  predicate InFiles(segs: seq<SegFile>, s: nat) {
    exists i :: 0 <= i < |segs| && Holds(segs[i], s)
  }

  /** The segments hold every entry after `h` up to `n`. */
  ghost predicate HeldFrom(segs: seq<SegFile>, h: nat, n: nat) {
    forall s: nat :: h < s <= n ==> InFiles(segs, s)
  }

  /** The files hold everything up to the `n`-th entry. */
  ghost predicate Held(cfg: Config, d: Disk, n: nat) {
    exists h: nat :: Point(cfg, d, h) && HeldFrom(d.segs, h, n)
  }

  // ----- what of it is durable

  /** A starting point no power loss takes: the snapshot's rename is durable,
      or what its name held before verifies too. */
  predicate DurablePoint(cfg: Config, d: Disk, h: nat) {
    || (h == 0 && !cfg.baseSnapshot)
    || (h in d.snaps && d.snaps[h].good && (h in d.before ==> d.before[h].Some? && d.before[h].value.good))
  }

  predicate Secures(f: SegFile, s: nat) {
    f.Whole? && f.linked && f.first <= s < f.first + f.synced
  }

  predicate DurablyIn(segs: seq<SegFile>, s: nat) {
    exists i :: 0 <= i < |segs| && Secures(segs[i], s)
  }

  ghost predicate DurableFrom(segs: seq<SegFile>, h: nat, n: nat) {
    forall s: nat :: h < s <= n ==> DurablyIn(segs, s)
  }

  ghost predicate DurablyHeld(cfg: Config, d: Disk, n: nat) {
    exists h: nat :: DurablePoint(cfg, d, h) && DurableFrom(d.segs, h, n)
  }

  /** What would be durably held without the snapshot of `h`. */
  ghost predicate HeldWithout(cfg: Config, d: Disk, h: nat, n: nat) {
    exists g: nat :: DurablePoint(cfg, d, g) && (g != h || (g == 0 && !cfg.baseSnapshot)) && DurableFrom(d.segs, g, n)
  }

  function Damaged(d: Disk, h: nat): Disk
    requires h in d.snaps
  {
    d.(snaps := d.snaps[h := d.snaps[h].(good := false)])
  }

  /** Exactly that stays durably held when the snapshot is damaged. */
  lemma DamagedHeld(cfg: Config, d: Disk, h: nat, n: nat)
    requires h in d.snaps
    ensures DurablyHeld(cfg, Damaged(d, h), n) <==> HeldWithout(cfg, d, h, n)
  {
    hide DurableFrom;
    forall g: nat
      ensures DurablePoint(cfg, Damaged(d, h), g)
         <==> DurablePoint(cfg, d, g) && (g != h || (g == 0 && !cfg.baseSnapshot))
    {
    }
  }

  lemma PointSurvives(cfg: Config, d: Disk, after: Disk, h: nat)
    requires DurablePoint(cfg, d, h) && SnapsLeft(d, after.snaps)
    ensures Point(cfg, after, h)
  {
  }

  lemma EntrySurvives(crc: Checksum, d: Disk, after: Disk, s: nat)
    requires PowerLoss(crc, d, after) && DurablyIn(d.segs, s)
    ensures InFiles(after.segs, s)
  {
    var i :| 0 <= i < |d.segs| && Secures(d.segs[i], s);
    assert d.segs[i] in d.segs;
    var g :| g in after.segs && MayLeave(crc, d.segs[i], g);
    var j :| 0 <= j < |after.segs| && after.segs[j] == g;
    assert Holds(after.segs[j], s);
  }

  lemma DurableSurvives(cfg: Config, d: Disk, after: Disk, n: nat)
    requires DurablyHeld(cfg, d, n) && PowerLoss(cfg.crc, d, after)
    ensures Held(cfg, after, n)
  {
    hide PowerLoss, InFiles, DurablyIn, DurablePoint, Point;
    var h: nat :| DurablePoint(cfg, d, h) && DurableFrom(d.segs, h, n);
    assert SnapsLeft(d, after.snaps) by { LossSnaps(cfg.crc, d, after); }
    PointSurvives(cfg, d, after, h);
    forall s: nat | h < s <= n
      ensures InFiles(after.segs, s)
    {
      assert DurablyIn(d.segs, s);
      EntrySurvives(cfg.crc, d, after, s);
    }
    assert HeldFrom(after.segs, h, n);
  }

  lemma LossSnaps(crc: Checksum, d: Disk, after: Disk)
    requires PowerLoss(crc, d, after)
    ensures SnapsLeft(d, after.snaps) && after.before == map[]
  {
  }

  // ----- the loss that keeps least

  /** A file cut back to what is durable of it. */
  function Synced(f: SegFile): SegFile {
    match f
    case Whole(first, entries, _, synced, settled, _) =>
      if settled then Link(f)
      else if synced < 0 then Headless(first, [], true)
      else if synced <= |entries| then Whole(first, entries[..synced], [], synced, true, true)
      else f
    case Headless(_, _, _) => f
  }

  function Durable(segs: seq<SegFile>): seq<SegFile> {
    if segs == [] then []
    else Durable(segs[..|segs| - 1]) + (if segs[|segs| - 1].linked then [Synced(segs[|segs| - 1])] else [])
  }

  /** Every rename that is not durable goes the way that verifies least. */
  function WorstSnaps(d: Disk): map<nat, SnapFile> {
    map h | h in d.snaps && (h in d.before ==> d.before[h].Some?)
      :: if h in d.before && d.before[h].Some? && d.snaps[h].good then d.before[h].value else d.snaps[h]
  }

  function WorstLoss(d: Disk): Disk {
    Disk(Durable(d.segs), [], WorstSnaps(d), map[])
  }

  lemma SyncedIsLeft(crc: Checksum, f: SegFile)
    requires FileOk(crc, f) && f.linked
    ensures MayLeave(crc, f, Synced(f)) && Synced(f).first == f.first
  {
    if f.Whole? && !f.settled && f.synced >= 0 {
      NumberedPrefix(f.entries, f.first, f.synced);
    }
  }

  lemma {:induction false} DurableMembers(crc: Checksum, segs: seq<SegFile>)
    requires forall i :: 0 <= i < |segs| ==> FileOk(crc, segs[i])
    ensures forall g :: g in Durable(segs) ==> exists f :: f in segs && MayLeave(crc, f, g)
    ensures forall f :: f in segs && f.linked ==> exists g :: g in Durable(segs) && MayLeave(crc, f, g)
  {
    hide FileOk, MayLeave, Synced;
    if segs != [] {
      var init, f := segs[..|segs| - 1], segs[|segs| - 1];
      DurableMembers(crc, init);
      assert segs == init + [f];
      if f.linked {
        SyncedIsLeft(crc, f);
        assert Synced(f) in Durable(segs) && f in segs;
      }
      forall g | g in Durable(segs)
        ensures exists x :: x in segs && MayLeave(crc, x, g)
      {
        if g in Durable(init) {
          var x :| x in init && MayLeave(crc, x, g);
          assert x in segs;
        }
      }
      forall x | x in segs && x.linked
        ensures exists g :: g in Durable(segs) && MayLeave(crc, x, g)
      {
        if x in init {
          var g :| g in Durable(init) && MayLeave(crc, x, g);
          assert g in Durable(segs);
        }
      }
    }
  }

  lemma {:induction false} DurableAscends(crc: Checksum, segs: seq<SegFile>)
    requires Ascending(segs) && forall i :: 0 <= i < |segs| ==> FileOk(crc, segs[i])
    ensures Ascending(Durable(segs))
    ensures forall g :: g in Durable(segs) ==> segs != [] && g.first <= segs[|segs| - 1].first
  {
    hide FileOk, Synced;
    if segs != [] {
      var init, f := segs[..|segs| - 1], segs[|segs| - 1];
      DurableAscends(crc, init);
      if f.linked {
        SyncedIsLeft(crc, f);
        forall g | g in Durable(init)
          ensures g.first < f.first
        {
          assert segs[|segs| - 2].first < f.first;
        }
      }
    }
  }

  lemma SecuredBySynced(crc: Checksum, f: SegFile, s: nat)
    requires FileOk(crc, f) && f.linked && Holds(Synced(f), s)
    ensures Secures(f, s)
  {
  }

  lemma {:induction false} DurableHolds(crc: Checksum, segs: seq<SegFile>, s: nat)
    requires InFiles(Durable(segs), s) && forall i :: 0 <= i < |segs| ==> FileOk(crc, segs[i])
    ensures DurablyIn(segs, s)
  {
    hide FileOk, Synced, Holds, Secures;
    var i :| 0 <= i < |Durable(segs)| && Holds(Durable(segs)[i], s);
    var init, f := segs[..|segs| - 1], segs[|segs| - 1];
    if i < |Durable(init)| {
      assert Holds(Durable(init)[i], s);
      DurableHolds(crc, init, s);
      var j :| 0 <= j < |init| && Secures(init[j], s);
      assert Secures(segs[j], s);
    } else {
      SecuredBySynced(crc, f, s);
      assert Secures(segs[|segs| - 1], s);
    }
  }

  lemma WorstPoint(cfg: Config, d: Disk, h: nat)
    requires Point(cfg, WorstLoss(d), h)
    ensures DurablePoint(cfg, d, h)
  {
    hide Durable;
  }

  lemma WorstSnapsLeft(d: Disk)
    ensures SnapsLeft(d, WorstSnaps(d))
  {
    forall h | h in WorstSnaps(d)
      ensures (h in d.snaps && WorstSnaps(d)[h] == d.snaps[h])
              || (h in d.before && d.before[h] == Some(WorstSnaps(d)[h]))
    {
    }
  }

  lemma WorstIsLoss(cfg: Config, log: seq<Entry>, d: Disk)
    requires FilesOk(cfg, log, d)
    ensures PowerLoss(cfg.crc, d, WorstLoss(d))
    ensures forall i :: 0 <= i < |d.segs| ==> FileOk(cfg.crc, d.segs[i])
  {
    hide MayLeave, SegIn, Apart, Ascending, WorstSnaps;
    SegsOf(cfg, log, d);
    forall i | 0 <= i < |d.segs|
      ensures FileOk(cfg.crc, d.segs[i])
    {
      IsFile(cfg, log, d.segs[i]);
    }
    DurableMembers(cfg.crc, d.segs);
    DurableAscends(cfg.crc, d.segs);
    WorstSnapsLeft(d);
  }

  /** Whatever a power loss leaves of the directory holds the first `n`
      entries. */
  ghost predicate Survives(cfg: Config, d: Disk, n: nat) {
    forall after :: PowerLoss(cfg.crc, d, after) ==> Held(cfg, after, n)
  }

  /** Exactly what is durably held is held after every power loss. */
  lemma SurvivesExactly(cfg: Config, log: seq<Entry>, d: Disk, n: nat)
    requires FilesOk(cfg, log, d)
    ensures Survives(cfg, d, n) <==> DurablyHeld(cfg, d, n)
  {
    hide FilesOk, PowerLoss, Point, DurablePoint, InFiles, DurablyIn, FileOk, Durable, WorstSnaps;
    WorstIsLoss(cfg, log, d);
    var worst := WorstLoss(d);
    if Held(cfg, worst, n) {
      var h: nat :| Point(cfg, worst, h) && HeldFrom(worst.segs, h, n);
      WorstPoint(cfg, d, h);
      forall s: nat | h < s <= n
        ensures DurablyIn(d.segs, s)
      {
        assert InFiles(worst.segs, s);
        DurableHolds(cfg.crc, d.segs, s);
      }
      assert DurableFrom(d.segs, h, n);
    }
    if DurablyHeld(cfg, d, n) {
      forall after | PowerLoss(cfg.crc, d, after)
        ensures Held(cfg, after, n)
      {
        DurableSurvives(cfg, d, after, n);
      }
    }
  }

  /** What is held after a power loss is durably held. */
  lemma LossSettles(cfg: Config, d: Disk, after: Disk, n: nat)
    requires PowerLoss(cfg.crc, d, after) && Held(cfg, after, n)
    ensures DurablyHeld(cfg, after, n)
  {
    hide PowerLoss;
    var h: nat :| Point(cfg, after, h) && HeldFrom(after.segs, h, n);
    LossSnaps(cfg.crc, d, after);
    forall s: nat | h < s <= n
      ensures DurablyIn(after.segs, s)
    {
      assert InFiles(after.segs, s);
      var i :| 0 <= i < |after.segs| && Holds(after.segs[i], s);
      var a := Origin(cfg.crc, d, after, i);
      assert Secures(after.segs[i], s);
    }
    assert DurableFrom(after.segs, h, n);
  }

  lemma LossKeepsDurable(cfg: Config, d: Disk, after: Disk, n: nat)
    requires PowerLoss(cfg.crc, d, after) && DurablyHeld(cfg, d, n)
    ensures DurablyHeld(cfg, after, n)
  {
    hide PowerLoss, Held, DurablyHeld;
    DurableSurvives(cfg, d, after, n);
    LossSettles(cfg, d, after, n);
  }

  /** What is durably held is held. */
  lemma DurablyHeldIsHeld(cfg: Config, log: seq<Entry>, d: Disk, n: nat)
    requires FilesOk(cfg, log, d) && DurablyHeld(cfg, d, n)
    ensures Held(cfg, d, n)
  {
    hide Apart, Ascending;
    SegsOf(cfg, log, d);
    var h: nat :| DurablePoint(cfg, d, h) && DurableFrom(d.segs, h, n);
    forall s: nat | h < s <= n
      ensures InFiles(d.segs, s)
    {
      assert DurablyIn(d.segs, s);
      var i :| 0 <= i < |d.segs| && Secures(d.segs[i], s);
      assert SegIn(cfg, log, d.segs[i]);
      assert Holds(d.segs[i], s);
    }
    assert HeldFrom(d.segs, h, n);
  }

  lemma HeldLess(cfg: Config, d: Disk, n: nat, m: nat)
    requires m <= n
    ensures DurablyHeld(cfg, d, n) ==> DurablyHeld(cfg, d, m)
    ensures Held(cfg, d, n) ==> Held(cfg, d, m)
  {
    hide Point, DurablePoint, InFiles, DurablyIn;
    if DurablyHeld(cfg, d, n) {
      var h: nat :| DurablePoint(cfg, d, h) && DurableFrom(d.segs, h, n);
      assert DurableFrom(d.segs, h, m);
    }
    if Held(cfg, d, n) {
      var h: nat :| Point(cfg, d, h) && HeldFrom(d.segs, h, n);
      assert HeldFrom(d.segs, h, m);
    }
  }

  // ----- operations keep it

  /** Whatever was durable in one directory is durable in the other. */
  ghost predicate KeepsDurable(cfg: Config, d: Disk, d': Disk) {
    && (forall h: nat :: DurablePoint(cfg, d, h) ==> DurablePoint(cfg, d', h))
    && (forall s: nat :: DurablyIn(d.segs, s) ==> DurablyIn(d'.segs, s))
  }

  lemma HeldKept(cfg: Config, d: Disk, d': Disk, n: nat)
    requires KeepsDurable(cfg, d, d') && DurablyHeld(cfg, d, n)
    ensures DurablyHeld(cfg, d', n)
  {
    hide DurablePoint, DurablyIn;
    var h: nat :| DurablePoint(cfg, d, h) && DurableFrom(d.segs, h, n);
    assert DurableFrom(d'.segs, h, n);
  }

  /** The same file, with no less of it durable. */
  predicate Improves(f: SegFile, g: SegFile) {
    f.Whole? ==> g.Whole? && g.first == f.first && (f.linked ==> g.linked) && f.synced <= g.synced
  }

  lemma ImprovedSegs(segs: seq<SegFile>, segs': seq<SegFile>)
    requires |segs| <= |segs'| && forall i :: 0 <= i < |segs| ==> Improves(segs[i], segs'[i])
    ensures forall s: nat :: DurablyIn(segs, s) ==> DurablyIn(segs', s)
  {
    forall s: nat | DurablyIn(segs, s)
      ensures DurablyIn(segs', s)
    {
      var i :| 0 <= i < |segs| && Secures(segs[i], s);
      assert Improves(segs[i], segs'[i]) && Secures(segs'[i], s);
    }
  }

  lemma KeepsBoth(cfg: Config, a: Disk, b: Disk, c: Disk)
    requires KeepsDurable(cfg, a, b) && KeepsDurable(cfg, b, c)
    ensures KeepsDurable(cfg, a, c)
  {
    hide DurablePoint, DurablyIn;
  }

  lemma KeepsSelf(cfg: Config, d: Disk)
    ensures KeepsDurable(cfg, d, d)
  {
  }

  lemma ImprovedKeeps(cfg: Config, d: Disk, d': Disk)
    requires d'.snaps == d.snaps && d'.before == d.before && |d.segs| <= |d'.segs|
    requires forall i :: 0 <= i < |d.segs| ==> Improves(d.segs[i], d'.segs[i])
    ensures KeepsDurable(cfg, d, d')
  {
    hide DurablyIn, Improves;
    ImprovedSegs(d.segs, d'.segs);
  }

  lemma SetNewestKeeps(cfg: Config, d: Disk, f: SegFile)
    requires d.segs != [] && Improves(NewestSeg(d), f)
    ensures KeepsDurable(cfg, d, SetNewest(d, f))
  {
    ImprovedKeeps(cfg, d, SetNewest(d, f));
  }

  lemma LinkAllKeeps(cfg: Config, d: Disk)
    ensures KeepsDurable(cfg, d, d.(segs := LinkAll(d.segs), limbo := []))
  {
    ImprovedKeeps(cfg, d, d.(segs := LinkAll(d.segs), limbo := []));
  }

  lemma CreateKeeps(cfg: Config, d: Disk, first: nat, made: Option<Made>)
    ensures KeepsDurable(cfg, d, Create(cfg, d, first, made))
  {
    hide HeaderOf;
    ImprovedKeeps(cfg, d, Create(cfg, d, first, made));
  }

  lemma SyncKeeps(cfg: Config, log: seq<Entry>, d: Disk)
    requires FilesOk(cfg, log, d) && d.segs != []
    ensures KeepsDurable(cfg, d, SyncNewest(d))
  {
    hide FilesOk;
    SegsOf(cfg, log, d);
    assert SegIn(cfg, log, NewestSeg(d));
    SetNewestKeeps(cfg, d, SyncFile(NewestSeg(d)));
  }

  lemma WriteKeeps(cfg: Config, d: Disk, w: Writer, e: Entry, fault: Fault)
    requires d.segs != []
    ensures KeepsDurable(cfg, d, WriteFrame(cfg, d, w, e, fault).disk)
  {
    hide FrameOf, KeepsDurable;
    var f := NewestSeg(d);
    if f.Whole? {
      var n := if fault.WriteFails? && fault.part < |FrameOf(cfg.crc, e)| then fault.part else 0;
      SetNewestKeeps(cfg, d, f.(tail := FrameOf(cfg.crc, e)[..n], settled := false));
      SetNewestKeeps(cfg, d, f.(entries := f.entries + [e], settled := false));
    } else {
      KeepsSelf(cfg, d);
    }
  }

  lemma RotateKeeps(cfg: Config, log: seq<Entry>, d: Disk, w: Writer, fault: Fault)
    requires FilesOk(cfg, log, d) && d.segs != []
    ensures KeepsDurable(cfg, d, Rotate(cfg, d, w, fault).disk)
  {
    hide FilesOk, KeepsDurable, Create;
    if fault.RotateSyncFails? {
      KeepsSelf(cfg, d);
    } else {
      SyncKeeps(cfg, log, d);
      var made := if fault.CreateFails? then Some(fault.made) else None;
      CreateKeeps(cfg, SyncNewest(d), w.nextSeq, made);
      KeepsBoth(cfg, d, SyncNewest(d), Create(cfg, SyncNewest(d), w.nextSeq, made));
    }
  }

  lemma AppendKeeps(cfg: Config, log: seq<Entry>, d: Disk, w: Writer, opId: OpId, op: Operation, fault: Fault)
    requires FilesOk(cfg, log, d) && d.segs != []
    ensures KeepsDurable(cfg, d, AppendUnsynced(cfg, d, w, opId, op, fault).disk)
  {
    hide FilesOk, KeepsDurable, Rotate, WriteFrame, FrameOf;
    var e := Entry(w.nextSeq, opId, op);
    KeepsSelf(cfg, d);
    WriteKeeps(cfg, d, w, e, fault);
    RotateKeeps(cfg, log, d, w, fault);
    var r := Rotate(cfg, d, w, fault);
    if r.disk.segs != [] {
      WriteKeeps(cfg, r.disk, r.wal, e, fault);
      KeepsBoth(cfg, d, r.disk, WriteFrame(cfg, r.disk, r.wal, e, fault).disk);
    }
  }

  /** No mutation, whatever fails in it, makes anything less durable. */
  lemma MutateKeeps(cfg: Config, base: Logical, log: seq<Entry>, d: Disk, s: Server, opId: OpId, op: Operation,
                    fault: Fault)
    requires Mutable(cfg, base, log, d, s, opId, op)
    ensures KeepsDurable(cfg, d, Mutate(cfg, d, s, opId, op, fault).disk)
  {
    hide SysOk, KeepsDurable, AppendUnsynced, FilesOk, ApplyChecked, SyncNewest;
    SysParts(cfg, base, log, d, s);
    AppendKeeps(cfg, log, d, s.wal, opId, op, fault);
    var a := AppendUnsynced(cfg, d, s.wal, opId, op, fault);
    if !s.wal.poisoned && a.result.Ok? {
      AppendedFiles(cfg, base, log, d, s, opId, op, fault);
      SyncKeeps(cfg, log + [Entry(|log| + 1, opId, op)], a.disk);
      KeepsBoth(cfg, d, a.disk, SyncNewest(a.disk));
    } else if s.wal.poisoned {
      PoisonedRefuses(cfg, d, s.wal, opId, op, fault);
    }
  }

  lemma SysParts(cfg: Config, base: Logical, log: seq<Entry>, d: Disk, s: Server)
    requires SysOk(cfg, base, log, d, s)
    ensures FilesOk(cfg, log, d) && WriterOk(cfg, log, d.segs, s.wal) && d.segs != []
    ensures !s.wal.poisoned ==> s.mem.high == |log|
  {
    hide FilesOk, MemOk, Ready;
  }

  lemma AppendedFiles(cfg: Config, base: Logical, log: seq<Entry>, d: Disk, s: Server, opId: OpId, op: Operation,
                      fault: Fault)
    requires Mutable(cfg, base, log, d, s, opId, op) && !s.wal.poisoned
    requires AppendUnsynced(cfg, d, s.wal, opId, op, fault).result.Ok?
    ensures var a := AppendUnsynced(cfg, d, s.wal, opId, op, fault);
            FilesOk(cfg, log + [Entry(|log| + 1, opId, op)], a.disk) && a.disk.segs != []
  {
    hide FilesOk, AppendUnsynced, MemOk, FileBytes;
    Serving.AppendOk(cfg, log, d, s.wal, opId, op, fault);
  }

  lemma WriteSnapKeeps(cfg: Config, d: Disk, m: Mem, fault: SnapFault)
    ensures KeepsDurable(cfg, d, WriteSnap(d, m, fault))
  {
    hide DurablyIn;
    var d' := WriteSnap(d, m, fault);
    forall h: nat | DurablePoint(cfg, d, h)
      ensures DurablePoint(cfg, d', h)
    {
    }
  }

  lemma SnapshotKeeps(cfg: Config, d: Disk, s: Server, fault: SnapFault)
    ensures KeepsDurable(cfg, d, Snapshot(d, s, fault).0)
  {
    hide KeepsDurable, WriteSnap;
    WriteSnapKeeps(cfg, d, s.mem, fault);
  }

  lemma FinishKeeps(cfg: Config, d: Disk, s: Server, plan: Mem, fault: FinishFault)
    ensures KeepsDurable(cfg, d, FinishCompaction(cfg, d, s, plan, fault).0)
  {
    hide KeepsDurable, WriteSnap, CatchUp;
    KeepsSelf(cfg, d);
    var staged := CatchUp(cfg, d.segs, 0, plan, plan.high, s.mem.high);
    if staged.Ok? {
      WriteSnapKeeps(cfg, d, staged.value, if fault.FinishSnap? then fault.fault else SnapDone);
    }
  }

  lemma HalfRepairKeeps(cfg: Config, log: seq<Entry>, d: Disk)
    requires FilesOk(cfg, log, d)
    ensures KeepsDurable(cfg, d, HalfRepair(cfg, d))
  {
    hide FilesOk, TornAt;
    TornIs(cfg, log, d);
    KeepsSelf(cfg, d);
    var torn := TornAt(cfg, d);
    if torn.Some? {
      if torn.value < HEADER_LEN {
        forall s: nat | DurablyIn(d.segs, s)
          ensures DurablyIn(d.segs[..|d.segs| - 1], s)
        {
          var i :| 0 <= i < |d.segs| && Secures(d.segs[i], s);
          assert Secures(d.segs[..|d.segs| - 1][i], s);
        }
      } else {
        SetNewestKeeps(cfg, d, NewestSeg(d).(tail := [], settled := false));
      }
    }
  }

  lemma RepairKeeps(cfg: Config, log: seq<Entry>, d: Disk)
    requires FilesOk(cfg, log, d)
    ensures KeepsDurable(cfg, d, HalfRepair(cfg, d)) && KeepsDurable(cfg, d, Repair(cfg, d))
  {
    hide FilesOk, TornAt, KeepsDurable, SyncNewest, LinkAll, SetNewest;
    HalfRepairKeeps(cfg, log, d);
    KeepsSelf(cfg, d);
    RepairFiles(cfg, log, d);
    var half := HalfRepair(cfg, d);
    KeepsSelf(cfg, half);
    LinkAllKeeps(cfg, half);
    if half.segs != [] {
      SyncKeeps(cfg, log, half);
    }
    KeepsBoth(cfg, d, half, Repair(cfg, d));
  }

  lemma StartKeeps(cfg: Config, d: Disk, r: Recovered, fault: OpenFault)
    ensures KeepsDurable(cfg, d, StartWriter(cfg, d, r, fault).0)
  {
    hide KeepsDurable, OpenWriter, Create, WithSegment;
    KeepsSelf(cfg, d);
    CreateKeeps(cfg, d, r.mem.high + 1, None);
    NewestCreated(cfg, d, r.mem.high + 1);
    if fault.OpenCreateFails? {
      CreateKeeps(cfg, d, r.mem.high + 1, Some(fault.made));
    }
  }

  /** No open, whatever fails in it, makes anything less durable. */
  lemma OpenKeepsDurable(cfg: Config, log: seq<Entry>, d: Disk, fault: OpenFault)
    requires FilesOk(cfg, log, d)
    ensures KeepsDurable(cfg, d, Open(cfg, d, fault).0)
  {
    hide KeepsDurable, FilesOk, Recover, Repair, HalfRepair, StartWriter;
    KeepsSelf(cfg, d);
    RepairKeeps(cfg, log, d);
    if Recover(cfg, d).Ok? {
      var r := Recover(cfg, d).value;
      StartKeeps(cfg, Repair(cfg, d), r, fault);
      KeepsBoth(cfg, d, Repair(cfg, d), StartWriter(cfg, Repair(cfg, d), r, fault).0);
    }
  }

  /** An open that succeeds serves everything the files hold. */
  lemma OpenReaches(cfg: Config, base: Logical, log: seq<Entry>, d: Disk, fault: OpenFault, n: nat)
    requires LogOk(cfg, log) && DiskInv(cfg, base, log, d) && BaseOk(cfg, base)
    requires Open(cfg, d, fault).1.Ok? && Held(cfg, d, n)
    ensures n <= Open(cfg, d, fault).1.value.mem.high
  {
    hide LogOk, BaseOk, MemOk, Recover, Repair, HalfRepair, FilesOk, SnapsOk, OpenWriter, Create, End;
    RecoverOk(cfg, base, log, d);
    var r := Recover(cfg, d).value;
    RepairOk(cfg, base, log, d, r);
    var high := r.mem.high;
    OpenWriterOk(cfg, log, Repair(cfg, d), high);
    var h: nat :| Point(cfg, d, h) && HeldFrom(d.segs, h, n);
    PointBelow(cfg, base, log, d, r, h);
    if h < n {
      assert InFiles(d.segs, n);
      FilesReach(cfg, log, d, n);
    }
  }

  lemma PointBelow(cfg: Config, base: Logical, log: seq<Entry>, d: Disk, r: Recovered, h: nat)
    requires RecoveredOk(cfg, base, log, d, r) && Point(cfg, d, h)
    ensures h <= r.mem.high
  {
    hide MemOk, ReadFile;
  }

  lemma FilesReach(cfg: Config, log: seq<Entry>, d: Disk, n: nat)
    requires FilesOk(cfg, log, d) && InFiles(d.segs, n)
    ensures n <= End(d.segs) && LastWhole(d.segs) >= 0
  {
    hide Ascending;
    SegsOf(cfg, log, d);
    var i :| 0 <= i < |d.segs| && Holds(d.segs[i], n);
    EndReaches(d.segs, i);
  }

  // ----- acknowledging

  /** Everything before the writer's segment is durably held, and that segment
      has a durable name: what is synced to it stays. */
  ghost predicate Founded(cfg: Config, d: Disk) {
    && d.segs != [] && NewestSeg(d).Whole? && NewestSeg(d).linked && NewestSeg(d).first >= 1
    && DurablyHeld(cfg, d, NewestSeg(d).first - 1)
  }

  /** The same of a directory whose newest segment the next append seals. */
  ghost predicate Grounded(cfg: Config, d: Disk) {
    && d.segs != [] && NewestSeg(d).Whole? && NewestSeg(d).first >= 1
    && DurablyHeld(cfg, d.(segs := LinkAll(d.segs)), NewestSeg(d).first - 1)
  }

  /** Whether what the next append logs will be durable once it is synced. */
  ghost predicate Sheltered(cfg: Config, d: Disk, w: Writer) {
    if w.bytes < ROTATE_BYTES then Founded(cfg, d) else Grounded(cfg, d)
  }

  /** A file of `d` other than the newest is durable as far as it was. */
  lemma BeforeNewest(cfg: Config, log: seq<Entry>, d: Disk, f: SegFile, s: nat)
    requires FilesOk(cfg, log, d) && d.segs != [] && NewestSeg(d).Whole? && f.first == NewestSeg(d).first && f.Whole?
    requires s < f.first
    ensures DurablyIn(SetNewest(d, f).segs, s) <==> DurablyIn(d.segs, s)
  {
    var last := |d.segs| - 1;
    var segs' := SetNewest(d, f).segs;
    if DurablyIn(segs', s) {
      var i :| 0 <= i < |segs'| && Secures(segs'[i], s);
      assert i != last && Secures(d.segs[i], s);
    }
    if DurablyIn(d.segs, s) {
      var i :| 0 <= i < |d.segs| && Secures(d.segs[i], s);
      assert i != last && Secures(segs'[i], s);
    }
  }

  /** When the last entry of a directory is durably held: no snapshot covers
      it, so its segment must be linked and everything before it held. */
  lemma NewestHeld(cfg: Config, log: seq<Entry>, d: Disk, n: nat)
    requires FilesOk(cfg, log, d) && d.segs != [] && NewestSeg(d).Whole? && Holds(NewestSeg(d), n)
    requires NewestSeg(d).first >= 1 && NewestSeg(d).synced == |NewestSeg(d).entries| && n == EndOf(NewestSeg(d))
    requires forall h :: h in d.snaps && d.snaps[h].good ==> h < n
    ensures DurablyHeld(cfg, d, n) <==> NewestSeg(d).linked && DurablyHeld(cfg, d, NewestSeg(d).first - 1)
  {
    var f := NewestSeg(d);
    if DurablyHeld(cfg, d, n) {
      HeldLess(cfg, d, n, f.first - 1);
      var h: nat :| DurablePoint(cfg, d, h) && DurableFrom(d.segs, h, n);
      assert h < n;
      assert DurablyIn(d.segs, n);
      NewestOnly(cfg, log, d, n);
    }
    if f.linked && DurablyHeld(cfg, d, f.first - 1) {
      var h: nat :| DurablePoint(cfg, d, h) && DurableFrom(d.segs, h, f.first - 1);
      forall s: nat | h < s <= n
        ensures DurablyIn(d.segs, s)
      {
        if s >= f.first {
          assert Secures(d.segs[|d.segs| - 1], s);
        } else {
          assert DurablyIn(d.segs, s);
        }
      }
      assert DurableFrom(d.segs, h, n);
    }
  }

  /** An entry of the newest segment is in no other. */
  lemma NewestOnly(cfg: Config, log: seq<Entry>, d: Disk, n: nat)
    requires FilesOk(cfg, log, d) && d.segs != [] && NewestSeg(d).Whole? && Holds(NewestSeg(d), n)
    requires DurablyIn(d.segs, n)
    ensures NewestSeg(d).linked
  {
    hide Ascending, SegIn, Apart, FilesOk;
    var i :| 0 <= i < |d.segs| && Secures(d.segs[i], n);
    SecuredBefore(cfg, log, d, i, |d.segs| - 1, n);
  }

  /** An entry secured by one segment comes before every later segment. */
  lemma SecuredBefore(cfg: Config, log: seq<Entry>, d: Disk, i: nat, k: nat, s: nat)
    requires FilesOk(cfg, log, d) && i < |d.segs| && k < |d.segs| && d.segs[k].Whole? && Secures(d.segs[i], s)
    ensures i < k ==> s < d.segs[k].first
  {
    hide Ascending;
    SegsOf(cfg, log, d);
    assert SegIn(cfg, log, d.segs[i]);
    if i < k {
      assert EndOf(d.segs[i]) < d.segs[k].first;
    }
  }

  /** What a mutation leaves when its writer may go on: nothing changed, or the
      entry synced at the end of the newest segment, a new one if the old was
      full. */
  ghost predicate Logged(cfg: Config, d: Disk, w: Writer, e: Entry, d': Disk) {
    && d.segs != [] && NewestSeg(d).Whole? && d'.snaps == d.snaps && d'.before == d.before
    && var f := NewestSeg(d);
       d'.segs == if w.bytes < ROTATE_BYTES
       then SetNewest(d, Whole(f.first, f.entries + [e], [], |f.entries| + 1, true, f.linked)).segs
                  else LinkAll(SyncNewest(d).segs) + [Whole(e.seqNo, [e], [], 1, true, true)]
  }

  lemma MutateShape(cfg: Config, base: Logical, log: seq<Entry>, d: Disk, s: Server, opId: OpId, op: Operation,
                    fault: Fault)
    requires Mutable(cfg, base, log, d, s, opId, op)
    ensures var o := Mutate(cfg, d, s, opId, op, fault);
            && (o.result.Ok? ==> Logged(cfg, d, s.wal, Entry(|log| + 1, opId, op), o.disk))
            && (!o.server.wal.poisoned ==> o.disk == d || Logged(cfg, d, s.wal, Entry(|log| + 1, opId, op), o.disk))
  {
    hide LogOk, DiskInv, MemOk, PlansOk, AppendUnsynced, FileBytes, ApplyMem, LastWhole, Applicable, SyncNewest;
    var e := Entry(|log| + 1, opId, op);
    if s.wal.poisoned {
      PoisonedRefuses(cfg, d, s.wal, opId, op, fault);
    } else {
      AppendShape(cfg, d, s.wal, opId, op, fault);
    }
  }

  lemma AppendShape(cfg: Config, d: Disk, w: Writer, opId: OpId, op: Operation, fault: Fault)
    requires d.segs != [] && NewestSeg(d).Whole? && NewestSeg(d).tail == [] && !w.poisoned
    ensures var a := AppendUnsynced(cfg, d, w, opId, op, fault);
            && (a.result.Err? ==> a.wal.poisoned || a.disk == d)
            && (a.result.Ok? ==> a.disk.segs != [] && Logged(cfg, d, w, Entry(w.nextSeq, opId, op), SyncNewest(a.disk)))
  {
    hide FrameOf, LinkAll, Rotate, WriteFrame, Logged, SyncNewest;
    var e := Entry(w.nextSeq, opId, op);
    WriteShape(cfg, d, w, e, fault);
    if w.bytes >= ROTATE_BYTES {
      RotateShape(cfg, d, w, fault);
      var r := Rotate(cfg, d, w, fault);
      if r.result.Ok? {
        WriteShape(cfg, r.disk, r.wal, e, fault);
        RotatedAppend(LinkAll(SyncNewest(d).segs), e);
      }
      if r.result.Ok? && WriteFrame(cfg, r.disk, r.wal, e, fault).result.Ok? {
        LoggedBy(cfg, d, w, e, SyncNewest(WriteFrame(cfg, r.disk, r.wal, e, fault).disk));
      }
    } else if WriteFrame(cfg, d, w, e, fault).result.Ok? {
      LoggedBy(cfg, d, w, e, SyncNewest(WriteFrame(cfg, d, w, e, fault).disk));
    }
  }

  lemma LoggedBy(cfg: Config, d: Disk, w: Writer, e: Entry, d': Disk)
    requires d.segs != [] && NewestSeg(d).Whole? && d'.snaps == d.snaps && d'.before == d.before
    requires var f := NewestSeg(d);
             d'.segs == if w.bytes < ROTATE_BYTES
                        then SetNewest(d, Whole(f.first, f.entries + [e], [], |f.entries| + 1, true, f.linked)).segs
                        else LinkAll(SyncNewest(d).segs) + [Whole(e.seqNo, [e], [], 1, true, true)]
    ensures Logged(cfg, d, w, e, d')
  {
  }

  /** A frame written and then synced. */
  lemma WriteShape(cfg: Config, d: Disk, w: Writer, e: Entry, fault: Fault)
    requires d.segs != [] && NewestSeg(d).Whole? && NewestSeg(d).tail == []
    ensures var a := WriteFrame(cfg, d, w, e, fault);
            && (a.result.Err? ==> a.wal.poisoned)
            && (a.result.Ok? ==>
                  && a.disk.segs != [] && a.disk.snaps == d.snaps && a.disk.before == d.before
                  && var f := NewestSeg(d);
                     && SyncNewest(a.disk).snaps == d.snaps && SyncNewest(a.disk).before == d.before
                     && SyncNewest(a.disk).segs
                        == d.segs[|d.segs| - 1 := Whole(f.first, f.entries + [e], [], |f.entries| + 1, true, f.linked)])
  {
    hide FrameOf;
  }

  lemma RotateShape(cfg: Config, d: Disk, w: Writer, fault: Fault)
    requires d.segs != []
    ensures var r := Rotate(cfg, d, w, fault);
            && (r.result.Err? ==> r.wal.poisoned)
            && (r.result.Ok? ==>
                  && r.disk.segs == LinkAll(SyncNewest(d).segs) + [Whole(w.nextSeq, [], [], 0, true, true)]
                  && r.disk.snaps == d.snaps && r.disk.before == d.before)
  {
    hide LinkAll;
  }

  lemma RotatedAppend(segs: seq<SegFile>, e: Entry)
    ensures var grown := segs + [Whole(e.seqNo, [], [], 0, true, true)];
            grown[|grown| - 1 := Whole(e.seqNo, [e], [], 1, true, true)]
                == segs + [Whole(e.seqNo, [e], [], 1, true, true)]
    ensures [] + [e] == [e]
  {
  }

  /** The entry just logged is durably held exactly when the state before the
      append sheltered it. */
  lemma LoggedDurable(cfg: Config, base: Logical, log: seq<Entry>, d: Disk, w: Writer, e: Entry, d': Disk)
    requires DiskInv(cfg, base, log, d) && Reaches(log, d.segs) && e.seqNo == |log| + 1
    requires Logged(cfg, d, w, e, d') && FilesOk(cfg, log + [e], d')
    ensures DurablyHeld(cfg, d', |log| + 1) <==> Sheltered(cfg, d, w)
    ensures Sheltered(cfg, d, w) ==> Founded(cfg, d')
  {
    hide SegIn, Apart, Ascending, FilesOk, DurablyHeld;
    NewestIsWhole(cfg, log, d);
    SnapsBelow(cfg, base, log, d);
    if w.bytes < ROTATE_BYTES {
      LoggedInPlace(cfg, log, d, w, e, d');
    } else {
      LoggedBehind(cfg, log, d, w, e, d');
    }
  }

  lemma NewestIsWhole(cfg: Config, log: seq<Entry>, d: Disk)
    requires FilesOk(cfg, log, d) && Reaches(log, d.segs) && d.segs != [] && NewestSeg(d).Whole?
    ensures SegIn(cfg, log, NewestSeg(d)) && EndOf(NewestSeg(d)) == |log| && NewestSeg(d).first >= 1
  {
    hide Apart, Ascending;
    NewestSegIn(cfg, log, d);
  }

  lemma SnapsBelow(cfg: Config, base: Logical, log: seq<Entry>, d: Disk)
    requires SnapsOk(cfg, base, log, d)
    ensures forall h :: h in d.snaps && d.snaps[h].good ==> h <= |log|
  {
    hide RepOk, WindowOk, Abs, FoldTo;
  }

  lemma LoggedInPlace(cfg: Config, log: seq<Entry>, d: Disk, w: Writer, e: Entry, d': Disk)
    requires FilesOk(cfg, log, d) && d.segs != [] && NewestSeg(d).Whole? && w.bytes < ROTATE_BYTES
    requires EndOf(NewestSeg(d)) == |log| && NewestSeg(d).first >= 1
    requires Logged(cfg, d, w, e, d') && FilesOk(cfg, log + [e], d')
    requires forall h :: h in d.snaps && d.snaps[h].good ==> h <= |log|
    ensures DurablyHeld(cfg, d', |log| + 1) <==> Founded(cfg, d)
    ensures Founded(cfg, d) ==> Founded(cfg, d')
  {
    hide FilesOk;
    var f := NewestSeg(d);
    var g := NewestSeg(d');
    assert d'.segs == SetNewest(d, g).segs;
    NewestHeld(cfg, log + [e], d', |log| + 1);
    forall s: nat | s < f.first
      ensures DurablyIn(d'.segs, s) <==> DurablyIn(d.segs, s)
    {
      BeforeNewest(cfg, log, d, g, s);
    }
    SameHeld(cfg, d, d', f.first - 1);
  }

  lemma SameHeld(cfg: Config, d: Disk, d': Disk, n: nat)
    requires d'.snaps == d.snaps && d'.before == d.before
    requires forall s: nat :: s <= n ==> (DurablyIn(d'.segs, s) <==> DurablyIn(d.segs, s))
    ensures DurablyHeld(cfg, d', n) <==> DurablyHeld(cfg, d, n)
  {
    hide DurablyIn;
    if DurablyHeld(cfg, d, n) {
      var h: nat :| DurablePoint(cfg, d, h) && DurableFrom(d.segs, h, n);
      assert DurablePoint(cfg, d', h) && DurableFrom(d'.segs, h, n);
    }
    if DurablyHeld(cfg, d', n) {
      var h: nat :| DurablePoint(cfg, d', h) && DurableFrom(d'.segs, h, n);
      assert DurablePoint(cfg, d, h) && DurableFrom(d.segs, h, n);
    }
  }

  /** After a rotation, up to the old segment's end. */
  lemma LoggedBehind(cfg: Config, log: seq<Entry>, d: Disk, w: Writer, e: Entry, d': Disk)
    requires FilesOk(cfg, log, d) && d.segs != [] && NewestSeg(d).Whole? && w.bytes >= ROTATE_BYTES
    requires SegIn(cfg, log, NewestSeg(d)) && EndOf(NewestSeg(d)) == |log| && e.seqNo == |log| + 1
    requires NewestSeg(d).first >= 1 && Logged(cfg, d, w, e, d') && FilesOk(cfg, log + [e], d')
    requires forall h :: h in d.snaps && d.snaps[h].good ==> h <= |log|
    ensures DurablyHeld(cfg, d', |log| + 1) <==> Grounded(cfg, d)
    ensures Grounded(cfg, d) ==> Founded(cfg, d')
  {
    hide FilesOk, SegIn, DurablyHeld, LinkAll, DurablyIn;
    assert NewestSeg(d') == Whole(e.seqNo, [e], [], 1, true, true);
    NewestHeld(cfg, log + [e], d', |log| + 1);
    var sealed := d.(segs := LinkAll(SyncNewest(d).segs));
    forall s: nat | s <= |log|
      ensures DurablyIn(d'.segs, s) <==> DurablyIn(sealed.segs, s)
    {
      AppendedSecures(sealed.segs, Whole(e.seqNo, [e], [], 1, true, true), s);
    }
    SameHeld(cfg, sealed, d', |log|);
    SealedHeld(cfg, log, d);
  }

  lemma AppendedSecures(segs: seq<SegFile>, f: SegFile, s: nat)
    requires s < f.first
    ensures DurablyIn(segs + [f], s) <==> DurablyIn(segs, s)
  {
    if DurablyIn(segs + [f], s) {
      var i :| 0 <= i < |segs + [f]| && Secures((segs + [f])[i], s);
      assert Secures(segs[i], s);
    }
    if DurablyIn(segs, s) {
      var i :| 0 <= i < |segs| && Secures(segs[i], s);
      assert Secures((segs + [f])[i], s);
    }
  }

  /** With the newest segment synced and every file linked, the log is durably
      held when what came before that segment is. */
  lemma SealedHeld(cfg: Config, log: seq<Entry>, d: Disk)
    requires FilesOk(cfg, log, d) && d.segs != [] && NewestSeg(d).Whole?
    requires SegIn(cfg, log, NewestSeg(d)) && EndOf(NewestSeg(d)) == |log|
    ensures DurablyHeld(cfg, d.(segs := LinkAll(SyncNewest(d).segs)), |log|)
       <==> DurablyHeld(cfg, d.(segs := LinkAll(d.segs)), NewestSeg(d).first - 1)
  {
    hide FilesOk, DurablyHeld, DurablyIn, SyncNewest;
    var f := NewestSeg(d);
    var linked, sealed := d.(segs := LinkAll(d.segs)), d.(segs := LinkAll(SyncNewest(d).segs));
    forall s: nat | s < f.first
      ensures DurablyIn(sealed.segs, s) <==> DurablyIn(linked.segs, s)
    {
      SealedBefore(d, s);
    }
    SameHeld(cfg, linked, sealed, f.first - 1);
    if DurablyHeld(cfg, sealed, f.first - 1) {
      SealedWhole(d);
      HeldFurther(cfg, sealed, f.first - 1, |log|);
    }
    HeldLess(cfg, sealed, |log|, f.first - 1);
  }

  lemma SealedBefore(d: Disk, s: nat)
    requires d.segs != [] && NewestSeg(d).Whole? && s < NewestSeg(d).first
    ensures DurablyIn(LinkAll(SyncNewest(d).segs), s) <==> DurablyIn(LinkAll(d.segs), s)
  {
    var linked, sealed := LinkAll(d.segs), LinkAll(SyncNewest(d).segs);
    var last := |d.segs| - 1;
    assert forall i :: 0 <= i < last ==> sealed[i] == linked[i];
    if DurablyIn(sealed, s) {
      var i :| 0 <= i < |sealed| && Secures(sealed[i], s);
      assert Secures(linked[i], s);
    }
    if DurablyIn(linked, s) {
      var i :| 0 <= i < |linked| && Secures(linked[i], s);
      assert Secures(sealed[i], s);
    }
  }

  lemma SealedWhole(d: Disk)
    requires d.segs != [] && NewestSeg(d).Whole?
    ensures var f := NewestSeg(d);
            forall s: nat :: f.first <= s <= EndOf(f) ==> DurablyIn(LinkAll(SyncNewest(d).segs), s)
  {
    var f, sealed := NewestSeg(d), LinkAll(SyncNewest(d).segs);
    forall s: nat | f.first <= s <= EndOf(f)
      ensures DurablyIn(sealed, s)
    {
      assert Secures(sealed[|d.segs| - 1], s);
    }
  }

  lemma HeldFurther(cfg: Config, d: Disk, n: nat, m: nat)
    requires DurablyHeld(cfg, d, n) && forall s: nat :: n < s <= m ==> DurablyIn(d.segs, s)
    ensures DurablyHeld(cfg, d, m)
  {
    hide DurablyIn;
    var h: nat :| DurablePoint(cfg, d, h) && DurableFrom(d.segs, h, n);
    assert DurableFrom(d.segs, h, m);
  }

  // ----- truncating

  /** Some durable starting point reaches the first segment that is kept, or
      the entry itself. */
  ghost predicate Covers(cfg: Config, d: Disk, kept: seq<SegFile>, n: nat) {
    exists g: nat :: DurablePoint(cfg, d, g) && (n <= g || (kept != [] && kept[0].first <= g + 1))
  }

  /** Dropping the first segments keeps what is durably held exactly when some
      durable starting point covers what they held. */
  lemma DroppedDurable(cfg: Config, log: seq<Entry>, d: Disk, k: nat, d': Disk, n: nat)
    requires FilesOk(cfg, log, d) && 0 < k < |d.segs| && (forall i :: 0 <= i <= k ==> d.segs[i].Whole?)
    requires d'.segs == d.segs[k..] || d'.segs == LinkAll(d.segs[k..])
    requires d'.snaps == d.snaps && d'.before == d.before && DurablyHeld(cfg, d, n)
    ensures DurablyHeld(cfg, d', n) <==> Covers(cfg, d, d.segs[k..], n)
  {
    hide FilesOk, DurablePoint;
    assert forall g: nat :: DurablePoint(cfg, d', g) <==> DurablePoint(cfg, d, g) by {
      SamePoints(cfg, d, d');
    }
    assert d.segs[k..][0] == d.segs[k];
    if Covers(cfg, d, d.segs[k..], n) {
      var g: nat :| DurablePoint(cfg, d, g) && (n <= g || d.segs[k].first <= g + 1);
      var h: nat :| DurablePoint(cfg, d, h) && DurableFrom(d.segs, h, n);
      var from := if h <= g then g else h;
      forall s: nat | from < s <= n
        ensures DurablyIn(d'.segs, s)
      {
        assert DurablyIn(d.segs, s);
        KeptSecures(cfg, log, d, k, d'.segs, s);
      }
      assert DurablePoint(cfg, d', from) && DurableFrom(d'.segs, from, n);
    }
    if DurablyHeld(cfg, d', n) {
      var h: nat :| DurablePoint(cfg, d', h) && DurableFrom(d'.segs, h, n);
      if h < n {
        assert DurablyIn(d'.segs, h + 1);
        StartsBefore(cfg, log, d, k, d'.segs, h + 1);
      }
      assert DurablePoint(cfg, d, h);
    }
  }

  lemma SamePoints(cfg: Config, d: Disk, d': Disk)
    requires d'.snaps == d.snaps && d'.before == d.before
    ensures forall g: nat :: DurablePoint(cfg, d', g) <==> DurablePoint(cfg, d, g)
  {
  }

  lemma KeptSecures(cfg: Config, log: seq<Entry>, d: Disk, k: nat, segs': seq<SegFile>, s: nat)
    requires FilesOk(cfg, log, d) && k < |d.segs| && (forall i :: 0 <= i <= k ==> d.segs[i].Whole?)
    requires segs' == d.segs[k..] || segs' == LinkAll(d.segs[k..])
    requires DurablyIn(d.segs, s) && d.segs[k].first <= s
    ensures DurablyIn(segs', s)
  {
    hide FilesOk;
    var i :| 0 <= i < |d.segs| && Secures(d.segs[i], s);
    SecuredBefore(cfg, log, d, i, k, s);
    assert d.segs[k..][i - k] == d.segs[i];
    assert Secures(segs'[i - k], s);
  }

  lemma StartsBefore(cfg: Config, log: seq<Entry>, d: Disk, k: nat, segs': seq<SegFile>, s: nat)
    requires FilesOk(cfg, log, d) && k < |d.segs|
    requires segs' == d.segs[k..] || segs' == LinkAll(d.segs[k..])
    requires DurablyIn(segs', s)
    ensures d.segs[k].first <= s
  {
    hide Apart, SegIn;
    var i :| 0 <= i < |segs'| && Secures(segs'[i], s);
    assert d.segs[k..][i] == d.segs[k + i];
    assert segs'[i].first == d.segs[k + i].first;
    assert i > 0 ==> d.segs[k].first < d.segs[k + i].first;
  }

  /** The truncation removes nothing, or some durable starting point covers the
      entry or reaches the first segment it keeps. */
  ghost predicate TruncatesSafely(cfg: Config, d: Disk, s: Server, stop: nat, n: nat) {
    || Removed(d.segs, 0, s.snapHigh, s.wal.current, stop) == []
    || Covers(cfg, d, Kept(d.segs, 0, s.snapHigh, s.wal.current, stop), n)
  }

  /** A truncation keeps an entry durably held exactly when it removes nothing,
      or some durable starting point reaches the first segment it keeps (or
      covers the entry itself). */
  lemma TruncateExactly(cfg: Config, base: Logical, log: seq<Entry>, d: Disk, s: Server, stop: nat, synced: bool,
                        n: nat)
    requires SysOk(cfg, base, log, d, s) && DurablyHeld(cfg, d, n)
    ensures DurablyHeld(cfg, Truncate(d, s, stop, synced), n) <==> TruncatesSafely(cfg, d, s, stop, n)
  {
    hide LogOk, MemOk, FilesOk, SnapOk, PlansOk, WriterOk, LastWhole, Kept, Removed, LinkAll, DurablyHeld, Covers;
    WriterPlace(cfg, log, d, s.wal);
    var c := CurrentAt(d.segs, s.wal);
    var k := KeptIsSuffix(d.segs, 0, c, s.snapHigh, s.wal.current, stop);
    if k > 0 {
      assert Removed(d.segs, 0, s.snapHigh, s.wal.current, stop) == d.segs[..k];
      DroppedDurable(cfg, log, d, k, Truncate(d, s, stop, synced), n);
    }
  }
}
