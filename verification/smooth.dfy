/** When opens succeed over whole runs: after any failures, kills and power
    losses exactly when the bytes behind the newest segment's entries hide no
    frame, as long as nothing was left undurable behind the writer; and always
    along runs that meet no fault but kills and power losses. */
module Smooth {
  import opened Words
  import opened WalCodec
  import opened WalSegment
  import opened LogFold
  import opened PartitionState
  import opened Compaction
  import opened Disk
  import opened StoreOps
  import opened Recovery
  import opened Directory
  import opened Serving
  import opened Upkeep
  import opened Opening
  import opened Durability
  import opened System
  import opened Runs
  import opened Reopening
  import opened Orderliness

  ghost predicate WriterFirm(segs: seq<SegFile>, w: Writer) {
    && 0 <= CurrentAt(segs, w) < |segs| && Firm(segs[CurrentAt(segs, w)])
    && (!w.poisoned ==> Firm(segs[|segs| - 1]))
  }

  /** The directory is in order, and a writer writes to a firm segment. */
  ghost predicate Steady(cfg: Config, s: Sys) {
    && Orderly(cfg, s.disk)
    && (s.server.Some? ==> !Husky(s.disk) && WriterFirm(s.disk.segs, s.server.value.wal))
  }

  /** What can make a later open fail, avoided: a truncation below a snapshot
      whose rename is not durable, a snapshot of entries that are not synced, an
      open that goes on where something behind it is not durable, and damage to
      the last durable copy. */
  ghost predicate Careful(cfg: Config, s: Sys, a: Action)
    requires Enabled(cfg, s, a)
  {
    match a
    case TruncateLog(stop, _) => Backed(cfg, s.disk, s.server.value, stop)
    case SnapshotTo(_) => s.server.value.mem.high <= SureEnd(s.disk)
    case FinishPlan(_, _) => s.server.value.mem.high <= SureEnd(s.disk)
    case OpenWith(_) => Resumable(cfg, s.disk) || Step(cfg, s, a) == s
    case DamageSnapshot(h) => Spares(cfg, s.disk, h)
    case _ => true
  }

  // ----- appending

  lemma WriteSteady(cfg: Config, d: Disk, w: Writer, e: Entry, fault: Fault)
    requires InOrder(cfg, d) && !Husky(d) && d.segs != [] && Firm(NewestSeg(d))
    ensures var a := WriteFrame(cfg, d, w, e, fault);
            && InOrder(cfg, a.disk) && !Husky(a.disk) && a.disk.segs != [] && Firm(NewestSeg(a.disk))
            && NewestSeg(a.disk).first == NewestSeg(d).first && a.wal.current == w.current
  {
    hide InOrder, FrameOf;
    var f := NewestSeg(d);
    var n := if fault.WriteFails? && fault.part < |FrameOf(cfg.crc, e)| then fault.part else 0;
    SetNewestOrder(cfg, d, f.(tail := FrameOf(cfg.crc, e)[..n], settled := false));
    SetNewestOrder(cfg, d, f.(entries := f.entries + [e], settled := false));
  }

  lemma SyncSteady(cfg: Config, log: seq<Entry>, d: Disk)
    requires FilesOk(cfg, log, d) && InOrder(cfg, d) && !Husky(d) && d.segs != [] && Firm(NewestSeg(d))
    ensures InOrder(cfg, SyncNewest(d)) && !Husky(SyncNewest(d)) && SyncNewest(d).segs != []
    ensures Firm(NewestSeg(SyncNewest(d))) && NewestSeg(SyncNewest(d)).first == NewestSeg(d).first
    ensures NewestSeg(d).tail == [] ==> AllSealed(cfg, SyncNewest(d))
  {
    hide InOrder, FilesOk;
    SegsOf(cfg, log, d);
    assert SegIn(cfg, log, NewestSeg(d));
    SetNewestOrder(cfg, d, SyncFile(NewestSeg(d)));
  }

  lemma RotateSteady(cfg: Config, log: seq<Entry>, d: Disk, w: Writer, fault: Fault)
    requires Appendable(cfg, log, d, w) && w.bytes >= ROTATE_BYTES
    requires InOrder(cfg, d) && !Husky(d) && Firm(NewestSeg(d))
    ensures var r := Rotate(cfg, d, w, fault);
            && InOrder(cfg, r.disk) && !Husky(r.disk) && WriterFirm(r.disk.segs, r.wal)
            && (r.result.Ok? ==> Firm(NewestSeg(r.disk)))
  {
    hide InOrder, FilesOk, FileBytes, Create, LastWhole, AllSealed, WriterFirm, Firm, Husky;
    AppendablePlace(cfg, log, d, w);
    FirmPoisoned(d.segs, w);
    if !fault.RotateSyncFails? {
      var made := if fault.CreateFails? then Some(fault.made) else None;
      SealedForNext(cfg, log, d, w);
      CreateOrder(cfg, log, SyncNewest(d), |log| + 1, made);
      CreatedNotHusky(cfg, SyncNewest(d), |log| + 1, made);
      CreatedFirm(cfg, SyncNewest(d), |log| + 1, made, w);
    }
  }

  lemma AppendablePlace(cfg: Config, log: seq<Entry>, d: Disk, w: Writer)
    requires Appendable(cfg, log, d, w)
    ensures d.segs != [] && NewestSeg(d).Whole? && NewestSeg(d).tail == [] && EndOf(NewestSeg(d)) == |log|
    ensures w.bytes == |FileBytes(cfg.crc, cfg.id, NewestSeg(d))| && w.current == NewestSeg(d).first
            && w.nextSeq == |log| + 1
  {
    hide FilesOk, FileBytes;
    NewestSegIn(cfg, log, d);
  }

  lemma FirmPoisoned(segs: seq<SegFile>, w: Writer)
    requires segs != [] && Firm(segs[|segs| - 1]) && segs[|segs| - 1].first == w.current
    ensures WriterFirm(segs, w.(poisoned := true)) && WriterFirm(segs, w)
  {
  }

  /** A full segment, synced, ready for its successor. */
  lemma SealedForNext(cfg: Config, log: seq<Entry>, d: Disk, w: Writer)
    requires Appendable(cfg, log, d, w) && w.bytes >= ROTATE_BYTES
    requires InOrder(cfg, d) && !Husky(d) && Firm(NewestSeg(d))
    ensures var sealed := SyncNewest(d);
            && FilesOk(cfg, log, sealed) && AllSealed(cfg, sealed) && !Husky(sealed) && sealed.segs != []
            && Firm(NewestSeg(sealed)) && NewestSeg(sealed).first == w.current <= |log|
            && EndOf(NewestSeg(sealed)) == |log|
  {
    hide InOrder, FilesOk, FileBytes, WriterOk, AllSealed, Husky;
    AppendablePlace(cfg, log, d, w);
    SyncSteady(cfg, log, d);
    SyncOk(cfg, log, d, w);
    NewestSegIn(cfg, log, d);
    LongHasEntries(cfg, NewestSeg(d));
    SliceWithin(cfg, log, NewestSeg(d));
  }

  /** The writer of the segment before one just created, or of the new one. */
  lemma CreatedFirm(cfg: Config, d: Disk, first: nat, made: Option<Made>, w: Writer)
    requires d.segs != [] && Firm(NewestSeg(d)) && NewestSeg(d).first == w.current < first
    ensures var segs := Create(cfg, d, first, made).segs;
            && WriterFirm(segs, w.(poisoned := true))
            && (made.None? ==> WriterFirm(segs, w.(current := first, bytes := HEADER_LEN)) && Firm(segs[|segs| - 1]))
  {
    hide HeaderOf;
    var linked := LinkAll(d.segs);
    assert linked[|d.segs| - 1] == Link(NewestSeg(d));
  }

  lemma AppendSteady(cfg: Config, log: seq<Entry>, d: Disk, w: Writer, opId: OpId, op: Operation, fault: Fault)
    requires Appendable(cfg, log, d, w) && InOrder(cfg, d) && !Husky(d) && Firm(NewestSeg(d))
    ensures var a := AppendUnsynced(cfg, d, w, opId, op, fault);
            && InOrder(cfg, a.disk) && !Husky(a.disk) && WriterFirm(a.disk.segs, a.wal)
            && (a.result.Ok? ==> Firm(NewestSeg(a.disk)))
  {
    hide InOrder, FilesOk, FileBytes, Rotate, WriteFrame, FrameOf, LastWhole;
    var e := Entry(w.nextSeq, opId, op);
    WriteSteady(cfg, d, w, e, fault);
    if w.bytes >= ROTATE_BYTES {
      RotateSteady(cfg, log, d, w, fault);
      var r := Rotate(cfg, d, w, fault);
      if r.result.Ok? {
        RotatedWriter(cfg, log, d, w, fault);
        WriteSteady(cfg, r.disk, r.wal, e, fault);
      }
    }
  }

  lemma RotatedWriter(cfg: Config, log: seq<Entry>, d: Disk, w: Writer, fault: Fault)
    requires Appendable(cfg, log, d, w) && w.bytes >= ROTATE_BYTES && Rotate(cfg, d, w, fault).result.Ok?
    ensures var r := Rotate(cfg, d, w, fault);
            r.disk.segs != [] && NewestSeg(r.disk).first == r.wal.current
  {
    hide FilesOk, FileBytes, Rotate, LastWhole;
    RotateOk(cfg, log, d, w, fault);
  }

  /** A mutation, whatever fails in it, keeps the directory in order. */
  lemma MutateSteady(cfg: Config, base: Logical, s: Sys, opId: OpId, op: Operation, fault: Fault)
    requires Inv(cfg, base, s) && Steady(cfg, s) && s.server.Some?
    requires Mutable(cfg, base, s.log, s.disk, s.server.value, opId, op)
    ensures Steady(cfg, Mutated(s, Mutate(cfg, s.disk, s.server.value, opId, op, fault)))
  {
    hide InOrder, FilesOk, LogOk, MemOk, SnapsOk, PlansOk, AppendUnsynced, SyncNewest, ApplyMem, FileBytes, LastWhole,
         Grown, Finite;
    var d, w := s.disk, s.server.value.wal;
    if w.poisoned {
      PoisonedRefuses(cfg, d, w, opId, op, fault);
    } else {
      AppendSteady(cfg, s.log, d, w, opId, op, fault);
      var a := AppendUnsynced(cfg, d, w, opId, op, fault);
      if a.result.Ok? {
        AppendedFiles(cfg, base, s.log, d, s.server.value, opId, op, fault);
        SyncSteady(cfg, s.log + [Entry(|s.log| + 1, opId, op)], a.disk);
        SyncedWriter(a.disk, a.wal);
      }
    }
  }

  lemma SyncedWriter(d: Disk, w: Writer)
    requires d.segs != [] && WriterFirm(d.segs, w) && Firm(NewestSeg(SyncNewest(d)))
    ensures WriterFirm(SyncNewest(d).segs, w) && WriterFirm(SyncNewest(d).segs, w.(poisoned := true))
    ensures WriterFirm(d.segs, w.(poisoned := true))
  {
  }

  // ----- every careful step

  lemma RequestSteady(cfg: Config, base: Logical, s: Sys, a: Action)
    requires Inv(cfg, base, s) && Steady(cfg, s) && Enabled(cfg, s, a) && (a.UpsertBy? || a.DeleteBy?)
    ensures Steady(cfg, Step(cfg, s, a))
  {
    hide LogOk, DiskInv, ServerInv, BaseOk, Mutate, Finite, Steady, Mutated, Lookup;
    match a
    case UpsertBy(opId, key, vector, payload, admitted, fault) =>
      var o := StoreOps.Upsert(cfg, s.disk, s.server.value, opId, key, vector, payload, admitted, fault);
      if Lookup(s.server.value.mem.window, opId).None? && |vector| == cfg.dims && Finite(vector)
          && cfg.prepare(vector).Some? && admitted {
        MutateSteady(cfg, base, s, opId, Operation.Upsert(key, payload, cfg.prepare(vector).value), fault);
      } else {
        Unmoved(cfg, base, s, o);
      }
    case DeleteBy(opId, key, fault) =>
      if Lookup(s.server.value.mem.window, opId).None? {
        MutateSteady(cfg, base, s, opId, Operation.Delete(key), fault);
      } else {
        Unmoved(cfg, base, s, StoreOps.Delete(cfg, s.disk, s.server.value, opId, key, fault));
      }
  }

  lemma SnapSteady(cfg: Config, s: Sys, m: Mem, fault: SnapFault, server: Server)
    requires Steady(cfg, s) && s.server.Some? && m.high <= SureEnd(s.disk) && server.wal == s.server.value.wal
    ensures Steady(cfg, s.(disk := WriteSnap(s.disk, m, fault), server := Some(server)))
  {
    hide InOrder, WriteSnap, SureEnd;
    SnapOrder(cfg, s.disk, m, fault);
    SnapKeepsSegs(s.disk, m, fault);
  }

  lemma FinishSteady(cfg: Config, s: Sys, i: nat, fault: FinishFault)
    requires Steady(cfg, s) && Enabled(cfg, s, FinishPlan(i, fault)) && Careful(cfg, s, FinishPlan(i, fault))
    ensures Steady(cfg, Step(cfg, s, FinishPlan(i, fault)))
  {
    hide Steady, CatchUp, WriteSnap, SureEnd, DropAt;
    var server := s.server.value;
    var staged := CatchUp(cfg, s.disk.segs, 0, server.plans[i], server.plans[i].high, server.mem.high);
    var t := Step(cfg, s, FinishPlan(i, fault));
    if staged.Ok? && staged.value.high == server.mem.high {
      SnapSteady(cfg, s, staged.value, if fault.FinishSnap? then fault.fault else SnapDone, t.server.value);
    } else {
      SameDisk(cfg, s, t);
    }
  }

  lemma SameDisk(cfg: Config, s: Sys, t: Sys)
    requires Steady(cfg, s) && t.disk == s.disk
    requires t.server.Some? ==> s.server.Some? && t.server.value.wal == s.server.value.wal
    ensures Steady(cfg, t)
  {
    hide Orderly, WriterFirm;
  }

  lemma TruncateSteady(cfg: Config, base: Logical, s: Sys, stop: nat, synced: bool)
    requires Enabled(cfg, s, TruncateLog(stop, synced))
    requires Inv(cfg, base, s) && Steady(cfg, s) && s.server.Some? && Backed(cfg, s.disk, s.server.value, stop)
    ensures Steady(cfg, Step(cfg, s, TruncateLog(stop, synced)))
  {
    hide LogOk, MemOk, FilesOk, SnapsOk, PlansOk, WriterOk, LastWhole, Kept, Removed, InOrder, Backed, LinkAll,
         WriterFirm, Orderly;
    hide Husky, CurrentAt, WriterAt;
    var d, server := s.disk, s.server.value;
    WriterPlace(cfg, s.log, d, server.wal);
    var k := KeptIsSuffix(d.segs, 0, CurrentAt(d.segs, server.wal), server.snapHigh, server.wal.current, stop);
    if k > 0 {
      assert Removed(d.segs, 0, server.snapHigh, server.wal.current, stop) == d.segs[..k];
      CutOrder(cfg, base, s, stop, k);
      CutSteady(cfg, d, server.wal, k);
    }
  }

  /** A directory in order without its first segments, their removal synced or
      not. */
  lemma CutSteady(cfg: Config, d: Disk, w: Writer, k: nat)
    requires WriterFirm(d.segs, w) && k <= CurrentAt(d.segs, w)
    requires var cut := d.(segs := d.segs[k..], limbo := d.limbo + d.segs[..k]);
             InOrder(cfg, cut) && !Husky(cut)
    ensures var cut := d.(segs := d.segs[k..], limbo := d.limbo + d.segs[..k]);
            Orderly(cfg, cut) && !Husky(cut) && WriterFirm(cut.segs, w)
    ensures var cut := d.(segs := LinkAll(d.segs[k..]), limbo := []);
            Orderly(cfg, cut) && !Husky(cut) && WriterFirm(cut.segs, w)
  {
    hide InOrder, WriterFirm, LinkAll;
    LinkAllOrder(cfg, d.(segs := d.segs[k..], limbo := d.limbo + d.segs[..k]));
    FirmSuffix(d.segs, w, k);
  }

  lemma CutOrder(cfg: Config, base: Logical, s: Sys, stop: nat, k: nat)
    requires Inv(cfg, base, s) && Steady(cfg, s) && s.server.Some? && Backed(cfg, s.disk, s.server.value, stop)
    requires 0 < k <= CurrentAt(s.disk.segs, s.server.value.wal) < |s.disk.segs|
    requires var d, server := s.disk, s.server.value;
             && Kept(d.segs, 0, server.snapHigh, server.wal.current, stop) == d.segs[k..]
             && Removed(d.segs, 0, server.snapHigh, server.wal.current, stop) == d.segs[..k] != []
    ensures var cut := s.disk.(segs := s.disk.segs[k..], limbo := s.disk.limbo + s.disk.segs[..k]);
            InOrder(cfg, cut) && !Husky(cut)
  {
    hide LogOk, DiskInv, ServerInv, Kept, Removed, DurablyHeld, Covers, InOrder, Backed, LinkAll, CurrentAt;
    var d, server := s.disk, s.server.value;
    var cut := Truncate(d, server, stop, false);
    NewestHeldHere(cfg, d);
    TruncateExactly(cfg, base, s.log, d, server, stop, false, NewestSeg(d).first - 1);
    BackedCovers(cfg, d, server, stop, NewestSeg(d).first - 1);
    DropOrder(cfg, d, k, cut);
    SealedBelow(cfg, d, k - 1);
    assert cut.limbo[|cut.limbo| - 1] == d.segs[k - 1];
  }

  lemma SealedBelow(cfg: Config, d: Disk, i: nat)
    requires InOrder(cfg, d) && i + 1 < |d.segs|
    ensures Sealed(d.segs[i])
  {
    hide DurablyHeld, LimboOk, SnapsSure;
  }

  lemma NewestHeldHere(cfg: Config, d: Disk)
    requires InOrder(cfg, d) && d.segs != []
    ensures NewestSeg(d).first >= 1 && DurablyHeld(cfg, d, NewestSeg(d).first - 1)
  {
    hide DurablyHeld, LimboOk, SnapsSure;
  }

  lemma FirmSuffix(segs: seq<SegFile>, w: Writer, k: nat)
    requires WriterFirm(segs, w) && k <= CurrentAt(segs, w)
    ensures WriterFirm(segs[k..], w) && WriterFirm(LinkAll(segs[k..]), w)
  {
  }

  lemma OpenSteady(cfg: Config, base: Logical, s: Sys, fault: OpenFault)
    requires Inv(cfg, base, s) && Steady(cfg, s) && Enabled(cfg, s, OpenWith(fault)) && Careful(cfg, s, OpenWith(fault))
    ensures Steady(cfg, Step(cfg, s, OpenWith(fault)))
  {
    hide LogOk, DiskInv, ServerInv, InOrder, Resumable, Open;
    if Step(cfg, s, OpenWith(fault)) != s {
      NotHusky(cfg, s.disk);
      OpenOrder(cfg, base, s.log, s.disk, fault);
    }
  }

  /** Every careful step keeps the directory in order. */
  lemma SteadyStep(cfg: Config, base: Logical, s: Sys, a: Action)
    requires Inv(cfg, base, s) && Steady(cfg, s) && Enabled(cfg, s, a) && Careful(cfg, s, a)
    ensures Steady(cfg, Step(cfg, s, a))
  {
    hide Inv, Steady, Mutate, Mutated, WriteSnap, FinishCompaction, Capture, Truncate, Open, PowerLoss, SureEnd,
         Resumable, Backed;
    match a
    case UpsertBy(_, _, _, _, _, _) => RequestSteady(cfg, base, s, a);
    case DeleteBy(_, _, _) => RequestSteady(cfg, base, s, a);
    case SnapshotTo(fault) =>
      SnapSteady(cfg, s, s.server.value.mem, fault, Snapshot(s.disk, s.server.value, fault).1);
    case CaptureAndBuild => SameDisk(cfg, s, Step(cfg, s, a));
    case FinishPlan(i, fault) => FinishSteady(cfg, s, i, fault);
    case TruncateLog(stop, synced) => TruncateSteady(cfg, base, s, stop, synced);
    case OpenWith(fault) => OpenSteady(cfg, base, s, fault);
    case Kill => SameDisk(cfg, s, Step(cfg, s, a));
    case LosePower(after) => LossSteady(cfg, s, after);
    case DamageSnapshot(h) => DamageSteady(cfg, s, h);
  }

  lemma DamageSteady(cfg: Config, s: Sys, h: nat)
    requires Steady(cfg, s) && h in s.disk.snaps && Spares(cfg, s.disk, h)
    ensures Steady(cfg, s.(disk := Damaged(s.disk, h)))
  {
    hide Orderly, Spares, WriterFirm;
    DamageExactly(cfg, s.disk, h);
  }

  lemma LossSteady(cfg: Config, s: Sys, after: Disk)
    requires Steady(cfg, s) && PowerLoss(cfg.crc, s.disk, after)
    ensures Steady(cfg, s.(disk := after, server := None))
  {
    hide InOrder, PowerLoss;
    LossKeepsOrderly(cfg, s.log, s.disk, after);
  }

  // ----- opens

  lemma HuskedInv(cfg: Config, base: Logical, log: seq<Entry>, d: Disk)
    requires DiskInv(cfg, base, log, d) && Husky(d)
    ensures DiskInv(cfg, base, log, Husked(d))
  {
    hide MemOk, SegIn, Reaches;
    var e := Husked(d);
    var n := |d.limbo| - 1;
    var all, rest := d.limbo + d.segs, e.limbo + e.segs;
    forall i | 0 <= i < |rest|
      ensures rest[i] == all[if i < n then i else i + 1]
    {
    }
    forall i | 0 <= i < |rest|
      ensures SegIn(cfg, log, rest[i])
    {
      assert SegIn(cfg, log, all[if i < n then i else i + 1]);
    }
    assert Apart(rest) by { ApartWithout(all, rest, n); }
  }

  lemma ApartWithout(all: seq<SegFile>, rest: seq<SegFile>, n: nat)
    requires Apart(all) && |rest| + 1 == |all| && n < |all|
    requires forall i :: 0 <= i < |rest| ==> rest[i] == all[if i < n then i else i + 1]
    ensures Apart(rest)
  {
  }

  lemma SteadyOpens(cfg: Config, base: Logical, log: seq<Entry>, d: Disk)
    requires DiskInv(cfg, base, log, d) && Orderly(cfg, d)
    ensures Openable(cfg, d) <==> NoHiddenFrame(cfg, d)
  {
    hide DiskInv, InOrder, NoHiddenFrame, AllRead, Continues, HighOver, StartHigh, End;
    if Husky(d) {
      HuskedInv(cfg, base, log, d);
      OrderlyOpens(cfg, base, log, Husked(d));
      HuskedSame(cfg, d);
    } else {
      OrderlyOpens(cfg, base, log, d);
    }
  }

  lemma HuskedSame(cfg: Config, d: Disk)
    requires Husky(d)
    ensures Openable(cfg, Husked(d)) <==> Openable(cfg, d)
    ensures NoHiddenFrame(cfg, Husked(d)) <==> NoHiddenFrame(cfg, d)
  {
    hide NewestGood, AllRead, Continues, HighOver, End;
    assert NewestGood(Husked(d).snaps) == NewestGood(d.snaps);
    SameStart(d, Husked(d));
  }

  /** Along every careful run, with failures at any boundary, kills and power
      losses: whenever nothing is serving, an open succeeds exactly when no
      valid frame starts inside the bytes behind the newest segment's entries. */
  lemma {:induction false} EveryOpenExactly(cfg: Config, base: Logical, states: seq<Sys>, actions: seq<Action>, n: nat)
    requires Run(cfg, states, actions) && Inv(cfg, base, states[0]) && Steady(cfg, states[0]) && n <= |actions|
    requires forall k :: 0 <= k < n ==> Enabled(cfg, states[k], actions[k]) && Careful(cfg, states[k], actions[k])
    ensures Inv(cfg, base, states[n]) && Steady(cfg, states[n])
    ensures Enabled(cfg, states[n], OpenWith(OpenDone)) ==>
      (Step(cfg, states[n], OpenWith(OpenDone)).server.Some? <==> NoHiddenFrame(cfg, states[n].disk))
  {
    hide Inv, Steady, Careful, Step, Enabled, NoHiddenFrame;
    if n > 0 {
      EveryOpenExactly(cfg, base, states, actions, n - 1);
      assert Follows(cfg, states[n - 1], actions[n - 1], states[n - 1 + 1]);
      EveryStep(cfg, base, states[n - 1], actions[n - 1]);
      SteadyStep(cfg, base, states[n - 1], actions[n - 1]);
    }
    if Enabled(cfg, states[n], OpenWith(OpenDone)) {
      OpenIsExact(cfg, base, states[n]);
    }
  }

  lemma OpenIsExact(cfg: Config, base: Logical, s: Sys)
    requires Inv(cfg, base, s) && Steady(cfg, s) && Enabled(cfg, s, OpenWith(OpenDone))
    ensures Step(cfg, s, OpenWith(OpenDone)).server.Some? <==> NoHiddenFrame(cfg, s.disk)
  {
    hide LogOk, DiskInv, ServerInv, ConfigOk, BaseOk, Orderly, NoHiddenFrame, Openable, Step, WriterFirm;
    OpensExactly(cfg, base, s);
    SteadyOpens(cfg, base, s.log, s.disk);
  }

  // ----- runs without faults

  /** Nothing is torn, missing or poisoned, and every rename is durable. */
  ghost predicate Calm(cfg: Config, s: Sys) {
    && Steady(cfg, s) && !Husky(s.disk) && s.disk.before == map[] && s.disk.segs != []
    && Sealed(NewestSeg(s.disk)) && NewestSeg(s.disk).tail == []
       && NewestSeg(s.disk).synced == |NewestSeg(s.disk).entries|
    && (s.server.Some? ==> !s.server.value.wal.poisoned && DurablePoint(cfg, s.disk, s.server.value.snapHigh))
  }

  /** Actions that meet no fault; kills and power losses between them. */
  predicate NoFaults(a: Action) {
    match a
    case UpsertBy(_, _, _, _, _, fault) => fault.NoFault?
    case DeleteBy(_, _, fault) => fault.NoFault?
    case SnapshotTo(fault) => fault.SnapDone?
    case FinishPlan(_, fault) => fault.FinishDone?
    case OpenWith(fault) => fault.OpenDone?
    case DamageSnapshot(_) => false
    case _ => true
  }

  lemma CalmEnd(cfg: Config, base: Logical, s: Sys)
    requires Inv(cfg, base, s) && Calm(cfg, s) && s.server.Some?
    ensures s.server.value.mem.high == |s.log| == SureEnd(s.disk)
  {
    hide LogOk, SnapsOk, MemOk, FileBytes, InOrder, Orderly, DurablePoint, WriterFirm;
    NewestSegIn(cfg, s.log, s.disk);
  }

  /** A mutation that meets no fault ends with its entry synced. */
  lemma CalmMutation(cfg: Config, base: Logical, s: Sys, opId: OpId, op: Operation)
    requires Inv(cfg, base, s) && Calm(cfg, s) && s.server.Some?
    requires Mutable(cfg, base, s.log, s.disk, s.server.value, opId, op)
    ensures Calm(cfg, Mutated(s, Mutate(cfg, s.disk, s.server.value, opId, op, NoFault)))
  {
    hide Inv, Mutate, Steady, Mutable, Grown, DurablePoint, KeepsDurable;
    var o := Mutate(cfg, s.disk, s.server.value, opId, op, NoFault);
    CalmLinked(cfg, s);
    MutateSteady(cfg, base, s, opId, op, NoFault);
    MutateKeeps(cfg, base, s.log, s.disk, s.server.value, opId, op, NoFault);
    MutateShape(cfg, base, s.log, s.disk, s.server.value, opId, op, NoFault);
    NotPoisoned(cfg, base, s, opId, op);
    PointKept(cfg, s.disk, o.disk, s.server.value.snapHigh);
    LoggedSealed(cfg, base, s, opId, op);
    SteadyServes(cfg, Mutated(s, o));
  }

  lemma CalmLinked(cfg: Config, s: Sys)
    requires Calm(cfg, s)
    ensures NewestSeg(s.disk).linked
  {
    hide Steady, DurablePoint;
  }

  lemma PointKept(cfg: Config, d: Disk, d': Disk, h: nat)
    requires KeepsDurable(cfg, d, d') && DurablePoint(cfg, d, h)
    ensures DurablePoint(cfg, d', h)
  {
    hide DurablyIn;
  }

  lemma NotPoisoned(cfg: Config, base: Logical, s: Sys, opId: OpId, op: Operation)
    requires Inv(cfg, base, s) && s.server.Some? && !s.server.value.wal.poisoned
    requires Mutable(cfg, base, s.log, s.disk, s.server.value, opId, op)
    ensures var o := Mutate(cfg, s.disk, s.server.value, opId, op, NoFault);
            !o.server.wal.poisoned && o.server.snapHigh == s.server.value.snapHigh
  {
    hide LogOk, DiskInv, MemOk, PlansOk, FileBytes, FrameOf, LinkAll, ApplyMem, LastWhole;
    AppendsClean(cfg, s.disk, s.server.value.wal, opId, op);
  }

  lemma AppendsClean(cfg: Config, d: Disk, w: Writer, opId: OpId, op: Operation)
    requires d.segs != [] && NewestSeg(d).Whole? && !w.poisoned
    ensures var a := AppendUnsynced(cfg, d, w, opId, op, NoFault);
            && !a.wal.poisoned && (a.result.Ok? ==> a.disk.segs != [] && a.result.value == w.nextSeq)
  {
    hide FrameOf, LinkAll;
  }

  lemma LoggedSealed(cfg: Config, base: Logical, s: Sys, opId: OpId, op: Operation)
    requires Inv(cfg, base, s) && s.disk.segs != [] && Sealed(NewestSeg(s.disk)) && s.server.Some?
    requires Mutable(cfg, base, s.log, s.disk, s.server.value, opId, op) && s.disk.before == map[] && !Husky(s.disk)
    requires var o := Mutate(cfg, s.disk, s.server.value, opId, op, NoFault);
             o.disk == s.disk || Logged(cfg, s.disk, s.server.value.wal, Entry(|s.log| + 1, opId, op), o.disk)
    requires NewestSeg(s.disk).tail == [] && NewestSeg(s.disk).synced == |NewestSeg(s.disk).entries|
    ensures var d := Mutate(cfg, s.disk, s.server.value, opId, op, NoFault).disk;
            && d.segs != [] && Sealed(NewestSeg(d)) && NewestSeg(d).tail == [] && d.before == map[]
            && NewestSeg(d).synced == |NewestSeg(d).entries|
  {
    hide Inv, Mutate, Mutable, LinkAll;
  }

  /** An open that finds everything sealed. */
  lemma CalmOpen(cfg: Config, base: Logical, s: Sys)
    requires Inv(cfg, base, s) && Calm(cfg, s) && Enabled(cfg, s, OpenWith(OpenDone))
    ensures var t := Step(cfg, s, OpenWith(OpenDone));
            t.server.Some? && Calm(cfg, t)
  {
    hide Inv, Steady, DurablePoint, Openable, Step, Repair, StartWriter, Recover, WriterFirm, Orderly;
    var t := Step(cfg, s, OpenWith(OpenDone));
    OpenIsExact(cfg, base, s);
    OpensExactly(cfg, base, s);
    CalmResumes(cfg, s);
    OpenSteady(cfg, base, s, OpenDone);
    NothingTorn(cfg, base, s);
    StartShape(cfg, s.disk, Recover(cfg, s.disk).value);
    OpenKeeps(cfg, base, s, OpenDone);
    OpenedPoint(cfg, s, t);
    SteadyServes(cfg, t);
  }

  lemma SteadyServes(cfg: Config, s: Sys)
    requires Steady(cfg, s)
    ensures s.server.Some? ==> !Husky(s.disk)
  {
    hide Orderly, WriterFirm;
  }

  lemma CalmResumes(cfg: Config, s: Sys)
    requires Calm(cfg, s)
    ensures Resumable(cfg, s.disk) && NoHiddenFrame(cfg, s.disk)
  {
    hide Steady, FileBytes, DurablePoint;
  }

  lemma NothingTorn(cfg: Config, base: Logical, s: Sys)
    requires Inv(cfg, base, s) && Calm(cfg, s)
    ensures Repair(cfg, s.disk) == s.disk
  {
    hide LogOk, SnapsOk, ServerInv, SegIn, Steady, DurablePoint, TornAt, FilesOk;
    SegsOf(cfg, s.log, s.disk);
    IsFile(cfg, s.log, NewestSeg(s.disk));
    ReadsExactly(cfg, NewestSeg(s.disk));
    TornIs(cfg, s.log, s.disk);
  }

  lemma StartShape(cfg: Config, d: Disk, r: Recovered)
    ensures var d' := StartWriter(cfg, d, r, OpenDone).0;
            && (d' == d || (d'.segs != [] && NewestSeg(d') == Whole(r.mem.high + 1, [], [], 0, true, true)))
            && d'.snaps == d.snaps && d'.before == d.before
  {
    hide OpenWriter, LinkAll;
  }

  lemma OpenedPoint(cfg: Config, s: Sys, t: Sys)
    requires t.disk.snaps == s.disk.snaps && t.disk.before == map[] && t.server.Some?
    requires t.server.value.snapHigh == StartHigh(s.disk) && Openable(cfg, s.disk)
    ensures DurablePoint(cfg, t.disk, t.server.value.snapHigh)
  {
    hide AllRead, Continues, HighOver;
  }

  lemma CalmSnapshot(cfg: Config, s: Sys, m: Mem, server: Server)
    requires Calm(cfg, s) && s.server.Some? && m.high <= SureEnd(s.disk)
    requires server.wal == s.server.value.wal && server.snapHigh == m.high
    ensures Calm(cfg, s.(disk := WriteSnap(s.disk, m, SnapDone), server := Some(server)))
  {
    hide Steady, SureEnd;
    SnapSteady(cfg, s, m, SnapDone, server);
  }

  lemma CalmFinish(cfg: Config, base: Logical, s: Sys, i: nat)
    requires Inv(cfg, base, s) && Calm(cfg, s) && Enabled(cfg, s, FinishPlan(i, FinishDone))
    ensures Calm(cfg, Step(cfg, s, FinishPlan(i, FinishDone)))
  {
    hide Inv, Steady, CatchUp, SureEnd, DurablePoint, DropAt, WriteSnap;
    CalmEnd(cfg, base, s);
    var server := s.server.value;
    var t := Step(cfg, s, FinishPlan(i, FinishDone));
    var staged := CatchUp(cfg, s.disk.segs, 0, server.plans[i], server.plans[i].high, server.mem.high);
    if staged.Ok? && staged.value.high == server.mem.high {
      CalmSnapshot(cfg, s, staged.value, t.server.value);
    } else {
      CalmSame(cfg, s, t);
    }
  }

  lemma CalmSame(cfg: Config, s: Sys, t: Sys)
    requires Calm(cfg, s) && t.disk == s.disk
    requires t.server.Some? ==> s.server.Some? && t.server.value.wal == s.server.value.wal
                                && t.server.value.snapHigh == s.server.value.snapHigh
    ensures Calm(cfg, t)
  {
    hide Steady, DurablePoint;
    SameDisk(cfg, s, t);
  }

  lemma CalmTruncate(cfg: Config, base: Logical, s: Sys, stop: nat, synced: bool)
    requires Enabled(cfg, s, TruncateLog(stop, synced))
    requires Inv(cfg, base, s) && Calm(cfg, s)
    ensures Calm(cfg, Step(cfg, s, TruncateLog(stop, synced)))
  {
    hide Inv, Steady, DurablePoint, Truncate;
    SyncedSnapshotBacks(cfg, base, s, stop);
    TruncateSteady(cfg, base, s, stop, synced);
    var d, server := s.disk, s.server.value;
    NewestKept(cfg, base, s, stop, synced);
    TruncateNames(d, server, stop, synced);
    SteadyServes(cfg, Step(cfg, s, TruncateLog(stop, synced)));
    PointHere(cfg, d, Truncate(d, server, stop, synced), server.snapHigh);
  }

  /** Truncation leaves a linked newest segment as it is. */
  lemma NewestKept(cfg: Config, base: Logical, s: Sys, stop: nat, synced: bool)
    requires Inv(cfg, base, s) && s.server.Some? && s.disk.segs != [] && Sealed(NewestSeg(s.disk))
    ensures var d' := Truncate(s.disk, s.server.value, stop, synced);
            d'.segs != [] && NewestSeg(d') == NewestSeg(s.disk)
  {
    hide LogOk, MemOk, FilesOk, SnapsOk, PlansOk, WriterOk, LastWhole, Kept, Removed, CurrentAt, WriterAt, LinkAll,
         Sealed;
    var d, server := s.disk, s.server.value;
    WriterPlace(cfg, s.log, d, server.wal);
    var k := KeptIsSuffix(d.segs, 0, CurrentAt(d.segs, server.wal), server.snapHigh, server.wal.current, stop);
    NewestLinked(d.segs, k);
  }

  lemma NewestLinked(segs: seq<SegFile>, k: nat)
    requires k < |segs| && Sealed(segs[|segs| - 1])
    ensures var kept := segs[k..]; kept[|kept| - 1] == LinkAll(kept)[|kept| - 1] == segs[|segs| - 1]
  {
  }

  lemma TruncateNames(d: Disk, s: Server, stop: nat, synced: bool)
    ensures Truncate(d, s, stop, synced).snaps == d.snaps && Truncate(d, s, stop, synced).before == d.before
  {
    hide Kept, Removed, LinkAll;
  }

  lemma PointHere(cfg: Config, d: Disk, d': Disk, h: nat)
    requires d'.snaps == d.snaps && d'.before == d.before && DurablePoint(cfg, d, h)
    ensures DurablePoint(cfg, d', h)
  {
  }

  lemma CalmLoss(cfg: Config, s: Sys, after: Disk)
    requires Calm(cfg, s) && PowerLoss(cfg.crc, s.disk, after)
    ensures Calm(cfg, s.(disk := after, server := None))
  {
    hide Steady, InOrder, PowerLoss, MayLeave, DurablePoint;
    LossSteady(cfg, s, after);
    CalmOrder(cfg, s);
    LossKeepsOrderly(cfg, s.log, s.disk, after);
    LossAscends(cfg.crc, s.disk, after);
    LinkedSurvives(cfg, s.disk, after);
    NewestSurvives(cfg, s.disk, after);
    SealedSurvives(cfg.crc, NewestSeg(s.disk), NewestSeg(after));
  }

  lemma CalmOrder(cfg: Config, s: Sys)
    requires Calm(cfg, s)
    ensures InOrder(cfg, s.disk) && Orderly(cfg, s.disk)
  {
    hide InOrder, DurablePoint, WriterFirm;
  }

  lemma CalmRequest(cfg: Config, base: Logical, s: Sys, a: Action)
    requires Inv(cfg, base, s) && Calm(cfg, s) && Enabled(cfg, s, a) && NoFaults(a) && (a.UpsertBy? || a.DeleteBy?)
    ensures Calm(cfg, Step(cfg, s, a))
  {
    hide LogOk, DiskInv, ServerInv, BaseOk, Mutate, Finite, Calm, Mutated, Lookup;
    match a
    case UpsertBy(opId, key, vector, payload, admitted, fault) =>
      var o := StoreOps.Upsert(cfg, s.disk, s.server.value, opId, key, vector, payload, admitted, fault);
      if Lookup(s.server.value.mem.window, opId).None? && |vector| == cfg.dims && Finite(vector)
          && cfg.prepare(vector).Some? && admitted {
        CalmMutation(cfg, base, s, opId, Operation.Upsert(key, payload, cfg.prepare(vector).value));
      } else {
        Unmoved(cfg, base, s, o);
      }
    case DeleteBy(opId, key, fault) =>
      if Lookup(s.server.value.mem.window, opId).None? {
        CalmMutation(cfg, base, s, opId, Operation.Delete(key));
      } else {
        Unmoved(cfg, base, s, StoreOps.Delete(cfg, s.disk, s.server.value, opId, key, fault));
      }
  }

  /** Each step that meets no fault, power loss and truncation included, leaves
      everything sealed; an open among them succeeds. */
  lemma CalmStep(cfg: Config, base: Logical, s: Sys, a: Action)
    requires Inv(cfg, base, s) && Calm(cfg, s) && Enabled(cfg, s, a) && NoFaults(a)
    ensures Calm(cfg, Step(cfg, s, a))
    ensures a.OpenWith? ==> Step(cfg, s, a).server.Some?
  {
    hide Inv, Calm, Mutate, Mutated, WriteSnap, FinishCompaction, Capture, Truncate, Open, PowerLoss, SureEnd;
    match a
    case UpsertBy(_, _, _, _, _, _) => CalmRequest(cfg, base, s, a);
    case DeleteBy(_, _, _) => CalmRequest(cfg, base, s, a);
    case SnapshotTo(_) =>
      CalmEnd(cfg, base, s);
      CalmSnapshot(cfg, s, s.server.value.mem, Snapshot(s.disk, s.server.value, SnapDone).1);
    case CaptureAndBuild => CalmSame(cfg, s, Step(cfg, s, a));
    case FinishPlan(i, _) => CalmFinish(cfg, base, s, i);
    case TruncateLog(stop, synced) => CalmTruncate(cfg, base, s, stop, synced);
    case OpenWith(_) => CalmOpen(cfg, base, s);
    case Kill => CalmSame(cfg, s, Step(cfg, s, a));
    case LosePower(after) => CalmLoss(cfg, s, after);
  }

  lemma CreatedCalm(cfg: Config, vectors: seq<Vector>, keys: seq<Bytes>, s: Sys)
    requires Created(cfg, vectors, keys, None, SnapDone, s)
    ensures Calm(cfg, s)
  {
    hide Created, Safe, Calm;
    CreatedIs(cfg, vectors, keys, s);
    CreatedSafe(cfg, vectors, keys, None, SnapDone, s);
    SafeHeld(cfg, s);
    NewCalm(cfg, s);
  }

  /** A server over a directory with one empty segment and no snapshot but one
      of nothing. */
  ghost predicate New(cfg: Config, s: Sys) {
    && s.disk.segs == [Whole(1, [], [], 0, true, true)] && s.disk.limbo == [] && s.disk.before == map[]
    && (forall h :: h in s.disk.snaps ==> h == 0)
    && s.server.Some? && s.server.value.wal == Writer(1, HEADER_LEN, 1, false) && s.server.value.snapHigh == 0
    && DurablePoint(cfg, s.disk, 0) && s.acked == 0
  }

  lemma CreatedIs(cfg: Config, vectors: seq<Vector>, keys: seq<Bytes>, s: Sys)
    requires Created(cfg, vectors, keys, None, SnapDone, s)
    ensures New(cfg, s)
  {
    hide BulkLoaded, Frames;
    BulkHigh(vectors, keys);
    assert LinkAll([]) == [];
  }

  lemma NewCalm(cfg: Config, s: Sys)
    requires New(cfg, s) && DurablyHeld(cfg, s.disk, 0)
    ensures Calm(cfg, s)
  {
    hide DurablyHeld, DurablePoint;
  }

  /** So does a partition whose creation failed, or that was bulk-loaded with
      its snapshot durable, start in order. */
  lemma CreatedSteady(cfg: Config, vectors: seq<Vector>, keys: seq<Bytes>, made: Option<Made>, snap: SnapFault, s: Sys)
    requires Created(cfg, vectors, keys, made, snap, s)
    requires cfg.baseSnapshot ==> made.None? && (snap.SnapDone? || snap.AfterRename?)
    ensures Steady(cfg, s)
  {
    hide Created, Safe, Steady, Calm, DurablyHeld;
    CreatedSafe(cfg, vectors, keys, made, snap, s);
    SafeHeld(cfg, s);
    CreatedFiles(cfg, vectors, keys, made, snap, s);
    BlankSteady(cfg, s);
  }

  /** At most one segment, empty, and no snapshot but one of nothing. */
  ghost predicate Empty(s: Sys) {
    && |s.disk.segs| <= 1 && (forall i :: 0 <= i < |s.disk.segs| ==>
          && s.disk.segs[i].first == 1 && EntriesOf(s.disk.segs[i]) == []
          && (s.disk.segs[i].Whole? ==> s.disk.segs[i].tail == []))
    && s.disk.limbo == [] && s.acked == 0
    && (forall h :: h in s.disk.snaps || h in s.disk.before ==> h == 0)
    && (s.server.Some? ==> s.disk.segs != [] && Firm(s.disk.segs[0]) && s.server.value.wal.current == 1)
  }

  lemma CreatedFiles(cfg: Config, vectors: seq<Vector>, keys: seq<Bytes>, made: Option<Made>, snap: SnapFault, s: Sys)
    requires Created(cfg, vectors, keys, made, snap, s)
    ensures Empty(s)
  {
    hide BulkLoaded, HeaderOf;
    BulkHigh(vectors, keys);
    assert LinkAll([]) == [];
  }

  lemma BlankSteady(cfg: Config, s: Sys)
    requires Empty(s) && DurablyHeld(cfg, s.disk, 0)
    ensures Steady(cfg, s)
  {
    hide DurablyHeld;
  }

  lemma SafeHeld(cfg: Config, s: Sys)
    requires Safe(cfg, s)
    ensures DurablyHeld(cfg, s.disk, s.acked)
  {
    hide DurablyHeld, Founded;
  }

  /** Along a run that starts with a partition being created or bulk-loaded and
      meets no fault, however often the process is killed or the power is lost
      between operations, every open succeeds. */
  lemma {:induction false} EveryOpenSucceeds(cfg: Config, vectors: seq<Vector>, keys: seq<Bytes>, states: seq<Sys>,
                                             actions: seq<Action>, n: nat)
    requires Run(cfg, states, actions) && Created(cfg, vectors, keys, None, SnapDone, states[0]) && n <= |actions|
    requires forall i :: 0 <= i < n ==> NoFaults(actions[i])
    requires cfg.baseSnapshot ==> UniqueKeys(keys) && |vectors| == |keys|
    ensures Inv(cfg, Base(cfg, vectors, keys), states[n]) && Calm(cfg, states[n])
    ensures n > 0 && actions[n - 1].OpenWith? ==> states[n].server.Some?
  {
    hide Inv, Calm, NoFaults, Step, Enabled, Created, Base;
    if n == 0 {
      CreatedInv(cfg, vectors, keys, None, SnapDone, states[0]);
      CreatedCalm(cfg, vectors, keys, states[0]);
    } else {
      EveryOpenSucceeds(cfg, vectors, keys, states, actions, n - 1);
      assert Follows(cfg, states[n - 1], actions[n - 1], states[n - 1 + 1]);
      EveryStep(cfg, Base(cfg, vectors, keys), states[n - 1], actions[n - 1]);
      CalmStep(cfg, Base(cfg, vectors, keys), states[n - 1], actions[n - 1]);
    }
  }
}
