/** Exactly when a snapshot is safe to take: whether some power loss can leave
    it ahead of the log it is recovered with. */
module SnapshotAhead {
  import opened Words
  import opened WalCodec
  import opened WalSegment
  import opened LogFold
  import opened PartitionState
  import opened Disk
  import opened StoreOps
  import opened Recovery
  import opened Directory
  import opened Serving
  import opened Upkeep
  import opened Opening
  import opened Durability
  import opened CatchingUp
  import opened System
  import opened Reopening
  import opened Orderliness
  import opened Smooth

  /** Every directory a power loss may leave opens, but for a valid frame hidden
      behind its newest segment's entries. */
  ghost predicate LossesOpen(cfg: Config, d: Disk) {
    forall after :: PowerLoss(cfg.crc, d, after) ==> (Openable(cfg, after) <==> NoHiddenFrame(cfg, after))
  }

  // ----- the loss that keeps the snapshot and least of the segments

  function Least(d: Disk): Disk {
    Disk(Durable(d.segs), [], d.snaps, map[])
  }

  lemma LeastIsLoss(cfg: Config, log: seq<Entry>, d: Disk)
    requires FilesOk(cfg, log, d)
    ensures PowerLoss(cfg.crc, d, Least(d))
  {
    hide MayLeave, SegIn, Apart, Ascending;
    SegsOf(cfg, log, d);
    forall i | 0 <= i < |d.segs|
      ensures FileOk(cfg.crc, d.segs[i])
    {
      IsFile(cfg, log, d.segs[i]);
    }
    DurableMembers(cfg.crc, d.segs);
    DurableAscends(cfg.crc, d.segs);
  }

  lemma {:induction false} SealedDurable(crc: Checksum, segs: seq<SegFile>)
    requires forall i :: 0 <= i < |segs| ==> Sealed(segs[i])
    ensures Durable(segs) == segs
  {
    if segs != [] {
      var n := |segs| - 1;
      SealedDurable(crc, segs[..n]);
      assert segs == segs[..n] + [segs[n]] && Sealed(segs[n]);
    }
  }

  lemma SyncedIs(crc: Checksum, f: SegFile)
    requires FileOk(crc, f) && f.linked
    ensures Synced(f).first == f.first
    ensures if Firm(f) then Synced(f).Whole? && Synced(f).tail == [] && EndOf(Synced(f)) == f.first - 1 + f.synced
            else Synced(f).Headless?
  {
  }

  lemma DurableLast(cfg: Config, d: Disk)
    requires SegsOrderly(cfg, d) && d.segs != []
    ensures var init := d.segs[..|d.segs| - 1];
            Durable(d.segs) == if NewestSeg(d).linked then init + [Synced(NewestSeg(d))] else init
  {
    hide DurablyHeld, Synced, Firm, Blank;
    SealedDurable(cfg.crc, d.segs[..|d.segs| - 1]);
  }

  /** Cut back to what is durable, the segments of a directory in order end where
      they are sure to, and nothing is behind the entries of the newest. */
  lemma LeastEnd(cfg: Config, log: seq<Entry>, d: Disk)
    requires FilesOk(cfg, log, d) && InOrder(cfg, d)
    ensures End(Durable(d.segs)) == SureEnd(d) && NoHiddenFrame(cfg, Least(d))
  {
    hide FilesOk, LimboOk, SnapsSure, LastWhole, Synced, Durable, End, SegsOrderly;
    if d.segs == [] {
      NoEnd();
      SealedDurable(cfg.crc, []);
    } else {
      var n := |d.segs| - 1;
      SegsOf(cfg, log, d);
      IsFile(cfg, log, d.segs[n]);
      if n > 0 {
        IsFile(cfg, log, d.segs[n - 1]);
      }
      BeforeLast(cfg, d);
      DurableLast(cfg, d);
      LastCut(cfg, d.segs[..n], d.segs[n]);
    }
  }

  /** What becomes of the newest file. */
  lemma LastCut(cfg: Config, init: seq<SegFile>, f: SegFile)
    requires FileOk(cfg.crc, f) && (!Firm(f) ==> End(init) == f.first - 1)
    requires init != [] ==> LastWhole(init) >= 0 && init[|init| - 1].Whole? && init[|init| - 1].tail == []
    ensures var segs := if f.linked then init + [Synced(f)] else init;
            && End(segs) == f.first - 1 + (if Firm(f) then f.synced else 0)
            && (segs == [] || segs[|segs| - 1].Headless? || segs[|segs| - 1].tail == [])
  {
    hide FileOk, LastWhole, Synced, End;
    if f.linked {
      SyncedIs(cfg.crc, f);
      EndBehind(init, Synced(f));
    }
  }

  /** Where the segments before the newest of a directory in order end. */
  lemma BeforeLast(cfg: Config, d: Disk)
    requires SegsOrderly(cfg, d) && d.segs != []
    requires |d.segs| > 1 ==> FileOk(cfg.crc, d.segs[|d.segs| - 2])
    ensures var init := d.segs[..|d.segs| - 1];
            && (init != [] ==> LastWhole(init) >= 0 && init[|init| - 1].Whole? && init[|init| - 1].tail == [])
            && (!Firm(NewestSeg(d)) ==> End(init) == NewestSeg(d).first - 1)
  {
    hide DurablyHeld, Firm, Ascending, FileOk;
    assert |d.segs| > 1 ==> Sealed(d.segs[|d.segs| - 2]);
    InitEnd(cfg, d.segs[..|d.segs| - 1]);
  }

  lemma NoEnd()
    ensures End([]) == 0
  {
  }

  lemma InitEnd(cfg: Config, segs: seq<SegFile>)
    requires segs != [] ==> Sealed(segs[|segs| - 1]) && FileOk(cfg.crc, segs[|segs| - 1])
    ensures segs == [] ==> End(segs) == 0
    ensures segs != [] ==> End(segs) == EndOf(segs[|segs| - 1]) && LastWhole(segs) >= 0
                           && segs[|segs| - 1].Whole? && segs[|segs| - 1].tail == []
  {
  }

  lemma EndBehind(init: seq<SegFile>, f: SegFile)
    requires init != [] ==> LastWhole(init) >= 0
    ensures End(init + [f]) == if f.Whole? || init == [] then EndOf(f) else End(init)
  {
    hide LastWhole;
    EndAppend(init, f);
    if init == [] {
      assert init + [f] == [f];
      OneEnd(f);
    }
  }

  lemma OneEnd(f: SegFile)
    ensures End([f]) == EndOf(f)
  {
  }

  // ----- a snapshot of a state

  lemma LossesOpenOrderly(cfg: Config, base: Logical, log: seq<Entry>, d: Disk)
    requires DiskInv(cfg, base, log, d) && Orderly(cfg, d)
    ensures LossesOpen(cfg, d)
  {
    hide DiskInv, Orderly, Openable, NoHiddenFrame, PowerLoss;
    forall after | PowerLoss(cfg.crc, d, after)
      ensures Openable(cfg, after) <==> NoHiddenFrame(cfg, after)
    {
      AfterLoss(cfg, base, log, d, after);
      LossKeepsOrderly(cfg, log, d, after);
      OrderlyOpens(cfg, base, log, after);
    }
  }

  lemma AheadRefuses(cfg: Config, base: Logical, log: seq<Entry>, d: Disk, m: Mem, fault: SnapFault)
    requires DiskInv(cfg, base, log, d) && InOrder(cfg, d) && DiskInv(cfg, base, log, WriteSnap(d, m, fault))
    requires !fault.BeforeRename? && m.high > SureEnd(d)
    ensures !LossesOpen(cfg, WriteSnap(d, m, fault))
  {
    hide InOrder, SureEnd, FilesOk, SnapsOk, Openable, NoHiddenFrame, PowerLoss, Durable, End, StartHigh, Held;
    var d' := WriteSnap(d, m, fault);
    var after := Least(d');
    LeastIsLoss(cfg, log, d');
    LeastEnd(cfg, log, d);
    StartsThere(after, m.high);
    AfterLoss(cfg, base, log, d', after);
    InvFiles(cfg, base, log, after);
    HeldOpens(cfg, log, after);
    HiddenSame(cfg, after, Least(d));
  }

  lemma StartsThere(d: Disk, h: nat)
    requires h in d.snaps && d.snaps[h].good
    ensures StartHigh(d) >= h
  {
  }

  lemma HiddenSame(cfg: Config, d: Disk, d': Disk)
    requires d.segs == d'.segs
    ensures NoHiddenFrame(cfg, d) <==> NoHiddenFrame(cfg, d')
  {
  }

  /** Writing a snapshot of a state to a directory in order, whatever fails in
      it, leaves one that every power loss leaves openable exactly when it does
      not come to the rename, or the segments are sure to reach the state. */
  lemma WriteSnapExactly(cfg: Config, base: Logical, log: seq<Entry>, d: Disk, m: Mem, fault: SnapFault)
    requires DiskInv(cfg, base, log, d) && InOrder(cfg, d) && !Husky(d)
    requires DiskInv(cfg, base, log, WriteSnap(d, m, fault))
    ensures LossesOpen(cfg, WriteSnap(d, m, fault)) <==> fault.BeforeRename? || m.high <= SureEnd(d)
  {
    hide DiskInv, InOrder, SureEnd, LossesOpen, WriteSnap, Husky;
    if fault.BeforeRename? || m.high <= SureEnd(d) {
      SnapLeaves(cfg, d, m, fault);
      LossesOpenOrderly(cfg, base, log, WriteSnap(d, m, fault));
    } else {
      AheadRefuses(cfg, base, log, d, m, fault);
    }
  }

  lemma SnapLeaves(cfg: Config, d: Disk, m: Mem, fault: SnapFault)
    requires InOrder(cfg, d) && !Husky(d) && (fault.BeforeRename? || m.high <= SureEnd(d))
    ensures Orderly(cfg, WriteSnap(d, m, fault))
  {
    hide InOrder, SureEnd;
    if !fault.BeforeRename? {
      SnapOrder(cfg, d, m, fault);
    }
  }

  /** A snapshot on demand. */
  lemma SnapshotExactly(cfg: Config, base: Logical, s: Sys, fault: SnapFault)
    requires Enabled(cfg, s, SnapshotTo(fault)) && Inv(cfg, base, s) && Steady(cfg, s)
    ensures LossesOpen(cfg, Step(cfg, s, SnapshotTo(fault)).disk)
       <==> fault.BeforeRename? || s.server.value.mem.high <= SureEnd(s.disk)
  {
    hide LogOk, DiskInv, ServerInv, ConfigOk, BaseOk, InOrder, SureEnd, LossesOpen, WriteSnap, WriterFirm;
    Upkeep.SnapshotOk(cfg, base, s.log, s.disk, s.server.value, fault);
    WriteSnapExactly(cfg, base, s.log, s.disk, s.server.value.mem, fault);
  }

  /** The snapshot that finishes a compaction: there is none where the log no
      longer holds what the rebuilt state lacks. */
  lemma FinishSnapshotExactly(cfg: Config, base: Logical, s: Sys, i: nat, fault: FinishFault)
    requires Enabled(cfg, s, FinishPlan(i, fault)) && Inv(cfg, base, s) && Steady(cfg, s)
    ensures LossesOpen(cfg, Step(cfg, s, FinishPlan(i, fault)).disk)
       <==> !CanFinish(cfg, s.disk, s.server.value, i) || fault == FinishSnap(BeforeRename)
            || s.server.value.mem.high <= SureEnd(s.disk)
  {
    hide LogOk, DiskInv, ServerInv, ConfigOk, BaseOk, InOrder, SureEnd, LossesOpen, WriteSnap, WriterFirm, CatchUp,
         CanFinish;
    var d, server := s.disk, s.server.value;
    FinishOk(cfg, base, s.log, d, server, i, fault);
    CatchesUpExactly(cfg, base, s.log, d, server, i);
    if CanFinish(cfg, d, server, i) {
      var staged := CatchUp(cfg, d.segs, 0, server.plans[i], server.plans[i].high, server.mem.high).value;
      WriteSnapExactly(cfg, base, s.log, d, staged, if fault.FinishSnap? then fault.fault else SnapDone);
    } else {
      LossesOpenOrderly(cfg, base, s.log, d);
    }
  }
}
