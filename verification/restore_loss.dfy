/** A run after which the archived directory opens and restoring it loses an
    acknowledged entry. */
module RestoreLoss {
  import opened Words
  import opened WalCodec
  import opened WalSegment
  import opened LogFold
  import opened PartitionState
  import opened Disk
  import opened StoreOps
  import opened Recovery
  import opened Directory
  import opened Serving
  import opened Opening
  import opened Durability
  import opened System
  import opened Reopening
  import opened Orderliness
  import opened Smooth
  import opened Filling
  import opened Findings
  import opened Restoring
  import A = Archive

  /** The key of most deletes, and of the one that makes the segment full. */
  function Short(): Bytes { [0] }

  function Long(): Bytes { seq(100, _ => 0) }

  /** The first segment made full by a delete that was not synced. */
  function Full(n: nat): SegFile {
    Whole(1, Deletes(n, Short()) + [Nth(n, Long())], [], n, false, true)
  }

  /** A file created for the sequence after it, without a byte of its header. */
  function Husk(n: nat, linked: bool): SegFile {
    Headless(n + 2, [], linked)
  }

  // ----- what opens

  lemma EarlyHeld(cfg: Config, d: Disk)
    requires !cfg.baseSnapshot && d.segs != [] && d.segs[0].Whole? && d.segs[0].first == 1
    ensures Held(cfg, d, EndOf(d.segs[0]))
  {
    forall s: nat | 0 < s <= EndOf(d.segs[0])
      ensures InFiles(d.segs, s)
    {
      assert Holds(d.segs[0], s);
    }
    assert Point(cfg, d, 0) && HeldFrom(d.segs, 0, EndOf(d.segs[0]));
  }

  lemma FileReads(cfg: Config, log: seq<Entry>, f: SegFile, active: bool)
    requires SegIn(cfg, log, f) && (if f.Whole? then f.tail == [] else active)
    ensures ReadFile(cfg.crc, cfg.id, f, active).Ok?
  {
    hide Frames, HeaderOf, ReadSegment, AllZero;
    if f.Whole? {
      WholeSegment(cfg.crc, cfg.id, f.first, f.entries, active);
      assert FileBytes(cfg.crc, cfg.id, f) == HeaderOf(cfg.id, f.first) + Frames(cfg.crc, f.entries);
    } else {
      HeadlessRead(cfg.crc, cfg.id, f.first, f.junk, active);
    }
  }

  /** A first segment without a tail, alone or with a husk behind it, opens where
      no snapshot is ahead of it. */
  lemma FirstOpens(cfg: Config, log: seq<Entry>, d: Disk)
    requires FilesOk(cfg, log, d) && !cfg.baseSnapshot && d.segs != [] && |d.segs| <= 2
    requires d.segs[0].Whole? && d.segs[0].first == 1 && d.segs[0].tail == []
    requires (|d.segs| == 2 ==> d.segs[1].Headless?) && StartHigh(d) <= EndOf(d.segs[0])
    ensures Openable(cfg, d) && End(d.segs) == EndOf(d.segs[0])
  {
    hide FilesOk, ReadFile, StartHigh, SegIn, Held, LastWhole, Openable;
    SegsOf(cfg, log, d);
    forall j | 0 <= j < |d.segs|
      ensures ReadFile(cfg.crc, cfg.id, d.segs[j], j == |d.segs| - 1).Ok?
    {
      assert SegIn(cfg, log, d.segs[j]);
      FileReads(cfg, log, d.segs[j], j == |d.segs| - 1);
    }
    EndIs(d.segs, 0);
    EarlyHeld(cfg, d);
    HeldOpens(cfg, log, d);
  }

  // ----- the delete that makes the segment full, and the header that is cut

  lemma FullBytes(cfg: Config, n: nat)
    ensures |FileBytes(cfg.crc, cfg.id, Full(n))| == Length(cfg, Short(), n) + 135
  {
    hide FrameOf, Frames, HeaderOf, FileBytes, Deletes;
    LongerFile(cfg, Filled(n, Short()), Nth(n, Long()));
    DeleteFrame(cfg.crc, n, Long());
  }

  lemma OneShort(cfg: Config, n: nat)
    ensures Length(cfg, Short(), n + 1) == Length(cfg, Short(), n) + 36
  {
    hide FrameOf, Length;
    LengthGrows(cfg, Short(), n);
    DeleteFrame(cfg.crc, n, Short());
  }

  /** The delete is appended, its sync fails, and the process dies. */
  lemma FillsUnsynced(cfg: Config, n: nat, s: Sys) returns (s1: Sys, s2: Sys)
    requires Inv(cfg, EMPTY, s) && Brimming(cfg, Short(), 2, n, s)
    ensures Follows(cfg, s, DeleteBy(IdOf(n), Long(), SyncFails), s1) && Follows(cfg, s1, Kill, s2)
    ensures Inv(cfg, EMPTY, s2) && s2.disk == Disk([Full(n)], [], map[], map[])
    ensures s2 == Sys(s2.disk, None, Deletes(n, Short()) + [Nth(n, Long())], n) && n + 3 < 0x1_0000_0000
  {
    hide Inv, Calm, FrameOf, FileBytes, Lookup, Mutate, Grown, Length;
    LengthMono(cfg, Short(), n, n + 2);
    FewDeletes(cfg, Short(), n + 2);
    FreshId(cfg, EMPTY, Short(), n, s);
    LengthIs(cfg, Short(), n);
    DeleteInPlace(cfg, s.disk, s.server.value, Long(), n, Filled(n, Short()), SyncFails);
    GrownByOne(s.log, Full(n), Nth(n, Long()));
    var a := DeleteBy(IdOf(n), Long(), SyncFails);
    s1 := Step(cfg, s, a);
    EveryStep(cfg, EMPTY, s, a);
    KillStep(cfg, s1);
    s2 := s1.(server := None);
    EveryStep(cfg, EMPTY, s1, Kill);
  }

  lemma LengthIs(cfg: Config, key: Bytes, n: nat)
    ensures Length(cfg, key, n) == |FileBytes(cfg.crc, cfg.id, Filled(n, key))|
  {
  }

  lemma InvParts(cfg: Config, base: Logical, s: Sys)
    requires Inv(cfg, base, s)
    ensures FilesOk(cfg, s.log, s.disk) && DiskInv(cfg, base, s.log, s.disk) && LogOk(cfg, s.log) && BaseOk(cfg, base)
  {
  }

  /** Opening on a full segment, creating the next one fails before any byte of
      its header is written. */
  lemma CreateCut(cfg: Config, d: Disk, r: Recovered)
    requires d.segs != [] && StartWriter(cfg, d, r, OpenDone).1.Ok?
    requires |FileBytes(cfg.crc, cfg.id, NewestSeg(d))| >= ROTATE_BYTES
    ensures StartWriter(cfg, d, r, OpenCreateFails(PartHeader(0)))
         == (d.(segs := d.segs + [Headless(r.mem.high + 1, [], false)]), Err(IoFailed))
  {
    hide FileBytes, ReadFile, HeaderOf;
  }

  lemma OpensOnto(cfg: Config, n: nat, s: Sys) returns (t: Sys)
    requires Inv(cfg, EMPTY, s) && s.server.None? && s.disk == Disk([Full(n)], [], map[], map[]) && !cfg.baseSnapshot
    requires |s.log| < 0x1_0000_0002 && |FileBytes(cfg.crc, cfg.id, Full(n))| >= ROTATE_BYTES
    ensures Follows(cfg, s, OpenWith(OpenCreateFails(PartHeader(0))), t)
    ensures Inv(cfg, EMPTY, t) && t == s.(disk := Disk([Full(n), Husk(n, false)], [], map[], map[]))
  {
    hide Inv, FileBytes, Repair, Recover, StartWriter, Openable, End, StartHigh, FilesOk, DiskInv;
    var a := OpenWith(OpenCreateFails(PartHeader(0)));
    OpenEnabled(cfg, s);
    InvParts(cfg, EMPTY, s);
    NoSnapshots(cfg, s.disk);
    FirstOpens(cfg, s.log, s.disk);
    OpensExactly(cfg, EMPTY, s);
    WholeNotTorn(cfg, EMPTY, s);
    OpenIs(cfg, s.disk);
    StartedIs(cfg, s.disk, Recover(cfg, s.disk).value);
    CreateCut(cfg, s.disk, Recover(cfg, s.disk).value);
    t := Step(cfg, s, a);
    EveryStep(cfg, EMPTY, s, a);
    assert [Full(n)] + [Husk(n, false)] == [Full(n), Husk(n, false)];
  }

  // ----- the first power loss and the repair that is stopped

  /** The power loss takes the unsynced delete and leaves the husk. */
  lemma LosesDelete(cfg: Config, n: nat, s: Sys) returns (t: Sys)
    requires Inv(cfg, EMPTY, s) && s.disk == Disk([Full(n), Husk(n, false)], [], map[], map[])
    ensures Follows(cfg, s, LosePower(t.disk), t) && Inv(cfg, EMPTY, t)
    ensures t == Sys(Disk([Filled(n, Short()), Husk(n, true)], [], map[], map[]), None, s.log, s.acked)
  {
    hide Inv, DiskInv;
    var after := Disk([Filled(n, Short()), Husk(n, true)], [], map[], map[]);
    t := s.(disk := after, server := None);
    InvParts(cfg, EMPTY, s);
    DropsLast(cfg, s.log, n, s.disk);
    LossOf(cfg, s.disk, after);
    EveryStep(cfg, EMPTY, s, LosePower(after));
  }

  lemma DropsLast(cfg: Config, log: seq<Entry>, n: nat, d: Disk)
    requires FilesOk(cfg, log, d) && d.segs == [Full(n), Husk(n, false)]
    ensures MayLeave(cfg.crc, Full(n), Filled(n, Short())) && MayLeave(cfg.crc, Husk(n, false), Husk(n, true))
  {
    SegsOf(cfg, log, d);
    assert SegIn(cfg, log, d.segs[0]) && SegIn(cfg, log, d.segs[1]);
    NumberedPrefix(Full(n).entries, 1, n);
    assert Full(n).entries[..n] == Deletes(n, Short());
  }

  /** A power loss that leaves something of each of two files. */
  lemma LossOf(cfg: Config, d: Disk, after: Disk)
    requires |d.segs| == |after.segs| == 2 && after.segs[0].first < after.segs[1].first
    requires MayLeave(cfg.crc, d.segs[0], after.segs[0]) && MayLeave(cfg.crc, d.segs[1], after.segs[1])
    requires after.snaps == d.snaps && d.before == after.before == map[] && after.limbo == []
    ensures PowerLoss(cfg.crc, d, after)
  {
    hide MayLeave;
    assert d.segs[0] in d.segs && d.segs[1] in d.segs && after.segs[0] in after.segs && after.segs[1] in after.segs;
  }

  /** An open stopped after it removed the husk and before it synced that. */
  lemma StopsRepair(cfg: Config, n: nat, s: Sys) returns (t: Sys)
    requires Inv(cfg, EMPTY, s) && s.server.None? && !cfg.baseSnapshot && |s.log| < 0x1_0000_0002
    requires s.disk == Disk([Filled(n, Short()), Husk(n, true)], [], map[], map[])
    ensures Follows(cfg, s, OpenWith(MidRepair), t) && Inv(cfg, EMPTY, t)
    ensures t == s.(disk := Disk([Filled(n, Short())], [Husk(n, true)], map[], map[]))
  {
    hide Inv, FileBytes, Recover, Openable, End, StartHigh, FilesOk, DiskInv, HalfRepair, Repair, StartWriter;
    InvParts(cfg, EMPTY, s);
    NoSnapshots(cfg, s.disk);
    FirstOpens(cfg, s.log, s.disk);
    RecoverExactly(cfg, EMPTY, s.log, s.disk);
    HuskRemoved(cfg, s.disk);
    t := Step(cfg, s, OpenWith(MidRepair));
    EveryStep(cfg, EMPTY, s, OpenWith(MidRepair));
    assert [Filled(n, Short()), Husk(n, true)][..1] == [Filled(n, Short())];
    assert [] + [Husk(n, true)] == [Husk(n, true)];
  }

  lemma HuskRemoved(cfg: Config, d: Disk)
    requires d.segs != [] && NewestSeg(d).Headless? && NewestSeg(d).junk == []
    ensures HalfRepair(cfg, d) == d.(segs := d.segs[..|d.segs| - 1], limbo := d.limbo + [NewestSeg(d)])
  {
    hide ReadSegment;
    HeadlessRead(cfg.crc, cfg.id, NewestSeg(d).first, [], true);
  }

  // ----- the sequence is written elsewhere

  /** The next open goes on writing the first segment. */
  lemma GoesOn(cfg: Config, n: nat, s: Sys) returns (t: Sys)
    requires Inv(cfg, EMPTY, s) && s.server.None? && !cfg.baseSnapshot && n < |s.log| < 0x1_0000_0002
    requires s.disk == Disk([Filled(n, Short())], [Husk(n, true)], map[], map[])
    requires s.log[..n] == Deletes(n, Short()) && Length(cfg, Short(), n) < ROTATE_BYTES
    ensures Follows(cfg, s, OpenWith(OpenDone), t) && Inv(cfg, EMPTY, t)
    ensures t.disk == s.disk && t.log == Deletes(n, Short()) && t.acked == s.acked && t.server.Some?
    ensures t.server.value.wal == Writer(1, Length(cfg, Short(), n), n + 1, false)
  {
    hide Inv, FileBytes, Openable, End, StartHigh, FilesOk, DiskInv, Step, Enabled, WithSegment;
    InvParts(cfg, EMPTY, s);
    NoSnapshots(cfg, s.disk);
    FirstOpens(cfg, s.log, s.disk);
    OpenEnabled(cfg, s);
    WholeOpens(cfg, EMPTY, s);
    LengthIs(cfg, Short(), n);
    t := Step(cfg, s, OpenWith(OpenDone));
  }

  /** An acknowledged delete in the first segment, whatever else is there. */
  lemma DeletesOn(cfg: Config, n: nat, s: Sys) returns (t: Sys)
    requires Inv(cfg, EMPTY, s) && s.server.Some? && s.disk.segs == [Filled(n, Short())] && n < 0x1_0000_0000
    requires s.log == Deletes(n, Short()) && Length(cfg, Short(), n) < ROTATE_BYTES
    requires s.server.value.wal == Writer(1, Length(cfg, Short(), n), n + 1, false)
    ensures Follows(cfg, s, DeleteBy(IdOf(n), Short(), NoFault), t) && Inv(cfg, EMPTY, t)
    ensures t.disk == s.disk.(segs := [Filled(n + 1, Short())]) && t.log == Deletes(n + 1, Short()) && t.acked == n + 1
    ensures t.server.Some? && t.server.value.wal == Writer(1, Length(cfg, Short(), n + 1), n + 2, false)
  {
    hide Inv, FrameOf, FileBytes, Lookup, Mutate, Grown, Length;
    FreshId(cfg, EMPTY, Short(), n, s);
    DeleteInPlace(cfg, s.disk, s.server.value, Short(), n, Filled(n, Short()), NoFault);
    DeletesGrow(n, Short());
    LengthGrows(cfg, Short(), n);
    GrownByOne(s.log, Filled(n + 1, Short()), Nth(n, Short()));
    var a := DeleteBy(IdOf(n), Short(), NoFault);
    t := Step(cfg, s, a);
    EveryStep(cfg, EMPTY, s, a);
  }

  /** What the run ends with: two deletes more in the first segment, a snapshot
      of the first of them, and the husk back. */
  ghost predicate Shadowy(n: nat, s: Sys) {
    && s.disk.segs == [Filled(n + 2, Short()), Husk(n, true)] && s.disk.limbo == [] && s.disk.before == map[]
    && (exists m :: s.disk.snaps == map[n + 1 := SnapFile(m, true)])
    && s.server.None? && s.log == Deletes(n + 2, Short()) && s.acked == n + 2
  }

  lemma WritesElsewhere(cfg: Config, n: nat, s: Sys) returns (s1: Sys, s2: Sys, s3: Sys, t: Sys)
    requires Inv(cfg, EMPTY, s) && s.server.Some? && n + 2 < 0x1_0000_0000 && Length(cfg, Short(), n + 2) < ROTATE_BYTES
    requires s.disk == Disk([Filled(n, Short())], [Husk(n, true)], map[], map[]) && s.log == Deletes(n, Short())
    requires s.server.value.wal == Writer(1, Length(cfg, Short(), n), n + 1, false)
    ensures Follows(cfg, s, DeleteBy(IdOf(n), Short(), NoFault), s1) && Follows(cfg, s1, SnapshotTo(SnapDone), s2)
    ensures Follows(cfg, s2, DeleteBy(IdOf(n + 1), Short(), NoFault), s3) && Follows(cfg, s3, LosePower(t.disk), t)
    ensures Inv(cfg, EMPTY, t) && Shadowy(n, t)
  {
    hide Inv, Step, Enabled, Length, FileBytes;
    OneShort(cfg, n);
    OneShort(cfg, n + 1);
    s1 := DeletesOn(cfg, n, s);
    ServedHigh(cfg, EMPTY, s1);
    SnapStep(cfg, s1, SnapDone);
    s2 := Step(cfg, s1, SnapshotTo(SnapDone));
    EveryStep(cfg, EMPTY, s1, SnapshotTo(SnapDone));
    s3 := DeletesOn(cfg, n + 1, s2);
    t := HuskReturns(cfg, n, s3, s1.server.value.mem);
  }

  /** The removal of the husk was never synced: a power loss brings it back. */
  lemma HuskReturns(cfg: Config, n: nat, s: Sys, m: Mem) returns (t: Sys)
    requires Inv(cfg, EMPTY, s) && s.disk.segs == [Filled(n + 2, Short())] && s.disk.limbo == [Husk(n, true)]
    requires s.disk.snaps == map[n + 1 := SnapFile(m, true)] && s.disk.before == map[]
    ensures Follows(cfg, s, LosePower(t.disk), t) && Inv(cfg, EMPTY, t) && t.log == s.log && t.acked == s.acked
    ensures t.server.None? && t.disk == Disk([Filled(n + 2, Short()), Husk(n, true)], [], s.disk.snaps, map[])
  {
    hide Inv, DiskInv;
    var after := Disk([Filled(n + 2, Short()), Husk(n, true)], [], s.disk.snaps, map[]);
    t := s.(disk := after, server := None);
    InvParts(cfg, EMPTY, s);
    assert s.disk.limbo + s.disk.segs == [Husk(n, true), Filled(n + 2, Short())];
    assert SegIn(cfg, s.log, (s.disk.limbo + s.disk.segs)[0]) && SegIn(cfg, s.log, (s.disk.limbo + s.disk.segs)[1]);
    BothCome(cfg, s.disk, after);
    EveryStep(cfg, EMPTY, s, LosePower(after));
  }

  /** A power loss after which a durable segment and a removed file are there. */
  lemma BothCome(cfg: Config, d: Disk, after: Disk)
    requires |d.segs| == |d.limbo| == 1 && |after.segs| == 2 && after.segs[0].first < after.segs[1].first
    requires MayLeave(cfg.crc, d.segs[0], after.segs[0]) && MayLeave(cfg.crc, d.limbo[0], after.segs[1])
    requires after.snaps == d.snaps && d.before == after.before == map[] && after.limbo == []
    ensures PowerLoss(cfg.crc, d, after)
  {
    hide MayLeave;
    assert d.segs[0] in d.segs && d.limbo[0] in d.limbo && after.segs[0] in after.segs;
  }

  // ----- the restore

  /** The archived rows of that directory. */
  function Rows(n: nat): seq<A.Row> {
    [A.Row(Some(A.Manifest), true, None, 0), A.Row(Some(A.WalSegment), false, Some(1), 1),
     A.Row(Some(A.WalSegment), false, Some(n + 2), 2), A.Row(Some(A.Part.Snapshot), false, Some(n + 1), 3)]
  }

  lemma RowsSegments(n: nat)
    ensures A.Segments(Rows(n)) == [Rows(n)[1], Rows(n)[2]]
  {
    var rows := Rows(n);
    assert rows[..3][..2][..1] == rows[..1] && rows[..3][..2] == rows[..2];
    assert A.Segments(rows[..1]) == [] && A.Segments(rows[..2]) == [rows[1]];
    assert A.Segments(rows[..3]) == [rows[1], rows[2]];
  }

  lemma RowsManifest(n: nat)
    ensures A.LastManifest(Rows(n)) == Some(Rows(n)[0])
  {
    var rows := Rows(n);
    assert rows[..3][..2][..1] == rows[..1] && rows[..3][..2] == rows[..2];
    assert A.LastManifest(rows[..1]) == Some(rows[0]) && A.LastManifest(rows[..2]) == Some(rows[0]);
    assert A.LastManifest(rows[..3]) == Some(rows[0]);
  }

  lemma ShadowyStart(n: nat, s: Sys)
    requires Shadowy(n, s)
    ensures NewestGood(s.disk.snaps) == Some(n + 1) && StartHigh(s.disk) == n + 1
  {
    assert n + 1 in s.disk.snaps && s.disk.snaps[n + 1].good;
  }

  lemma RowsRecorded(n: nat, s: Sys)
    requires Shadowy(n, s)
    ensures Archived(Rows(n), s.disk)
  {
    hide A.Segments, NewestGood;
    var rows, d := Rows(n), s.disk;
    ShadowyStart(n, s);
    RowsSegments(n);
    assert [] + [rows[1], rows[2]] == [rows[1], rows[2]];
    assert SegmentsRecorded(rows, d, [], [rows[1], rows[2]]);
    assert NamesSnapshot(rows, n + 1) by {
      assert rows[3].part == Some(A.Part.Snapshot) && A.FirstOf(rows[3]) == n + 1;
    }
  }

  /** Restoring it leaves the husk and the snapshot: it opens, and one
      acknowledged delete is gone. */
  lemma RestoresLess(cfg: Config, n: nat, s: Sys)
    requires Inv(cfg, EMPTY, s) && Shadowy(n, s) && !cfg.baseSnapshot
    ensures Openable(cfg, s.disk) && Archived(Rows(n), s.disk)
    ensures var r := Restored(s.disk, A.RestoreRows(Rows(n), Rows(n)[0]));
            Openable(cfg, r) && End(r.segs) == n + 1 && !RecoversSame(cfg, EMPTY, s.log, s.disk, r)
  {
    hide Inv, Openable, End, StartHigh, FilesOk, DiskInv, RecoversSame, Shape, Archived, A.RestoreRows, Restored, SegIn;
    var d, r := s.disk, Restored(s.disk, A.RestoreRows(Rows(n), Rows(n)[0]));
    InvParts(cfg, EMPTY, s);
    FilesAscend(cfg, s.log, d);
    ShadowyStart(n, s);
    FirstOpens(cfg, s.log, d);
    RowsRecorded(n, s);
    RestoreRecoversSame(cfg, EMPTY, s.log, d, Rows(n), Rows(n)[0]);
    InvFiles(cfg, EMPTY, s.log, r);
    var k := RestoredShape(Rows(n), Rows(n)[0], d);
    ShadowedShape(d, r, k);
    HuskOnly(cfg, s.log, n, d, r, k);
  }

  lemma HuskOnly(cfg: Config, log: seq<Entry>, n: nat, d: Disk, r: Disk, k: nat)
    requires FilesOk(cfg, log, r) && Drops(d, r, k) && Shadows(d, k) && !cfg.baseSnapshot
    requires d.segs == [Filled(n + 2, Short()), Husk(n, true)] && NewestGood(d.snaps) == Some(n + 1)
    ensures Openable(cfg, r) && End(r.segs) == n + 1
  {
    hide FilesOk, ReadFile, NewestGood, Openable, End;
    assert d.segs[1..] == [Husk(n, true)] && LinkAll(d.segs[1..]) == [Husk(n, true)];
    assert r.segs == [Husk(n, true)];
    SegsOf(cfg, log, r);
    FileReads(cfg, log, r.segs[0], true);
    HeadlessEnds(r.segs[0]);
    assert Point(cfg, r, n + 1) && HeldFrom(r.segs, n + 1, n + 1);
    HeldOpens(cfg, log, r);
  }

  /** The run: deletes until one more makes the segment full; that one is not
      synced, and the process dies. An open fails while it creates the next
      segment; a power loss takes the unsynced delete. The next open stops in
      the middle of removing the header-less file; another goes on with the
      first segment and acknowledges two deletes, a snapshot between them, and a
      power loss brings the file back. The directory then opens; what an archive
      of it restores opens too, without the last acknowledged delete. */
  lemma RestoreLosesAcked(cfg: Config) returns (n: nat, k: nat, states: seq<Sys>, actions: seq<Action>)
    requires ConfigOk(cfg) && !cfg.baseSnapshot
    ensures Run(cfg, states, actions) && Created(cfg, [], [], None, SnapDone, states[0]) && |actions| == k + 10
    ensures forall i :: 0 <= i < k ==> NoFaults(actions[i])
    ensures actions[k] == DeleteBy(IdOf(n), Long(), SyncFails)
            && actions[k + 1..k + 3] == [Kill, OpenWith(OpenCreateFails(PartHeader(0)))]
            && actions[k + 3].LosePower? && actions[k + 4..k + 6] == [OpenWith(MidRepair), OpenWith(OpenDone)]
            && NoFaults(actions[k + 6]) && NoFaults(actions[k + 7]) && NoFaults(actions[k + 8])
            && actions[k + 9].LosePower?
    ensures var s := states[k + 10];
            var r := Restored(s.disk, A.RestoreRows(Rows(n), Rows(n)[0]));
            && Openable(cfg, s.disk) && s.acked == |s.log| == End(s.disk.segs)
            && Archived(Rows(n), s.disk) && A.LastManifest(Rows(n)) == Some(Rows(n)[0])
            && Openable(cfg, r) && End(r.segs) == s.acked - 1 && !RecoversSame(cfg, EMPTY, s.log, s.disk, r)
  {
    hide Inv, Created, Calm, Step, Enabled, Length, Follows, Holding, ConfigOk, Run, Openable, RecoversSame, Restored;
    hide Archived, A.RestoreRows, A.LastManifest, End;
    FreshCreated(cfg);
    EmptyLength(cfg, Short());
    OneShort(cfg, 0);
    OneShort(cfg, 1);
    var filled, deletes;
    n, filled, deletes := Fill(cfg, Short(), 2);
    RunShape(cfg, filled, deletes);
    var s0 := filled[|deletes|];
    var rest, last := Unfolds(cfg, n, s0);
    RunShape(cfg, rest, last);
    JoinRuns(cfg, filled, deletes, rest, last);
    k, states, actions := |deletes|, filled + rest[1..], deletes + last;
    assert actions[k + 1..k + 3] == last[1..3] && actions[k + 4..k + 6] == last[4..6];
    RestoresLess(cfg, n, rest[10]);
    RowsManifest(n);
    FirstEnds(n, rest[10]);
  }

  lemma FirstEnds(n: nat, s: Sys)
    requires Shadowy(n, s)
    ensures End(s.disk.segs) == n + 2
  {
    EndIs(s.disk.segs, 0);
  }

  /** The run from the brimming segment on. */
  lemma Unfolds(cfg: Config, n: nat, s: Sys) returns (states: seq<Sys>, actions: seq<Action>)
    requires Inv(cfg, EMPTY, s) && Brimming(cfg, Short(), 2, n, s) && !cfg.baseSnapshot
    ensures Run(cfg, states, actions) && states[0] == s && |actions| == 10
    ensures actions[0] == DeleteBy(IdOf(n), Long(), SyncFails)
            && actions[1..3] == [Kill, OpenWith(OpenCreateFails(PartHeader(0)))]
            && actions[3].LosePower? && actions[4..6] == [OpenWith(MidRepair), OpenWith(OpenDone)]
            && NoFaults(actions[6]) && NoFaults(actions[7]) && NoFaults(actions[8]) && actions[9].LosePower?
    ensures Inv(cfg, EMPTY, states[10]) && Shadowy(n, states[10])
  {
    hide Inv, Step, Enabled, Length, Follows, Run, Holding, Shadowy, Brimming;
    var states1, actions1 := LeavesHusk(cfg, n, s);
    RunShape(cfg, states1, actions1);
    BrimmingRoom(cfg, n, s);
    var s1, s2, s3, t := WritesElsewhere(cfg, n, states1[6]);
    var states2 := [states1[6], s1, s2, s3, t];
    var actions2 := [DeleteBy(IdOf(n), Short(), NoFault), SnapshotTo(SnapDone), DeleteBy(IdOf(n + 1), Short(), NoFault),
                     LosePower(t.disk)];
    RunOf(cfg, states2, actions2);
    JoinRuns(cfg, states1, actions1, states2, actions2);
    states, actions := states1 + states2[1..], actions1 + actions2;
    assert actions[1..3] == actions1[1..3] && actions[4..6] == actions1[4..6];
  }

  lemma BrimmingRoom(cfg: Config, n: nat, s: Sys)
    requires Brimming(cfg, Short(), 2, n, s)
    ensures Length(cfg, Short(), n) < ROTATE_BYTES && Length(cfg, Short(), n + 2) < ROTATE_BYTES
    ensures |FileBytes(cfg.crc, cfg.id, Full(n))| >= ROTATE_BYTES && n + 3 < 0x1_0000_0000
  {
    hide Holding, Length, FileBytes;
    LengthMono(cfg, Short(), n, n + 2);
    FewDeletes(cfg, Short(), n + 2);
    OneShort(cfg, n);
    OneShort(cfg, n + 1);
    OneShort(cfg, n + 2);
    FullBytes(cfg, n);
  }

  /** The run up to the open that goes on with the first segment. */
  lemma LeavesHusk(cfg: Config, n: nat, s: Sys) returns (states: seq<Sys>, actions: seq<Action>)
    requires Inv(cfg, EMPTY, s) && Brimming(cfg, Short(), 2, n, s) && !cfg.baseSnapshot
    ensures Run(cfg, states, actions) && states[0] == s && |actions| == 6
    ensures actions[0] == DeleteBy(IdOf(n), Long(), SyncFails)
            && actions[1..3] == [Kill, OpenWith(OpenCreateFails(PartHeader(0)))]
            && actions[3].LosePower? && actions[4..6] == [OpenWith(MidRepair), OpenWith(OpenDone)]
    ensures var t := states[6];
            && Inv(cfg, EMPTY, t) && t.server.Some? && t.log == Deletes(n, Short())
            && t.disk == Disk([Filled(n, Short())], [Husk(n, true)], map[], map[])
            && t.server.value.wal == Writer(1, Length(cfg, Short(), n), n + 1, false)
  {
    hide Inv, Step, Enabled, Length, Follows, Run, Brimming, FileBytes;
    BrimmingRoom(cfg, n, s);
    var s1, s2 := FillsUnsynced(cfg, n, s);
    var s3 := OpensOnto(cfg, n, s2);
    var s4 := LosesDelete(cfg, n, s3);
    var s5 := StopsRepair(cfg, n, s4);
    assert (Deletes(n, Short()) + [Nth(n, Long())])[..n] == Deletes(n, Short());
    var s6 := GoesOn(cfg, n, s5);
    states := [s, s1, s2, s3, s4, s5, s6];
    actions := [DeleteBy(IdOf(n), Long(), SyncFails), Kill, OpenWith(OpenCreateFails(PartHeader(0))),
                LosePower(s4.disk), OpenWith(MidRepair), OpenWith(OpenDone)];
    RunOf(cfg, states, actions);
  }
}
