/** Runs in which something acknowledged is lost, or an open refuses, although
    every step follows the code. Each needs a failure before the power loss. */
module Findings {
  import opened Words
  import opened WalCodec
  import opened WalSegment
  import opened LogFold
  import opened PartitionState
  import opened Disk
  import opened StoreOps
  import opened Recovery
  import opened Directory
  import opened Serving
  import opened Opening
  import opened Durability
  import opened System
  import opened Runs
  import opened Reopening
  import opened Orderliness
  import opened Smooth
  import opened Filling

  // ----- steps the runs are made of

  lemma KillStep(cfg: Config, s: Sys)
    ensures Follows(cfg, s, Kill, s.(server := None))
  {
  }

  /** What an open of a directory whose newest segment is whole comes to: a
      small segment is continued, behind a full one a new segment starts. */
  ghost predicate Continued(cfg: Config, s: Sys, t: Sys)
    requires s.disk.segs != [] && t.server.Some?
  {
    var w, newest := t.server.value.wal, NewestSeg(s.disk);
    if |FileBytes(cfg.crc, cfg.id, newest)| < ROTATE_BYTES then
      && t.disk == s.disk && w.current == newest.first && w.bytes == |FileBytes(cfg.crc, cfg.id, newest)|
    else
      && t.disk == WithSegment(s.disk, End(s.disk.segs) + 1)
      && w.current == End(s.disk.segs) + 1 && w.bytes == HEADER_LEN
  }

  /** Such an open succeeds wherever the files hold the log. */
  lemma WholeOpens(cfg: Config, base: Logical, s: Sys)
    requires Enabled(cfg, s, OpenWith(OpenDone)) && s.disk.segs != []
    requires NewestSeg(s.disk).Whole? && NewestSeg(s.disk).tail == []
    requires Inv(cfg, base, s) && Openable(cfg, s.disk)
    ensures var t := Step(cfg, s, OpenWith(OpenDone));
            && t.server.Some? && Inv(cfg, base, t)
            && t.log == Upto(s.log, t.server.value.mem.high) && t.acked == s.acked
            && t.server.value.mem.high == End(s.disk.segs) && t.server.value.snapHigh == StartHigh(s.disk)
            && !t.server.value.wal.poisoned && t.server.value.wal.nextSeq == |t.log| + 1
            && Continued(cfg, s, t)
  {
    hide Inv, Openable, Repair, Recover, StartHigh, End, FileBytes, WithSegment, StartWriter, Open;
    var t := Step(cfg, s, OpenWith(OpenDone));
    OpensExactly(cfg, base, s);
    OpenKeeps(cfg, base, s, OpenDone);
    WholeNotTorn(cfg, base, s);
    OpenIs(cfg, s.disk);
    StartedIs(cfg, s.disk, Recover(cfg, s.disk).value);
    WriterHere(cfg, s.disk, Recover(cfg, s.disk).value);
  }

  /** So it does in a directory in order. */
  lemma SmallOpens(cfg: Config, base: Logical, s: Sys)
    requires Enabled(cfg, s, OpenWith(OpenDone)) && s.disk.segs != []
    requires NewestSeg(s.disk).Whole? && NewestSeg(s.disk).tail == []
    requires Inv(cfg, base, s) && Steady(cfg, s)
    ensures var t := Step(cfg, s, OpenWith(OpenDone));
            && t.server.Some? && Inv(cfg, base, t)
            && t.log == Upto(s.log, t.server.value.mem.high) && t.acked == s.acked
            && t.server.value.mem.high == End(s.disk.segs) && t.server.value.snapHigh == StartHigh(s.disk)
            && !t.server.value.wal.poisoned && t.server.value.wal.nextSeq == |t.log| + 1
            && Continued(cfg, s, t)
  {
    hide Inv, Steady, Openable, Step, Enabled, StartHigh, End, NoHiddenFrame, Continued;
    WholeHides(cfg, s.disk);
    OpenIsExact(cfg, base, s);
    OpensExactly(cfg, base, s);
    WholeOpens(cfg, base, s);
  }

  lemma WholeHides(cfg: Config, d: Disk)
    requires d.segs != [] && NewestSeg(d).Whole? && NewestSeg(d).tail == []
    ensures NoHiddenFrame(cfg, d)
  {
  }

  lemma WholeNotTorn(cfg: Config, base: Logical, s: Sys)
    requires Inv(cfg, base, s) && s.disk.segs != [] && NewestSeg(s.disk).Whole? && NewestSeg(s.disk).tail == []
    ensures Repair(cfg, s.disk) == s.disk
  {
    hide LogOk, SnapsOk, ServerInv, SegIn, TornAt, FilesOk;
    SegsOf(cfg, s.log, s.disk);
    IsFile(cfg, s.log, NewestSeg(s.disk));
    ReadsExactly(cfg, NewestSeg(s.disk));
    TornIs(cfg, s.log, s.disk);
  }

  lemma WriterHere(cfg: Config, d: Disk, r: Recovered)
    requires d.segs != [] && StartWriter(cfg, d, r, OpenDone).1.Ok?
    ensures var (d', s) := StartWriter(cfg, d, r, OpenDone);
            var small := |FileBytes(cfg.crc, cfg.id, NewestSeg(d))| < ROTATE_BYTES;
            && d' == (if small then d else WithSegment(d, r.mem.high + 1))
            && s.value.wal.current == (if small then NewestSeg(d).first else r.mem.high + 1)
            && (small ==> s.value.wal.bytes == |FileBytes(cfg.crc, cfg.id, NewestSeg(d))|)
            && (!small ==> s.value.wal.bytes == HEADER_LEN)
            && s.value.wal.nextSeq == r.mem.high + 1
  {
    hide FileBytes, ReadFile, WithSegment;
  }

  lemma LoseWorst(cfg: Config, base: Logical, s: Sys)
    requires Inv(cfg, base, s)
    ensures Follows(cfg, s, LosePower(WorstLoss(s.disk)), s.(disk := WorstLoss(s.disk), server := None))
  {
    hide LogOk, SnapsOk, ServerInv, PowerLoss, FilesOk;
    WorstIsLoss(cfg, s.log, s.disk);
  }

  /** Files that do not hold the log to their end keep a partition shut. */
  lemma Refuses(cfg: Config, base: Logical, s: Sys)
    requires Inv(cfg, base, s) && s.server.None? && Enabled(cfg, s, OpenWith(OpenDone))
    requires StartHigh(s.disk) > End(s.disk.segs) || (End(s.disk.segs) >= 0 && !Held(cfg, s.disk, End(s.disk.segs)))
    ensures Step(cfg, s, OpenWith(OpenDone)).server.None?
  {
    hide LogOk, SnapsOk, ServerInv, FilesOk, Held, End, StartHigh, Step;
    HeldOpens(cfg, s.log, s.disk);
    OpensExactly(cfg, base, s);
  }

  lemma NoSnapshots(cfg: Config, d: Disk)
    requires d.snaps == map[]
    ensures StartHigh(d) == 0
  {
  }

  lemma OneSnapshot(d: Disk, h: nat, m: Mem)
    requires d.snaps == map[h := SnapFile(m, true)]
    ensures StartHigh(d) == h
  {
    assert h in d.snaps && d.snaps[h].good;
  }

  lemma ShortFile(cfg: Config, key: Bytes, f: SegFile, i: nat)
    requires KeyOk(key) && f.Whole? && f.tail == [] && (f.entries == [] || f.entries == [Nth(i, key)])
    ensures |FileBytes(cfg.crc, cfg.id, f)| < ROTATE_BYTES
  {
    hide FrameOf, HeaderOf;
    DeleteFrame(cfg.crc, i, key);
    FramesCons(cfg.crc, Nth(i, key), []);
    NoFrames(cfg.crc);
    assert [Nth(i, key)] + [] == [Nth(i, key)];
  }

  lemma CapacityOk(cfg: Config)
    requires ConfigOk(cfg)
    ensures cfg.capacity >= 1
  {
  }

  // ----- an entry replayed without being synced

  function One(key: Bytes, synced: bool, linked: bool): Disk {
    Disk([Whole(1, [Nth(0, key)], [], if synced then 1 else 0, synced, linked)], [], map[], map[])
  }

  /** A delete is appended, its sync fails, the process dies, and an open
      replays the entry without syncing it. */
  lemma ReplayedUnsynced(cfg: Config, key: Bytes) returns (s1: Sys, s2: Sys, s3: Sys)
    requires ConfigOk(cfg) && !cfg.baseSnapshot && KeyOk(key)
    ensures Created(cfg, [], [], None, SnapDone, Fresh(true))
            && Follows(cfg, Fresh(true), DeleteBy(IdOf(0), key, SyncFails), s1)
    ensures Follows(cfg, s1, Kill, s2) && Follows(cfg, s2, OpenWith(OpenDone), s3)
    ensures Inv(cfg, EMPTY, s3) && Steady(cfg, s3) && s3.server.Some? && !s3.server.value.wal.poisoned
    ensures s3.disk == One(key, false, true) && s3.log == [Nth(0, key)] && s3.acked == 0
  {
    hide Inv, Created, Step, Enabled, Steady, ConfigOk, Calm, Length, StartHigh, End, Resumable;
    var s0 := Fresh(true);
    FreshCreated(cfg);
    FreshHolding(cfg, key);
    EmptyLength(cfg, key);
    var a := DeleteBy(IdOf(0), key, SyncFails);
    DeleteStep(cfg, EMPTY, key, 0, s0, SyncFails);
    s1 := Step(cfg, s0, a);
    EveryStep(cfg, EMPTY, s0, a);
    CalmSteady(cfg, s0);
    SteadyStep(cfg, EMPTY, s0, a);
    assert Deletes(1, key) == [Nth(0, key)];
    KillStep(cfg, s1);
    s2 := s1.(server := None);
    FollowsSteady(cfg, EMPTY, s1, Kill, s2);
    OpenEnabled(cfg, s2);
    SmallOpens(cfg, EMPTY, s2);
    ShortFile(cfg, key, NewestSeg(s2.disk), 0);
    s3 := Step(cfg, s2, OpenWith(OpenDone));
    OneEnds(s2.disk);
    SmallResumes(cfg, s2.disk);
    FollowsSteady(cfg, EMPTY, s2, OpenWith(OpenDone), s3);
  }

  lemma CalmSteady(cfg: Config, s: Sys)
    requires Calm(cfg, s)
    ensures Steady(cfg, s)
  {
    hide Steady;
  }

  lemma FollowsSteady(cfg: Config, base: Logical, s: Sys, a: Action, t: Sys)
    requires Inv(cfg, base, s) && Steady(cfg, s) && Follows(cfg, s, a, t)
    requires a.Kill? || a.LosePower? || (a.OpenWith? && Resumable(cfg, s.disk))
             || (a.SnapshotTo? && s.server.value.mem.high <= SureEnd(s.disk))
    ensures Inv(cfg, base, t) && Steady(cfg, t)
  {
    hide Inv, Steady, Step, Resumable, SureEnd;
    EveryStep(cfg, base, s, a);
    SteadyStep(cfg, base, s, a);
  }

  lemma OpenEnabled(cfg: Config, s: Sys)
    requires s.server.None? && |s.log| < 0x1_0000_0002
    ensures Enabled(cfg, s, OpenWith(OpenDone))
  {
  }

  lemma OneEnds(d: Disk)
    requires |d.segs| == 1 && d.segs[0].Whole?
    ensures End(d.segs) == EndOf(d.segs[0])
  {
  }

  lemma SmallResumes(cfg: Config, d: Disk)
    requires !Husky(d) && d.segs != [] && Firm(NewestSeg(d))
             && |FileBytes(cfg.crc, cfg.id, NewestSeg(d))| < ROTATE_BYTES
    ensures Resumable(cfg, d)
  {
  }

  lemma WorstOfUnsynced(key: Bytes, snaps: map<nat, SnapFile>)
    ensures WorstLoss(One(key, false, true).(snaps := snaps))
            == Disk([Whole(1, [], [], 0, true, true)], [], snaps, map[])
  {
    assert Durable([]) == [];
    assert [Nth(0, key)][..0] == [];
    assert [] + [Whole(1, [], [], 0, true, true)] == [Whole(1, [], [], 0, true, true)];
    assert WorstSnaps(One(key, false, true).(snaps := snaps)) == snaps;
  }

  /** A delete is logged, its sync fails, and the process dies. The reopened
      partition replays the entry and answers the client's retry from the
      window as done; it never synced the entry, and a power loss takes it. */
  lemma RetriedEntryIsLost(cfg: Config, key: Bytes) returns (states: seq<Sys>, actions: seq<Action>)
    requires ConfigOk(cfg) && !cfg.baseSnapshot && KeyOk(key)
    ensures |actions| == 6 && Run(cfg, states, actions) && Created(cfg, [], [], None, SnapDone, states[0])
    ensures actions[3] == DeleteBy(IdOf(0), key, NoFault) && states[3].server.Some? && states[3].disk.segs != []
    ensures StoreOps.Delete(cfg, states[3].disk, states[3].server.value, IdOf(0), key, NoFault).result
            == Ok(Reply(1, true))
    ensures states[6].server.Some? && states[6].log == [] && !Held(cfg, states[6].disk, 1)
  {
    hide Inv, Created, Step, Enabled, Steady, ConfigOk, End, StartHigh, Held, WorstLoss;
    hide FileBytes, WithSegment;
    var s1, s2, s3 := ReplayedUnsynced(cfg, key);
    var retry, open, loss := DeleteBy(IdOf(0), key, NoFault), OpenWith(OpenDone), LosePower(WorstLoss(s3.disk));
    DeleteEnabled(cfg, s3, key);
    ServedHigh(cfg, EMPTY, s3);
    CapacityOk(cfg);
    RetryReturnsOriginal(cfg, EMPTY, s3, 0, retry);
    LoseWorst(cfg, EMPTY, s3);
    WorstOfUnsynced(key, map[]);
    assert One(key, false, true).(snaps := map[]) == s3.disk;
    var s5 := s3.(disk := WorstLoss(s3.disk), server := None);
    FollowsSteady(cfg, EMPTY, s3, loss, s5);
    OpenEnabled(cfg, s5);
    SmallOpens(cfg, EMPTY, s5);
    ShortFile(cfg, key, NewestSeg(s5.disk), 0);
    OneEnds(s5.disk);
    var s6 := Step(cfg, s5, open);
    InNoFile(s6.disk.segs, 1);
    Missing(cfg, s6.disk, 1, 1);
    states, actions := [Fresh(true), s1, s2, s3, s3, s5, s6],
        [DeleteBy(IdOf(0), key, SyncFails), Kill, open, retry, loss, open];
    RunOf(cfg, states, actions);
  }

  lemma DeleteEnabled(cfg: Config, s: Sys, key: Bytes)
    requires s.server.Some? && s.disk.segs != [] && |s.log| <= 1
    ensures Enabled(cfg, s, DeleteBy(IdOf(0), key, NoFault))
  {
  }

  /** An entry in no segment, with no snapshot over it, is not held, nor is
      anything after it. */
  lemma Missing(cfg: Config, d: Disk, s: nat, n: nat)
    requires 0 < s <= n && d.snaps == map[] && !InFiles(d.segs, s)
    ensures !Held(cfg, d, n)
  {
    forall h: nat | Point(cfg, d, h)
      ensures !HeldFrom(d.segs, h, n)
    {
      assert !InFiles(d.segs, s);
    }
  }

  lemma InNoFile(segs: seq<SegFile>, s: nat)
    requires forall i :: 0 <= i < |segs| ==> segs[i].Headless? || s < segs[i].first || s > EndOf(segs[i])
    ensures !InFiles(segs, s)
  {
  }

  lemma RunOf(cfg: Config, states: seq<Sys>, actions: seq<Action>)
    requires |states| == |actions| + 1
    requires forall i, j :: 0 <= i < |actions| && j == i + 1 ==> Follows(cfg, states[i], actions[i], states[j])
    ensures Run(cfg, states, actions)
  {
    hide Follows;
  }

  /** As before, an open replays an entry without syncing it; then a snapshot
      freezes a state that includes it, and a power loss takes the entry from
      the segment. Every later open refuses: the snapshot is ahead of the log. */
  lemma SnapshotAheadRefuses(cfg: Config, key: Bytes) returns (states: seq<Sys>, actions: seq<Action>)
    requires ConfigOk(cfg) && !cfg.baseSnapshot && KeyOk(key)
    ensures |actions| == 6 && Run(cfg, states, actions) && Created(cfg, [], [], None, SnapDone, states[0])
    ensures actions[2] == actions[5] == OpenWith(OpenDone) && states[3].server.Some?
            && actions[3] == SnapshotTo(SnapDone)
    ensures states[6].server.None? && !Openable(cfg, states[5].disk)
  {
    hide Inv, Created, Step, Enabled, Steady, ConfigOk, End, StartHigh, Held, WorstLoss, Openable;
    var s1, s2, s3 := ReplayedUnsynced(cfg, key);
    var snap, open := SnapshotTo(SnapDone), OpenWith(OpenDone);
    ServedHigh(cfg, EMPTY, s3);
    SnapStep(cfg, s3, SnapDone);
    var s4 := Step(cfg, s3, snap);
    EveryStep(cfg, EMPTY, s3, snap);
    LoseWorst(cfg, EMPTY, s4);
    WorstOfUnsynced(key, s4.disk.snaps);
    assert One(key, false, true).(snaps := s4.disk.snaps) == s4.disk;
    var s5 := s4.(disk := WorstLoss(s4.disk), server := None);
    EveryStep(cfg, EMPTY, s4, LosePower(WorstLoss(s4.disk)));
    OpenEnabled(cfg, s5);
    OneSnapshot(s5.disk, 1, s3.server.value.mem);
    OneEnds(s5.disk);
    Refuses(cfg, EMPTY, s5);
    OpensExactly(cfg, EMPTY, s5);
    states := [Fresh(true), s1, s2, s3, s4, s5, Step(cfg, s5, open)];
    actions := [DeleteBy(IdOf(0), key, SyncFails), Kill, open, snap, LosePower(WorstLoss(s4.disk)), open];
    RunOf(cfg, states, actions);
  }

  /** A snapshot written over a directory without any. */
  lemma SnapStep(cfg: Config, s: Sys, fault: SnapFault)
    requires s.server.Some? && s.disk.snaps == map[] && s.disk.before == map[]
             && (fault.SnapDone? || fault.RenameNotSynced?)
    ensures Enabled(cfg, s, SnapshotTo(fault))
    ensures var t, high := Step(cfg, s, SnapshotTo(fault)), s.server.value.mem.high;
            && t.disk == s.disk.(snaps := map[high := SnapFile(s.server.value.mem, true)],
                                 before := if fault.SnapDone? then map[] else map[high := None])
            && t.log == s.log && t.acked == s.acked && t.server.Some? && t.server.value.wal == s.server.value.wal
            && t.server.value.mem == s.server.value.mem
  {
  }

  // ----- an entry in a segment whose directory entry is not durable

  /** Creating the first segment fails when the directory is synced, and the
      process restarts without a power loss. The open goes on writing that
      segment, acknowledges a mutation, and a power loss takes the file; the
      next open serves an empty partition. */
  lemma ExposedAckIsLost(cfg: Config, key: Bytes) returns (states: seq<Sys>, actions: seq<Action>)
    requires ConfigOk(cfg) && !cfg.baseSnapshot && KeyOk(key)
    ensures |actions| == 4 && Run(cfg, states, actions) && Created(cfg, [], [], Some(NotLinked), SnapDone, states[0])
    ensures actions[1] == DeleteBy(IdOf(0), key, NoFault) && states[2].acked == 1 && states[2].log == [Nth(0, key)]
    ensures states[4].server.Some? && states[4].log == [] && !Held(cfg, states[3].disk, 1)
  {
    hide Inv, Created, Step, Enabled, Steady, ConfigOk, End, StartHigh, Held, WorstLoss, Openable;
    var s0 := Fresh(false);
    var open, delete := OpenWith(OpenDone), DeleteBy(IdOf(0), key, NoFault);
    FreshCreated(cfg);
    CreatedInv(cfg, [], [], Some(NotLinked), SnapDone, s0);
    UnlinkedSteady(cfg);
    OpenEnabled(cfg, s0);
    SmallOpens(cfg, EMPTY, s0);
    ShortFile(cfg, key, NewestSeg(s0.disk), 0);
    var s1 := Step(cfg, s0, open);
    OneEnds(s0.disk);
    FreshId(cfg, EMPTY, key, 0, s1);
    UnlinkedDelete(cfg, s1, key);
    var s2 := Step(cfg, s1, delete);
    EveryStep(cfg, EMPTY, s1, delete);
    LoseWorst(cfg, EMPTY, s2);
    WorstOfUnlinked(key);
    var s3 := s2.(disk := WorstLoss(s2.disk), server := None);
    EveryStep(cfg, EMPTY, s2, LosePower(WorstLoss(s2.disk)));
    OpenEnabled(cfg, s3);
    EmptyOpens(cfg, EMPTY, s3);
    InNoFile(s3.disk.segs, 1);
    Missing(cfg, s3.disk, 1, 1);
    states := [s0, s1, s2, s3, Step(cfg, s3, open)];
    actions := [open, delete, LosePower(WorstLoss(s2.disk)), open];
    RunOf(cfg, states, actions);
  }

  lemma UnlinkedSteady(cfg: Config)
    requires !cfg.baseSnapshot
    ensures Steady(cfg, Fresh(false))
  {
    var d := Fresh(false).disk;
    assert DurablePoint(cfg, d, 0) && DurableFrom(d.segs, 0, 0);
  }

  lemma UnlinkedDelete(cfg: Config, s: Sys, key: Bytes)
    requires KeyOk(key) && s.server.Some? && !s.server.value.wal.poisoned && s.disk == Fresh(false).disk && s.log == []
    requires s.server.value.wal.nextSeq == 1 && s.server.value.wal.bytes < ROTATE_BYTES
    requires Lookup(s.server.value.mem.window, IdOf(0)).None?
    ensures var a := DeleteBy(IdOf(0), key, NoFault);
            && Enabled(cfg, s, a) && Step(cfg, s, a).disk == One(key, true, false)
            && Step(cfg, s, a).log == [Nth(0, key)] && Step(cfg, s, a).acked == 1
  {
    hide Mutate, Grown, Lookup;
    assert [] + [Nth(0, key)] == [Nth(0, key)];
    DeleteInPlace(cfg, s.disk, s.server.value, key, 0, Whole(1, [], [], 0, true, false), NoFault);
    GrownByOne([], Whole(1, [] + [Nth(0, key)], [], 1, true, false), Nth(0, key));
  }

  lemma WorstOfUnlinked(key: Bytes)
    ensures WorstLoss(One(key, true, false)) == Disk([], [], map[], map[])
  {
    assert Durable([]) == [];
    assert WorstSnaps(One(key, true, false)) == map[];
  }

  lemma EmptyOpens(cfg: Config, base: Logical, s: Sys)
    requires Inv(cfg, base, s) && Enabled(cfg, s, OpenWith(OpenDone)) && !cfg.baseSnapshot
    requires s.disk == Disk([], [], map[], map[])
    ensures Step(cfg, s, OpenWith(OpenDone)).server.Some? && Step(cfg, s, OpenWith(OpenDone)).log == []
  {
    hide Inv, Step, NewestGood;
    NoSnapshots(cfg, s.disk);
    OpensExactly(cfg, base, s);
    OpenKeeps(cfg, base, s, OpenDone);
  }

  // ----- truncating below a snapshot whose rename is not durable

  /** The second segment, holding one delete. */
  function Second(n: nat, key: Bytes): SegFile {
    Whole(n + 1, [Nth(n, key)], [], 1, true, true)
  }

  /** A delete that finds its segment full. */
  lemma DeleteRotates(cfg: Config, s: Server, key: Bytes, n: nat)
    requires KeyOk(key) && !s.wal.poisoned && s.wal.nextSeq == n + 1 && s.wal.bytes >= ROTATE_BYTES
    requires Lookup(s.mem.window, IdOf(n)).None?
    ensures var d := Disk([Filled(n, key)], [], map[], map[]);
            var o := StoreOps.Delete(cfg, d, s, IdOf(n), key, NoFault);
            && o.disk == Disk([Filled(n, key), Second(n, key)], [], map[], map[]) && o.result == Ok(Reply(n + 1, false))
            && o.server.wal.current == n + 1 && !o.server.wal.poisoned && o.server.snapHigh == s.snapHigh
  {
    hide FrameOf, Lookup, ApplyMem;
    assert LinkAll([Filled(n, key)]) == [Filled(n, key)];
    assert [Filled(n, key)] + [Whole(n + 1, [], [], 0, true, true)]
           == [Filled(n, key), Whole(n + 1, [], [], 0, true, true)];
    assert [] + [Nth(n, key)] == [Nth(n, key)];
  }

  lemma RotatedStep(cfg: Config, base: Logical, key: Bytes, n: nat, s: Sys)
    requires Inv(cfg, base, s) && Holding(cfg, key, n, s) && KeyOk(key) && Length(cfg, key, n) >= ROTATE_BYTES
    ensures var a := DeleteBy(IdOf(n), key, NoFault);
            && Enabled(cfg, s, a) && Inv(cfg, base, Step(cfg, s, a)) && Calm(cfg, Step(cfg, s, a))
            && var t := Step(cfg, s, a);
               && t.disk == Disk([Filled(n, key), Second(n, key)], [], map[], map[]) && t.log == Deletes(n + 1, key)
               && t.acked == n + 1 && t.server.Some? && !t.server.value.wal.poisoned
                  && t.server.value.wal.current == n + 1
  {
    hide Calm, FrameOf, FileBytes, Inv, Lookup, Mutate, Grown;
    FreshId(cfg, base, key, n, s);
    DeleteRotates(cfg, s.server.value, key, n);
    DeletesGrow(n, key);
    GrownBySecond(n, key);
    var a := DeleteBy(IdOf(n), key, NoFault);
    assert Enabled(cfg, s, a);
    EveryStep(cfg, base, s, a);
    CalmStep(cfg, base, s, a);
  }

  lemma GrownBySecond(n: nat, key: Bytes)
    ensures Grown(Deletes(n, key), [Filled(n, key), Second(n, key)]) == Deletes(n, key) + [Nth(n, key)]
  {
  }

  /** Truncating below the snapshot removes the first of two segments. */
  lemma TruncatesFirst(cfg: Config, s: Sys, n: nat, key: Bytes)
    requires s.server.Some? && s.disk.segs == [Filled(n, key), Second(n, key)] && s.disk.limbo == []
    requires s.server.value.snapHigh == n + 1 && s.server.value.wal.current == n + 1 && n > 0
    ensures Follows(cfg, s, TruncateLog(1, true), s.(disk := s.disk.(segs := [Second(n, key)])))
  {
    var d, server := s.disk, s.server.value;
    assert Kept(d.segs, 2, n + 1, n + 1, 1) == [] && Removed(d.segs, 2, n + 1, n + 1, 1) == [];
    assert Kept(d.segs, 1, n + 1, n + 1, 1) == [Second(n, key)] && Removed(d.segs, 1, n + 1, n + 1, 1) == [];
    assert Kept(d.segs, 0, n + 1, n + 1, 1) == [Second(n, key)]
           && Removed(d.segs, 0, n + 1, n + 1, 1) == [Filled(n, key)];
    assert LinkAll([Second(n, key)]) == [Second(n, key)];
  }

  /** What a snapshot whose directory is not synced is worth. */
  lemma WorstOfTruncated(n: nat, key: Bytes, m: Mem)
    ensures WorstLoss(Disk([Second(n, key)], [], map[n + 1 := SnapFile(m, true)], map[n + 1 := None]))
         == Disk([Second(n, key)], [], map[], map[])
  {
    assert Durable([]) == [];
    assert [] + [Second(n, key)] == [Second(n, key)];
    assert WorstSnaps(Disk([Second(n, key)], [], map[n + 1 := SnapFile(m, true)], map[n + 1 := None])) == map[];
  }

  lemma TwoEnd(n: nat, key: Bytes)
    ensures End([Filled(n, key), Second(n, key)]) == n + 1 && End([Second(n, key)]) == n + 1
  {
  }

  /** Every delete is acknowledged, the last alone in a second segment. */
  ghost predicate TwoSegments(n: nat, key: Bytes, s: Sys) {
    && s.disk == Disk([Filled(n, key), Second(n, key)], [], map[], map[]) && s.log == Deletes(n + 1, key)
    && s.acked == n + 1 && s.server.Some? && s.server.value.wal.current == n + 1
  }

  /** The server starts from a snapshot whose directory is not synced. */
  ghost predicate BehindUnsynced(n: nat, key: Bytes, s: Sys) {
    && s.disk.segs == [Filled(n, key), Second(n, key)] && s.disk.limbo == []
    && (exists m :: s.disk.snaps == map[n + 1 := SnapFile(m, true)]) && s.disk.before == map[n + 1 := None]
    && s.acked == n + 1 == |s.log| && s.server.Some?
    && s.server.value.snapHigh == n + 1 && s.server.value.wal.current == n + 1
  }

  /** A snapshot without its directory synced, and a restart that takes it as
      the starting point. */
  lemma StartsBehindUnsynced(cfg: Config, n: nat, key: Bytes, s: Sys) returns (s1: Sys, s2: Sys, s3: Sys)
    requires Inv(cfg, EMPTY, s) && Calm(cfg, s) && KeyOk(key) && !cfg.baseSnapshot && 0 < n < 0x1_0000_0000
    requires TwoSegments(n, key, s)
    ensures Follows(cfg, s, SnapshotTo(RenameNotSynced), s1) && Follows(cfg, s1, Kill, s2)
            && Follows(cfg, s2, OpenWith(OpenDone), s3)
    ensures Inv(cfg, EMPTY, s3) && BehindUnsynced(n, key, s3)
  {
    hide Inv, Calm, Step, Enabled, Steady, End, StartHigh, Resumable, SureEnd, FileBytes, WithSegment;
    CalmServes(cfg, EMPTY, s, n, key);
    SnapStep(cfg, s, RenameNotSynced);
    s1 := Step(cfg, s, SnapshotTo(RenameNotSynced));
    FollowsSteady(cfg, EMPTY, s, SnapshotTo(RenameNotSynced), s1);
    KillStep(cfg, s1);
    s2 := s1.(server := None);
    FollowsSteady(cfg, EMPTY, s1, Kill, s2);
    OpenEnabled(cfg, s2);
    SmallOpens(cfg, EMPTY, s2);
    ShortFile(cfg, key, Second(n, key), n);
    TwoEnd(n, key);
    OneSnapshot(s2.disk, n + 1, s.server.value.mem);
    s3 := Step(cfg, s2, OpenWith(OpenDone));
  }

  /** The end of the run: truncation, power loss. */
  lemma TruncatedAway(cfg: Config, n: nat, key: Bytes, s: Sys) returns (s1: Sys, s2: Sys)
    requires Inv(cfg, EMPTY, s) && KeyOk(key) && !cfg.baseSnapshot && 0 < n < 0x1_0000_0000
    requires BehindUnsynced(n, key, s)
    ensures Follows(cfg, s, TruncateLog(1, true), s1) && Follows(cfg, s1, LosePower(WorstLoss(s1.disk)), s2)
    ensures s2.acked == n + 1 && !Held(cfg, s2.disk, 1)
    ensures Enabled(cfg, s2, OpenWith(OpenDone)) && Step(cfg, s2, OpenWith(OpenDone)).server.None?
  {
    hide Inv, Step, Enabled, End, StartHigh, Held, WorstLoss;
    TruncatesFirst(cfg, s, n, key);
    s1 := s.(disk := s.disk.(segs := [Second(n, key)]));
    EveryStep(cfg, EMPTY, s, TruncateLog(1, true));
    LoseWorst(cfg, EMPTY, s1);
    var m :| s.disk.snaps == map[n + 1 := SnapFile(m, true)];
    WorstOfTruncated(n, key, m);
    s2 := s1.(disk := WorstLoss(s1.disk), server := None);
    EveryStep(cfg, EMPTY, s1, LosePower(WorstLoss(s1.disk)));
    OpenEnabled(cfg, s2);
    TwoEnd(n, key);
    InNoFile(s2.disk.segs, 1);
    Missing(cfg, s2.disk, 1, 1);
    Missing(cfg, s2.disk, 1, n + 1);
    Refuses(cfg, EMPTY, s2);
  }

  lemma CalmServes(cfg: Config, base: Logical, s: Sys, n: nat, key: Bytes)
    requires Inv(cfg, base, s) && Calm(cfg, s) && s.server.Some? && s.log == Deletes(n + 1, key)
    ensures s.server.value.mem.high == n + 1 == SureEnd(s.disk) && Steady(cfg, s)
  {
    hide Inv, Calm, SureEnd, Steady;
    CalmEnd(cfg, base, s);
    CalmSteady(cfg, s);
  }

  lemma JoinRuns(cfg: Config, states: seq<Sys>, actions: seq<Action>, states': seq<Sys>, actions': seq<Action>)
    requires Run(cfg, states, actions) && Run(cfg, states', actions') && states[|actions|] == states'[0]
    ensures Run(cfg, states + states'[1..], actions + actions')
  {
    hide Follows;
    var all, acts := states + states'[1..], actions + actions';
    forall i | 0 <= i < |acts|
      ensures Follows(cfg, all[i], acts[i], all[i + 1])
    {
      if i < |actions| {
        assert Follows(cfg, states[i], actions[i], states[i + 1]);
      } else {
        var j := i - |actions|;
        assert Follows(cfg, states'[j], actions'[j], states'[j + 1]);
        assert all[i] == states'[j] && all[i + 1] == states'[j + 1];
      }
    }
  }

  /** A partition acknowledges deletes until it starts its second segment. A
      snapshot's directory sync fails, the process restarts, the open takes the
      snapshot as its starting point, and a truncation removes the first
      segment. A power loss takes the snapshot's name: no file holds the
      entries, no snapshot was damaged, and no open succeeds again. */
  lemma TruncatedEntriesAreLost(cfg: Config, key: Bytes) returns (k: nat, states: seq<Sys>, actions: seq<Action>)
    requires ConfigOk(cfg) && !cfg.baseSnapshot && KeyOk(key)
    ensures Run(cfg, states, actions) && states[0] == Fresh(true) && Created(cfg, [], [], None, SnapDone, states[0])
    ensures |actions| == k + 5 && forall i :: 0 <= i < k ==> NoFaults(actions[i])
    ensures actions[k..k + 4] == [SnapshotTo(RenameNotSynced), Kill, OpenWith(OpenDone), TruncateLog(1, true)]
    ensures actions[k + 4].LosePower? && states[k + 3].server.Some?
    ensures states[k + 5].acked > 1 && !Held(cfg, states[k + 5].disk, 1)
    ensures Enabled(cfg, states[k + 5], OpenWith(OpenDone)) && Step(cfg, states[k + 5], OpenWith(OpenDone)).server.None?
  {
    hide Inv, Created, Calm, Step, Enabled, Held, Length, Follows, Holding, ConfigOk, Run;
    FreshCreated(cfg);
    EmptyLength(cfg, key);
    var n, filled, deletes := Fill(cfg, key, 0);
    RunShape(cfg, filled, deletes);
    var s, m := filled[|deletes|], n + 1;
    BrimmingRotates(cfg, key, n, s);
    var s1 := Step(cfg, s, DeleteBy(IdOf(n), key, NoFault));
    var s2 := Step(cfg, s1, DeleteBy(IdOf(m), key, NoFault));
    RunOneMore(cfg, filled, deletes, DeleteBy(IdOf(n), key, NoFault), s1);
    RunOneMore(cfg, filled + [s1], deletes + [DeleteBy(IdOf(n), key, NoFault)], DeleteBy(IdOf(m), key, NoFault), s2);
    var before, acts := filled + [s1] + [s2],
        deletes + [DeleteBy(IdOf(n), key, NoFault)] + [DeleteBy(IdOf(m), key, NoFault)];
    var t1, t2, t3 := StartsBehindUnsynced(cfg, m, key, s2);
    var t4, t5 := TruncatedAway(cfg, m, key, t3);
    var rest := [s2, t1, t2, t3, t4, t5];
    var last := [SnapshotTo(RenameNotSynced), Kill, OpenWith(OpenDone), TruncateLog(1, true),
                 LosePower(WorstLoss(t4.disk))];
    RunOf(cfg, rest, last);
    JoinRuns(cfg, before, acts, rest, last);
    k, states, actions := |acts|, before + rest[1..], acts + last;
    assert actions[k..k + 4] == last[..4];
  }

  /** The delete that fills the first segment, and the one that starts the
      second. */
  lemma BrimmingRotates(cfg: Config, key: Bytes, n: nat, s: Sys)
    requires Inv(cfg, EMPTY, s) && Brimming(cfg, key, 0, n, s) && KeyOk(key)
    ensures n + 1 < 0x1_0000_0000
    ensures var a, b := DeleteBy(IdOf(n), key, NoFault), DeleteBy(IdOf(n + 1), key, NoFault);
            && Enabled(cfg, s, a)
            && var s1 := Step(cfg, s, a);
               && Follows(cfg, s, a, s1) && Enabled(cfg, s1, b) && Holding(cfg, key, n + 1, s1) && Inv(cfg, EMPTY, s1)
               && var s2 := Step(cfg, s1, b);
                  && Follows(cfg, s1, b, s2) && Inv(cfg, EMPTY, s2) && Calm(cfg, s2)
                  && s2.disk == Disk([Filled(n + 1, key), Second(n + 1, key)], [], map[], map[])
                  && s2.log == Deletes(n + 2, key) && s2.acked == n + 2 && s2.server.Some?
                  && s2.server.value.wal.current == n + 2
  {
    hide Inv, Calm, Step, Enabled, Length, Holding;
    FewDeletes(cfg, key, n);
    HoldOneMore(cfg, EMPTY, key, n, s);
    RotatedStep(cfg, EMPTY, key, n + 1, Step(cfg, s, DeleteBy(IdOf(n), key, NoFault)));
  }

  // ----- a full segment left unsynced

  lemma WorstOfGap(n: nat, key: Bytes)
    ensures WorstLoss(Disk([Whole(1, Deletes(n + 1, key), [], n, false, true), Second(n + 1, key)], [], map[], map[]))
         == Disk([Filled(n, key), Second(n + 1, key)], [], map[], map[])
  {
    var f := Whole(1, Deletes(n + 1, key), [], n, false, true);
    DeletesGrow(n, key);
    assert Deletes(n + 1, key)[..n] == Deletes(n, key);
    assert Durable([]) == [];
    assert [f, Second(n + 1, key)][..1] == [f] && [f][..0] == [];
    assert Durable([f]) == [Filled(n, key)];
    assert [Filled(n, key)] + [Second(n + 1, key)] == [Filled(n, key), Second(n + 1, key)];
    assert WorstSnaps(Disk([f, Second(n + 1, key)], [], map[], map[])) == map[];
  }

  /** A delete in a second segment that is still empty. */
  lemma DeleteInSecond(cfg: Config, s: Server, key: Bytes, n: nat, f: SegFile)
    requires KeyOk(key) && !s.wal.poisoned && s.wal.nextSeq == n + 1 && s.wal.bytes < ROTATE_BYTES
    requires Lookup(s.mem.window, IdOf(n)).None?
    ensures var d := Disk([f, Whole(n + 1, [], [], 0, true, true)], [], map[], map[]);
            var o := StoreOps.Delete(cfg, d, s, IdOf(n), key, NoFault);
            o.disk == Disk([f, Second(n, key)], [], map[], map[]) && o.result == Ok(Reply(n + 1, false))
  {
    hide FrameOf, Lookup, ApplyMem;
    assert [] + [Nth(n, key)] == [Nth(n, key)];
  }

  /** Opening on a full segment whose last entry was never synced starts a new
      segment and leaves the old one as it is. */
  lemma OpensBehind(cfg: Config, key: Bytes, n: nat, s: Sys)
    requires Inv(cfg, EMPTY, s) && Steady(cfg, s) && s.server.None? && KeyOk(key) && n + 2 < 0x1_0000_0000
    requires s.disk == Disk([Whole(1, Deletes(n + 1, key), [], n, false, true)], [], map[], map[])
    requires s.log == Deletes(n + 1, key) && Length(cfg, key, n + 1) >= ROTATE_BYTES
    ensures Enabled(cfg, s, OpenWith(OpenDone))
    ensures var t := Step(cfg, s, OpenWith(OpenDone));
            && Inv(cfg, EMPTY, t) && t.log == s.log && t.acked == s.acked && t.server.Some?
            && t.disk == Disk([Whole(1, Deletes(n + 1, key), [], n, false, true), Whole(n + 2, [], [], 0, true, true)],
                              [], map[], map[])
            && !t.server.value.wal.poisoned && t.server.value.wal.nextSeq == n + 2
               && t.server.value.wal.bytes == HEADER_LEN
            && Lookup(t.server.value.mem.window, IdOf(n + 1)).None?
  {
    hide Inv, Steady, Step, Enabled, FileBytes, StartHigh, End, Lookup;
    OpenEnabled(cfg, s);
    SmallOpens(cfg, EMPTY, s);
    OneEnds(s.disk);
    SameBytes(cfg, s.disk.segs[0], Filled(n + 1, key));
    var t := Step(cfg, s, OpenWith(OpenDone));
    BehindIs(s.disk, n, key);
    assert Upto(s.log, n + 1) == s.log;
    FreshId(cfg, EMPTY, key, n + 1, t);
  }

  lemma BehindIs(d: Disk, n: nat, key: Bytes)
    requires d == Disk([Whole(1, Deletes(n + 1, key), [], n, false, true)], [], map[], map[])
    ensures WithSegment(d, n + 2)
         == Disk([Whole(1, Deletes(n + 1, key), [], n, false, true), Whole(n + 2, [], [], 0, true, true)], [], map[],
                 map[])
  {
    assert LinkAll(d.segs) == d.segs;
    assert d.segs + [Whole(n + 2, [], [], 0, true, true)]
        == [Whole(1, Deletes(n + 1, key), [], n, false, true), Whole(n + 2, [], [], 0, true, true)];
  }

  /** The delete that fills the segment is not synced, and the process
      restarts. */
  lemma FullUnsynced(cfg: Config, n: nat, key: Bytes, s: Sys) returns (s1: Sys, s2: Sys)
    requires Inv(cfg, EMPTY, s) && Brimming(cfg, key, 0, n, s) && KeyOk(key) && !cfg.baseSnapshot
    ensures Follows(cfg, s, DeleteBy(IdOf(n), key, SyncFails), s1) && Follows(cfg, s1, Kill, s2)
    ensures Inv(cfg, EMPTY, s2) && Steady(cfg, s2) && s2.server.None? && n + 2 < 0x1_0000_0000
    ensures s2.disk == Disk([Whole(1, Deletes(n + 1, key), [], n, false, true)], [], map[], map[])
    ensures s2.log == Deletes(n + 1, key) && s2.acked == n
  {
    hide Inv, Calm, Step, Enabled, Steady, Length;
    FewDeletes(cfg, key, n);
    DeleteStep(cfg, EMPTY, key, n, s, SyncFails);
    var a := DeleteBy(IdOf(n), key, SyncFails);
    s1 := Step(cfg, s, a);
    EveryStep(cfg, EMPTY, s, a);
    CalmSteady(cfg, s);
    SteadyStep(cfg, EMPTY, s, a);
    KillStep(cfg, s1);
    s2 := s1.(server := None);
    FollowsSteady(cfg, EMPTY, s1, Kill, s2);
  }

  /** The open starts a new segment, a delete is acknowledged in it, and the
      power is lost. */
  lemma LostBehind(cfg: Config, n: nat, key: Bytes, s: Sys) returns (s1: Sys, s2: Sys, s3: Sys)
    requires Inv(cfg, EMPTY, s) && Steady(cfg, s) && s.server.None? && KeyOk(key) && n + 2 < 0x1_0000_0000
             && !cfg.baseSnapshot
    requires s.disk == Disk([Whole(1, Deletes(n + 1, key), [], n, false, true)], [], map[], map[])
    requires s.log == Deletes(n + 1, key) && Length(cfg, key, n + 1) >= ROTATE_BYTES
    ensures Follows(cfg, s, OpenWith(OpenDone), s1) && Follows(cfg, s1, DeleteBy(IdOf(n + 1), key, NoFault), s2)
    ensures Follows(cfg, s2, LosePower(WorstLoss(s2.disk)), s3)
    ensures s1.server.Some? && s2.acked == s3.acked == n + 2 == |s2.log|
    ensures InFiles(s3.disk.segs, n + 2) && !Held(cfg, s3.disk, n + 2)
    ensures Enabled(cfg, s3, OpenWith(OpenDone)) && Step(cfg, s3, OpenWith(OpenDone)).server.None?
  {
    hide Inv, Step, Enabled, Steady, End, StartHigh, Held, WorstLoss, Length, InFiles, Lookup;
    OpensBehind(cfg, key, n, s);
    s1 := Step(cfg, s, OpenWith(OpenDone));
    SecondDelete(cfg, s1, key, n);
    var b := DeleteBy(IdOf(n + 1), key, NoFault);
    s2 := Step(cfg, s1, b);
    EveryStep(cfg, EMPTY, s1, b);
    LoseWorst(cfg, EMPTY, s2);
    WorstOfGap(n, key);
    s3 := s2.(disk := WorstLoss(s2.disk), server := None);
    EveryStep(cfg, EMPTY, s2, LosePower(WorstLoss(s2.disk)));
    OpenEnabled(cfg, s3);
    GapHolds(n, key);
    Missing(cfg, s3.disk, n + 1, n + 2);
    Refuses(cfg, EMPTY, s3);
  }

  lemma SecondDelete(cfg: Config, s: Sys, key: Bytes, n: nat)
    requires KeyOk(key) && s.server.Some? && s.log == Deletes(n + 1, key) && n + 2 < 0x1_0000_0000
    requires s.disk == Disk([Whole(1, Deletes(n + 1, key), [], n, false, true), Whole(n + 2, [], [], 0, true, true)],
                            [], map[], map[])
    requires !s.server.value.wal.poisoned && s.server.value.wal.nextSeq == n + 2
             && s.server.value.wal.bytes == HEADER_LEN
    requires Lookup(s.server.value.mem.window, IdOf(n + 1)).None?
    ensures var a := DeleteBy(IdOf(n + 1), key, NoFault);
            && Enabled(cfg, s, a)
            && var t := Step(cfg, s, a);
               && t.disk == Disk([Whole(1, Deletes(n + 1, key), [], n, false, true), Second(n + 1, key)], [], map[],
                                 map[])
               && |t.log| == n + 2 && t.acked == n + 2
  {
    hide Mutate, Grown, Lookup;
    DeleteInSecond(cfg, s.server.value, key, n + 1, s.disk.segs[0]);
    SecondGrows(n, key, s.disk.segs[0]);
  }

  lemma SecondGrows(n: nat, key: Bytes, f: SegFile)
    ensures Grown(Deletes(n + 1, key), [f, Second(n + 1, key)]) == Deletes(n + 1, key) + [Nth(n + 1, key)]
  {
  }

  lemma GapHolds(n: nat, key: Bytes)
    ensures var segs := [Filled(n, key), Second(n + 1, key)];
            InFiles(segs, n + 2) && !InFiles(segs, n + 1) && End(segs) == n + 2
  {
    var segs := [Filled(n, key), Second(n + 1, key)];
    assert Holds(segs[1], n + 2);
  }

  /** A delete that fills the first segment is logged, its sync fails, and the
      process restarts. The open starts a second segment without syncing the
      first, and acknowledges a delete in it. A power loss takes the unsynced
      entry before it: the acknowledged entry is still in a file, behind a gap,
      and no open succeeds again. */
  lemma AckBehindGapIsLost(cfg: Config, key: Bytes) returns (k: nat, states: seq<Sys>, actions: seq<Action>)
    requires ConfigOk(cfg) && !cfg.baseSnapshot && KeyOk(key)
    ensures Run(cfg, states, actions) && states[0] == Fresh(true) && Created(cfg, [], [], None, SnapDone, states[0])
    ensures |actions| == k + 5 && forall i :: 0 <= i < k ==> NoFaults(actions[i])
    ensures actions[k].DeleteBy? && actions[k].fault.SyncFails? && actions[k + 1] == Kill
            && actions[k + 2] == OpenWith(OpenDone)
    ensures NoFaults(actions[k + 3]) && actions[k + 4].LosePower?
    ensures states[k + 4].acked == states[k + 5].acked == |states[k + 4].log|
            && InFiles(states[k + 5].disk.segs, states[k + 5].acked)
    ensures !Held(cfg, states[k + 5].disk, states[k + 5].acked)
    ensures Enabled(cfg, states[k + 5], OpenWith(OpenDone)) && Step(cfg, states[k + 5], OpenWith(OpenDone)).server.None?
  {
    hide Inv, Created, Calm, Step, Enabled, Held, Length, Follows, Holding, ConfigOk, Run;
    FreshCreated(cfg);
    EmptyLength(cfg, key);
    var n, filled, deletes := Fill(cfg, key, 0);
    RunShape(cfg, filled, deletes);
    var s := filled[|deletes|];
    var s1, s2 := FullUnsynced(cfg, n, key, s);
    var s3, s4, s5 := LostBehind(cfg, n, key, s2);
    var rest := [s, s1, s2, s3, s4, s5];
    var last := [DeleteBy(IdOf(n), key, SyncFails), Kill, OpenWith(OpenDone), DeleteBy(IdOf(n + 1), key, NoFault),
                 LosePower(WorstLoss(s4.disk))];
    RunOf(cfg, rest, last);
    JoinRuns(cfg, filled, deletes, rest, last);
    k, states, actions := |deletes|, filled + rest[1..], deletes + last;
  }
}
