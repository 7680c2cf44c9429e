/** What holds over every run of a partition. */
module Runs {
  import opened Words
  import opened WalCodec
  import opened WalSegment
  import opened LogFold
  import opened PartitionState
  import opened Disk
  import opened StoreOps
  import opened Recovery
  import opened Directory
  import opened Serving
  import opened Opening
  import opened Upkeep
  import opened Durability
  import opened System
  import opened Reopening

  /** Every state of every run satisfies the invariant. */
  lemma {:induction false} EveryRun(cfg: Config, base: Logical, states: seq<Sys>, actions: seq<Action>, n: nat)
    requires Run(cfg, states, actions) && Inv(cfg, base, states[0]) && n <= |actions|
    ensures Inv(cfg, base, states[n])
  {
    hide Inv;
    if n > 0 {
      EveryRun(cfg, base, states, actions, n - 1);
      assert Follows(cfg, states[n - 1], actions[n - 1], states[n - 1 + 1]);
      EveryStep(cfg, base, states[n - 1], actions[n - 1]);
    }
  }

  /** A state of a run that starts with a partition being created. */
  ghost predicate Reachable(cfg: Config, vectors: seq<Vector>, keys: seq<Bytes>, s: Sys) {
    exists made, snap, states, actions ::
      Run(cfg, states, actions) && Created(cfg, vectors, keys, made, snap, states[0]) && s == states[|actions|]
  }

  lemma ReachableInv(cfg: Config, vectors: seq<Vector>, keys: seq<Bytes>, s: Sys)
    requires Reachable(cfg, vectors, keys, s)
    ensures (cfg.baseSnapshot ==> UniqueKeys(keys) && |vectors| == |keys|) && Inv(cfg, Base(cfg, vectors, keys), s)
  {
    hide Inv, Follows, Created, Base;
    var made, snap, states, actions :|
      Run(cfg, states, actions) && Created(cfg, vectors, keys, made, snap, states[0]) && s == states[|actions|];
    CreatedBase(cfg, vectors, keys, made, snap, states[0]);
    CreatedInv(cfg, vectors, keys, made, snap, states[0]);
    EveryRun(cfg, Base(cfg, vectors, keys), states, actions, |actions|);
  }

  lemma CreatedBase(cfg: Config, vectors: seq<Vector>, keys: seq<Bytes>, made: Option<Made>, snap: SnapFault, s: Sys)
    requires Created(cfg, vectors, keys, made, snap, s)
    ensures cfg.baseSnapshot ==> UniqueKeys(keys) && |vectors| == |keys|
  {
  }

  /** In every reachable state what is served is the fold of the log: of all
      of it while the writer may append, and of all but at most the last
      entry, the one in doubt, once the writer is poisoned. */
  lemma ServesTheLog(cfg: Config, base: Logical, s: Sys)
    requires Inv(cfg, base, s) && s.server.Some?
    ensures var server := s.server.value;
            && RepOk(server.mem) && server.mem.high <= |s.log|
            && Abs(server.mem) == Fold(base, cfg.norm, cfg.capacity, s.log[..server.mem.high])
            && |s.log| <= server.mem.high + 1
            && (!server.wal.poisoned ==> server.mem.high == |s.log| && server.wal.nextSeq == server.mem.high + 1)
  {
    hide LogOk, DiskInv, ConfigOk, BaseOk, RepOk, Abs, Fold, WindowOk, FileBytes;
  }

  /** An open that succeeds, after any run, serves exactly the fold of the
      history up to where the files end, has passed over nothing the files
      hold, and may append the next entry. */
  lemma OpenServesTheLog(cfg: Config, base: Logical, s: Sys, fault: OpenFault)
    requires Inv(cfg, base, s) && Enabled(cfg, s, OpenWith(fault))
    ensures var t := Step(cfg, s, OpenWith(fault));
            t.server.Some? ==>
              && t.log <= s.log && |t.log| == End(t.disk.segs) && RepOk(t.server.value.mem)
              && Abs(t.server.value.mem) == Fold(base, cfg.norm, cfg.capacity, t.log)
              && !t.server.value.wal.poisoned && t.server.value.wal.nextSeq == |t.log| + 1
              && forall n: nat :: Held(cfg, s.disk, n) ==> n <= |t.log|
  {
    hide LogOk, DiskInv, ConfigOk, BaseOk, RepOk, Abs, Fold, WindowOk, Open, ServerInv, Held, End;
    OpenKeeps(cfg, base, s, fault);
    var t := Step(cfg, s, OpenWith(fault));
    if t.server.Some? {
      ServesTheLog(cfg, base, t);
      forall n: nat | Held(cfg, s.disk, n)
        ensures n <= |t.log|
      {
        OpenReaches(cfg, base, s.log, s.disk, fault, n);
      }
    }
  }

  // ----- acknowledged entries survive

  /** Everything acknowledged is durably held, and so will be whatever is
      acknowledged next. */
  ghost predicate Safe(cfg: Config, s: Sys) {
    && s.acked <= |s.log| && DurablyHeld(cfg, s.disk, s.acked)
    && (s.server.Some? ==>
          s.acked <= s.server.value.mem.high && (!s.server.value.wal.poisoned ==> Founded(cfg, s.disk)))
  }

  /** What a truncation would keep starts behind a durable starting point. */
  ghost predicate Backed(cfg: Config, d: Disk, server: Server, stop: nat) {
    || Removed(d.segs, 0, server.snapHigh, server.wal.current, stop) == []
    || exists g: nat ::
         DurablePoint(cfg, d, g)
         && Reached(Kept(d.segs, 0, server.snapHigh, server.wal.current, stop), g)
  }

  predicate Reached(kept: seq<SegFile>, g: nat) {
    kept != [] && kept[0].first <= g + 1
  }

  /** An open that goes on writing would stand on durable ground: the segment
      it continues has a durable name and durable entries before it, or all it
      starts a new segment behind is durable once the names are. */
  ghost predicate Resting(cfg: Config, d: Disk) {
    var r := Repair(cfg, d);
    if r.segs != [] && |FileBytes(cfg.crc, cfg.id, NewestSeg(r))| < ROTATE_BYTES then Founded(cfg, r)
    else End(d.segs) >= 0 && DurablyHeld(cfg, r.(segs := LinkAll(r.segs)), End(d.segs))
  }

  /** The three ways of losing an acknowledged entry, avoided: a truncation
      below a snapshot whose rename is not durable, an open that writes behind
      something that is not durable, and damage to the last durable copy. */
  ghost predicate Guarded(cfg: Config, s: Sys, a: Action)
    requires Enabled(cfg, s, a)
  {
    match a
    case TruncateLog(stop, _) => Backed(cfg, s.disk, s.server.value, stop)
    case OpenWith(_) => Openable(cfg, s.disk) ==> Resting(cfg, s.disk)
    case DamageSnapshot(h) =>
      && HeldWithout(cfg, s.disk, h, s.acked)
      && (s.server.Some? && !s.server.value.wal.poisoned && s.disk.segs != [] && NewestSeg(s.disk).first >= 1
          ==> HeldWithout(cfg, s.disk, h, NewestSeg(s.disk).first - 1))
    case _ => true
  }

  lemma MutatedSafe(cfg: Config, base: Logical, s: Sys, opId: OpId, op: Operation, fault: Fault)
    requires Inv(cfg, base, s) && Safe(cfg, s) && s.server.Some? && s.disk.segs != []
    requires Mutable(cfg, base, s.log, s.disk, s.server.value, opId, op)
    ensures var t := Mutated(s, Mutate(cfg, s.disk, s.server.value, opId, op, fault));
            Safe(cfg, t) && s.acked <= t.acked && s.log <= t.log
  {
    hide DiskInv, ServerInv, LogOk, Mutate, DurablyHeld, Founded, Grown, Mutable, Sheltered, Logged, BaseOk, ConfigOk;
    var server := s.server.value;
    var o := Mutate(cfg, s.disk, server, opId, op, fault);
    MutateOk(cfg, base, s.log, s.disk, server, opId, op, fault);
    MutateKeeps(cfg, base, s.log, s.disk, server, opId, op, fault);
    HeldKept(cfg, s.disk, o.disk, s.acked);
    MutateShape(cfg, base, s.log, s.disk, server, opId, op, fault);
    MutateServed(cfg, base, s, opId, op, fault);
    var e := Entry(|s.log| + 1, opId, op);
    if !server.wal.poisoned && Logged(cfg, s.disk, server.wal, e, o.disk) {
      FoundedShelters(cfg, s.disk, server.wal);
      LoggedLog(cfg, base, s, opId, op, fault);
      LoggedDurable(cfg, base, s.log, s.disk, server.wal, e, o.disk);
    }
  }

  lemma FoundedShelters(cfg: Config, d: Disk, w: Writer)
    requires Founded(cfg, d)
    ensures Sheltered(cfg, d, w)
  {
    hide KeepsDurable, DurablyHeld;
    LinkAllKeeps(cfg, d);
    HeldKept(cfg, d, d.(segs := LinkAll(d.segs), limbo := []), NewestSeg(d).first - 1);
    SameHeld(cfg, d.(segs := LinkAll(d.segs), limbo := []), d.(segs := LinkAll(d.segs)), NewestSeg(d).first - 1);
  }

  /** What a mutation logged, when its writer may go on. */
  lemma LoggedLog(cfg: Config, base: Logical, s: Sys, opId: OpId, op: Operation, fault: Fault)
    requires Inv(cfg, base, s) && s.server.Some? && Mutable(cfg, base, s.log, s.disk, s.server.value, opId, op)
    requires Logged(cfg, s.disk, s.server.value.wal, Entry(|s.log| + 1, opId, op),
                    Mutate(cfg, s.disk, s.server.value, opId, op, fault).disk)
    ensures var o := Mutate(cfg, s.disk, s.server.value, opId, op, fault);
            && FilesOk(cfg, s.log + [Entry(|s.log| + 1, opId, op)], o.disk) && Reaches(s.log, s.disk.segs)
            && Grown(s.log, o.disk.segs) == s.log + [Entry(|s.log| + 1, opId, op)]
  {
    hide LogOk, Mutate, MemOk, FilesOk, SnapsOk, PlansOk, LinkAll, Ready;
    var o := Mutate(cfg, s.disk, s.server.value, opId, op, fault);
    MutateOk(cfg, base, s.log, s.disk, s.server.value, opId, op, fault);
    LoggedGrown(cfg, s.log, s.disk, s.server.value.wal, Entry(|s.log| + 1, opId, op), o.disk);
  }

  lemma LoggedGrown(cfg: Config, log: seq<Entry>, d: Disk, w: Writer, e: Entry, d': Disk)
    requires FilesOk(cfg, log, d) && Reaches(log, d.segs) && Logged(cfg, d, w, e, d') && e.seqNo == |log| + 1
    ensures Grown(log, d'.segs) == log + [e]
  {
    hide FilesOk, LinkAll, LastWhole;
    NewestSegIn(cfg, log, d);
  }

  /** A mutation never takes the served state back, and serves what it
      acknowledges. */
  lemma MutateServed(cfg: Config, base: Logical, s: Sys, opId: OpId, op: Operation, fault: Fault)
    requires Inv(cfg, base, s) && s.server.Some? && Mutable(cfg, base, s.log, s.disk, s.server.value, opId, op)
    ensures var o := Mutate(cfg, s.disk, s.server.value, opId, op, fault);
            && o.server.mem.high >= s.server.value.mem.high && (s.server.value.wal.poisoned ==> o.server.wal.poisoned)
            && (s.server.value.wal.poisoned ==> o.disk == s.disk)
            && (o.result.Ok? ==> o.result.value == Reply(|s.log| + 1, false) && o.server.mem.high == |s.log| + 1
                                 && !s.server.value.wal.poisoned)
  {
    hide DiskInv, LogOk, PlansOk, MemOk, Mutate, AppendUnsynced, FileBytes;
    MutateMem(cfg, s.disk, s.server.value, opId, op, fault);
    if s.server.value.wal.poisoned {
      PoisonedRefuses(cfg, s.disk, s.server.value.wal, opId, op, fault);
    } else {
      InvFiles(cfg, base, s.log, s.disk);
      Serving.AppendOk(cfg, s.log, s.disk, s.server.value.wal, opId, op, fault);
    }
  }

  lemma MutateMem(cfg: Config, d: Disk, s: Server, opId: OpId, op: Operation, fault: Fault)
    requires d.segs != []
    ensures var a, o := AppendUnsynced(cfg, d, s.wal, opId, op, fault), Mutate(cfg, d, s, opId, op, fault);
            && (o.server.mem == s.mem || (a.result.Ok? && o.server.mem.high == a.result.value))
            && (o.result.Ok? ==> a.result.Ok? && o.result.value == Reply(a.result.value, false)
                                 && o.server.mem.high == a.result.value)
            && (a.result.Err? ==> o.disk == a.disk && o.server.wal == a.wal)
  {
    hide AppendUnsynced, SyncNewest, Retire, Append, Recorded, Finite;
  }

  /** Every guarded step keeps what is acknowledged safe, and the history as
      far as it was acknowledged. */
  lemma SafeStep(cfg: Config, base: Logical, s: Sys, a: Action)
    requires Inv(cfg, base, s) && Safe(cfg, s) && Enabled(cfg, s, a) && Guarded(cfg, s, a)
    ensures var t := Step(cfg, s, a);
            Safe(cfg, t) && s.acked <= t.acked && t.log[..s.acked] == s.log[..s.acked]
  {
    hide Inv, DurablyHeld, Founded, KeepsDurable, Mutate, Snapshot, FinishCompaction, Capture, Truncate, Open,
         PowerLoss, Mutated;
    hide Backed, DropAt;
    match a
    case UpsertBy(_, _, _, _, _, _) => RequestSafe(cfg, base, s, a);
    case DeleteBy(_, _, _) => RequestSafe(cfg, base, s, a);
    case SnapshotTo(fault) => SnapshotSafe(cfg, s, fault);
    case CaptureAndBuild =>
    case FinishPlan(i, fault) => FinishSafe(cfg, base, s, i, fault);
    case TruncateLog(stop, synced) => TruncateSafe(cfg, base, s, stop, synced);
    case OpenWith(fault) => OpenSafe(cfg, base, s, fault);
    case Kill =>
    case LosePower(after) => LossKeepsDurable(cfg, s.disk, after, s.acked);
    case DamageSnapshot(h) => DamageSafe(cfg, s, h);
  }

  lemma DamageSafe(cfg: Config, s: Sys, h: nat)
    requires Safe(cfg, s) && Enabled(cfg, s, DamageSnapshot(h)) && Guarded(cfg, s, DamageSnapshot(h))
    ensures Safe(cfg, Step(cfg, s, DamageSnapshot(h)))
  {
    hide DurablyHeld, HeldWithout;
    DamagedHeld(cfg, s.disk, h, s.acked);
    if s.disk.segs != [] && NewestSeg(s.disk).first >= 1 {
      DamagedHeld(cfg, s.disk, h, NewestSeg(s.disk).first - 1);
    }
  }

  lemma RequestSafe(cfg: Config, base: Logical, s: Sys, a: Action)
    requires Inv(cfg, base, s) && Safe(cfg, s) && Enabled(cfg, s, a) && (a.UpsertBy? || a.DeleteBy?)
    ensures var t := Step(cfg, s, a);
            Safe(cfg, t) && s.acked <= t.acked && s.log <= t.log && t.log[..s.acked] == s.log[..s.acked]
  {
    hide LogOk, DiskInv, ServerInv, BaseOk, Mutate, Finite, Safe, Mutated, Lookup;
    assert s.acked <= |s.log| by { SafeWithin(cfg, s); }
    match a
    case UpsertBy(opId, key, vector, payload, admitted, fault) =>
      var o := StoreOps.Upsert(cfg, s.disk, s.server.value, opId, key, vector, payload, admitted, fault);
      if Lookup(s.server.value.mem.window, opId).None? && |vector| == cfg.dims && Finite(vector)
          && cfg.prepare(vector).Some? && admitted {
        MutatedSafe(cfg, base, s, opId, Operation.Upsert(key, payload, cfg.prepare(vector).value), fault);
      } else {
        Unmoved(cfg, base, s, o);
      }
    case DeleteBy(opId, key, fault) =>
      if Lookup(s.server.value.mem.window, opId).None? {
        MutatedSafe(cfg, base, s, opId, Operation.Delete(key), fault);
      } else {
        Unmoved(cfg, base, s, StoreOps.Delete(cfg, s.disk, s.server.value, opId, key, fault));
      }
  }

  lemma SafeWithin(cfg: Config, s: Sys)
    requires Safe(cfg, s)
    ensures s.acked <= |s.log|
  {
    hide DurablyHeld, Founded;
  }

  lemma FoundedKept(cfg: Config, d: Disk, d': Disk)
    requires Founded(cfg, d) && KeepsDurable(cfg, d, d') && d'.segs != [] && NewestSeg(d') == NewestSeg(d)
    ensures Founded(cfg, d')
  {
    hide KeepsDurable, DurablyHeld;
    HeldKept(cfg, d, d', NewestSeg(d).first - 1);
  }

  lemma SnapshotSafe(cfg: Config, s: Sys, fault: SnapFault)
    requires Safe(cfg, s) && s.server.Some?
    ensures Safe(cfg, Step(cfg, s, SnapshotTo(fault)))
  {
    hide DurablyHeld, Founded, KeepsDurable, WriteSnap;
    var (d, server) := Snapshot(s.disk, s.server.value, fault);
    SnapshotKeeps(cfg, s.disk, s.server.value, fault);
    HeldKept(cfg, s.disk, d, s.acked);
    SnapKeepsSegs(s.disk, s.server.value.mem, fault);
    if !server.wal.poisoned {
      FoundedFiles(cfg, s.disk);
      FoundedKept(cfg, s.disk, d);
    }
  }

  lemma FoundedFiles(cfg: Config, d: Disk)
    requires Founded(cfg, d)
    ensures d.segs != [] && NewestSeg(d).Whole? && NewestSeg(d).linked
  {
    hide DurablyHeld;
  }

  lemma SnapKeepsSegs(d: Disk, m: Mem, fault: SnapFault)
    ensures WriteSnap(d, m, fault).segs == d.segs && WriteSnap(d, m, fault).limbo == d.limbo
  {
  }

  lemma FinishSafe(cfg: Config, base: Logical, s: Sys, i: nat, fault: FinishFault)
    requires Inv(cfg, base, s) && Safe(cfg, s) && Enabled(cfg, s, FinishPlan(i, fault))
    ensures Safe(cfg, Step(cfg, s, FinishPlan(i, fault))) && Step(cfg, s, FinishPlan(i, fault)).log == s.log
  {
    hide LogOk, DiskInv, ServerInv, DurablyHeld, Founded, KeepsDurable, FinishCompaction, DropAt, Abs, RepOk, ConfigOk,
         BaseOk;
    var server := s.server.value;
    var (d, server', _) := FinishCompaction(cfg, s.disk, server, server.plans[i], fault);
    FinishOk(cfg, base, s.log, s.disk, server, i, fault);
    SameHigh(server.mem, server'.mem);
    FinishKeeps(cfg, s.disk, server, server.plans[i], fault);
    HeldKept(cfg, s.disk, d, s.acked);
    if !server.wal.poisoned {
      FoundedFiles(cfg, s.disk);
      FoundedKept(cfg, s.disk, d);
    }
  }

  lemma SameHigh(a: Mem, b: Mem)
    requires RepOk(a) && RepOk(b) && Abs(a) == Abs(b)
    ensures a.high == b.high
  {
    hide RepOk;
  }

  lemma TruncateSafe(cfg: Config, base: Logical, s: Sys, stop: nat, synced: bool)
    requires Inv(cfg, base, s) && Safe(cfg, s) && s.server.Some? && Backed(cfg, s.disk, s.server.value, stop)
    ensures Safe(cfg, Step(cfg, s, TruncateLog(stop, synced)))
  {
    hide LogOk, DiskInv, ServerInv, DurablyHeld, TruncatesSafely, Truncate, ConfigOk, BaseOk, Backed;
    var d, server := s.disk, s.server.value;
    var d' := Truncate(d, server, stop, synced);
    TruncateExactly(cfg, base, s.log, d, server, stop, synced, s.acked);
    BackedCovers(cfg, d, server, stop, s.acked);
    if !server.wal.poisoned {
      FoundedFiles(cfg, d);
      var n := NewestSeg(d).first - 1;
      TruncateExactly(cfg, base, s.log, d, server, stop, synced, n);
      BackedCovers(cfg, d, server, stop, n);
      TruncateNewest(cfg, base, s.log, d, server, stop, synced);
    }
  }

  lemma BackedCovers(cfg: Config, d: Disk, server: Server, stop: nat, n: nat)
    requires Backed(cfg, d, server, stop)
    ensures TruncatesSafely(cfg, d, server, stop, n)
  {
    hide DurablePoint, Kept, Removed;
  }

  /** Truncation leaves the newest segment, linked if it was. */
  lemma TruncateNewest(cfg: Config, base: Logical, log: seq<Entry>, d: Disk, s: Server, stop: nat, synced: bool)
    requires SysOk(cfg, base, log, d, s) && d.segs != [] && NewestSeg(d).Whole? && NewestSeg(d).linked
    ensures var d' := Truncate(d, s, stop, synced);
            d'.segs != [] && NewestSeg(d').Whole? && NewestSeg(d').linked && NewestSeg(d').first == NewestSeg(d).first
  {
    hide LogOk, MemOk, FilesOk, SnapsOk, PlansOk, WriterOk, LastWhole, Kept, Removed;
    WriterPlace(cfg, log, d, s.wal);
    var k := KeptIsSuffix(d.segs, 0, CurrentAt(d.segs, s.wal), s.snapHigh, s.wal.current, stop);
  }

  lemma SameOpen(cfg: Config, d: Disk, fault: OpenFault)
    requires Open(cfg, d, fault).1.Ok?
    ensures Open(cfg, d, fault) == Open(cfg, d, OpenDone)
  {
    hide Recover, Repair, HalfRepair, OpenWriter, WithSegment, Create;
  }

  lemma Opened(cfg: Config, base: Logical, s: Sys, fault: OpenFault)
    requires Inv(cfg, base, s) && Enabled(cfg, s, OpenWith(fault)) && Step(cfg, s, OpenWith(fault)).server.Some?
    ensures Openable(cfg, s.disk) && Recover(cfg, s.disk).Ok?
    ensures var r := Recover(cfg, s.disk).value;
            && r.mem.high == End(s.disk.segs) && StartWriter(cfg, Repair(cfg, s.disk), r, OpenDone).1.Ok?
            && Step(cfg, s, OpenWith(fault)).disk == StartWriter(cfg, Repair(cfg, s.disk), r, OpenDone).0
  {
    hide Inv, Openable, Recover, Repair, StartWriter, End, StartHigh, Open;
    SameOpen(cfg, s.disk, fault);
    OpensExactly(cfg, base, s);
    OpenIs(cfg, s.disk);
    StartedIs(cfg, Repair(cfg, s.disk), Recover(cfg, s.disk).value);
  }

  /** An open that succeeds serves the newest snapshot that verifies with the
      history from its mark on replayed onto it, slot for slot, and truncates
      below that mark. */
  lemma OpenReplays(cfg: Config, base: Logical, s: Sys, fault: OpenFault)
    requires Inv(cfg, base, s) && Enabled(cfg, s, OpenWith(fault)) && Step(cfg, s, OpenWith(fault)).server.Some?
    ensures var t := Step(cfg, s, OpenWith(fault));
            var start, m := StartMem(s.disk), t.server.value.mem;
            && start.high <= m.high <= |s.log| && t.server.value.snapHigh == start.high
            && m == Replay(start, cfg.norm, cfg.capacity, s.log[start.high..m.high])
  {
    hide LogOk, DiskInv, ServerInv, ConfigOk, BaseOk, Openable, Recover, Repair, StartWriter, End, StartMem, Replay;
    Opened(cfg, base, s, fault);
    RecoverReplays(cfg, base, s.log, s.disk);
    SameOpen(cfg, s.disk, fault);
    OpenIs(cfg, s.disk);
    StartedWith(cfg, Repair(cfg, s.disk), Recover(cfg, s.disk).value, OpenDone);
  }

  lemma StartedWith(cfg: Config, d: Disk, r: Recovered, fault: OpenFault)
    requires StartWriter(cfg, d, r, fault).1.Ok?
    ensures StartWriter(cfg, d, r, fault).1.value.mem == r.mem
    ensures StartWriter(cfg, d, r, fault).1.value.snapHigh == r.snapHigh
  {
    hide OpenWriter, WithSegment, Create;
  }

  /** An open that succeeds stands on durable ground exactly when the directory
      it found does. */
  lemma OpenRests(cfg: Config, base: Logical, s: Sys, fault: OpenFault)
    requires Inv(cfg, base, s) && Enabled(cfg, s, OpenWith(fault)) && Step(cfg, s, OpenWith(fault)).server.Some?
    ensures Openable(cfg, s.disk) && (Founded(cfg, Step(cfg, s, OpenWith(fault)).disk) <==> Resting(cfg, s.disk))
  {
    hide Inv, Openable, Recover, Repair, StartWriter, Founded, DurablyHeld, FileBytes, End, Step, Enabled;
    Opened(cfg, base, s, fault);
    StartedRests(cfg, Repair(cfg, s.disk), Recover(cfg, s.disk).value);
  }

  lemma StartedRests(cfg: Config, d: Disk, r: Recovered)
    requires StartWriter(cfg, d, r, OpenDone).1.Ok?
    ensures Founded(cfg, StartWriter(cfg, d, r, OpenDone).0)
       <==> if d.segs != [] && |FileBytes(cfg.crc, cfg.id, NewestSeg(d))| < ROTATE_BYTES then Founded(cfg, d)
            else DurablyHeld(cfg, d.(segs := LinkAll(d.segs)), r.mem.high)
  {
    hide Founded, DurablyHeld, FileBytes, ReadFile;
    FoundedNew(cfg, d, r.mem.high);
  }

  lemma FoundedNew(cfg: Config, d: Disk, n: nat)
    ensures Founded(cfg, WithSegment(d, n + 1)) <==> DurablyHeld(cfg, d.(segs := LinkAll(d.segs)), n)
  {
    hide DurablyHeld, DurablyIn, LinkAll;
    var linked, f := d.(segs := LinkAll(d.segs)), Whole(n + 1, [], [], 0, true, true);
    forall s: nat | s <= n
      ensures DurablyIn(WithSegment(d, n + 1).segs, s) <==> DurablyIn(linked.segs, s)
    {
      AppendedSecures(linked.segs, f, s);
    }
    SameHeld(cfg, linked, WithSegment(d, n + 1), n);
  }

  lemma OpenSafe(cfg: Config, base: Logical, s: Sys, fault: OpenFault)
    requires Inv(cfg, base, s) && Safe(cfg, s) && Enabled(cfg, s, OpenWith(fault))
    requires Openable(cfg, s.disk) ==> Resting(cfg, s.disk)
    ensures var t := Step(cfg, s, OpenWith(fault));
            Safe(cfg, t) && t.acked == s.acked && t.log[..s.acked] == s.log[..s.acked]
  {
    hide LogOk, DiskInv, ServerInv, DurablyHeld, Held, Founded, KeepsDurable, Open, ConfigOk, BaseOk, Abs, RepOk, Fold,
         End, Openable, Resting;
    InvFiles(cfg, base, s.log, s.disk);
    OpenKeepsDurable(cfg, s.log, s.disk, fault);
    HeldKept(cfg, s.disk, Open(cfg, s.disk, fault).0, s.acked);
    OpenKeeps(cfg, base, s, fault);
    DurablyHeldIsHeld(cfg, s.log, s.disk, s.acked);
    OpenServesTheLog(cfg, base, s, fault);
    if Step(cfg, s, OpenWith(fault)).server.Some? {
      OpenRests(cfg, base, s, fault);
    }
  }

  /** A partition that was created, or bulk-loaded with its snapshot durable,
      starts out safe. */
  lemma CreatedSafe(cfg: Config, vectors: seq<Vector>, keys: seq<Bytes>, made: Option<Made>, snap: SnapFault, s: Sys)
    requires Created(cfg, vectors, keys, made, snap, s)
    requires cfg.baseSnapshot ==> made.None? && (snap.SnapDone? || snap.AfterRename?)
    ensures Safe(cfg, s)
  {
    hide BulkLoaded, HeaderOf;
    BulkHigh(vectors, keys);
    assert DurablePoint(cfg, s.disk, 0);
    assert DurableFrom(s.disk.segs, 0, 0);
    assert LinkAll([]) == [];
  }

  lemma BulkHigh(vectors: seq<Vector>, keys: seq<Bytes>)
    ensures BulkLoaded(vectors, keys).high == 0
  {
  }

  /** Acknowledged entries survive. Along every guarded run, at every later
      point: the history still begins with the entries acknowledged so far, the
      files hold them and go on holding them through every power loss, and
      whatever is served includes them. */
  lemma {:induction false} AckedSurvive(cfg: Config, base: Logical, states: seq<Sys>, actions: seq<Action>, i: nat,
                                        j: nat)
    requires Run(cfg, states, actions) && Inv(cfg, base, states[0]) && Safe(cfg, states[0]) && i <= j <= |actions|
    requires forall k :: 0 <= k < j ==> Enabled(cfg, states[k], actions[k]) && Guarded(cfg, states[k], actions[k])
    ensures Safe(cfg, states[i]) && Safe(cfg, states[j])
    ensures states[i].acked <= |states[i].log| && states[i].acked <= states[j].acked <= |states[j].log|
    ensures states[j].log[..states[i].acked] == states[i].log[..states[i].acked]
    ensures Held(cfg, states[j].disk, states[i].acked)
    ensures Survives(cfg, states[j].disk, states[i].acked)
    ensures states[j].server.Some? ==> states[i].acked <= states[j].server.value.mem.high
    decreases j
  {
    hide Inv, Step, Enabled, Guarded, Safe, Held, Survives;
    EveryRun(cfg, base, states, actions, j);
    if i < j {
      var s, t := states[j - 1], states[j];
      assert Follows(cfg, s, actions[j - 1], states[j - 1 + 1]);
      EveryRun(cfg, base, states, actions, j - 1);
      AckedSurvive(cfg, base, states, actions, i, j - 1);
      SafeStep(cfg, base, s, actions[j - 1]);
      SafeWithin(cfg, s);
      SafeWithin(cfg, t);
      var n := states[i].acked;
      assert t.log[..n] == t.log[..s.acked][..n] && s.log[..n] == s.log[..s.acked][..n];
    } else if j > 0 {
      assert Follows(cfg, states[j - 1], actions[j - 1], states[j - 1 + 1]);
      EveryRun(cfg, base, states, actions, j - 1);
      AckedSurvive(cfg, base, states, actions, j - 1, j - 1);
      SafeStep(cfg, base, states[j - 1], actions[j - 1]);
      SafeWithin(cfg, states[j]);
    } else {
      SafeWithin(cfg, states[j]);
    }
    SafeHolds(cfg, base, states[j], states[i].acked);
  }

  lemma SafeHolds(cfg: Config, base: Logical, s: Sys, n: nat)
    requires Inv(cfg, base, s) && Safe(cfg, s) && n <= s.acked
    ensures Held(cfg, s.disk, n) && Survives(cfg, s.disk, n)
    ensures s.server.Some? ==> n <= s.server.value.mem.high
  {
    hide LogOk, FilesOk, SnapsOk, ServerInv, DurablyHeld, Held, Founded, Survives, ConfigOk, BaseOk;
    HeldLess(cfg, s.disk, s.acked, n);
    DurablyHeldIsHeld(cfg, s.log, s.disk, n);
    SurvivesExactly(cfg, s.log, s.disk, n);
  }

  /** What a truncation does to an entry: it goes on surviving every power loss
      exactly when nothing is removed, or some starting point no power loss can
      take covers it or reaches the first segment kept. */
  lemma TruncationSafeExactly(cfg: Config, base: Logical, s: Sys, stop: nat, synced: bool, n: nat)
    requires Inv(cfg, base, s) && s.server.Some? && DurablyHeld(cfg, s.disk, n)
    ensures Survives(cfg, Step(cfg, s, TruncateLog(stop, synced)).disk, n)
       <==> TruncatesSafely(cfg, s.disk, s.server.value, stop, n)
  {
    hide LogOk, DiskInv, ServerInv, DurablyHeld, Held, Truncate, Survives, ConfigOk, BaseOk, TruncatesSafely;
    var t := Step(cfg, s, TruncateLog(stop, synced));
    TruncateKeeps(cfg, base, s, stop, synced);
    TruncateExactly(cfg, base, s.log, s.disk, s.server.value, stop, synced, n);
    InvFiles(cfg, base, t.log, t.disk);
    SurvivesExactly(cfg, t.log, t.disk, n);
  }

  /** Truncating below a snapshot whose rename is durable is always guarded. */
  lemma SyncedSnapshotBacks(cfg: Config, base: Logical, s: Sys, stop: nat)
    requires Inv(cfg, base, s) && s.server.Some? && DurablePoint(cfg, s.disk, s.server.value.snapHigh)
    ensures Backed(cfg, s.disk, s.server.value, stop)
  {
    hide LogOk, MemOk, FilesOk, SnapsOk, PlansOk, WriterOk, LastWhole, Kept, Removed, DurablePoint;
    var d, w := s.disk, s.server.value.wal;
    var snapHigh := s.server.value.snapHigh;
    WriterPlace(cfg, s.log, d, w);
    var k := KeptIsSuffix(d.segs, 0, CurrentAt(d.segs, w), snapHigh, w.current, stop);
    if k > 0 {
      assert d.segs[k..][0] == d.segs[k];
      assert Reached(Kept(d.segs, 0, snapHigh, w.current, stop), snapHigh);
    }
  }

  // ----- the idempotency window

  /** In every reachable state the window holds exactly the last entries of the
      served log, as many as it has room for, oldest first; and no operation id
      occurs twice among any `capacity + 1` consecutive entries of the log. */
  lemma WindowIsTheLogsEnd(cfg: Config, base: Logical, s: Sys)
    requires Inv(cfg, base, s) && s.server.Some?
    ensures s.server.value.mem.high <= |s.log|
    ensures s.server.value.mem.window == LastN(Ops(s.log[..s.server.value.mem.high]), cfg.capacity)
    ensures NoRepeat(s.log, cfg.capacity)
  {
    hide DiskInv, RepOk, RowsBelow, Fold, WriterOk, PlansOk, NoRepeat;
    var m := s.server.value.mem;
    NoRepeatPrefix(s.log, m.high, cfg.capacity);
    WindowIsLast(base, cfg.norm, cfg.capacity, s.log[..m.high]);
  }

  lemma {:induction false} LookupFinds(w: Window, i: nat)
    requires DistinctOps(w) && i < |w|
    ensures Lookup(w, w[i].0) == Some(w[i].1)
  {
    var n := |w| - 1;
    if i < n {
      assert w[i].0 != w[n].0;
      assert w[..n][i] == w[i];
      LookupFinds(w[..n], i);
    }
  }

  /** The place of an entry in the window. */
  lemma RecentPlace(log: seq<Entry>, capacity: nat, i: nat)
    requires i < |log| && |log| - i <= capacity && Numbered(log, 1)
    ensures var w := LastN(Ops(log), capacity);
            i - (|log| - |w|) >= 0 && w[i - (|log| - |w|)] == (log[i].opId, i + 1)
  {
    assert log[i].seqNo == 1 + i;
    assert Ops(log)[i] == (log[i].opId, log[i].seqNo);
  }

  /** A retry of any of the last `capacity` served operations, whatever its
      arguments, returns the original sequence number and changes nothing. */
  lemma RetryReturnsOriginal(cfg: Config, base: Logical, s: Sys, i: nat, a: Action)
    requires Inv(cfg, base, s) && s.server.Some? && Enabled(cfg, s, a)
    requires i < s.server.value.mem.high <= |s.log| && s.server.value.mem.high - i <= cfg.capacity
    requires (a.UpsertBy? || a.DeleteBy?) && a.opId == s.log[i].opId
    ensures Step(cfg, s, a) == s
    ensures a.UpsertBy? ==>
      StoreOps.Upsert(cfg, s.disk, s.server.value, a.opId, a.key, a.vector, a.payload, a.admitted, a.fault).result
          == Ok(Reply(i + 1, true))
    ensures a.DeleteBy? ==>
      StoreOps.Delete(cfg, s.disk, s.server.value, a.opId, a.key, a.fault).result == Ok(Reply(i + 1, true))
  {
    hide DiskInv, ServerInv, LogOk, Lookup, Mutate, Finite, Ops, LastN, NoRepeat, Mutated;
    RetryFound(cfg, base, s, i);
    if a.UpsertBy? {
      Unmoved(cfg, base, s,
              StoreOps.Upsert(cfg, s.disk, s.server.value, a.opId, a.key, a.vector, a.payload, a.admitted, a.fault));
    } else {
      Unmoved(cfg, base, s, StoreOps.Delete(cfg, s.disk, s.server.value, a.opId, a.key, a.fault));
    }
  }

  lemma RetryFound(cfg: Config, base: Logical, s: Sys, i: nat)
    requires Inv(cfg, base, s) && s.server.Some?
    requires i < s.server.value.mem.high <= |s.log| && s.server.value.mem.high - i <= cfg.capacity
    ensures Lookup(s.server.value.mem.window, s.log[i].opId) == Some(i + 1)
  {
    hide DiskInv, Lookup, Ops, LastN, NoRepeat, RepOk, Abs, WriterOk, PlansOk;
    WindowIsTheLogsEnd(cfg, base, s);
    var m := s.server.value.mem;
    var served := s.log[..m.high];
    assert Numbered(served, 1);
    RecentPlace(served, cfg.capacity, i);
    LookupFinds(m.window, i - (m.high - |m.window|));
  }

  // ----- the served rows

  /** In every reachable state a row is served exactly when it is what the
      newest upsert of its key in the served log wrote, nothing after it having
      deleted or replaced it, or when it was there before the log and no entry
      touched its key; and each key is served at most once. */
  lemma RowsServed(cfg: Config, base: Logical, s: Sys, r: Row)
    requires Inv(cfg, base, s) && s.server.Some?
    ensures var m := s.server.value.mem;
            && RepOk(m) && m.high <= |s.log|
            && (r in Abs(m).rows <==>
                 FromLog(s.log[..m.high], cfg.norm, r)
                 || (r in base.rows && Untouched(s.log[..m.high], r.key)))
            && DistinctKeys(Abs(m).rows)
  {
    hide LogOk, DiskInv, RepOk, Abs, Fold, DistinctKeys, FromLog;
    ServesTheLog(cfg, base, s);
    var m := s.server.value.mem;
    RowsAreNewest(base, cfg.norm, cfg.capacity, s.log[..m.high], r);
    BaseDistinct(cfg, base, s);
    FoldDistinct(base, cfg.norm, cfg.capacity, s.log[..m.high]);
  }

  lemma BaseDistinct(cfg: Config, base: Logical, s: Sys)
    requires Inv(cfg, base, s)
    ensures DistinctKeys(base.rows)
  {
  }

  // ----- exactly when an acknowledgement is durable

  /** A fresh acknowledgement survives every power loss exactly when, before
      the call, everything behind the segment it is written to was durably held
      and that segment had a durable name (which it gets if the call starts a
      new one). */
  lemma AckDurableExactly(cfg: Config, base: Logical, s: Sys, opId: OpId, op: Operation, fault: Fault)
    requires Inv(cfg, base, s) && s.server.Some? && s.disk.segs != []
    requires Mutable(cfg, base, s.log, s.disk, s.server.value, opId, op)
    requires Mutate(cfg, s.disk, s.server.value, opId, op, fault).result.Ok?
    ensures var o := Mutate(cfg, s.disk, s.server.value, opId, op, fault);
            Survives(cfg, o.disk, o.result.value.seqNo) <==> Sheltered(cfg, s.disk, s.server.value.wal)
  {
    hide LogOk, DiskInv, ServerInv, Mutate, Mutable, Survives, DurablyHeld, Held, Sheltered, Logged, Founded, ConfigOk,
         BaseOk;
    var o := Mutate(cfg, s.disk, s.server.value, opId, op, fault);
    var e := Entry(|s.log| + 1, opId, op);
    MutateShape(cfg, base, s.log, s.disk, s.server.value, opId, op, fault);
    MutateServed(cfg, base, s, opId, op, fault);
    LoggedLog(cfg, base, s, opId, op, fault);
    LoggedDurable(cfg, base, s.log, s.disk, s.server.value.wal, e, o.disk);
    SurvivesExactly(cfg, s.log + [e], o.disk, |s.log| + 1);
  }

  /** A retry answered from the window acknowledges an entry again; that
      acknowledgement survives every power loss exactly when the entry is
      durably held, which an entry replayed by an open need not be. */
  lemma RetryDurableExactly(cfg: Config, base: Logical, s: Sys, i: nat)
    requires Inv(cfg, base, s) && s.server.Some?
    requires i < s.server.value.mem.high <= |s.log| && s.server.value.mem.high - i <= cfg.capacity
    ensures Lookup(s.server.value.mem.window, s.log[i].opId) == Some(i + 1)
    ensures Survives(cfg, s.disk, i + 1) <==> DurablyHeld(cfg, s.disk, i + 1)
  {
    hide FilesOk, SnapsOk, ServerInv, LogOk, Survives, DurablyHeld, Held, Lookup, ConfigOk, BaseOk;
    RetryFound(cfg, base, s, i);
    SurvivesExactly(cfg, s.log, s.disk, i + 1);
  }
}
