/** Whole runs of a partition: any interleaving of upserts, deletes, snapshots,
    compactions, truncations, failures at every write boundary, process kills,
    power losses, damage to snapshots, and opens. */
module System {
  import opened Words
  import opened WalCodec
  import opened WalSegment
  import opened LogFold
  import opened PartitionState
  import opened Compaction
  import opened Disk
  import opened StoreOps
  import opened Recovery
  import opened Directory
  import opened Serving
  import opened Upkeep
  import opened Opening

  /** `log` is the history: every entry a file of the directory ever came to
      hold. No failure shortens it; an open that succeeds cuts it to what it
      serves. `acked` is the highest sequence acknowledged by a mutation. */
  datatype Sys = Sys(disk: Disk, server: Option<Server>, log: seq<Entry>, acked: nat)

  datatype Action =
    | UpsertBy(opId: OpId, key: Bytes, vector: Vector, payload: Bytes, admitted: bool, fault: Fault)
    | DeleteBy(opId: OpId, key: Bytes, fault: Fault)
    | SnapshotTo(snapFault: SnapFault)
    | CaptureAndBuild
    | FinishPlan(plan: nat, finishFault: FinishFault)
    | TruncateLog(stop: nat, synced: bool)
    | OpenWith(openFault: OpenFault)
    | Kill
    | LosePower(after: Disk)
    | DamageSnapshot(high: nat)

  /** Sequence numbers stay in a `u64`; the other conditions on a serving
      partition hold of every one that serves. */
  ghost predicate Enabled(cfg: Config, s: Sys, a: Action) {
    match a
    case UpsertBy(_, _, _, _, _, _) => s.server.Some? && s.disk.segs != [] && |s.log| + 2 < 0x1_0000_0000_0000_0000
    case DeleteBy(_, _, _) => s.server.Some? && s.disk.segs != [] && |s.log| + 2 < 0x1_0000_0000_0000_0000
    case FinishPlan(i, _) => s.server.Some? && i < |s.server.value.plans|
    case CaptureAndBuild => s.server.Some? && |s.server.value.mem.vectors| == |s.server.value.mem.slots|
    case OpenWith(_) => s.server.None? && |s.log| + 2 < 0x1_0000_0000_0000_0000
    case LosePower(after) => PowerLoss(cfg.crc, s.disk, after)
    case DamageSnapshot(h) => h in s.disk.snaps
    case Kill => true
    case _ => s.server.Some?
  }

  function Mutated(s: Sys, o: Outcome): Sys {
    Sys(o.disk, Some(o.server), Grown(s.log, o.disk.segs),
        if o.result.Ok? && !o.result.value.deduplicated then o.result.value.seqNo else s.acked)
  }

  function Upto(log: seq<Entry>, n: nat): seq<Entry> {
    if n <= |log| then log[..n] else log
  }

  ghost function Step(cfg: Config, s: Sys, a: Action): Sys
    requires Enabled(cfg, s, a)
  {
    match a
    case UpsertBy(opId, key, vector, payload, admitted, fault) =>
      Mutated(s, StoreOps.Upsert(cfg, s.disk, s.server.value, opId, key, vector, payload, admitted, fault))
    case DeleteBy(opId, key, fault) =>
      Mutated(s, StoreOps.Delete(cfg, s.disk, s.server.value, opId, key, fault))
    case SnapshotTo(fault) =>
      var (d, server) := Snapshot(s.disk, s.server.value, fault);
      s.(disk := d, server := Some(server))
    case CaptureAndBuild =>
      var plan := Capture(cfg, s.server.value);
      if plan.Ok? then s.(server := Some(s.server.value.(plans := s.server.value.plans + [plan.value]))) else s
    case FinishPlan(i, fault) =>
      var (d, server, _) := FinishCompaction(cfg, s.disk, s.server.value, s.server.value.plans[i], fault);
      if i < |server.plans| then s.(disk := d, server := Some(server.(plans := DropAt(server.plans, i)))) else s
    case TruncateLog(stop, synced) =>
      s.(disk := Truncate(s.disk, s.server.value, stop, synced))
    case OpenWith(fault) =>
      var (d, r) := Open(cfg, s.disk, fault);
      if r.Ok? then Sys(d, Some(r.value), Upto(s.log, r.value.mem.high), s.acked) else s.(disk := d)
    case Kill => s.(server := None)
    case LosePower(after) => s.(disk := after, server := None)
    case DamageSnapshot(h) =>
      s.(disk := s.disk.(snaps := s.disk.snaps[h := s.disk.snaps[h].(good := false)]))
  }

  /** A run: each state follows from the one before by its action. */
  ghost predicate Run(cfg: Config, states: seq<Sys>, actions: seq<Action>) {
    && |states| == |actions| + 1
    && forall i :: 0 <= i < |actions| ==> Follows(cfg, states[i], actions[i], states[i + 1])
  }

  ghost predicate Follows(cfg: Config, s: Sys, a: Action, t: Sys) {
    Enabled(cfg, s, a) && t == Step(cfg, s, a)
  }

  // ----- creation

  /** What the partition holds before its first entry: nothing, or the rows of
      a bulk load. */
  ghost function Base(cfg: Config, vectors: seq<Vector>, keys: seq<Bytes>): Logical
    requires cfg.baseSnapshot ==> UniqueKeys(keys) && |vectors| == |keys|
  {
    if cfg.baseSnapshot then
      BulkLoadedOk(vectors, keys);
      Abs(BulkLoaded(vectors, keys))
    else EMPTY
  }

  /** The state a partition is created in, before anything is served. */
  function Initial(cfg: Config, vectors: seq<Vector>, keys: seq<Bytes>): Mem {
    if cfg.baseSnapshot then BulkLoaded(vectors, keys) else EMPTY_MEM
  }

  /** A partition just created, or bulk-loaded. `made` is how creating its
      first segment failed, if it did, and `snap` how far the snapshot of a
      bulk load came; nothing is serving unless all of it succeeded. */
  ghost predicate Created(cfg: Config, vectors: seq<Vector>, keys: seq<Bytes>, made: Option<Made>, snap: SnapFault,
                          s: Sys)
  {
    var m := Initial(cfg, vectors, keys);
    var d := Create(cfg, Disk([], [], map[], map[]), 1, made);
    && ConfigOk(cfg) && (if cfg.baseSnapshot then UniqueKeys(keys) && |vectors| == |keys| else snap.SnapDone?)
    && s.log == [] && s.acked == 0
    && s.disk == (if made.None? && cfg.baseSnapshot then WriteSnap(d, m, snap) else d)
    && s.server == if made.None? && snap.SnapDone? then Some(Server(m, Writer(1, HEADER_LEN, 1, false), 0, []))
       else None
  }

  // ----- the invariant

  ghost predicate Inv(cfg: Config, base: Logical, s: Sys) {
    && ConfigOk(cfg) && BaseOk(cfg, base)
    && LogOk(cfg, s.log) && DiskInv(cfg, base, s.log, s.disk)
    && (s.server.Some? ==> ServerInv(cfg, base, s.log, s.disk, s.server.value))
  }

  lemma InitialOk(cfg: Config, vectors: seq<Vector>, keys: seq<Bytes>)
    requires cfg.baseSnapshot ==> UniqueKeys(keys) && |vectors| == |keys|
    ensures var base, m := Base(cfg, vectors, keys), Initial(cfg, vectors, keys);
            BaseOk(cfg, base) && MemOk(cfg, base, [], m) && m.high == 0
  {
    hide RowsBelow;
    var log: seq<Entry> := [];
    assert log[..0] == [];
    if cfg.baseSnapshot {
      BulkLoadedOk(vectors, keys);
    } else {
      EmptyOk();
    }
  }

  lemma NoFiles(cfg: Config, base: Logical)
    ensures DiskInv(cfg, base, [], Disk([], [], map[], map[])) && LogOk(cfg, []) && Tidied(Disk([], [], map[], map[]))
  {
  }

  lemma CreatedInv(cfg: Config, vectors: seq<Vector>, keys: seq<Bytes>, made: Option<Made>, snap: SnapFault, s: Sys)
    requires Created(cfg, vectors, keys, made, snap, s)
    ensures Inv(cfg, Base(cfg, vectors, keys), s)
  {
    hide MemOk, BaseOk, ConfigOk, DiskInv, WriteSnap, WriterOk, Tidied, Reaches, Create, Base, Initial;
    var base := Base(cfg, vectors, keys);
    var blank := Disk([], [], map[], map[]);
    InitialOk(cfg, vectors, keys);
    NoFiles(cfg, base);
    CreateInv(cfg, base, [], blank, made);
    if made.None? {
      NewestCreated(cfg, blank, 1);
      NewWriter(cfg, [], blank);
      if cfg.baseSnapshot {
        WriteSnapOk(cfg, base, [], Create(cfg, blank, 1, made), Initial(cfg, vectors, keys), snap);
      }
    }
  }

  // ----- every step keeps it

  lemma MutationKeeps(cfg: Config, base: Logical, s: Sys, opId: OpId, op: Operation, fault: Fault)
    requires Inv(cfg, base, s) && s.server.Some? && s.disk.segs != []
    requires Mutable(cfg, base, s.log, s.disk, s.server.value, opId, op)
    ensures var t := Mutated(s, Mutate(cfg, s.disk, s.server.value, opId, op, fault));
            Inv(cfg, base, t) && s.log <= t.log
  {
    hide LogOk, DiskInv, ServerInv, ConfigOk, BaseOk, Mutate, Mutable, Grown;
    MutateOk(cfg, base, s.log, s.disk, s.server.value, opId, op, fault);
  }

  /** A request that is refused or answered from the window changes nothing. */
  lemma Unmoved(cfg: Config, base: Logical, s: Sys, o: Outcome)
    requires Inv(cfg, base, s) && s.server.Some? && o.disk == s.disk && o.server == s.server.value
    requires o.result.Ok? ==> o.result.value.deduplicated
    ensures Mutated(s, o) == s
  {
    hide LogOk, DiskInv, MemOk, ConfigOk, BaseOk, Grown, Ready;
    GrownNone(s.log, s.disk.segs);
  }

  lemma UpsertKeeps(cfg: Config, base: Logical, s: Sys, opId: OpId, key: Bytes, vector: Vector, payload: Bytes,
                    admitted: bool, fault: Fault)
    requires Inv(cfg, base, s) && Enabled(cfg, s, UpsertBy(opId, key, vector, payload, admitted, fault))
    ensures var t := Step(cfg, s, UpsertBy(opId, key, vector, payload, admitted, fault));
            Inv(cfg, base, t) && s.log <= t.log
  {
    hide LogOk, DiskInv, ServerInv, BaseOk, Mutate, Finite, Mutated;
    var o := StoreOps.Upsert(cfg, s.disk, s.server.value, opId, key, vector, payload, admitted, fault);
    if Lookup(s.server.value.mem.window, opId).None? && |vector| == cfg.dims && Finite(vector)
        && cfg.prepare(vector).Some? && admitted {
      MutationKeeps(cfg, base, s, opId, Operation.Upsert(key, payload, cfg.prepare(vector).value), fault);
    } else {
      Unmoved(cfg, base, s, o);
    }
  }

  lemma DeleteKeeps(cfg: Config, base: Logical, s: Sys, opId: OpId, key: Bytes, fault: Fault)
    requires Inv(cfg, base, s) && Enabled(cfg, s, DeleteBy(opId, key, fault))
    ensures var t := Step(cfg, s, DeleteBy(opId, key, fault));
            Inv(cfg, base, t) && s.log <= t.log
  {
    hide LogOk, DiskInv, ServerInv, BaseOk, Mutate, Finite, Mutated;
    var o := StoreOps.Delete(cfg, s.disk, s.server.value, opId, key, fault);
    if Lookup(s.server.value.mem.window, opId).None? {
      MutationKeeps(cfg, base, s, opId, Operation.Delete(key), fault);
    } else {
      Unmoved(cfg, base, s, o);
    }
  }

  lemma SnapshotKeepsInv(cfg: Config, base: Logical, s: Sys, fault: SnapFault)
    requires Inv(cfg, base, s) && s.server.Some?
    ensures Inv(cfg, base, Step(cfg, s, SnapshotTo(fault)))
  {
    hide LogOk, DiskInv, ServerInv, ConfigOk, BaseOk, Snapshot;
    SnapshotOk(cfg, base, s.log, s.disk, s.server.value, fault);
  }

  lemma CaptureKeeps(cfg: Config, base: Logical, s: Sys)
    requires Inv(cfg, base, s) && Enabled(cfg, s, CaptureAndBuild)
    ensures Inv(cfg, base, Step(cfg, s, CaptureAndBuild))
  {
    hide LogOk, DiskInv, ServerInv, ConfigOk, BaseOk, Capture, Abs, RepOk;
    CaptureOk(cfg, base, s.log, s.disk, s.server.value);
  }

  lemma FinishKeepsInv(cfg: Config, base: Logical, s: Sys, i: nat, fault: FinishFault)
    requires Inv(cfg, base, s) && Enabled(cfg, s, FinishPlan(i, fault))
    ensures Inv(cfg, base, Step(cfg, s, FinishPlan(i, fault)))
  {
    hide LogOk, DiskInv, ServerInv, ConfigOk, BaseOk, FinishCompaction, Abs, RepOk, DropAt;
    FinishOk(cfg, base, s.log, s.disk, s.server.value, i, fault);
  }

  lemma TruncateKeeps(cfg: Config, base: Logical, s: Sys, stop: nat, synced: bool)
    requires Inv(cfg, base, s) && s.server.Some?
    ensures Inv(cfg, base, Step(cfg, s, TruncateLog(stop, synced)))
  {
    hide LogOk, DiskInv, ServerInv, ConfigOk, BaseOk, Truncate;
    TruncateOk(cfg, base, s.log, s.disk, s.server.value, stop, synced);
  }

  /** An open keeps the invariant; when it succeeds the history is what it
      serves, and all the files hold. */
  lemma OpenKeeps(cfg: Config, base: Logical, s: Sys, fault: OpenFault)
    requires Inv(cfg, base, s) && Enabled(cfg, s, OpenWith(fault))
    ensures var t := Step(cfg, s, OpenWith(fault));
            && Inv(cfg, base, t) && t.disk.snaps == s.disk.snaps && (t.server.None? ==> t.log == s.log)
            && (t.server.Some? ==>
                  var server := t.server.value;
                  && server.mem.high <= |s.log| && t.log == s.log[..server.mem.high] && End(t.disk.segs) == |t.log|
                  && !server.wal.poisoned && server.plans == []
                  && RepOk(server.mem) && Abs(server.mem) == Fold(base, cfg.norm, cfg.capacity, t.log))
  {
    hide LogOk, DiskInv, ServerInv, ConfigOk, BaseOk, Open, Abs, RepOk, Fold, End;
    OpenOk(cfg, base, s.log, s.disk, fault);
    var (d, r) := Open(cfg, s.disk, fault);
    if r.Ok? {
      LogOkPrefix(cfg, s.log, r.value.mem.high);
    }
  }

  lemma PowerKeeps(cfg: Config, base: Logical, s: Sys, after: Disk)
    requires Inv(cfg, base, s) && Enabled(cfg, s, LosePower(after))
    ensures Inv(cfg, base, Step(cfg, s, LosePower(after)))
  {
    hide LogOk, DiskInv, ServerInv, ConfigOk, BaseOk, PowerLoss;
    AfterLoss(cfg, base, s.log, s.disk, after);
  }

  lemma DamageKeeps(cfg: Config, base: Logical, s: Sys, h: nat)
    requires Inv(cfg, base, s) && h in s.disk.snaps
    ensures Inv(cfg, base, Step(cfg, s, DamageSnapshot(h)))
  {
    hide LogOk, MemOk, ConfigOk, BaseOk, LastWhole, WriterOk, PlansOk, SegsIn, Apart;
  }

  lemma KillKeeps(cfg: Config, base: Logical, s: Sys)
    requires Inv(cfg, base, s)
    ensures Inv(cfg, base, s.(server := None))
  {
  }

  /** Every step keeps the invariant, and only an open that succeeds shortens
      the history, to exactly what it serves. */
  lemma EveryStep(cfg: Config, base: Logical, s: Sys, a: Action)
    requires Inv(cfg, base, s) && Enabled(cfg, s, a)
    ensures var t := Step(cfg, s, a);
            && Inv(cfg, base, t)
            && (s.log <= t.log || (a.OpenWith? && t.server.Some? && t.log == Upto(s.log, t.server.value.mem.high)))
  {
    hide Inv;
    match a
    case UpsertBy(opId, key, vector, payload, admitted, fault) =>
      UpsertKeeps(cfg, base, s, opId, key, vector, payload, admitted, fault);
    case DeleteBy(opId, key, fault) => DeleteKeeps(cfg, base, s, opId, key, fault);
    case SnapshotTo(fault) => SnapshotKeepsInv(cfg, base, s, fault);
    case CaptureAndBuild => CaptureKeeps(cfg, base, s);
    case FinishPlan(i, fault) => FinishKeepsInv(cfg, base, s, i, fault);
    case TruncateLog(stop, synced) => TruncateKeeps(cfg, base, s, stop, synced);
    case OpenWith(fault) => OpenKeeps(cfg, base, s, fault);
    case Kill => KillKeeps(cfg, base, s);
    case LosePower(after) => PowerKeeps(cfg, base, s, after);
    case DamageSnapshot(h) => DamageKeeps(cfg, base, s, h);
  }
}
