/** The durable operations of a partition (partition.rs, `WalWriter` of wal.rs)
    as functions of the directory and the server state. Every I/O call that can
    fail is a fault the caller of the function chooses; a process that stops at
    a failpoint is a fault too. */
module StoreOps {
  import opened Words
  import opened WalCodec
  import opened WalSegment
  import opened LogFold
  import opened PartitionState
  import opened Compaction
  import opened Disk

  const ROTATE_BYTES := 64 * 1024 * 1024

  /** The partition's manifest, the checksum, and what the metric does to
      vectors: `prepare` before logging, `norm` when a row is stored. */
  datatype Config = Config(
    id: PartitionId, crc: Checksum, dims: nat, capacity: nat, baseSnapshot: bool,
    prepare: Vector -> Option<Vector>, norm: Vector -> Vector)

  /** Normalizing a finite vector of the right length gives another one. */
  ghost predicate ConfigOk(cfg: Config) {
    && 0 < cfg.capacity
    && forall v :: |v| == cfg.dims && Finite(v) && cfg.prepare(v).Some? ==>
         |cfg.prepare(v).value| == cfg.dims && Finite(cfg.prepare(v).value)
  }

  datatype Writer = Writer(current: nat, bytes: nat, nextSeq: nat, poisoned: bool)

  /** An open partition. `plans` are the compactions captured and rebuilt but
      not finished. */
  datatype Server = Server(mem: Mem, wal: Writer, snapHigh: nat, plans: seq<Mem>)

  datatype StoreError =
    | Wal(error: WalError)
    | WrongDims
    | NonFinite
    | ZeroVector
    | OverBudget
    | Injected
    | IoFailed
    | MissingHistory
    | BaseSnapshotUnavailable
    | QueryLimit

  /** How far creating a segment came before it failed: no file, part of a
      header, a whole header not synced, a synced file whose directory entry
      was not synced, or all of it, with the new segment not opened. */
  datatype Made = NoFile | PartHeader(k: nat) | HeaderUnsynced | NotLinked | NotReopened

  datatype Fault =
    | NoFault
    | RotateSyncFails
    | CreateFails(made: Made)
    | WriteFails(part: nat)
    | StopAfterAppend
    | SyncFails
    | StopAfterSync
    | StopAfterApply

  // ----- the writer

  function SyncFile(f: SegFile): SegFile {
    if f.Whole? then f.(synced := |f.entries|, settled := f.tail == []) else f
  }

  function SetNewest(d: Disk, f: SegFile): Disk
    requires d.segs != []
  {
    d.(segs := d.segs[|d.segs| - 1 := f])
  }

  function NewestSeg(d: Disk): SegFile
    requires d.segs != []
  {
    d.segs[|d.segs| - 1]
  }

  /** Syncing the directory makes every file in it durable by name. */
  function LinkAll(segs: seq<SegFile>): (r: seq<SegFile>)
    ensures |r| == |segs|
  {
    seq(|segs|, i requires 0 <= i < |segs| => Link(segs[i]))
  }

  /** The directory with a complete new segment, its directory entry synced. */
  function WithSegment(d: Disk, first: nat): Disk {
    d.(segs := LinkAll(d.segs) + [Whole(first, [], [], 0, true, true)], limbo := [])
  }

  /** `create_segment`. */
  function Create(cfg: Config, d: Disk, first: nat, made: Option<Made>): Disk {
    match made
    case None => WithSegment(d, first)
    case Some(NoFile) => d
    case Some(PartHeader(k)) =>
      d.(segs := d.segs + [Headless(first, HeaderOf(cfg.id, first)[..if k < HEADER_LEN then k else 0], false)])
    case Some(HeaderUnsynced) => d.(segs := d.segs + [Whole(first, [], [], -1, false, false)])
    case Some(NotLinked) => d.(segs := d.segs + [Whole(first, [], [], 0, true, false)])
    case Some(NotReopened) => WithSegment(d, first)
  }

  datatype Appended = Appended(disk: Disk, wal: Writer, result: Result<nat, WalError>)

  /** `rotate`: sync the full segment, create the next one. */
  function Rotate(cfg: Config, d: Disk, w: Writer, fault: Fault): Appended
    requires d.segs != []
  {
    if fault.RotateSyncFails? then Appended(d, w.(poisoned := true), Err(Io))
    else
      var sealed := SetNewest(d, SyncFile(NewestSeg(d)));
      if fault.CreateFails? then
        Appended(Create(cfg, sealed, w.nextSeq, Some(fault.made)), w.(poisoned := true), Err(Io))
      else
        Appended(Create(cfg, sealed, w.nextSeq, None), w.(current := w.nextSeq, bytes := HEADER_LEN), Ok(w.nextSeq))
  }

  /** The frame write at the end of the active segment. */
  function WriteFrame(cfg: Config, d: Disk, w: Writer, e: Entry, fault: Fault): Appended
    requires d.segs != []
  {
    var f := NewestSeg(d);
    var frame := FrameOf(cfg.crc, e);
    if !f.Whole? then Appended(d, w.(poisoned := true), Err(Io))
    else if fault.WriteFails? then
      var cut := frame[..if fault.part < |frame| then fault.part else 0];
      Appended(SetNewest(d, f.(tail := cut, settled := false)), w.(poisoned := true), Err(Io))
    else
      Appended(SetNewest(d, f.(entries := f.entries + [e], settled := false)),
               w.(bytes := w.bytes + |frame|, nextSeq := w.nextSeq + 1), Ok(w.nextSeq))
  }

  /** `append_unsynced`. */
  function AppendUnsynced(cfg: Config, d: Disk, w: Writer, opId: OpId, op: Operation, fault: Fault): Appended
    requires d.segs != []
  {
    var e := Entry(w.nextSeq, opId, op);
    if w.poisoned then Appended(d, w, Err(Poisoned))
    else if Encode(cfg.crc, e).Err? then Appended(d, w, Err(Encode(cfg.crc, e).error))
    else if w.bytes < ROTATE_BYTES then WriteFrame(cfg, d, w, e, fault)
    else
      var r := Rotate(cfg, d, w, fault);
      if r.result.Err? || r.disk.segs == [] then r else WriteFrame(cfg, r.disk, r.wal, e, fault)
  }

  /** `sync` on a writer that is not poisoned. */
  function SyncNewest(d: Disk): Disk
    requires d.segs != []
  {
    SetNewest(d, SyncFile(NewestSeg(d)))
  }

  // ----- mutations

  predicate Applicable(cfg: Config, e: Entry) {
    e.operation.Upsert? ==> |e.operation.vector| == cfg.dims && Finite(e.operation.vector)
  }

  /** `Partition::apply`: a vector the index refuses changes nothing. */
  function ApplyChecked(cfg: Config, m: Mem, e: Entry): Result<Mem, StoreError> {
    if e.operation.Upsert? && |e.operation.vector| != cfg.dims then Err(WrongDims)
    else if e.operation.Upsert? && !Finite(e.operation.vector) then Err(NonFinite)
    else Ok(ApplyMem(m, cfg.norm, cfg.capacity, e))
  }

  /** A reply: the sequence, and whether it was found in the window. */
  datatype Reply = Reply(seqNo: nat, deduplicated: bool)

  datatype Outcome = Outcome(disk: Disk, server: Server, result: Result<Reply, StoreError>)

  function Poison(s: Server): Server {
    s.(wal := s.wal.(poisoned := true))
  }

  /** `mutate`: append, sync, apply, acknowledge. Anything that goes wrong
      after the append poisons the writer. */
  function Mutate(cfg: Config, d: Disk, s: Server, opId: OpId, op: Operation, fault: Fault): Outcome
    requires d.segs != []
  {
    var a := AppendUnsynced(cfg, d, s.wal, opId, op, fault);
    var s1 := s.(wal := a.wal);
    if a.result.Err? then Outcome(a.disk, s1, Err(Wal(a.result.error)))
    else if a.disk.segs == [] then Outcome(a.disk, Poison(s1), Err(IoFailed))
    else if fault.StopAfterAppend? then Outcome(a.disk, Poison(s1), Err(Injected))
    else if fault.SyncFails? then Outcome(a.disk, Poison(s1), Err(IoFailed))
    else
      var d2 := SyncNewest(a.disk);
      if fault.StopAfterSync? then Outcome(d2, Poison(s1), Err(Injected))
      else
        var m := ApplyChecked(cfg, s.mem, Entry(a.result.value, opId, op));
        if m.Err? then Outcome(d2, Poison(s1), Err(m.error))
        else if fault.StopAfterApply? then Outcome(d2, s1.(mem := m.value), Err(Injected))
        else Outcome(d2, s1.(mem := m.value), Ok(Reply(a.result.value, false)))
  }

  /** The sequence the window holds for an operation id. */
  function Lookup(w: Window, op: OpId): Option<nat> {
    if w == [] then None
    else if w[|w| - 1].0 == op then Some(w[|w| - 1].1)
    else Lookup(w[..|w| - 1], op)
  }

  /** `upsert`. `admitted` is the answer of the RAM budget check. */
  function Upsert(cfg: Config, d: Disk, s: Server, opId: OpId, key: Bytes, vector: Vector, payload: Bytes,
                  admitted: bool, fault: Fault): Outcome
    requires d.segs != []
  {
    match Lookup(s.mem.window, opId)
    case Some(seqNo) => Outcome(d, s, Ok(Reply(seqNo, true)))
    case None =>
      if |vector| != cfg.dims then Outcome(d, s, Err(WrongDims))
      else if !Finite(vector) then Outcome(d, s, Err(NonFinite))
      else match cfg.prepare(vector)
        case None => Outcome(d, s, Err(ZeroVector))
        case Some(stored) =>
          if !admitted then Outcome(d, s, Err(OverBudget))
          else Mutate(cfg, d, s, opId, Operation.Upsert(key, payload, stored), fault)
  }

  /** `delete`. */
  function Delete(cfg: Config, d: Disk, s: Server, opId: OpId, key: Bytes, fault: Fault): Outcome
    requires d.segs != []
  {
    match Lookup(s.mem.window, opId)
    case Some(seqNo) => Outcome(d, s, Ok(Reply(seqNo, true)))
    case None => Mutate(cfg, d, s, opId, Operation.Delete(key), fault)
  }

  // ----- snapshots

  datatype SnapFault = SnapDone | BeforeRename | RenameNotSynced | AfterRename

  /** Write the snapshot of a state through a temporary name. */
  function WriteSnap(d: Disk, m: Mem, fault: SnapFault): Disk {
    match fault
    case BeforeRename => d
    case RenameNotSynced =>
      d.(snaps := d.snaps[m.high := SnapFile(m, true)],
         before := if m.high in d.before then d.before
                   else d.before[m.high := if m.high in d.snaps then Some(d.snaps[m.high]) else None])
    case _ => d.(snaps := d.snaps[m.high := SnapFile(m, true)], before := map[])
  }

  function Snapshot(d: Disk, s: Server, fault: SnapFault): (Disk, Server) {
    (WriteSnap(d, s.mem, fault),
     if fault.SnapDone? || fault.AfterRename? then s.(snapHigh := s.mem.high) else s)
  }

  // ----- compaction

  /** Capture and rebuild, when every captured row is finite. */
  function Capture(cfg: Config, s: Server): Result<Mem, StoreError>
    requires |s.mem.vectors| == |s.mem.slots|
  {
    var live := LiveSlots(s.mem);
    if exists i :: 0 <= i < |live| && !Finite(s.mem.vectors[live[i]]) then Err(NonFinite)
    else Ok(Staged(s.mem, cfg.capacity))
  }

  /** Apply the entries of one segment that follow the rebuild point. */
  function CatchEntries(cfg: Config, entries: seq<Entry>, m: Mem, from: nat, high: nat): Result<Mem, StoreError> {
    if entries == [] then Ok(m)
    else
      var e := entries[0];
      if e.seqNo <= from || e.seqNo > high then CatchEntries(cfg, entries[1..], m, from, high)
      else if e.seqNo != m.high + 1 then Err(Wal(SequenceGap(m.high + 1, e.seqNo)))
      else match ApplyChecked(cfg, m, e)
        case Err(error) => Err(error)
        case Ok(next) => CatchEntries(cfg, entries[1..], next, from, high)
  }

  /** Read the segments from the `i`-th on and apply what follows the rebuild
      point `from` up to the served high-water mark. */
  function CatchUp(cfg: Config, segs: seq<SegFile>, i: nat, m: Mem, from: nat, high: nat): Result<Mem, StoreError>
    requires i <= |segs|
    decreases |segs| - i
  {
    if i == |segs| then Ok(m)
    else if segs[i].first > high then CatchUp(cfg, segs, i + 1, m, from, high)
    else match ReadFile(cfg.crc, cfg.id, segs[i], i == |segs| - 1)
      case Err(error) => Err(Wal(error))
      case Ok(read) =>
        match CatchEntries(cfg, read.entries, m, from, high)
        case Err(error) => Err(error)
        case Ok(next) => CatchUp(cfg, segs, i + 1, next, from, high)
  }

  datatype FinishFault = FinishDone | FinishSnap(fault: SnapFault) | BeforeSwap

  /** `finish_compaction`: catch up, snapshot the staged state, swap. */
  function FinishCompaction(cfg: Config, d: Disk, s: Server, plan: Mem, fault: FinishFault)
    : (Disk, Server, Result<nat, StoreError>)
  {
    match CatchUp(cfg, d.segs, 0, plan, plan.high, s.mem.high)
    case Err(error) => (d, s, Err(error))
    case Ok(staged) =>
      if staged.high != s.mem.high then (d, s, Err(MissingHistory))
      else match fault
        case FinishSnap(f) => (WriteSnap(d, staged, f), s, Err(IoFailed))
        case BeforeSwap => (WriteSnap(d, staged, SnapDone), s, Err(Injected))
        case FinishDone =>
          (WriteSnap(d, staged, SnapDone), s.(mem := staged, snapHigh := s.mem.high), Ok(staged.high))
  }

  // ----- truncation

  /** A segment the truncation loop removes: covered by the snapshot and not
      the writer's. */
  predicate Removable(segs: seq<SegFile>, i: nat, snapHigh: nat, current: nat) {
    i + 1 < |segs| && segs[i + 1].first <= snapHigh + 1 && segs[i].first != current
  }

  /** What the removal loop leaves of the segments from the `i`-th on, when it
      stops after examining `stop` of them. */
  function Kept(segs: seq<SegFile>, i: nat, snapHigh: nat, current: nat, stop: nat): seq<SegFile>
    requires i <= |segs|
    decreases |segs| - i
  {
    if i == |segs| then []
    else if i < stop && Removable(segs, i, snapHigh, current) then Kept(segs, i + 1, snapHigh, current, stop)
    else [segs[i]] + Kept(segs, i + 1, snapHigh, current, stop)
  }

  function Removed(segs: seq<SegFile>, i: nat, snapHigh: nat, current: nat, stop: nat): seq<SegFile>
    requires i <= |segs|
    decreases |segs| - i
  {
    if i == |segs| then []
    else if i < stop && Removable(segs, i, snapHigh, current) then
      [segs[i]] + Removed(segs, i + 1, snapHigh, current, stop)
    else Removed(segs, i + 1, snapHigh, current, stop)
  }

  /** `truncate_wal_below_snapshot`; `stop` and `synced` say how far it got. */
  function Truncate(d: Disk, s: Server, stop: nat, synced: bool): Disk {
    var kept := Kept(d.segs, 0, s.snapHigh, s.wal.current, stop);
    var removed := Removed(d.segs, 0, s.snapHigh, s.wal.current, stop);
    if removed == [] then d
    else d.(segs := if synced then LinkAll(kept) else kept, limbo := if synced then [] else d.limbo + removed)
  }

  // ----- recovery

  ghost predicate IsNewestGood(snaps: map<nat, SnapFile>, h: nat) {
    h in snaps && snaps[h].good && forall g :: g in snaps && snaps[g].good ==> g <= h
  }

  lemma {:induction false} NewestGoodExists(snaps: map<nat, SnapFile>, h: nat)
    requires h in snaps && snaps[h].good
    ensures exists g :: IsNewestGood(snaps, g)
    decreases |snaps|
  {
    if !IsNewestGood(snaps, h) {
      var rest := snaps - {h};
      var g :| g in snaps && snaps[g].good && g > h;
      assert rest.Keys == snaps.Keys - {h};
      NewestGoodExists(rest, g);
      var top :| IsNewestGood(rest, top);
      assert forall x :: x in snaps ==> x == h || x in rest;
      assert g in rest && g <= top;
      assert IsNewestGood(snaps, top);
    }
  }

  /** The high-water mark of the newest snapshot that verifies. */
  ghost function NewestGood(snaps: map<nat, SnapFile>): (r: Option<nat>)
    ensures r.None? ==> forall h :: h in snaps ==> !snaps[h].good
    ensures r.Some? ==> IsNewestGood(snaps, r.value)
  {
    if exists h :: h in snaps && snaps[h].good then
      var h :| h in snaps && snaps[h].good;
      NewestGoodExists(snaps, h);
      var g :| IsNewestGood(snaps, g);
      Some(g)
    else None
  }

  /** Loading keeps the state and records the saved window again. */
  function Loaded(cfg: Config, f: SnapFile): Mem {
    f.mem.(window := RecordAll([], cfg.capacity, f.mem.window))
  }

  /** Replay the entries of one segment above the high-water mark. */
  function ReplayEntries(cfg: Config, entries: seq<Entry>, m: Mem): Result<Mem, StoreError> {
    if entries == [] then Ok(m)
    else
      var e := entries[0];
      if e.seqNo <= m.high then ReplayEntries(cfg, entries[1..], m)
      else if e.seqNo != m.high + 1 then Err(Wal(SequenceGap(m.high + 1, e.seqNo)))
      else match ApplyChecked(cfg, m, e)
        case Err(error) => Err(error)
        case Ok(next) => ReplayEntries(cfg, entries[1..], next)
  }

  /** The replay loop's state: the partition, whether some segment connects to
      what was known, and the highest sequence any segment ends at. */
  datatype Replaying = Replaying(mem: Mem, saw: bool, end: Option<int>)

  function SegmentEnd(read: SegmentRead, f: SegFile): int {
    if read.entries == [] then f.first - 1 else read.entries[|read.entries| - 1].seqNo
  }

  function ReplaySegs(cfg: Config, segs: seq<SegFile>, i: nat, st: Replaying): Result<Replaying, StoreError>
    requires i <= |segs|
    decreases |segs| - i
  {
    if i == |segs| then Ok(st)
    else match ReadFile(cfg.crc, cfg.id, segs[i], i == |segs| - 1)
      case Err(error) => Err(Wal(error))
      case Ok(read) =>
        var end := SegmentEnd(read, segs[i]);
        match ReplayEntries(cfg, read.entries, st.mem)
        case Err(error) => Err(error)
        case Ok(m) =>
          ReplaySegs(cfg, segs, i + 1,
            Replaying(m, st.saw || segs[i].first <= st.mem.high + 1,
                      Some(if st.end.Some? && st.end.value > end then st.end.value else end)))
  }

  datatype Recovered = Recovered(mem: Mem, snapHigh: nat)

  /** `recover`: the newest snapshot that verifies, then the log. */
  ghost function Recover(cfg: Config, d: Disk): Result<Recovered, StoreError> {
    var newest := NewestGood(d.snaps);
    if newest.None? && cfg.baseSnapshot then Err(BaseSnapshotUnavailable)
    else
      var m := if newest.Some? then Loaded(cfg, d.snaps[newest.value]) else EMPTY_MEM;
      match ReplaySegs(cfg, d.segs, 0, Replaying(m, m.high == 0 && d.segs == [], None))
      case Err(error) => Err(error)
      case Ok(st) =>
        if !st.saw || (st.end.Some? && st.end.value < m.high) then Err(MissingHistory)
        else Ok(Recovered(st.mem, m.high))
  }

  /** Offset of the newest segment's torn tail, if it has one. */
  function TornAt(cfg: Config, d: Disk): Option<nat> {
    if d.segs == [] then None
    else match ReadFile(cfg.crc, cfg.id, NewestSeg(d), true)
      case Ok(read) => read.torn
      case Err(_) => None
  }

  /** `truncate_torn_tail` on the newest segment, stopped between removing or
      shortening the file and syncing what that changed. */
  function HalfRepair(cfg: Config, d: Disk): Disk {
    match TornAt(cfg, d)
    case None => d
    case Some(offset) =>
      if d.segs == [] then d
      else if offset < HEADER_LEN then d.(segs := d.segs[..|d.segs| - 1], limbo := d.limbo + [NewestSeg(d)])
      else if NewestSeg(d).Whole? then SetNewest(d, NewestSeg(d).(tail := [], settled := false))
      else d
  }

  /** `truncate_torn_tail` on the newest segment, when it has a torn tail. */
  function Repair(cfg: Config, d: Disk): Disk {
    match TornAt(cfg, d)
    case None => d
    case Some(offset) =>
      var half := HalfRepair(cfg, d);
      if offset < HEADER_LEN then half.(segs := LinkAll(half.segs), limbo := [])
      else if half.segs == [] then half
      else SyncNewest(half)
  }

  /** `WalWriter::open` positioned after `last`: the writer, and whether a new
      segment has to be created for it. */
  function OpenWriter(cfg: Config, d: Disk, last: nat): Result<(Writer, bool), StoreError> {
    if d.segs == [] then Ok((Writer(last + 1, HEADER_LEN, last + 1, false), true))
    else
      var f := NewestSeg(d);
      if f.first > last + 1 then Err(Wal(SequenceGap(last + 1, f.first)))
      else match ReadFile(cfg.crc, cfg.id, f, true)
        case Err(error) => Err(Wal(error))
        case Ok(read) =>
          if read.torn.Some? then Err(Wal(CorruptAt(read.torn.value)))
          else if SegmentEnd(read, f) != last then Err(Wal(SequenceGap(last + 1, f.first)))
          else if |FileBytes(cfg.crc, cfg.id, f)| < ROTATE_BYTES then
            Ok((Writer(f.first, |FileBytes(cfg.crc, cfg.id, f)|, last + 1, false), false))
          else Ok((Writer(last + 1, HEADER_LEN, last + 1, false), true))
  }

  datatype OpenFault = OpenDone | BeforeRepair | MidRepair | AfterRepair | OpenCreateFails(made: Made)

  /** `WalWriter::open` after `recover` and the repair. */
  function StartWriter(cfg: Config, d: Disk, r: Recovered, fault: OpenFault): (Disk, Result<Server, StoreError>) {
    match OpenWriter(cfg, d, r.mem.high)
    case Err(error) => (d, Err(error))
    case Ok((w, create)) =>
      if create && fault.OpenCreateFails? then (Create(cfg, d, r.mem.high + 1, Some(fault.made)), Err(IoFailed))
      else (if create then WithSegment(d, r.mem.high + 1) else d, Ok(Server(r.mem, w, r.snapHigh, [])))
  }

  /** `open`: recover, repair the torn tail, open the writer. */
  ghost function Open(cfg: Config, d: Disk, fault: OpenFault): (Disk, Result<Server, StoreError>) {
    match Recover(cfg, d)
    case Err(error) => (d, Err(error))
    case Ok(r) =>
      if fault.BeforeRepair? then (d, Err(IoFailed))
      else if fault.MidRepair? then (HalfRepair(cfg, d), Err(IoFailed))
      else if fault.AfterRepair? then (Repair(cfg, d), Err(IoFailed))
      else StartWriter(cfg, Repair(cfg, d), r, fault)
  }
}
