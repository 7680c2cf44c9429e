/** The partition object (partition.rs): its fields, updated in place, proved
    against the operations the runs are made of. */
module Partitions {
  import opened Words
  import opened WalCodec
  import opened WalSegment
  import opened LogFold
  import opened PartitionState
  import opened Compaction
  import opened Disk
  import opened StoreOps
  import opened WalWriting
  import opened Idempotency
  import opened VisitedSet
  import opened Rank
  import opened Heuristic
  import Graph
  import Hnsw

  /** Largest `k` and `ef` a search accepts. */
  const MAX_K := 10_000
  const MAX_EF := 100_000
  /** Filters admitting at most this many slots per `ef` are answered exactly. */
  const CUTOVER_PER_EF := 200

  datatype Found = Found(key: Bytes, distance: real, payload: Bytes, slot: nat)

  /** The graph's hits among what a query returned. */
  ghost function HitsFound(r: seq<Found>): seq<Hit> {
    seq(|r|, i requires 0 <= i < |r| => Hit(r[i].distance, r[i].slot))
  }

  /** A hit carries the key and payload of a live row, and is that key's live
      slot. */
  ghost predicate IsRecord(m: Mem, f: Found)
    requires RepOk(m)
  {
    && LiveSlot(m, f.key) == Some(f.slot) && f.slot < |m.slots|
    && exists r :: r in Abs(m).rows && r.key == f.key && r.payload == f.payload
                   && r.version == m.slots[f.slot].version && r.vector == m.vectors[f.slot]
  }

  /** Hits of live rows, each key once, nearest first. */
  ghost predicate FoundLive(m: Mem, r: seq<Found>) {
    && RepOk(m)
    && (forall i :: 0 <= i < |r| ==> IsRecord(m, r[i]))
    && (forall i, j :: 0 <= i < j < |r| ==> r[i].key != r[j].key)
    && (forall i, j :: 0 <= i < j < |r| ==> Before(Hit(r[i].distance, r[i].slot), Hit(r[j].distance, r[j].slot)))
  }

  /** A live slot has the record its key leads to. */
  lemma HitRecord(m: Mem, slot: nat)
    requires RepOk(m) && slot < |m.vectors| && slot !in m.dead
    ensures slot < |m.slots| && m.slots[slot].keyIndex < |m.keyTable|
    ensures forall d :: IsRecord(m, Found(m.keyTable[m.slots[slot].keyIndex], d, m.slots[slot].payload, slot))
  {
    assert SlotOk(m, slot);
    RowInRows(m, |m.slots|, slot);
    assert RowAt(m, slot) in Abs(m).rows;
  }

  lemma FoundDistinct(m: Mem, hits: seq<Hit>, found: seq<Found>)
    requires RepOk(m) && |found| == |hits| && Sorted(hits) && Graph.Distinct(Ids(hits))
    requires forall j ::
               0 <= j < |hits|
               ==> found[j].slot == hits[j].id && found[j].distance == hits[j].distance && IsRecord(m, found[j])
    ensures FoundLive(m, found)
  {
    hide RepOk;
    forall i, j | 0 <= i < j < |found|
      ensures found[i].key != found[j].key
              && Before(Hit(found[i].distance, found[i].slot), Hit(found[j].distance, found[j].slot))
    {
      assert Ids(hits)[i] != Ids(hits)[j];
    }
  }

  /** The snapshot names, newest first. */
  ghost predicate NewestFirst(names: seq<nat>, snaps: map<nat, SnapFile>) {
    && (forall i, j :: 0 <= i < j < |names| ==> names[i] > names[j])
    && (forall h :: h in names <==> h in snaps)
  }

  /** The first snapshot that verifies is the newest that does. */
  method NewestVerifiable(snaps: map<nat, SnapFile>, names: seq<nat>) returns (newest: Option<nat>)
    requires NewestFirst(names, snaps)
    ensures newest == NewestGood(snaps)
  {
    newest := None;
    for i := 0 to |names|
      invariant newest.None? && forall j :: 0 <= j < i ==> !snaps[names[j]].good
    {
      if snaps[names[i]].good {
        assert IsNewestGood(snaps, names[i]);
        return Some(names[i]);
      }
    }
    assert forall h :: h in snaps ==> !snaps[h].good;
  }

  /** The graph a snapshot of `m` restores. */
  ghost predicate Restores(cfg: Config, m: Mem, index: Hnsw.Index)
    reads index
  {
    && index.Valid() && index.dims == cfg.dims && index.stored == cfg.norm
    && RepOk(m) && WindowOk(m.window, cfg.capacity) && index.vectors == m.vectors && index.dead == m.dead
  }

  /** What compaction copies out of a partition. */
  datatype CompactionInput = CompactionInput(
    rebuildPoint: nat, vectors: seq<Vector>, oldSlots: seq<nat>, slots: seq<SlotRecord>, keyTable: seq<Bytes>,
    keys: map<Bytes, KeyEntry>, window: seq<(OpId, nat)>)

  /** The state a build on a captured input stands for. */
  function Planned(input: CompactionInput, capacity: nat): Mem {
    Mem(input.vectors, {}, input.keyTable,
        map k | k in input.keys :: KeyEntry(input.keys[k].index, Renumber(input.keys[k].live, input.oldSlots)),
        input.slots, RecordAll([], capacity, input.window), input.rebuildPoint)
  }

  lemma {:induction false} LiveFound(slots: seq<SlotRecord>, i: nat, n: nat)
    requires i < n <= |slots| && !slots[i].tombstone
    ensures exists j :: 0 <= j < |LiveBelow(slots, n)| && LiveBelow(slots, n)[j] == i
  {
    if i < n - 1 {
      LiveFound(slots, i, n - 1);
      var j :| 0 <= j < |LiveBelow(slots, n - 1)| && LiveBelow(slots, n - 1)[j] == i;
      assert LiveBelow(slots, n)[j] == i;
    } else {
      assert LiveBelow(slots, n)[|LiveBelow(slots, n)| - 1] == i;
    }
  }

  lemma LiveNone(slots: seq<SlotRecord>)
    ensures LiveBelow(slots, 0) == []
  {
  }

  lemma LiveStep(slots: seq<SlotRecord>, i: nat)
    requires i < |slots|
    ensures LiveBelow(slots, i + 1) == if slots[i].tombstone then LiveBelow(slots, i) else LiveBelow(slots, i) + [i]
  {
  }

  lemma CaptureRefuses(cfg: Config, s: Server, i: nat)
    requires |s.mem.vectors| == |s.mem.slots| && i < |s.mem.slots|
    requires !s.mem.slots[i].tombstone && !Finite(s.mem.vectors[i])
    ensures Capture(cfg, s) == Err(NonFinite)
  {
    hide Finite;
    LiveFound(s.mem.slots, i, |s.mem.slots|);
  }

  lemma CaptureIs(cfg: Config, s: Server, input: CompactionInput)
    requires |s.mem.vectors| == |s.mem.slots|
    requires var live := LiveSlots(s.mem);
             && input.oldSlots == live && |input.vectors| == |input.slots| == |live|
             && (forall j ::
                  0 <= j < |live|
                  ==> input.vectors[j] == s.mem.vectors[live[j]] && input.slots[j] == s.mem.slots[live[j]])
    requires forall j :: 0 <= j < |input.vectors| ==> Finite(input.vectors[j])
    requires input.keyTable == s.mem.keyTable && input.keys == s.mem.keys && input.window == s.mem.window
    requires input.rebuildPoint == s.mem.high
    ensures Capture(cfg, s) == Ok(Planned(input, cfg.capacity))
  {
    hide Finite;
    assert Planned(input, cfg.capacity) == Staged(s.mem, cfg.capacity);
  }

  lemma AppendLeavesFiles(cfg: Config, d: Disk, w: Writer, opId: OpId, op: Operation, fault: Fault)
    requires d.segs != []
    ensures AppendUnsynced(cfg, d, w, opId, op, fault).disk.segs != []
    ensures AppendUnsynced(cfg, d, w, opId, op, fault).result.Ok?
            ==> !AppendUnsynced(cfg, d, w, opId, op, fault).wal.poisoned
  {
    hide FrameOf;
  }

  /** Record a saved window entry by entry. */
  method RebuildWindow(capacity: nat, saved: Window) returns (w: IdempotencyWindow)
    requires 0 < capacity && WindowOk(saved, capacity)
    ensures fresh(w) && w.Valid() && w.capacity == capacity && w.Contents() == saved
  {
    RecordAllRebuilds(capacity, saved);
    w := new IdempotencyWindow(capacity);
    for i := 0 to |saved|
      invariant w.Valid() && w.Contents() == RecordAll([], capacity, saved[..i])
      modifies w
    {
      assert saved[..i + 1][..i] == saved[..i];
      w.Record(saved[i].0, saved[i].1);
    }
    assert saved[..|saved|] == saved;
  }

  class Partition {
    const cfg: Config
    /** The level drawn for each slot. */
    const levelFor: nat -> nat
    const visited: Visited
    const wal: WalWriter

    var index: Hnsw.Index
    /** Every key ever seen, in first-seen order. */
    var keyTable: seq<Bytes>
    var keys: map<Bytes, KeyEntry>
    var slots: seq<SlotRecord>
    var idempotency: IdempotencyWindow
    var highWater: nat
    var snapshotHighWater: nat

    /** The fields as one value. */
    ghost function State(): Mem
      reads this, index, idempotency
      requires idempotency.Valid()
    {
      Mem(index.vectors, index.dead, keyTable, keys, slots, idempotency.Contents(), highWater)
    }

    ghost predicate Valid()
      reads this, index, idempotency, visited, wal
    {
      && index.Valid() && idempotency.Valid() && visited.Valid()
      && index.dims == cfg.dims && index.stored == cfg.norm
      && idempotency.capacity == cfg.capacity && wal.cfg == cfg
      && RepOk(State())
    }

    /** What a run calls the server. */
    ghost function Serving(plans: seq<Mem>): Server
      reads this, index, idempotency, wal
      requires idempotency.Valid()
    {
      Server(State(), wal.State(), snapshotHighWater, plans)
    }

    /** An empty partition, as `create` and a recovery without a snapshot make it. */
    constructor Empty(cfg: Config, levelFor: nat -> nat, wal: WalWriter, m: nat, m0: nat, ef: nat,
                      metric: (Vector, Vector) -> real)
      requires 0 < cfg.capacity && wal.cfg == cfg && 1 <= m <= m0 && 1 <= ef
      ensures Valid() && State() == EMPTY_MEM && snapshotHighWater == 0
      ensures this.cfg == cfg && this.wal == wal && fresh(index) && fresh(idempotency) && fresh(visited)
    {
      this.cfg, this.levelFor, this.wal := cfg, levelFor, wal;
      visited := new Visited();
      index := new Hnsw.Index(cfg.dims, m, m0, ef, metric, cfg.norm);
      idempotency := new IdempotencyWindow(cfg.capacity);
      keyTable, keys, slots, highWater, snapshotHighWater := [], map[], [], 0, 0;
      new;
      EmptyOk();
    }

    /** A partition over given parts: the state a snapshot or a compaction plan
        holds, its window recorded entry by entry. */
    constructor FromParts(cfg: Config, levelFor: nat -> nat, wal: WalWriter, index: Hnsw.Index, m: Mem, snapHigh: nat)
      requires 0 < cfg.capacity && wal.cfg == cfg && index.Valid() && index.dims == cfg.dims && index.stored == cfg.norm
      requires RepOk(m) && index.vectors == m.vectors && index.dead == m.dead && WindowOk(m.window, cfg.capacity)
      ensures Valid() && State() == m && snapshotHighWater == snapHigh
      ensures this.cfg == cfg && this.wal == wal && this.index == index && fresh(idempotency) && fresh(visited)
    {
      this.cfg, this.levelFor, this.wal, this.index := cfg, levelFor, wal, index;
      visited := new Visited();
      var window := RebuildWindow(cfg.capacity, m.window);
      idempotency := window;
      keyTable, keys, slots := m.keyTable, m.keys, m.slots;
      highWater, snapshotHighWater := m.high, snapHigh;
    }

    // ----- applying an entry

    /** Tombstone the live slot of a key, in the graph and in its record. */
    method RetireKey(key: Bytes)
      requires index.Valid() && idempotency.Valid()
      requires key in keys && keys[key].live.Some? ==> keys[key].live.value < |slots| <= |index.levels|
      modifies this, index
      ensures index.Valid() && index == old(index) && idempotency == old(idempotency)
      ensures index.vectors == old(index.vectors) && index.levels == old(index.levels)
      ensures keyTable == old(keyTable) && keys == old(keys) && highWater == old(highWater)
      ensures snapshotHighWater == old(snapshotHighWater)
      ensures match LiveSlot(old(State()), key)
              case None => slots == old(slots) && index.dead == old(index.dead)
              case Some(p) => index.dead == old(index.dead) + {p}
                              && slots == old(slots)[p := old(slots)[p].(tombstone := true)]
    {
      if key in keys && keys[key].live.Some? {
        var previous := keys[key].live.value;
        var changed := index.Tombstone(previous);
        slots := slots[previous := slots[previous].(tombstone := true)];
      }
    }

    /** Insert a vector into the graph under the next slot. */
    method InsertRow(vector: Vector) returns (r: Result<nat, Hnsw.VectorError>)
      requires index.Valid() && visited.Valid()
      modifies index, visited
      ensures index.Valid() && visited.Valid()
      ensures r.Err? <==> |vector| != index.dims || !Finite(vector)
      ensures r.Err? ==> index.vectors == old(index.vectors) && index.dead == old(index.dead)
      ensures r.Ok? ==> r.value == old(|index.vectors|) && index.vectors == old(index.vectors) + [index.stored(vector)]
                        && index.dead == old(index.dead)
      ensures |index.levels| == |index.vectors|
    {
      hide Finite;
      r := index.Insert(visited, vector, levelFor(|index.levels|));
    }

    /** Point a key at the slot just inserted for it. */
    method PointKey(key: Bytes, version: nat, payload: Bytes, slot: nat, ghost before: Mem)
      requires index.Valid() && idempotency.Valid() && RepOk(before)
      requires |index.levels| == slot + 1 && slot == |before.vectors| && index.vectors[..slot] == before.vectors
      requires State() == before.(vectors := index.vectors)
      modifies this, index
      ensures index.Valid() && index == old(index) && idempotency == old(idempotency)
      ensures snapshotHighWater == old(snapshotHighWater)
      ensures State() == Append(Retire(before, key), key, version, payload, old(index.vectors)[slot])
    {
      hide RowsBelow, RepOk, Append, Retire, KeyIndex;
      RowPerSlot(before);
      LiveInRange(before, key);
      var keyIndex := if key in keys then keys[key].index else |keyTable|;
      if key !in keys {
        keyTable := keyTable + [key];
      }
      RetireKey(key);
      keys := keys[key := KeyEntry(keyIndex, Some(slot))];
      UpsertIs(before, key, version, payload, index.vectors[slot], slots, index.dead, keyTable, keyIndex);
      assert index.vectors == before.vectors + [index.vectors[slot]];
      slots := slots + [SlotRecord(version, false, keyIndex, payload)];
    }

    /** Insert the vector, then point the key at its slot. */
    method ApplyUpsert(e: Entry, ghost before: Mem) returns (r: Result<(), StoreError>)
      requires Valid() && e.operation.Upsert? && before == State()
      modifies this, index, visited
      ensures index.Valid() && visited.Valid() && idempotency.Valid()
      ensures index == old(index) && idempotency == old(idempotency)
      ensures snapshotHighWater == old(snapshotHighWater)
      ensures r.Err? <==> !Applicable(cfg, e)
      ensures r.Err? ==> State() == before && r.error == if |e.operation.vector| != cfg.dims then WrongDims
              else NonFinite
      ensures r.Ok? ==>
                State()
                == Append(Retire(before, e.operation.key), e.operation.key, e.seqNo, e.operation.payload,
                cfg.norm(e.operation.vector))
    {
      hide RowsBelow, Finite, RepOk, Append, Retire, KeyIndex;
      var key, payload, vector := e.operation.key, e.operation.payload, e.operation.vector;
      if |vector| != cfg.dims {
        return Err(WrongDims);
      }
      RowPerSlot(before);
      LiveInRange(before, key);
      var inserted := InsertRow(vector);
      if inserted.Err? {
        return Err(NonFinite);
      }
      PointKey(key, e.seqNo, payload, inserted.value, before);
      r := Ok(());
    }

    method ApplyDelete(key: Bytes, ghost before: Mem)
      requires Valid() && before == State()
      modifies this, index
      ensures index.Valid() && visited.Valid() && idempotency.Valid()
      ensures index == old(index) && idempotency == old(idempotency)
      ensures snapshotHighWater == old(snapshotHighWater)
      ensures State() == Retire(before, key)
    {
      RowPerSlot(before);
      LiveInRange(before, key);
      RetireKey(key);
      if key in keys && keys[key].live.Some? {
        keys := keys[key := KeyEntry(keys[key].index, None)];
      }
    }

    /** `apply`: shared by the live path and replay. */
    method Apply(e: Entry) returns (r: Result<(), StoreError>)
      requires Valid()
      modifies this, index, idempotency, visited
      ensures Valid() && index == old(index) && idempotency == old(idempotency)
      ensures snapshotHighWater == old(snapshotHighWater)
      ensures match ApplyChecked(cfg, old(State()), e)
              case Ok(m) => r.Ok? && State() == m
              case Err(error) => r == Err(error) && State() == old(State())
    {
      hide RepOk, RowsBelow, Retire, Append;
      ghost var before := State();
      ApplyRefines(before, cfg.norm, cfg.capacity, e);
      if e.operation.Upsert? {
        var applied := ApplyUpsert(e, before);
        if applied.Err? {
          return applied;
        }
      } else {
        ApplyDelete(e.operation.key, before);
      }
      idempotency.Record(e.opId, e.seqNo);
      highWater := e.seqNo;
      r := Ok(());
    }

    // ----- mutations

    /** Sync the appended entry, then apply it. */
    method SyncAndApply(seqNo: nat, opId: OpId, op: Operation, fault: Fault) returns (r: Result<(), StoreError>)
      requires Valid() && wal.disk.segs != [] && !wal.poisoned
      modifies this, index, idempotency, visited, wal
      ensures Valid() && index == old(index) && idempotency == old(idempotency)
      ensures snapshotHighWater == old(snapshotHighWater)
      ensures wal.current == old(wal.current) && wal.bytes == old(wal.bytes) && wal.nextSeq == old(wal.nextSeq)
      ensures r.Ok? ==> !wal.poisoned
      ensures wal.disk == if fault.StopAfterAppend? || fault.SyncFails? then old(wal.disk)
              else SyncNewest(old(wal.disk))
      ensures var applied := ApplyChecked(cfg, old(State()), Entry(seqNo, opId, op));
              if fault.StopAfterAppend? || fault.StopAfterSync? then r == Err(Injected) && State() == old(State())
              else if fault.SyncFails? then r == Err(IoFailed) && State() == old(State())
              else if applied.Err? then r == Err(applied.error) && State() == old(State())
              else r.Ok? && State() == applied.value
    {
      hide RepOk, RowsBelow, ApplyMem, Finite, SyncNewest;
      if fault.StopAfterAppend? {
        return Err(Injected);
      }
      var ok := wal.Sync(fault.SyncFails?);
      if !ok {
        return Err(IoFailed);
      }
      if fault.StopAfterSync? {
        return Err(Injected);
      }
      r := Apply(Entry(seqNo, opId, op));
    }

    /** `mutate`: append, sync, apply, acknowledge; anything that goes wrong
        after the append poisons the writer. */
    method Mutate(opId: OpId, op: Operation, fault: Fault, ghost plans: seq<Mem>) returns (r: Result<Reply, StoreError>)
      requires Valid() && wal.disk.segs != []
      modifies this, index, idempotency, visited, wal
      ensures Valid() && index == old(index) && idempotency == old(idempotency)
      ensures Outcome(wal.disk, Serving(plans), r)
              == StoreOps.Mutate(cfg, old(wal.disk), old(Serving(plans)), opId, op, fault)
    {
      hide RepOk, RowsBelow, ApplyChecked, AppendUnsynced, SyncNewest;
      AppendLeavesFiles(cfg, wal.disk, wal.State(), opId, op, fault);
      var appended := wal.AppendUnsynced(opId, op, fault);
      if appended.Err? {
        return Err(Wal(appended.error));
      }
      var applied := SyncAndApply(appended.value, opId, op, fault);
      if applied.Err? {
        wal.Poison();
        return Err(applied.error);
      }
      if fault.StopAfterApply? {
        return Err(Injected);
      }
      r := Ok(Reply(appended.value, false));
    }

    method Upsert(opId: OpId, key: Bytes, vector: Vector, payload: Bytes, admitted: bool, fault: Fault,
                  ghost plans: seq<Mem>)
      returns (r: Result<Reply, StoreError>)
      requires Valid() && wal.disk.segs != []
      modifies this, index, idempotency, visited, wal
      ensures Valid() && index == old(index) && idempotency == old(idempotency)
      ensures Outcome(wal.disk, Serving(plans), r)
           == StoreOps.Upsert(cfg, old(wal.disk), old(Serving(plans)), opId, key, vector, payload, admitted, fault)
    {
      hide RepOk, RowsBelow, StoreOps.Mutate, Finite, Lookup;
      var known := idempotency.Get(opId);
      if known.Some? {
        return Ok(Reply(known.value, true));
      }
      if |vector| != cfg.dims {
        return Err(WrongDims);
      }
      if !Finite(vector) {
        return Err(NonFinite);
      }
      var stored := cfg.prepare(vector);
      if stored.None? {
        return Err(ZeroVector);
      }
      if !admitted {
        return Err(OverBudget);
      }
      r := Mutate(opId, Operation.Upsert(key, payload, stored.value), fault, plans);
    }

    method Delete(opId: OpId, key: Bytes, fault: Fault, ghost plans: seq<Mem>) returns (r: Result<Reply, StoreError>)
      requires Valid() && wal.disk.segs != []
      modifies this, index, idempotency, visited, wal
      ensures Valid() && index == old(index) && idempotency == old(idempotency)
      ensures Outcome(wal.disk, Serving(plans), r)
           == StoreOps.Delete(cfg, old(wal.disk), old(Serving(plans)), opId, key, fault)
    {
      hide RepOk, RowsBelow, StoreOps.Mutate, Lookup;
      var known := idempotency.Get(opId);
      if known.Some? {
        return Ok(Reply(known.value, true));
      }
      r := Mutate(opId, Operation.Delete(key), fault, plans);
    }

    // ----- compaction

    /** Copy the live rows and records in slot order, unless one is not finite. */
    method CopyLive() returns (vectors: seq<Vector>, oldSlots: seq<nat>, kept: seq<SlotRecord>, bad: Option<nat>)
      requires |index.vectors| == |slots|
      ensures bad.Some? ==> bad.value < |slots| && !slots[bad.value].tombstone && !Finite(index.vectors[bad.value])
      ensures bad.None? ==> oldSlots == LiveBelow(slots, |slots|) && |vectors| == |kept| == |oldSlots|
      ensures bad.None? ==> forall j :: 0 <= j < |vectors| ==>
        vectors[j] == index.vectors[oldSlots[j]] && kept[j] == slots[oldSlots[j]] && Finite(vectors[j])
    {
      hide Finite, LiveBelow;
      LiveNone(slots);
      vectors, oldSlots, kept, bad := [], [], [], None;
      var i := 0;
      while i < |slots|
        invariant 0 <= i <= |slots|
        invariant oldSlots == LiveBelow(slots, i) && |vectors| == |kept| == |oldSlots|
        invariant forall j :: 0 <= j < |vectors| ==>
          vectors[j] == index.vectors[oldSlots[j]] && kept[j] == slots[oldSlots[j]] && Finite(vectors[j])
      {
        LiveStep(slots, i);
        if !slots[i].tombstone {
          if !Finite(index.vectors[i]) {
            bad := Some(i);
            return;
          }
          vectors, oldSlots, kept := vectors + [index.vectors[i]], oldSlots + [i], kept + [slots[i]];
        }
        i := i + 1;
      }
    }

    /** `capture_compaction`: the live slots with the key table and the window. */
    method CaptureCompaction(ghost plans: seq<Mem>) returns (r: Result<CompactionInput, StoreError>)
      requires Valid()
      ensures |State().vectors| == |State().slots|
      ensures match Capture(cfg, Serving(plans))
              case Err(error) => r == Err(error)
              case Ok(plan) => r.Ok? && Planned(r.value, cfg.capacity) == plan
      ensures r.Ok? ==> |r.value.vectors| == |r.value.slots|
    {
      hide RepOk, RowsBelow, Finite, Capture, Planned, LiveBelow;
      ghost var server := Serving(plans);
      RowPerSlot(State());
      var vectors, oldSlots, kept, bad := CopyLive();
      if bad.Some? {
        CaptureRefuses(cfg, server, bad.value);
        return Err(NonFinite);
      }
      var window := idempotency.Entries();
      r := Ok(CompactionInput(highWater, vectors, oldSlots, kept, keyTable, keys, window));
      CaptureIs(cfg, server, r.value);
    }

    /** Apply the entries of one segment that follow the rebuild point. */
    method CatchUpSegment(entries: seq<Entry>, from: nat, high: nat) returns (r: Result<(), StoreError>)
      requires Valid()
      modifies this, index, idempotency, visited
      ensures Valid() && index == old(index) && idempotency == old(idempotency)
      ensures snapshotHighWater == old(snapshotHighWater)
      ensures match CatchEntries(cfg, entries, old(State()), from, high)
              case Ok(m) => r.Ok? && State() == m
              case Err(error) => r == Err(error)
    {
      hide RepOk, RowsBelow, ApplyChecked;
      ghost var start := State();
      var j := 0;
      while j < |entries|
        invariant 0 <= j <= |entries| && Valid() && index == old(index) && idempotency == old(idempotency)
        invariant snapshotHighWater == old(snapshotHighWater)
        invariant CatchEntries(cfg, entries, start, from, high) == CatchEntries(cfg, entries[j..], State(), from, high)
      {
        var e := entries[j];
        assert entries[j..][0] == e && entries[j..][1..] == entries[j + 1..];
        if from < e.seqNo <= high {
          if e.seqNo != highWater + 1 {
            return Err(Wal(SequenceGap(highWater + 1, e.seqNo)));
          }
          var applied := Apply(e);
          if applied.Err? {
            return applied;
          }
        }
        j := j + 1;
      }
      r := Ok(());
    }

    /** The fields as a snapshot stores them. */
    method Frozen() returns (m: Mem)
      requires Valid()
      ensures m == State()
    {
      var window := idempotency.Entries();
      var dead := set s: nat | s < |slots| && slots[s].tombstone;
      m := Mem(index.vectors, dead, keyTable, keys, slots, window, highWater);
      DeadAreTombstoned(State());
    }

    /** Write a snapshot of the partition. */
    method Snapshot(fault: SnapFault, ghost plans: seq<Mem>)
      requires Valid()
      modifies wal, `snapshotHighWater
      ensures Valid() && (wal.disk, Serving(plans)) == StoreOps.Snapshot(old(wal.disk), old(Serving(plans)), fault)
    {
      hide RepOk, RowsBelow;
      var m := Frozen();
      wal.disk := WriteSnap(wal.disk, m, fault);
      if fault.SnapDone? || fault.AfterRename? {
        snapshotHighWater := highWater;
      }
    }

    /** Apply what the log holds after the rebuild point, segment by segment. */
    method CatchUpLog(segments: seq<SegFile>, from: nat, high: nat) returns (r: Result<(), StoreError>)
      requires Valid()
      modifies this, index, idempotency, visited
      ensures Valid() && index == old(index) && idempotency == old(idempotency)
      ensures snapshotHighWater == old(snapshotHighWater)
      ensures match CatchUp(cfg, segments, 0, old(State()), from, high)
              case Ok(m) => r.Ok? && State() == m
              case Err(error) => r == Err(error)
    {
      hide RepOk, RowsBelow, CatchEntries, ReadFile;
      ghost var start := State();
      var i := 0;
      while i < |segments|
        invariant 0 <= i <= |segments| && Valid() && index == old(index) && idempotency == old(idempotency)
        invariant snapshotHighWater == old(snapshotHighWater)
        invariant CatchUp(cfg, segments, 0, start, from, high) == CatchUp(cfg, segments, i, State(), from, high)
      {
        if segments[i].first <= high {
          var read := ReadFile(cfg.crc, cfg.id, segments[i], i == |segments| - 1);
          if read.Err? {
            return Err(Wal(read.error));
          }
          var applied := CatchUpSegment(read.value.entries, from, high);
          if applied.Err? {
            return applied;
          }
        }
        i := i + 1;
      }
      r := Ok(());
    }

    /** A partition of its own over the rebuilt state, brought up to date. */
    method Stage(plan: Mem, built: Hnsw.Index) returns (staged: Partition, r: Result<(), StoreError>)
      requires 0 < cfg.capacity && wal.cfg == cfg
      requires built.Valid() && built.dims == cfg.dims && built.stored == cfg.norm
      requires RepOk(plan) && WindowOk(plan.window, cfg.capacity) && built.vectors == plan.vectors
               && built.dead == plan.dead
      modifies built
      ensures fresh(staged) && fresh(staged.idempotency) && fresh(staged.visited) && staged.index == built
      ensures staged.Valid() && staged.cfg == cfg && staged.wal == wal
      ensures match CatchUp(cfg, wal.disk.segs, 0, plan, plan.high, highWater)
              case Ok(m) => r.Ok? && staged.State() == m
              case Err(error) => r == Err(error)
    {
      hide RepOk, RowsBelow, CatchUp, WindowOk;
      staged := new Partition.FromParts(cfg, levelFor, wal, built, plan, snapshotHighWater);
      r := staged.CatchUpLog(wal.disk.segs, plan.high, highWater);
    }

    /** The staged state becomes the served state; the writer stays. */
    method Adopt(staged: Partition)
      requires Valid() && staged.Valid() && staged.cfg == cfg && staged.highWater == highWater
      modifies this
      ensures Valid() && State() == old(staged.State()) && snapshotHighWater == highWater
      ensures index == staged.index
    {
      hide RepOk, RowsBelow;
      index, keyTable, keys, slots := staged.index, staged.keyTable, staged.keys, staged.slots;
      idempotency := staged.idempotency;
      snapshotHighWater := highWater;
    }

    /** `finish_compaction`: stage the rebuilt state, snapshot it, and swap.
        `built` is the graph the build made over the captured rows. */
    method FinishCompaction(plan: Mem, built: Hnsw.Index, fault: FinishFault, ghost plans: seq<Mem>)
      returns (r: Result<nat, StoreError>)
      requires Valid() && 0 < cfg.capacity && built != index
      requires built.Valid() && built.dims == cfg.dims && built.stored == cfg.norm
      requires RepOk(plan) && WindowOk(plan.window, cfg.capacity) && built.vectors == plan.vectors
               && built.dead == plan.dead
      modifies this, wal, built
      ensures Valid()
      ensures (wal.disk, Serving(plans), r)
           == StoreOps.FinishCompaction(cfg, old(wal.disk), old(Serving(plans)), plan, fault)
      ensures r.Err? ==> State() == old(State()) && index == old(index)
    {
      hide RepOk, RowsBelow, CatchUp, WriteSnap, WindowOk;
      var staged, caught := Stage(plan, built);
      if caught.Err? {
        return Err(caught.error);
      }
      if staged.highWater != highWater {
        return Err(MissingHistory);
      }
      var frozen := staged.Frozen();
      if fault.FinishSnap? {
        wal.disk := WriteSnap(wal.disk, frozen, fault.fault);
        return Err(IoFailed);
      }
      wal.disk := WriteSnap(wal.disk, frozen, SnapDone);
      if fault.BeforeSwap? {
        return Err(Injected);
      }
      Adopt(staged);
      r := Ok(highWater);
    }

    // ----- recovery

    /** Replay the entries of one segment above the high-water mark. */
    method ReplaySegment(entries: seq<Entry>) returns (r: Result<(), StoreError>)
      requires Valid()
      modifies this, index, idempotency, visited
      ensures Valid() && index == old(index) && idempotency == old(idempotency)
      ensures snapshotHighWater == old(snapshotHighWater)
      ensures match ReplayEntries(cfg, entries, old(State()))
              case Ok(m) => r.Ok? && State() == m
              case Err(error) => r == Err(error)
    {
      hide RepOk, RowsBelow, ApplyChecked;
      ghost var start := State();
      var j := 0;
      while j < |entries|
        invariant 0 <= j <= |entries| && Valid() && index == old(index) && idempotency == old(idempotency)
        invariant snapshotHighWater == old(snapshotHighWater)
        invariant ReplayEntries(cfg, entries, start) == ReplayEntries(cfg, entries[j..], State())
      {
        var e := entries[j];
        assert entries[j..][0] == e && entries[j..][1..] == entries[j + 1..];
        if e.seqNo > highWater {
          if e.seqNo != highWater + 1 {
            return Err(Wal(SequenceGap(highWater + 1, e.seqNo)));
          }
          var applied := Apply(e);
          if applied.Err? {
            return applied;
          }
        }
        j := j + 1;
      }
      r := Ok(());
    }

    /** Validate and replay every segment in order, noting whether the log
        connects to the state and how far it reaches. */
    method ReplayLog(saw0: bool) returns (r: Result<(bool, Option<int>), StoreError>)
      requires Valid()
      modifies this, index, idempotency, visited
      ensures Valid() && index == old(index) && idempotency == old(idempotency)
      ensures snapshotHighWater == old(snapshotHighWater)
      ensures match ReplaySegs(cfg, wal.disk.segs, 0, Replaying(old(State()), saw0, None))
              case Ok(st) => r == Ok((st.saw, st.end)) && State() == st.mem
              case Err(error) => r == Err(error)
    {
      hide RepOk, RowsBelow, ReplayEntries, ReadFile, SegmentEnd;
      var segments := wal.disk.segs;
      ghost var start := Replaying(State(), saw0, None);
      var saw, walEnd := saw0, None;
      var i := 0;
      while i < |segments|
        invariant 0 <= i <= |segments| && Valid() && index == old(index) && idempotency == old(idempotency)
        invariant snapshotHighWater == old(snapshotHighWater) && wal.disk.segs == segments
        invariant ReplaySegs(cfg, segments, 0, start) == ReplaySegs(cfg, segments, i, Replaying(State(), saw, walEnd))
      {
        var read := ReadFile(cfg.crc, cfg.id, segments[i], i == |segments| - 1);
        if read.Err? {
          return Err(Wal(read.error));
        }
        if segments[i].first <= highWater + 1 {
          saw := true;
        }
        var end := SegmentEnd(read.value, segments[i]);
        walEnd := Some(if walEnd.Some? && walEnd.value > end then walEnd.value else end);
        var applied := ReplaySegment(read.value.entries);
        if applied.Err? {
          return Err(applied.error);
        }
        i := i + 1;
      }
      r := Ok((saw, walEnd));
    }

    /** The state recovery starts from: a snapshot's, or the empty one. */
    static method StartFrom(cfg: Config, levelFor: nat -> nat, wal: WalWriter, newest: Option<nat>,
                            restored: Hnsw.Index, m: nat, m0: nat, ef: nat, metric: (Vector, Vector) -> real)
      returns (p: Partition)
      requires 0 < cfg.capacity && wal.cfg == cfg && 1 <= m <= m0 && 1 <= ef
      requires newest.Some? ==>
                 newest.value in wal.disk.snaps && Restores(cfg, wal.disk.snaps[newest.value].mem, restored)
      ensures fresh(p) && p.Valid() && p.cfg == cfg && p.wal == wal && fresh(p.idempotency) && fresh(p.visited)
      ensures p.index == restored || fresh(p.index)
      ensures p.State() == (if newest.Some? then Loaded(cfg, wal.disk.snaps[newest.value]) else EMPTY_MEM)
      ensures p.snapshotHighWater == p.highWater
    {
      hide RepOk, RowsBelow;
      if newest.Some? {
        var saved := wal.disk.snaps[newest.value].mem;
        RecordAllRebuilds(cfg.capacity, saved.window);
        p := new Partition.FromParts(cfg, levelFor, wal, restored, saved, saved.high);
      } else {
        p := new Partition.Empty(cfg, levelFor, wal, m, m0, ef, metric);
      }
    }

    /** `recover`: the newest snapshot that verifies, or nothing, then the log.
        `names` lists the snapshots newest first; `restored` is the graph of the
        one that is loaded. */
    static method Recover(cfg: Config, levelFor: nat -> nat, wal: WalWriter, names: seq<nat>, restored: Hnsw.Index,
                          m: nat, m0: nat, ef: nat, metric: (Vector, Vector) -> real)
      returns (r: Result<Partition, StoreError>)
      requires 0 < cfg.capacity && wal.cfg == cfg && 1 <= m <= m0 && 1 <= ef && NewestFirst(names, wal.disk.snaps)
      requires NewestGood(wal.disk.snaps).Some?
               ==> Restores(cfg, wal.disk.snaps[NewestGood(wal.disk.snaps).value].mem, restored)
      modifies restored
      ensures match StoreOps.Recover(cfg, wal.disk)
              case Ok(rec) => r.Ok? && fresh(r.value) && r.value.Valid() && r.value.State() == rec.mem
                              && r.value.snapshotHighWater == rec.snapHigh && r.value.cfg == cfg && r.value.wal == wal
                              && fresh(r.value.idempotency) && fresh(r.value.visited)
                              && (r.value.index == restored || fresh(r.value.index))
              case Err(error) => r == Err(error)
    {
      hide RepOk, RowsBelow, ReplaySegs, WindowOk, NewestGood, Loaded, Restores;
      var newest := NewestVerifiable(wal.disk.snaps, names);
      if newest.None? && cfg.baseSnapshot {
        return Err(BaseSnapshotUnavailable);
      }
      var p := StartFrom(cfg, levelFor, wal, newest, restored, m, m0, ef, metric);
      var snapHigh := p.highWater;
      var replayed := p.ReplayLog(snapHigh == 0 && wal.disk.segs == []);
      if replayed.Err? {
        return Err(replayed.error);
      }
      var (saw, end) := replayed.value;
      if !saw || (end.Some? && end.value < snapHigh) {
        return Err(MissingHistory);
      }
      r := Ok(p);
    }

    /** `open`: recover, repair the torn tail, position the writer. */
    static method Open(cfg: Config, levelFor: nat -> nat, wal: WalWriter, names: seq<nat>, restored: Hnsw.Index, m: nat,
                       m0: nat, ef: nat, metric: (Vector, Vector) -> real, fault: OpenFault)
      returns (r: Result<Partition, StoreError>)
      requires 0 < cfg.capacity && wal.cfg == cfg && 1 <= m <= m0 && 1 <= ef && NewestFirst(names, wal.disk.snaps)
      requires NewestGood(wal.disk.snaps).Some?
               ==> Restores(cfg, wal.disk.snaps[NewestGood(wal.disk.snaps).value].mem, restored)
      modifies restored, wal
      ensures wal.disk == StoreOps.Open(cfg, old(wal.disk), fault).0
      ensures match StoreOps.Open(cfg, old(wal.disk), fault).1
              case Ok(server) => r.Ok? && fresh(r.value) && r.value.Valid() && r.value.Serving([]) == server
                  && r.value.wal == wal
              case Err(error) => r == Err(error)
    {
      hide RepOk, RowsBelow, StoreOps.Recover, Repair, HalfRepair, OpenWriter, WithSegment;
      var recovered := Recover(cfg, levelFor, wal, names, restored, m, m0, ef, metric);
      if recovered.Err? {
        return recovered;
      }
      var p := recovered.value;
      if fault.BeforeRepair? {
        return Err(IoFailed);
      }
      wal.TruncateTornTail(fault.MidRepair?);
      if fault.MidRepair? || fault.AfterRepair? {
        return Err(IoFailed);
      }
      var last := p.highWater;
      var started := wal.Open(last, if fault.OpenCreateFails? then Some(fault.made) else None);
      if started.Err? {
        return Err(started.error);
      }
      r := Ok(p);
    }

    // ----- search

    /** The hits a query has to get: with a filter of few slots the `k` nearest
        of its live slots, otherwise those of a traversal by approximate
        distances whose best `max(4k, 100)` results are ranked exactly. */
    ghost predicate Answers(query: Vector, k: nat, ef: nat, filter: Option<set<nat>>, approximate: nat -> real,
                            hits: seq<Hit>)
      reads this, index
    {
      if filter.Some? && |filter.value| <= CUTOVER_PER_EF * (if ef == 0 then 1 else ef) then
        IsTopK(Graph.Pool(filter.value * index.Live(), Hnsw.All(), Hnsw.From(index.metric, index.vectors, query)), k,
               hits)
      else
        index.Traversed(query, k, ef, Hnsw.Int8(if 4 * k > 100 then 4 * k else 100),
                        if filter.Some? then Hnsw.Only(filter.value) else Hnsw.All(), approximate, hits)
    }

    /** `search`: hits over live records, each with its key and payload. The
        traversal is by approximate distances, the ranking by exact ones. */
    method Search(query: Vector, k: nat, ef: nat, filter: Option<set<nat>>, approximate: nat -> real)
      returns (r: Result<seq<Found>, StoreError>)
      requires Valid() && ConfigOk(cfg)
      modifies visited
      ensures Valid()
      ensures r == Err(WrongDims) <==> |query| != cfg.dims
      ensures r == Err(NonFinite) <==> |query| == cfg.dims && !Finite(query)
      ensures r.Ok? <==> |query| == cfg.dims && Finite(query) && k <= MAX_K && ef <= MAX_EF && cfg.prepare(query).Some?
      ensures r.Ok? ==> |r.value| <= k && FoundLive(State(), r.value)
      ensures r.Ok? ==> forall i :: 0 <= i < |r.value| ==>
        && (filter.Some? ==> r.value[i].slot in filter.value)
        && r.value[i].distance == Hnsw.From(index.metric, index.vectors, cfg.prepare(query).value)(r.value[i].slot)
      ensures r.Ok? ==> Answers(cfg.prepare(query).value, k, ef, filter, approximate, HitsFound(r.value))
    {
      hide RepOk, RowsBelow, Finite, FoundLive, Answers;
      if |query| != cfg.dims {
        return Err(WrongDims);
      }
      if !Finite(query) {
        return Err(NonFinite);
      }
      if k > MAX_K || ef > MAX_EF {
        return Err(QueryLimit);
      }
      var q := cfg.prepare(query);
      if q.None? {
        return Err(ZeroVector);
      }
      var hits := SearchGraph(q.value, k, ef, filter, approximate);
      var found := Dress(hits);
      assert HitsFound(found) == hits;
      r := Ok(found);
    }

    /** Give each hit its key and payload. */
    method Dress(hits: seq<Hit>) returns (found: seq<Found>)
      requires Valid() && Sorted(hits) && Graph.Distinct(Ids(hits))
      requires forall i :: 0 <= i < |hits| ==> hits[i].id < |index.vectors| && hits[i].id !in index.dead
      ensures |found| == |hits| && FoundLive(State(), found)
      ensures forall i :: 0 <= i < |hits| ==> found[i].slot == hits[i].id && found[i].distance == hits[i].distance
    {
      hide RepOk, RowsBelow, IsRecord, Sorted;
      found := [];
      RowPerSlot(State());
      for i := 0 to |hits|
        invariant |found| == i
        invariant forall j :: 0 <= j < i ==> found[j].slot == hits[j].id && found[j].distance == hits[j].distance
        invariant forall j :: 0 <= j < i ==> IsRecord(State(), found[j])
      {
        var slot := hits[i].id;
        HitRecord(State(), slot);
        var record := slots[slot];
        found := found + [Found(keyTable[record.keyIndex], hits[i].distance, record.payload, slot)];
      }
      FoundDistinct(State(), hits, found);
    }

    /** The filtered or unfiltered graph search a query goes to. */
    method SearchGraph(query: Vector, k: nat, ef: nat, filter: Option<set<nat>>, approximate: nat -> real)
      returns (hits: seq<Hit>)
      requires Valid() && |query| == cfg.dims
      modifies visited
      ensures visited.Valid() && |index.levels| == |index.vectors|
      ensures index.HitsFromLive(hits, k, Hnsw.From(index.metric, index.vectors, query),
                                 (s: nat) => filter.Some? ==> s in filter.value)
      ensures Answers(query, k, ef, filter, approximate, hits)
    {
      hide RepOk, RowsBelow, Hnsw.Descended, Hnsw.Index.SearchPromise;
      var mode := Hnsw.Int8(if 4 * k > 100 then 4 * k else 100);
      if filter.Some? {
        hits := index.SearchFiltered(visited, query, k, ef, mode, filter.value,
                                     CUTOVER_PER_EF * (if ef == 0 then 1 else ef), approximate);
      } else {
        ghost var landing, seen, shortlist;
        hits, landing, seen, shortlist := index.SearchWith(visited, query, k, ef, mode, Hnsw.All(), approximate);
      }
    }
  }

  lemma DeadAreTombstoned(m: Mem)
    requires RepOk(m)
    ensures m.dead == set s: nat | s < |m.slots| && m.slots[s].tombstone
  {
    forall s: nat | s < |m.slots|
      ensures s in m.dead <==> m.slots[s].tombstone
    {
      assert SlotOk(m, s);
    }
  }

  /** Appending before retiring, as the code does, comes to the same. */
  lemma UpsertIs(m: Mem, key: Bytes, version: nat, payload: Bytes, stored: Vector, slots: seq<SlotRecord>,
                 dead: set<nat>, keyTable: seq<Bytes>, keyIndex: nat)
    requires RepOk(m)
    requires match LiveSlot(m, key)
             case None => slots == m.slots && dead == m.dead
             case Some(p) =>
               && p < |m.slots| && dead == m.dead + {p}
               && slots == m.slots[p := m.slots[p].(tombstone := true)]
    requires keyTable == (if key in m.keys then m.keyTable else m.keyTable + [key])
    requires keyIndex == if key in m.keys then m.keys[key].index else |m.keyTable|
    ensures Mem(m.vectors + [stored], dead, keyTable, m.keys[key := KeyEntry(keyIndex, Some(|m.vectors|))],
                slots + [SlotRecord(version, false, keyIndex, payload)], m.window, m.high)
         == Append(Retire(m, key), key, version, payload, stored)
  {
    RowPerSlot(m);
    hide RepOk;
    var retired := Retire(m, key);
    assert retired.keys.Keys == m.keys.Keys;
    assert m.keys[key := KeyEntry(keyIndex, Some(|m.vectors|))]
           == retired.keys[key := KeyEntry(keyIndex, Some(|m.vectors|))];
  }

  lemma RowPerSlot(m: Mem)
    requires RepOk(m)
    ensures |m.vectors| == |m.slots|
  {
  }

  lemma LiveInRange(m: Mem, key: Bytes)
    requires RepOk(m)
    ensures key in m.keys && m.keys[key].live.Some? ==> m.keys[key].live.value < |m.slots|
    ensures LiveSlot(m, key).Some? ==> LiveSlot(m, key).value < |m.slots|
  {
    if key in m.keys {
      assert OwnsSlot(m, key);
    }
  }
}
