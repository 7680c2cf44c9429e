/** What compaction is for: every rebuilt state waiting to be finished holds
    live slots alone, and finishing gives back every slot that was tombstoned
    when it was captured. */
module Reclaiming {
  import opened Words
  import opened WalCodec
  import opened LogFold
  import opened PartitionState
  import opened Compaction
  import opened Disk
  import opened StoreOps
  import opened Recovery
  import opened Directory
  import opened Serving
  import opened Upkeep
  import opened CatchingUp
  import opened System
  import opened Runs

  // ----- plans hold no dead slot

  ghost predicate PlansCompact(s: Sys) {
    s.server.Some? ==> forall i :: 0 <= i < |s.server.value.plans| ==> s.server.value.plans[i].dead == {}
  }

  lemma MutatePlans(cfg: Config, d: Disk, s: Server, opId: OpId, op: Operation, fault: Fault)
    requires d.segs != []
    ensures Mutate(cfg, d, s, opId, op, fault).server.plans == s.plans
  {
    hide AppendUnsynced, SyncNewest, ApplyChecked;
  }

  lemma CapturedCompact(cfg: Config, s: Server)
    requires |s.mem.vectors| == |s.mem.slots|
    ensures Capture(cfg, s).Ok? ==> Capture(cfg, s).value.dead == {}
  {
    hide LiveBelow;
  }

  lemma OpenedPlans(cfg: Config, d: Disk, fault: OpenFault)
    ensures Open(cfg, d, fault).1.Ok? ==> Open(cfg, d, fault).1.value.plans == []
  {
    hide Recover, Repair, HalfRepair, OpenWriter, ReadFile;
  }

  /** Every step keeps the plans free of tombstones. */
  lemma StepKeepsCompact(cfg: Config, s: Sys, a: Action)
    requires Enabled(cfg, s, a) && PlansCompact(s)
    ensures PlansCompact(Step(cfg, s, a))
  {
    hide Mutate, Capture, FinishCompaction, Truncate, WriteSnap, Open, PowerLoss, Finite, Lookup;
    match a
    case UpsertBy(opId, key, vector, payload, _, fault) =>
      if cfg.prepare(vector).Some? {
        var op := Operation.Upsert(key, payload, cfg.prepare(vector).value);
        MutatePlans(cfg, s.disk, s.server.value, opId, op, fault);
      }
    case DeleteBy(opId, key, fault) =>
      MutatePlans(cfg, s.disk, s.server.value, opId, Operation.Delete(key), fault);
    case CaptureAndBuild => CapturedCompact(cfg, s.server.value);
    case FinishPlan(i, fault) => FinishedPlans(cfg, s.disk, s.server.value, s.server.value.plans[i], fault);
    case OpenWith(fault) => OpenedPlans(cfg, s.disk, fault);
    case _ =>
  }

  lemma FinishedPlans(cfg: Config, d: Disk, s: Server, plan: Mem, fault: FinishFault)
    ensures FinishCompaction(cfg, d, s, plan, fault).1.plans == s.plans
  {
    hide CatchUp, WriteSnap;
  }

  /** In every state of every run that starts with a partition being created no
      plan has a tombstone. */
  lemma {:induction false} EveryPlanCompact(cfg: Config, states: seq<Sys>, actions: seq<Action>, n: nat)
    requires Run(cfg, states, actions) && PlansCompact(states[0]) && n <= |actions|
    ensures PlansCompact(states[n])
  {
    hide PlansCompact;
    if n > 0 {
      EveryPlanCompact(cfg, states, actions, n - 1);
      assert Follows(cfg, states[n - 1], actions[n - 1], states[n - 1 + 1]);
      StepKeepsCompact(cfg, states[n - 1], actions[n - 1]);
    }
  }

  lemma ReachableCompact(cfg: Config, vectors: seq<Vector>, keys: seq<Bytes>, s: Sys)
    requires Reachable(cfg, vectors, keys, s)
    ensures PlansCompact(s)
  {
    var made, snap, states, actions :|
      Run(cfg, states, actions) && Created(cfg, vectors, keys, made, snap, states[0]) && s == states[|actions|];
    CreatedCompact(cfg, vectors, keys, made, snap, states[0]);
    EveryPlanCompact(cfg, states, actions, |actions|);
  }

  lemma CreatedCompact(cfg: Config, vectors: seq<Vector>, keys: seq<Bytes>, made: Option<Made>, snap: SnapFault,
                       s: Sys)
    requires Created(cfg, vectors, keys, made, snap, s)
    ensures PlansCompact(s)
  {
    hide Create, WriteSnap, Initial;
  }

  // ----- capturing

  /** A capture succeeds exactly when every live vector is finite. */
  lemma CaptureExactly(cfg: Config, s: Server)
    requires RepOk(s.mem)
    ensures Capture(cfg, s).Ok? <==> forall r :: r in Abs(s.mem).rows ==> Finite(r.vector)
  {
    hide SlotOk, OwnsSlot, RowsBelow, Staged, LiveBelow, Finite;
    var live := LiveSlots(s.mem);
    RowsByLive(s.mem, |s.mem.slots|);
    var rows := Abs(s.mem).rows;
    assert forall i :: 0 <= i < |live| ==> rows[i].vector == s.mem.vectors[live[i]] && rows[i] in rows;
  }

  // ----- how many slots

  /** A state has a slot for every row and one for every tombstone. */
  lemma SlotsCounted(m: Mem)
    requires RepOk(m)
    ensures |m.slots| == |Abs(m).rows| + |m.dead|
  {
    hide RowsBelow, OwnsSlot, SlotOk;
    DeadAre(m);
    CountBelow(m, |m.slots|);
    assert m.dead == set s | 0 <= s < |m.slots| && m.slots[s].tombstone;
  }

  lemma DeadAre(m: Mem)
    requires RepOk(m)
    ensures forall s :: 0 <= s < |m.slots| ==> (s in m.dead <==> m.slots[s].tombstone)
  {
    hide OwnsSlot;
    forall s | 0 <= s < |m.slots|
      ensures s in m.dead <==> m.slots[s].tombstone
    {
      assert SlotOk(m, s);
    }
  }

  lemma {:induction false} CountBelow(m: Mem, n: nat)
    requires InRange(m) && n <= |m.slots|
    ensures n == |RowsBelow(m, n)| + |set s | 0 <= s < n && m.slots[s].tombstone|
  {
    var dead := set s | 0 <= s < n && m.slots[s].tombstone;
    if n > 0 {
      CountBelow(m, n - 1);
      var before := set s | 0 <= s < n - 1 && m.slots[s].tombstone;
      assert dead == if m.slots[n - 1].tombstone then before + {n - 1} else before;
    } else {
      assert dead == {};
    }
  }

  /** An entry adds at most one slot and at most one tombstone. */
  lemma ApplyCounts(m: Mem, norm: Vector -> Vector, capacity: nat, e: Entry)
    ensures var next := ApplyMem(m, norm, capacity, e);
            && |next.dead| <= |m.dead| + 1
            && |next.slots| == |m.slots| + if e.operation.Upsert? then 1 else 0
  {
    hide Recorded;
  }

  function Upserts(log: seq<Entry>): nat {
    if log == [] then 0
    else Upserts(log[..|log| - 1]) + if log[|log| - 1].operation.Upsert? then 1 else 0
  }

  lemma {:induction false} ReplayCounts(m: Mem, norm: Vector -> Vector, capacity: nat, log: seq<Entry>)
    ensures var r := Replay(m, norm, capacity, log);
            |r.dead| <= |m.dead| + |log| && |r.slots| == |m.slots| + Upserts(log)
  {
    hide ApplyMem;
    if log != [] {
      ReplayCounts(m, norm, capacity, log[..|log| - 1]);
      ApplyCounts(Replay(m, norm, capacity, log[..|log| - 1]), norm, capacity, log[|log| - 1]);
    }
  }

  /** The served state has a slot for each row of the plan and one for each
      upsert after it, and no more tombstones than entries after it; with none
      after it exactly one slot a row and no tombstone. */
  ghost predicate Reclaimed(log: seq<Entry>, plan: Mem, m: Mem) {
    && RepOk(plan) && RepOk(m) && plan.high <= m.high <= |log|
    && |m.slots| == |Abs(plan).rows| + Upserts(log[plan.high..m.high])
    && |m.dead| <= m.high - plan.high
    && (plan.high == m.high ==> m.dead == {} && |m.slots| == |Abs(m).rows|)
  }

  /** A finish that succeeds gives back every slot that was dead when its plan
      was captured. */
  lemma FinishReclaims(cfg: Config, base: Logical, log: seq<Entry>, d: Disk, s: Server, i: nat)
    requires i < |s.plans| && s.plans[i].dead == {} && FinishCompaction(cfg, d, s, s.plans[i], FinishDone).2.Ok?
    requires SysOk(cfg, base, log, d, s)
    ensures Reclaimed(log, s.plans[i], FinishCompaction(cfg, d, s, s.plans[i], FinishDone).1.mem)
  {
    hide LogOk, DiskInv, WriterOk, RepOk, Abs, FinishCompaction, Replay, CanFinish;
    var plan := s.plans[i];
    FinishOk(cfg, base, log, d, s, i, FinishDone);
    FinishExactly(cfg, base, log, d, s, i, FinishDone);
    ReplayCounts(plan, cfg.norm, cfg.capacity, log[plan.high..s.mem.high]);
    SlotsCounted(plan);
    SlotsCounted(FinishCompaction(cfg, d, s, plan, FinishDone).1.mem);
  }

  ghost predicate Finishes(cfg: Config, s: Sys, i: nat) {
    s.server.Some? && i < |s.server.value.plans|
    && FinishCompaction(cfg, s.disk, s.server.value, s.server.value.plans[i], FinishDone).2.Ok?
  }

  /** So does one in any reachable state. */
  lemma CompactionReclaims(cfg: Config, vectors: seq<Vector>, keys: seq<Bytes>, s: Sys, i: nat)
    requires Finishes(cfg, s, i) && Reachable(cfg, vectors, keys, s)
    ensures Reclaimed(s.log, s.server.value.plans[i],
                      FinishCompaction(cfg, s.disk, s.server.value, s.server.value.plans[i], FinishDone).1.mem)
  {
    hide LogOk, DiskInv, ServerInv, ConfigOk, BaseOk, Reachable, Reclaimed, FinishCompaction, Base;
    ReachableInv(cfg, vectors, keys, s);
    ReachableCompact(cfg, vectors, keys, s);
    FinishReclaims(cfg, Base(cfg, vectors, keys), s.log, s.disk, s.server.value, i);
  }
}
