/** What an acknowledgement means to the caller: the record asked for is
    served, under the key, payload and vector given and the sequence returned,
    and no other key is touched; and exactly which requests are acknowledged. */
module Acknowledged {
  import opened Words
  import opened WalCodec
  import opened WalSegment
  import opened LogFold
  import opened PartitionState
  import opened Disk
  import opened StoreOps
  import opened Recovery
  import opened Directory
  import opened Serving
  import opened System
  import opened Runs

  /** What an upsert or a delete answers. */
  function ReplyTo(cfg: Config, s: Sys, a: Action): Result<Reply, StoreError>
    requires s.server.Some? && s.disk.segs != [] && (a.UpsertBy? || a.DeleteBy?)
  {
    if a.UpsertBy? then
      StoreOps.Upsert(cfg, s.disk, s.server.value, a.opId, a.key, a.vector, a.payload, a.admitted, a.fault).result
    else StoreOps.Delete(cfg, s.disk, s.server.value, a.opId, a.key, a.fault).result
  }

  ghost function Rows(s: Sys): seq<Row>
    requires s.server.Some? && RepOk(s.server.value.mem)
  {
    Abs(s.server.value.mem).rows
  }

  /** Of `key` there is the given row or none, and the rows of every other key
      are those there were. */
  ghost predicate OnlyKeyChanged(before: seq<Row>, after: seq<Row>, key: Bytes, row: Option<Row>) {
    forall r :: r in after <==> if r.key == key then row == Some(r) else r in before
  }

  /** No fault strikes a request: those of a rotation only do when the active
      segment is full. */
  predicate Unhindered(w: Writer, fault: Fault) {
    fault.NoFault? || ((fault.RotateSyncFails? || fault.CreateFails?) && w.bytes < ROTATE_BYTES)
  }

  lemma RowsAfter(before: Logical, norm: Vector -> Vector, capacity: nat, e: Entry)
    ensures OnlyKeyChanged(before.rows, Apply(before, norm, capacity, e).rows, e.operation.key,
                           match e.operation
                           case Upsert(key, payload, vector) => Some(Row(key, e.seqNo, payload, norm(vector)))
                           case Delete(_) => None)
  {
    hide Recorded;
  }

  lemma CapacityOk(cfg: Config, base: Logical, s: Sys)
    requires Inv(cfg, base, s)
    ensures 0 < cfg.capacity
  {
  }

  /** What a mutation that is acknowledged leaves. */
  lemma MutatedServes(cfg: Config, base: Logical, s: Sys, opId: OpId, op: Operation, fault: Fault)
    requires Inv(cfg, base, s) && s.server.Some? && s.disk.segs != []
    requires Mutable(cfg, base, s.log, s.disk, s.server.value, opId, op)
    requires Mutate(cfg, s.disk, s.server.value, opId, op, fault).result.Ok?
    ensures var t, e := Mutated(s, Mutate(cfg, s.disk, s.server.value, opId, op, fault)), Entry(|s.log| + 1, opId, op);
            && Inv(cfg, base, t) && t.acked == e.seqNo && t.log == s.log + [e] && t.server.Some?
            && t.server.value.mem.high == |t.log| && 0 < cfg.capacity
            && RepOk(s.server.value.mem) && RepOk(t.server.value.mem)
            && Abs(t.server.value.mem) == Apply(Abs(s.server.value.mem), cfg.norm, cfg.capacity, e)
            && Mutate(cfg, s.disk, s.server.value, opId, op, fault).result.value == Reply(e.seqNo, false)
  {
    hide LogOk, DiskInv, ServerInv, ConfigOk, BaseOk, Mutate, Mutable, Apply, Abs, RepOk, Fold;
    var o := Mutate(cfg, s.disk, s.server.value, opId, op, fault);
    var t, e := Mutated(s, o), Entry(|s.log| + 1, opId, op);
    MutationKeeps(cfg, base, s, opId, op, fault);
    MutateOk(cfg, base, s.log, s.disk, s.server.value, opId, op, fault);
    MutateServed(cfg, base, s, opId, op, fault);
    assert 0 < cfg.capacity by { CapacityOk(cfg, base, s); }
    ServesTheLog(cfg, base, s);
    ServesTheLog(cfg, base, t);
    assert s.log[..|s.log|] == s.log && t.log[..|t.log|] == t.log;
    FoldOne(base, cfg.norm, cfg.capacity, s.log, e);
  }

  /** A key whose only row is known is found at that row. */
  lemma FoundAt(m: Mem, row: Row)
    requires RepOk(m) && row in Abs(m).rows && forall r :: r in Abs(m).rows && r.key == row.key ==> r == row
    ensures LiveSlot(m, row.key).Some? && LiveSlot(m, row.key).value < |m.slots|
    ensures RowAt(m, LiveSlot(m, row.key).value) == row
  {
    hide RepOk, Abs, RowAt, LiveSlot;
    ViewOfKey(m, row.key);
  }

  lemma UpsertMutable(cfg: Config, base: Logical, s: Sys, opId: OpId, key: Bytes, vector: Vector, payload: Bytes)
    requires Inv(cfg, base, s) && s.server.Some? && |s.log| + 2 < 0x1_0000_0000_0000_0000
    requires Lookup(s.server.value.mem.window, opId).None?
    requires |vector| == cfg.dims && Finite(vector) && cfg.prepare(vector).Some?
    ensures Mutable(cfg, base, s.log, s.disk, s.server.value, opId,
                    Operation.Upsert(key, payload, cfg.prepare(vector).value))
  {
    hide LogOk, DiskInv, ServerInv, BaseOk, Finite, Lookup;
  }

  /** A fresh acknowledgement of an upsert carries the next sequence. From then
      on the key leads to the row of that sequence with the payload given and
      the vector given, prepared and stored; there is no other row of the key;
      the rows of all other keys are those there were; and a retry finds the
      sequence in the window. */
  lemma UpsertServes(cfg: Config, base: Logical, s: Sys, opId: OpId, key: Bytes, vector: Vector, payload: Bytes,
                     admitted: bool, fault: Fault)
    requires Enabled(cfg, s, UpsertBy(opId, key, vector, payload, admitted, fault)) && Inv(cfg, base, s)
    requires var reply := ReplyTo(cfg, s, UpsertBy(opId, key, vector, payload, admitted, fault));
             reply.Ok? && !reply.value.deduplicated
    ensures var a := UpsertBy(opId, key, vector, payload, admitted, fault);
            var t, seqNo := Step(cfg, s, a), |s.log| + 1;
            && ReplyTo(cfg, s, a).value.seqNo == seqNo == t.acked && |t.log| == seqNo
            && t.server.Some? && RepOk(s.server.value.mem) && RepOk(t.server.value.mem) && cfg.prepare(vector).Some?
            && var row, m := Row(key, seqNo, payload, cfg.norm(cfg.prepare(vector).value)), t.server.value.mem;
            && OnlyKeyChanged(Rows(s), Rows(t), key, Some(row))
            && LiveSlot(m, key).Some? && LiveSlot(m, key).value < |m.slots| && RowAt(m, LiveSlot(m, key).value) == row
            && Lookup(m.window, opId) == Some(seqNo)
  {
    hide LogOk, DiskInv, ServerInv, ConfigOk, BaseOk, Mutate, Mutable, Mutated, Apply, Abs, RepOk, Finite, RowAt;
    hide LiveSlot, Lookup;
    var op := Operation.Upsert(key, payload, cfg.prepare(vector).value);
    UpsertMutable(cfg, base, s, opId, key, vector, payload);
    MutatedServes(cfg, base, s, opId, op, fault);
    RowsAfter(Abs(s.server.value.mem), cfg.norm, cfg.capacity, Entry(|s.log| + 1, opId, op));
    var t := Mutated(s, Mutate(cfg, s.disk, s.server.value, opId, op, fault));
    FoundAt(t.server.value.mem, Row(key, |s.log| + 1, payload, cfg.norm(cfg.prepare(vector).value)));
    RetryFound(cfg, base, t, |s.log|);
  }

  /** A fresh acknowledgement of a delete carries the next sequence. From then
      on the key has no live slot and no row, the rows of all other keys are
      those there were, and a retry finds the sequence in the window. */
  lemma DeleteServes(cfg: Config, base: Logical, s: Sys, opId: OpId, key: Bytes, fault: Fault)
    requires Enabled(cfg, s, DeleteBy(opId, key, fault)) && Inv(cfg, base, s)
    requires var reply := ReplyTo(cfg, s, DeleteBy(opId, key, fault)); reply.Ok? && !reply.value.deduplicated
    ensures var a := DeleteBy(opId, key, fault);
            var t, seqNo := Step(cfg, s, a), |s.log| + 1;
            && ReplyTo(cfg, s, a).value.seqNo == seqNo == t.acked && |t.log| == seqNo
            && t.server.Some? && RepOk(s.server.value.mem) && RepOk(t.server.value.mem)
            && OnlyKeyChanged(Rows(s), Rows(t), key, None)
            && LiveSlot(t.server.value.mem, key).None?
            && Lookup(t.server.value.mem.window, opId) == Some(seqNo)
  {
    hide LogOk, DiskInv, ServerInv, ConfigOk, BaseOk, Mutate, Mutable, Mutated, Apply, Abs, RepOk, LiveSlot, Lookup;
    var op := Operation.Delete(key);
    DeleteMutable(cfg, base, s, opId, key);
    MutatedServes(cfg, base, s, opId, op, fault);
    RowsAfter(Abs(s.server.value.mem), cfg.norm, cfg.capacity, Entry(|s.log| + 1, opId, op));
    var t := Mutated(s, Mutate(cfg, s.disk, s.server.value, opId, op, fault));
    ViewOfKey(t.server.value.mem, key);
    RetryFound(cfg, base, t, |s.log|);
  }

  lemma DeleteMutable(cfg: Config, base: Logical, s: Sys, opId: OpId, key: Bytes)
    requires Inv(cfg, base, s) && s.server.Some? && |s.log| + 2 < 0x1_0000_0000_0000_0000
    requires Lookup(s.server.value.mem.window, opId).None?
    ensures Mutable(cfg, base, s.log, s.disk, s.server.value, opId, Operation.Delete(key))
  {
    hide LogOk, DiskInv, ServerInv, BaseOk, Lookup;
  }

  // ----- exactly which requests are acknowledged

  /** An append succeeds exactly when the writer may go on, the operation fits
      the log format and no write fails. */
  lemma AppendsExactly(cfg: Config, log: seq<Entry>, d: Disk, w: Writer, opId: OpId, op: Operation, fault: Fault)
    requires d.segs != [] && (!w.poisoned ==> Appendable(cfg, log, d, w))
    ensures AppendUnsynced(cfg, d, w, opId, op, fault).result.Ok?
       <==> && !w.poisoned && Encodable(op) && !fault.WriteFails?
            && (w.bytes >= ROTATE_BYTES ==> !fault.RotateSyncFails? && !fault.CreateFails?)
  {
    hide FilesOk, WithSegment, LastWhole, FrameOf, FileBytes, Create;
    if !w.poisoned && w.bytes >= ROTATE_BYTES {
      RotateOk(cfg, log, d, w, fault);
    }
  }

  lemma MutatesExactly(cfg: Config, base: Logical, s: Sys, opId: OpId, op: Operation, fault: Fault)
    requires Inv(cfg, base, s) && s.server.Some? && s.disk.segs != []
    requires Mutable(cfg, base, s.log, s.disk, s.server.value, opId, op)
    ensures var o, w := Mutate(cfg, s.disk, s.server.value, opId, op, fault), s.server.value.wal;
            && (o.result.Ok? <==> !w.poisoned && Encodable(op) && Unhindered(w, fault))
            && (o.result.Err? ==> o.server.mem == s.server.value.mem || fault.StopAfterApply?)
  {
    hide LogOk, PlansOk, MemOk, SnapsOk, FilesOk, AppendUnsynced, FileBytes, BaseOk, Finite, ApplyMem, Encodable;
    AppendsExactly(cfg, s.log, s.disk, s.server.value.wal, opId, op, fault);
    if !s.server.value.wal.poisoned {
      Serving.AppendOk(cfg, s.log, s.disk, s.server.value.wal, opId, op, fault);
    }
  }

  /** An upsert is acknowledged exactly when its id is in the window, or it is
      well formed, admitted and within the limits of the log, the writer is not
      poisoned and nothing fails; a request that is refused serves what was
      served, unless the process stopped between applying and answering. */
  lemma UpsertAckedExactly(cfg: Config, base: Logical, s: Sys, opId: OpId, key: Bytes, vector: Vector, payload: Bytes,
                           admitted: bool, fault: Fault)
    requires Enabled(cfg, s, UpsertBy(opId, key, vector, payload, admitted, fault)) && Inv(cfg, base, s)
    ensures var a, w := UpsertBy(opId, key, vector, payload, admitted, fault), s.server.value.wal;
            var unseen := Lookup(s.server.value.mem.window, opId).None?;
            && (ReplyTo(cfg, s, a).Ok?
                <==> !unseen || (&& |vector| == cfg.dims && Finite(vector) && cfg.prepare(vector).Some? && admitted
                                && Encodable(Operation.Upsert(key, payload, cfg.prepare(vector).value))
                                && !w.poisoned && Unhindered(w, fault)))
            && (ReplyTo(cfg, s, a).Ok? ==> ReplyTo(cfg, s, a).value.deduplicated == !unseen)
            && (ReplyTo(cfg, s, a).Err? ==>
                  Step(cfg, s, a).server.value.mem == s.server.value.mem || fault.StopAfterApply?)
  {
    hide LogOk, DiskInv, ServerInv, ConfigOk, BaseOk, Mutate, Mutable, Finite, Lookup, Encodable, Unhindered;
    if Lookup(s.server.value.mem.window, opId).None? && |vector| == cfg.dims && Finite(vector)
        && cfg.prepare(vector).Some? {
      var op := Operation.Upsert(key, payload, cfg.prepare(vector).value);
      UpsertMutable(cfg, base, s, opId, key, vector, payload);
      MutatesExactly(cfg, base, s, opId, op, fault);
      if Mutate(cfg, s.disk, s.server.value, opId, op, fault).result.Ok? {
        MutatedServes(cfg, base, s, opId, op, fault);
      }
    }
  }

  /** A delete, of an absent key too, is acknowledged exactly when its id is in
      the window, or the log admits its key, the writer is not poisoned and
      nothing fails. */
  lemma DeleteAckedExactly(cfg: Config, base: Logical, s: Sys, opId: OpId, key: Bytes, fault: Fault)
    requires Enabled(cfg, s, DeleteBy(opId, key, fault)) && Inv(cfg, base, s)
    ensures var a, w := DeleteBy(opId, key, fault), s.server.value.wal;
            var unseen := Lookup(s.server.value.mem.window, opId).None?;
            && (ReplyTo(cfg, s, a).Ok? <==> !unseen || (KeyOk(key) && !w.poisoned && Unhindered(w, fault)))
            && (ReplyTo(cfg, s, a).Ok? ==> ReplyTo(cfg, s, a).value.deduplicated == !unseen)
            && (ReplyTo(cfg, s, a).Err? ==>
                  Step(cfg, s, a).server.value.mem == s.server.value.mem || fault.StopAfterApply?)
  {
    hide LogOk, DiskInv, ServerInv, ConfigOk, BaseOk, Mutate, Mutable, Lookup, Unhindered;
    if Lookup(s.server.value.mem.window, opId).None? {
      DeleteMutable(cfg, base, s, opId, key);
      MutatesExactly(cfg, base, s, opId, Operation.Delete(key), fault);
      if Mutate(cfg, s.disk, s.server.value, opId, Operation.Delete(key), fault).result.Ok? {
        MutatedServes(cfg, base, s, opId, Operation.Delete(key), fault);
      }
    }
  }
}
