/** The in-memory state of a partition (partition.rs) as a value: key table,
    key map, slot records, vectors and tombstones, and what applying one log
    entry does to them. */
module PartitionState {
  import opened Words
  import opened WalCodec
  import opened LogFold

  datatype SlotRecord = SlotRecord(version: nat, tombstone: bool, keyIndex: nat, payload: Bytes)

  /** Index of the key in the key table, and its live slot if any. */
  datatype KeyEntry = KeyEntry(index: nat, live: Option<nat>)

  datatype Mem = Mem(
    vectors: seq<Vector>, dead: set<nat>, keyTable: seq<Bytes>, keys: map<Bytes, KeyEntry>,
    slots: seq<SlotRecord>, window: Window, high: nat)

  /** A key's live slot is a slot of that key that is not tombstoned. */
  ghost predicate OwnsSlot(m: Mem, key: Bytes) {
    key in m.keys && (m.keys[key].live.Some? ==>
      var s := m.keys[key].live.value;
      s < |m.slots| && !m.slots[s].tombstone && m.slots[s].keyIndex == m.keys[key].index)
  }

  /** Every slot has a vector and a key. */
  ghost predicate InRange(m: Mem) {
    |m.vectors| == |m.slots| && forall s :: 0 <= s < |m.slots| ==> m.slots[s].keyIndex < |m.keyTable|
  }

  /** A slot is tombstoned exactly when the bitmap says so, and otherwise it
      is the live slot of its key. */
  ghost predicate SlotOk(m: Mem, s: nat)
    requires s < |m.slots| && m.slots[s].keyIndex < |m.keyTable|
  {
    && (m.slots[s].tombstone <==> s in m.dead)
    && (!m.slots[s].tombstone ==>
          m.keyTable[m.slots[s].keyIndex] in m.keys && m.keys[m.keyTable[m.slots[s].keyIndex]].live == Some(s))
  }

  /** The representation invariant: key table, key map, slot records and
      tombstones agree. */
  ghost predicate RepOk(m: Mem) {
    && InRange(m)
    && (forall s :: s in m.dead ==> s < |m.slots|)
    && (forall i :: 0 <= i < |m.keyTable| ==> m.keyTable[i] in m.keys && m.keys[m.keyTable[i]].index == i)
    && (forall k ::
         k in m.keys
         ==> m.keys[k].index < |m.keyTable| && m.keyTable[m.keys[k].index] == k && OwnsSlot(m, k))
    && (forall s :: 0 <= s < |m.slots| ==> SlotOk(m, s))
  }

  ghost function RowAt(m: Mem, s: nat): Row
    requires InRange(m) && s < |m.slots|
  {
    Row(m.keyTable[m.slots[s].keyIndex], m.slots[s].version, m.slots[s].payload, m.vectors[s])
  }

  /** The rows of the live slots below `n`, in slot order. */
  ghost function RowsBelow(m: Mem, n: nat): seq<Row>
    requires InRange(m) && n <= |m.slots|
  {
    if n == 0 then []
    else if m.slots[n - 1].tombstone then RowsBelow(m, n - 1)
    else RowsBelow(m, n - 1) + [RowAt(m, n - 1)]
  }

  ghost function Abs(m: Mem): Logical
    requires RepOk(m)
  {
    Logical(RowsBelow(m, |m.slots|), m.keyTable, m.window, m.high)
  }

  const EMPTY_MEM := Mem([], {}, [], map[], [], [], 0)

  lemma EmptyOk()
    ensures RepOk(EMPTY_MEM) && Abs(EMPTY_MEM) == EMPTY
  {
  }

  function LiveSlot(m: Mem, key: Bytes): Option<nat> {
    if key in m.keys then m.keys[key].live else None
  }

  /** Tombstone the live slot of a key, if it has one. */
  function Retire(m: Mem, key: Bytes): Mem {
    match LiveSlot(m, key)
    case None => m
    case Some(p) =>
      if p < |m.slots| then
        m.(dead := m.dead + {p}, slots := m.slots[p := m.slots[p].(tombstone := true)],
           keys := m.keys[key := KeyEntry(m.keys[key].index, None)])
      else m
  }

  function KeyIndex(m: Mem, key: Bytes): nat {
    if key in m.keys then m.keys[key].index else |m.keyTable|
  }

  /** Append a slot for a key that has no live slot. */
  function Append(m: Mem, key: Bytes, version: nat, payload: Bytes, vector: Vector): Mem {
    m.(vectors := m.vectors + [vector],
       keyTable := if key in m.keys then m.keyTable else m.keyTable + [key],
       keys := m.keys[key := KeyEntry(KeyIndex(m, key), Some(|m.slots|))],
       slots := m.slots + [SlotRecord(version, false, KeyIndex(m, key), payload)])
  }

  /** `Partition::apply` on the fields. */
  function ApplyMem(m: Mem, norm: Vector -> Vector, capacity: nat, e: Entry): Mem {
    var retired := Retire(m, e.operation.key);
    var next := match e.operation
      case Upsert(key, payload, vector) => Append(retired, key, e.seqNo, payload, norm(vector))
      case Delete(_) => retired;
    next.(window := Recorded(m.window, capacity, e.opId, e.seqNo), high := e.seqNo)
  }

  lemma {:induction false} RowsBelowSame(m: Mem, m': Mem, n: nat)
    requires n <= |m.slots| <= |m'.slots| && InRange(m) && InRange(m')
    requires forall s :: 0 <= s < n ==> m.slots[s].tombstone == m'.slots[s].tombstone
    requires forall s :: 0 <= s < n && !m.slots[s].tombstone ==> RowAt(m, s) == RowAt(m', s)
    ensures RowsBelow(m', n) == RowsBelow(m, n)
  {
    if n > 0 {
      RowsBelowSame(m, m', n - 1);
    }
  }

  lemma {:induction false} RowsBelowIn(m: Mem, n: nat, r: Row)
    requires InRange(m) && n <= |m.slots|
    requires r in RowsBelow(m, n)
    ensures exists s :: 0 <= s < n && !m.slots[s].tombstone && RowAt(m, s) == r
  {
    if n > 0 && r in RowsBelow(m, n - 1) {
      RowsBelowIn(m, n - 1, r);
    }
  }

  lemma {:induction false} WithoutAbsent(rows: seq<Row>, key: Bytes)
    requires forall r :: r in rows ==> r.key != key
    ensures Without(rows, key) == rows
  {
    if rows != [] {
      var n := |rows| - 1;
      WithoutAbsent(rows[..n], key);
      assert rows == rows[..n] + [rows[n]];
    }
  }

  /** Rows of slots below a point: none of a key whose live slot is elsewhere. */
  lemma NoRowOf(m: Mem, key: Bytes, n: nat)
    requires RepOk(m) && n <= |m.slots|
    requires key !in m.keys || m.keys[key].live.None? || m.keys[key].live.value >= n
    ensures Without(RowsBelow(m, n), key) == RowsBelow(m, n)
  {
    forall r | r in RowsBelow(m, n)
      ensures r.key != key
    {
      RowsBelowIn(m, n, r);
      var s :| 0 <= s < n && !m.slots[s].tombstone && RowAt(m, s) == r;
      assert SlotOk(m, s);
    }
    WithoutAbsent(RowsBelow(m, n), key);
  }

  lemma RetireSlot(m: Mem, m': Mem, key: Bytes, s: nat)
    requires RepOk(m) && InRange(m') && m' == Retire(m, key) && LiveSlot(m, key).Some? && s < |m.slots|
    ensures |m'.slots| == |m.slots| && RowAt(m', s) == RowAt(m, s)
    ensures m'.slots[s].tombstone == (m.slots[s].tombstone || RowAt(m, s).key == key)
  {
    assert SlotOk(m, s) && OwnsSlot(m, key);
  }

  /** Retiring a key drops exactly its row. */
  lemma {:induction false} RetireRows(m: Mem, m': Mem, key: Bytes, n: nat)
    requires RepOk(m) && InRange(m) && InRange(m') && n <= |m.slots| && m' == Retire(m, key) && LiveSlot(m, key).Some?
    ensures |m'.slots| == |m.slots|
    ensures RowsBelow(m', n) == Without(RowsBelow(m, n), key)
  {
    hide RepOk, InRange, Retire, LiveSlot, RowAt, Without, RowsBelow;
    RetireNone(m, m', key);
    RowsStep(m, n);
    RowsStep(m', n);
    if n > 0 {
      RetireRows(m, m', key, n - 1);
      RetireSlot(m, m', key, n - 1);
      WithoutLast(RowsBelow(m, n - 1), RowAt(m, n - 1), key);
    }
  }

  lemma RowsStep(m: Mem, n: nat)
    requires InRange(m) && n <= |m.slots|
    ensures n == 0 ==> RowsBelow(m, n) == []
    ensures n > 0 ==> RowsBelow(m, n) == if m.slots[n - 1].tombstone then RowsBelow(m, n - 1)
            else RowsBelow(m, n - 1) + [RowAt(m, n - 1)]
  {
    hide InRange;
  }

  lemma RetireNone(m: Mem, m': Mem, key: Bytes)
    requires m' == Retire(m, key)
    ensures |m'.slots| == |m.slots| && Without([], key) == []
  {
  }

  lemma WithoutLast(rows: seq<Row>, r: Row, key: Bytes)
    ensures Without(rows + [r], key) == if r.key == key then Without(rows, key) else Without(rows, key) + [r]
  {
    assert (rows + [r])[..|rows|] == rows;
  }

  lemma RetireOk(m: Mem, key: Bytes)
    requires RepOk(m)
    ensures RepOk(Retire(m, key)) && LiveSlot(Retire(m, key), key).None?
    ensures Abs(Retire(m, key)) == Abs(m).(rows := Without(Abs(m).rows, key))
  {
    var m' := Retire(m, key);
    if LiveSlot(m, key).Some? {
      var p := m.keys[key].live.value;
      assert OwnsSlot(m, key) && SlotOk(m, p);
      forall k | k in m'.keys
        ensures m'.keys[k].index < |m'.keyTable| && m'.keyTable[m'.keys[k].index] == k && OwnsSlot(m', k)
      {
        assert OwnsSlot(m, k);
      }
      forall s | 0 <= s < |m'.slots|
        ensures SlotOk(m', s)
      {
        assert SlotOk(m, s);
      }
      RetireRows(m, m', key, |m.slots|);
    } else {
      NoRowOf(m, key, |m.slots|);
    }
  }

  lemma AppendOk(m: Mem, key: Bytes, version: nat, payload: Bytes, vector: Vector)
    requires RepOk(m) && LiveSlot(m, key).None?
    ensures var m' := Append(m, key, version, payload, vector);
            RepOk(m')
            && Abs(m') == Abs(m).(rows := Abs(m).rows + [Row(key, version, payload, vector)],
                                  keys := if key in m.keyTable then m.keyTable else m.keyTable + [key])
  {
    hide RowsBelow, OwnsSlot, SlotOk;
    var m' := Append(m, key, version, payload, vector);
    assert key in m.keys <==> key in m.keyTable;
    forall k | k in m'.keys
      ensures m'.keys[k].index < |m'.keyTable| && m'.keyTable[m'.keys[k].index] == k && OwnsSlot(m', k)
    {
      AppendKey(m, key, version, payload, vector, k);
    }
    forall s | 0 <= s < |m'.slots|
      ensures m'.slots[s].keyIndex < |m'.keyTable| && SlotOk(m', s)
    {
      AppendSlot(m, key, version, payload, vector, s);
    }
    AppendRows(m, m', Row(key, version, payload, vector));
  }

  lemma AppendKey(m: Mem, key: Bytes, version: nat, payload: Bytes, vector: Vector, k: Bytes)
    requires RepOk(m) && (k in m.keys || k == key)
    ensures var m' := Append(m, key, version, payload, vector);
            && k in m'.keys && m'.keys[k].index < |m'.keyTable| && m'.keyTable[m'.keys[k].index] == k && OwnsSlot(m', k)
  {
    hide SlotOk;
    if k != key {
      assert OwnsSlot(m, k);
    }
  }

  lemma AppendSlot(m: Mem, key: Bytes, version: nat, payload: Bytes, vector: Vector, s: nat)
    requires RepOk(m) && LiveSlot(m, key).None? && s <= |m.slots|
    ensures var m' := Append(m, key, version, payload, vector);
            |m'.slots| == |m.slots| + 1 && m'.slots[s].keyIndex < |m'.keyTable| && SlotOk(m', s)
  {
    hide OwnsSlot;
    if s < |m.slots| {
      assert SlotOk(m, s);
    }
  }

  lemma AppendRows(m: Mem, m': Mem, r: Row)
    requires InRange(m) && InRange(m') && |m'.slots| == |m.slots| + 1
    requires forall s :: 0 <= s < |m.slots| ==> m'.slots[s] == m.slots[s] && m'.vectors[s] == m.vectors[s]
    requires m.keyTable <= m'.keyTable
    requires !m'.slots[|m.slots|].tombstone && RowAt(m', |m.slots|) == r
    ensures RowsBelow(m', |m'.slots|) == RowsBelow(m, |m.slots|) + [r]
  {
    RowsBelowSame(m, m', |m.slots|);
  }

  /** Applying an entry keeps the representation and does to the live rows what
      the log fold says. */
  lemma ApplyRefines(m: Mem, norm: Vector -> Vector, capacity: nat, e: Entry)
    requires RepOk(m)
    ensures RepOk(ApplyMem(m, norm, capacity, e))
    ensures Abs(ApplyMem(m, norm, capacity, e)) == Apply(Abs(m), norm, capacity, e)
  {
    var key := e.operation.key;
    RetireOk(m, key);
    var retired := Retire(m, key);
    var next := if e.operation.Upsert? then Append(retired, key, e.seqNo, e.operation.payload, norm(e.operation.vector))
    else retired;
    if e.operation.Upsert? {
      AppendOk(retired, key, e.seqNo, e.operation.payload, norm(e.operation.vector));
    }
    SameBooks(next, ApplyMem(m, norm, capacity, e));
  }

  /** The window and the high-water mark are not part of the representation. */
  lemma SameBooks(m: Mem, m': Mem)
    requires RepOk(m) && m' == m.(window := m'.window, high := m'.high)
    ensures RepOk(m') && Abs(m') == Abs(m).(window := m'.window, high := m'.high)
  {
    forall k | k in m'.keys
      ensures OwnsSlot(m', k)
    {
      assert OwnsSlot(m, k);
    }
    forall s | 0 <= s < |m'.slots|
      ensures SlotOk(m', s)
    {
      assert SlotOk(m, s);
    }
    RowsBelowSame(m, m', |m.slots|);
  }

  /** Replay of a run of entries. */
  function Replay(m: Mem, norm: Vector -> Vector, capacity: nat, log: seq<Entry>): Mem {
    if log == [] then m
    else ApplyMem(Replay(m, norm, capacity, log[..|log| - 1]), norm, capacity, log[|log| - 1])
  }

  lemma {:induction false} ReplayRefines(m: Mem, norm: Vector -> Vector, capacity: nat, log: seq<Entry>)
    requires RepOk(m)
    ensures RepOk(Replay(m, norm, capacity, log))
    ensures Abs(Replay(m, norm, capacity, log)) == Fold(Abs(m), norm, capacity, log)
  {
    if log != [] {
      ReplayRefines(m, norm, capacity, log[..|log| - 1]);
      ApplyRefines(Replay(m, norm, capacity, log[..|log| - 1]), norm, capacity, log[|log| - 1]);
    }
  }

  lemma {:induction false} ReplayConcat(m: Mem, norm: Vector -> Vector, capacity: nat, a: seq<Entry>, b: seq<Entry>)
    ensures Replay(m, norm, capacity, a + b) == Replay(Replay(m, norm, capacity, a), norm, capacity, b)
  {
    hide ApplyMem;
    if b == [] {
      assert a + b == a;
    } else {
      var n := |b| - 1;
      ReplayConcat(m, norm, capacity, a, b[..n]);
      assert (a + b)[..|a| + n] == a + b[..n];
    }
  }

  /** A live key is found through the key map exactly when it has a row. */
  lemma ViewOfKey(m: Mem, key: Bytes)
    requires RepOk(m)
    ensures LiveSlot(m, key).Some? <==> exists r :: r in Abs(m).rows && r.key == key
    ensures LiveSlot(m, key).Some? ==>
      var s := LiveSlot(m, key).value;
      s < |m.slots| && SlotOk(m, s) && RowAt(m, s) in Abs(m).rows && RowAt(m, s).key == key
  {
    if LiveSlot(m, key).Some? {
      assert OwnsSlot(m, key);
      RowInRows(m, |m.slots|, LiveSlot(m, key).value);
      assert SlotOk(m, LiveSlot(m, key).value);
    } else {
      forall r | r in Abs(m).rows
        ensures r.key != key
      {
        RowsBelowIn(m, |m.slots|, r);
        var s :| 0 <= s < |m.slots| && !m.slots[s].tombstone && RowAt(m, s) == r;
        assert SlotOk(m, s);
      }
    }
  }

  lemma {:induction false} RowInRows(m: Mem, n: nat, s: nat)
    requires InRange(m) && s < n <= |m.slots| && !m.slots[s].tombstone
    ensures RowAt(m, s) in RowsBelow(m, n)
  {
    if s < n - 1 {
      RowInRows(m, n - 1, s);
    }
  }

  // ----- bulk load

  function KeyPlace(keys: seq<Bytes>, key: Bytes): (i: nat)
    ensures i <= |keys| && (i < |keys| ==> keys[i] == key) && (key in keys ==> i < |keys|)
  {
    if keys == [] then 0 else if keys[0] == key then 0 else 1 + KeyPlace(keys[1..], key)
  }

  /** `bulk_load`: one slot per row, version 0, no payloads, no log. */
  function BulkLoaded(vectors: seq<Vector>, keys: seq<Bytes>): Mem {
    Mem(vectors, {}, keys,
        map k | k in keys :: KeyEntry(KeyPlace(keys, k), Some(KeyPlace(keys, k))),
        seq(|keys|, i requires 0 <= i < |keys| => SlotRecord(0, false, i, [])),
        [], 0)
  }

  ghost predicate UniqueKeys(keys: seq<Bytes>) {
    forall i, j :: 0 <= i < j < |keys| ==> keys[i] != keys[j]
  }

  /** A bulk load with unique keys, one a row, keeps the representation; its
      rows are the given ones in order. */
  lemma BulkLoadedOk(vectors: seq<Vector>, keys: seq<Bytes>)
    requires UniqueKeys(keys) && |vectors| == |keys|
    ensures var m := BulkLoaded(vectors, keys);
            && RepOk(m) && m.window == [] && m.high == 0 && DistinctKeys(Abs(m).rows)
            && |Abs(m).rows| == |keys|
            && forall i :: 0 <= i < |keys| ==> Abs(m).rows[i] == Row(keys[i], 0, [], vectors[i])
  {
    hide RowsBelow, SlotOk, OwnsSlot;
    var m := BulkLoaded(vectors, keys);
    forall i | 0 <= i < |m.keyTable|
      ensures m.keys[m.keyTable[i]].index == i && SlotOk(m, i)
    {
      PlaceOf(keys, i);
      BulkSlot(vectors, keys, i);
    }
    forall k | k in m.keys
      ensures OwnsSlot(m, k)
    {
      BulkKey(vectors, keys, k);
    }
    BulkRows(vectors, keys, |keys|);
  }

  lemma BulkSlot(vectors: seq<Vector>, keys: seq<Bytes>, i: nat)
    requires UniqueKeys(keys) && i < |keys|
    ensures SlotOk(BulkLoaded(vectors, keys), i)
  {
    PlaceOf(keys, i);
  }

  lemma BulkKey(vectors: seq<Vector>, keys: seq<Bytes>, k: Bytes)
    requires k in keys
    ensures OwnsSlot(BulkLoaded(vectors, keys), k)
  {
    assert KeyPlace(keys, k) < |keys|;
  }

  lemma PlaceOf(keys: seq<Bytes>, i: nat)
    requires UniqueKeys(keys) && i < |keys|
    ensures KeyPlace(keys, keys[i]) == i
  {
    var k := KeyPlace(keys, keys[i]);
    assert keys[k] == keys[i];
  }

  lemma {:induction false} BulkRows(vectors: seq<Vector>, keys: seq<Bytes>, n: nat)
    requires |vectors| == |keys| && n <= |keys| && InRange(BulkLoaded(vectors, keys))
    ensures var rows := RowsBelow(BulkLoaded(vectors, keys), n);
            |rows| == n && forall i :: 0 <= i < n ==> rows[i] == Row(keys[i], 0, [], vectors[i])
  {
    if n > 0 {
      BulkRows(vectors, keys, n - 1);
    }
  }
}
