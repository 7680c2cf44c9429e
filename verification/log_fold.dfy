/** What the log means: the fold of its entries into the live rows, in the
    order their slots were assigned, the keys ever seen, and the window of
    recent operation ids. This is the specification every durable state of a
    partition is compared with. */
module LogFold {
  import opened Words
  import opened WalCodec

  /** A live record: the version is the sequence of the entry that wrote it. */
  datatype Row = Row(key: Bytes, version: nat, payload: Bytes, vector: Vector)

  type Window = seq<(OpId, nat)>

  datatype Logical = Logical(rows: seq<Row>, keys: seq<Bytes>, window: Window, high: nat)

  const EMPTY := Logical([], [], [], 0)

  // ----- the idempotency window

  predicate InWindow(w: Window, op: OpId) {
    exists i :: 0 <= i < |w| && w[i].0 == op
  }

  ghost predicate DistinctOps(w: Window) {
    forall i, j :: 0 <= i < j < |w| ==> w[i].0 != w[j].0
  }

  /** Update the sequence of a known id in place. */
  function Renew(w: Window, op: OpId, s: nat): (r: Window)
    ensures |r| == |w|
  {
    seq(|w|, i requires 0 <= i < |w| => if w[i].0 == op then (op, s) else w[i])
  }

  function LastN<T>(w: seq<T>, n: nat): (r: seq<T>)
    ensures |r| <= n && |r| <= |w|
  {
    if |w| <= n then w else w[|w| - n..]
  }

  /** `IdempotencyWindow::record`. */
  function Recorded(w: Window, capacity: nat, op: OpId, s: nat): Window {
    LastN(if InWindow(w, op) then Renew(w, op, s) else w + [(op, s)], capacity)
  }

  ghost predicate WindowOk(w: Window, capacity: nat) {
    |w| <= capacity && DistinctOps(w)
  }

  lemma RecordedOk(w: Window, capacity: nat, op: OpId, s: nat)
    requires WindowOk(w, capacity)
    ensures WindowOk(Recorded(w, capacity, op, s), capacity)
  {
    var grown := if InWindow(w, op) then Renew(w, op, s) else w + [(op, s)];
    assert DistinctOps(grown);
  }

  /** Recording the entries of a saved window one after another. */
  function RecordAll(w: Window, capacity: nat, saved: Window): Window {
    if saved == [] then w
    else
      var n := |saved| - 1;
      Recorded(RecordAll(w, capacity, saved[..n]), capacity, saved[n].0, saved[n].1)
  }

  /** A saved window is rebuilt exactly. */
  lemma {:induction false} RecordAllRebuilds(capacity: nat, saved: Window)
    requires WindowOk(saved, capacity)
    ensures RecordAll([], capacity, saved) == saved
  {
    if saved != [] {
      var n := |saved| - 1;
      RecordAllRebuilds(capacity, saved[..n]);
      assert !InWindow(saved[..n], saved[n].0) by {
        forall i | 0 <= i < n
          ensures saved[..n][i].0 != saved[n].0
        {
          assert saved[i].0 != saved[n].0;
        }
      }
      assert saved == saved[..n] + [saved[n]];
    }
  }

  // ----- rows

  function Without(rows: seq<Row>, key: Bytes): (r: seq<Row>)
    ensures forall x :: x in r <==> x in rows && x.key != key
  {
    if rows == [] then []
    else
      var n := |rows| - 1;
      if rows[n].key == key then Without(rows[..n], key) else Without(rows[..n], key) + [rows[n]]
  }

  /** The effect of one entry. `norm` is what storing does to a vector. */
  function Apply(l: Logical, norm: Vector -> Vector, capacity: nat, e: Entry): Logical {
    var key := e.operation.key;
    var kept := Without(l.rows, key);
    Logical(
      match e.operation {
        case Upsert(_, payload, vector) => kept + [Row(key, e.seqNo, payload, norm(vector))]
        case Delete(_) => kept
      },
      if e.operation.Upsert? && key !in l.keys then l.keys + [key] else l.keys,
      Recorded(l.window, capacity, e.opId, e.seqNo),
      e.seqNo)
  }

  function Fold(base: Logical, norm: Vector -> Vector, capacity: nat, log: seq<Entry>): Logical {
    if log == [] then base
    else Apply(Fold(base, norm, capacity, log[..|log| - 1]), norm, capacity, log[|log| - 1])
  }

  lemma FoldOne(base: Logical, norm: Vector -> Vector, capacity: nat, log: seq<Entry>, e: Entry)
    ensures Fold(base, norm, capacity, log + [e]) == Apply(Fold(base, norm, capacity, log), norm, capacity, e)
  {
    assert (log + [e])[..|log|] == log;
  }

  /** The newest upsert of `key` that no later entry deleted or replaced. */
  ghost predicate Newest(log: seq<Entry>, i: nat, key: Bytes) {
    && i < |log| && log[i].operation.Upsert? && log[i].operation.key == key
    && forall j :: i < j < |log| ==> log[j].operation.key != key
  }

  ghost predicate DistinctKeys(rows: seq<Row>) {
    forall i, j :: 0 <= i < j < |rows| ==> rows[i].key != rows[j].key
  }

  lemma {:induction false} WithoutDistinct(rows: seq<Row>, key: Bytes)
    requires DistinctKeys(rows)
    ensures DistinctKeys(Without(rows, key))
  {
    if rows != [] {
      var n := |rows| - 1;
      WithoutDistinct(rows[..n], key);
      assert forall r :: r in Without(rows[..n], key) ==> r.key != rows[n].key;
    }
  }

  lemma {:induction false} FoldDistinct(base: Logical, norm: Vector -> Vector, capacity: nat, log: seq<Entry>)
    requires DistinctKeys(base.rows)
    ensures DistinctKeys(Fold(base, norm, capacity, log).rows)
  {
    if log != [] {
      var before := log[..|log| - 1];
      FoldDistinct(base, norm, capacity, before);
      WithoutDistinct(Fold(base, norm, capacity, before).rows, log[|log| - 1].operation.key);
    }
  }

  /** `r` is what the newest upsert of its key wrote. */
  ghost predicate WroteAt(log: seq<Entry>, norm: Vector -> Vector, i: nat, r: Row) {
    Newest(log, i, r.key) && r == Row(r.key, log[i].seqNo, log[i].operation.payload, norm(log[i].operation.vector))
  }

  ghost predicate FromLog(log: seq<Entry>, norm: Vector -> Vector, r: Row) {
    exists i :: 0 <= i < |log| && WroteAt(log, norm, i, r)
  }

  ghost predicate Untouched(log: seq<Entry>, key: Bytes) {
    forall j :: 0 <= j < |log| ==> log[j].operation.key != key
  }

  lemma FromLogGrow(log: seq<Entry>, e: Entry, norm: Vector -> Vector, r: Row)
    ensures e.operation.key != r.key ==> (FromLog(log + [e], norm, r) <==> FromLog(log, norm, r))
    ensures e.operation.key == r.key ==>
      (FromLog(log + [e], norm, r)
       <==> e.operation.Upsert? && r == Row(r.key, e.seqNo, e.operation.payload, norm(e.operation.vector)))
    ensures Untouched(log + [e], r.key) <==> Untouched(log, r.key) && e.operation.key != r.key
  {
    var after := log + [e];
    if e.operation.key != r.key {
      forall i | 0 <= i < |log|
        ensures Newest(after, i, r.key) <==> Newest(log, i, r.key)
      {
        NewestGrow(log, e, i, r.key);
      }
      assert !Newest(after, |log|, r.key);
      if FromLog(after, norm, r) {
        var i :| 0 <= i < |after| && WroteAt(after, norm, i, r);
        assert WroteAt(log, norm, i, r);
      }
      if FromLog(log, norm, r) {
        var i :| 0 <= i < |log| && WroteAt(log, norm, i, r);
        assert WroteAt(after, norm, i, r);
      }
    } else {
      assert after[|log|] == e;
      assert forall i :: 0 <= i < |log| ==> !Newest(after, i, r.key);
      if e.operation.Upsert? {
        assert Newest(after, |log|, r.key);
        assert r == Row(r.key, e.seqNo, e.operation.payload, norm(e.operation.vector))
               ==> WroteAt(after, norm, |log|, r);
      }
    }
    assert Untouched(after, r.key) ==> after[|log|].operation.key != r.key;
    assert forall j :: 0 <= j < |log| ==> after[j] == log[j];
  }

  lemma NewestGrow(log: seq<Entry>, e: Entry, i: nat, key: Bytes)
    requires i < |log| && e.operation.key != key
    ensures Newest(log + [e], i, key) <==> Newest(log, i, key)
  {
    var after := log + [e];
    assert forall j :: 0 <= j < |log| ==> after[j] == log[j];
    assert after[|log|] == e;
  }

  /** Meaning of the fold: a row is live exactly when it was written by the
      newest upsert of its key with nothing after it, or was in the base and
      its key was never touched since. */
  lemma {:induction false} RowsAreNewest(base: Logical, norm: Vector -> Vector, capacity: nat, log: seq<Entry>, r: Row)
    ensures r in Fold(base, norm, capacity, log).rows
       <==> FromLog(log, norm, r) || (r in base.rows && Untouched(log, r.key))
  {
    if log != [] {
      var before, e := log[..|log| - 1], log[|log| - 1];
      assert log == before + [e];
      RowsAreNewest(base, norm, capacity, before, r);
      FromLogGrow(before, e, norm, r);
      FoldOne(base, norm, capacity, before, e);
    }
  }

  // ----- the window over a whole log

  /** No operation id twice among any `capacity + 1` consecutive entries. */
  ghost predicate NoRepeat(log: seq<Entry>, capacity: nat) {
    forall i, j :: 0 <= i < j < |log| && j - i <= capacity ==> log[i].opId != log[j].opId
  }

  ghost function Ops(log: seq<Entry>): Window {
    seq(|log|, i requires 0 <= i < |log| => (log[i].opId, log[i].seqNo))
  }

  /** The window is exactly the last `capacity` entries, in order. */
  lemma {:induction false} WindowIsLast(base: Logical, norm: Vector -> Vector, capacity: nat, log: seq<Entry>)
    requires base.window == [] && 0 < capacity && NoRepeat(log, capacity)
    ensures Fold(base, norm, capacity, log).window == LastN(Ops(log), capacity)
  {
    hide Apply, Without, InWindow;
    if log != [] {
      var n := |log| - 1;
      var before, e := log[..n], log[n];
      NoRepeatPrefix(log, n, capacity);
      assert log == before + [e];
      WindowIsLast(base, norm, capacity, before);
      NotInLast(before, e, capacity);
      WindowStep(base, norm, capacity, before, e);
    }
  }

  lemma WindowStep(base: Logical, norm: Vector -> Vector, capacity: nat, log: seq<Entry>, e: Entry)
    requires 0 < capacity && Fold(base, norm, capacity, log).window == LastN(Ops(log), capacity)
    requires !InWindow(LastN(Ops(log), capacity), e.opId)
    ensures Fold(base, norm, capacity, log + [e]).window == LastN(Ops(log + [e]), capacity)
  {
    hide Without, Fold;
    FoldOne(base, norm, capacity, log, e);
    assert Ops(log + [e]) == Ops(log) + [(e.opId, e.seqNo)];
    LastNGrow(Ops(log), (e.opId, e.seqNo), capacity);
  }

  lemma LastOps(log: seq<Entry>, capacity: nat, i: nat)
    requires i < |LastN(Ops(log), capacity)|
    ensures var at := |log| - |LastN(Ops(log), capacity)| + i;
            0 <= at < |log| && |log| - at <= capacity && LastN(Ops(log), capacity)[i] == (log[at].opId, log[at].seqNo)
  {
  }

  lemma NotInLast(log: seq<Entry>, e: Entry, capacity: nat)
    requires NoRepeat(log + [e], capacity)
    ensures !InWindow(LastN(Ops(log), capacity), e.opId)
  {
    var w := LastN(Ops(log), capacity);
    forall i | 0 <= i < |w|
      ensures w[i].0 != e.opId
    {
      LastOps(log, capacity, i);
      assert (log + [e])[|log| - |w| + i].opId != (log + [e])[|log|].opId;
    }
  }

  lemma LastNGrow<T>(s: seq<T>, x: T, n: nat)
    requires 0 < n
    ensures LastN(LastN(s, n) + [x], n) == LastN(s + [x], n)
  {
  }

  lemma NoRepeatPrefix(log: seq<Entry>, n: nat, capacity: nat)
    requires NoRepeat(log, capacity) && n <= |log|
    ensures NoRepeat(log[..n], capacity)
  {
    forall i, j | 0 <= i < j < n && j - i <= capacity
      ensures log[..n][i].opId != log[..n][j].opId
    {
      assert log[i].opId != log[j].opId;
    }
  }

  /** An entry whose id is not in the window keeps ids apart. */
  lemma NoRepeatGrow(base: Logical, norm: Vector -> Vector, capacity: nat, log: seq<Entry>, e: Entry)
    requires base.window == [] && 0 < capacity && NoRepeat(log, capacity)
    requires !InWindow(Fold(base, norm, capacity, log).window, e.opId)
    ensures NoRepeat(log + [e], capacity)
  {
    WindowIsLast(base, norm, capacity, log);
    forall i, j | 0 <= i < j < |log| + 1 && j - i <= capacity
      ensures (log + [e])[i].opId != (log + [e])[j].opId
    {
      if j < |log| {
        assert log[i].opId != log[j].opId;
      } else {
        RecentInWindow(log, capacity, i);
      }
    }
  }

  lemma RecentInWindow(log: seq<Entry>, capacity: nat, i: nat)
    requires i < |log| && |log| - i <= capacity
    ensures InWindow(LastN(Ops(log), capacity), log[i].opId)
  {
    var w := LastN(Ops(log), capacity);
    assert w[i - (|log| - |w|)] == Ops(log)[i];
  }
}
