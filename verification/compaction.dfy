/** Compaction (partition.rs): capture the live slots in slot order, rebuild
    on them, and renumber the key map. The rebuilt state has the same live
    rows in the same order. */
module Compaction {
  import opened Words
  import opened WalCodec
  import opened LogFold
  import opened PartitionState

  /** The non-tombstoned slots below `n`, ascending. */
  function LiveBelow(slots: seq<SlotRecord>, n: nat): (r: seq<nat>)
    requires n <= |slots|
    ensures forall i :: 0 <= i < |r| ==> r[i] < n && !slots[r[i]].tombstone
    ensures forall i, j :: 0 <= i < j < |r| ==> r[i] < r[j]
    ensures forall s :: 0 <= s < n && !slots[s].tombstone ==> s in r
  {
    if n == 0 then []
    else if slots[n - 1].tombstone then LiveBelow(slots, n - 1)
    else LiveBelow(slots, n - 1) + [n - 1]
  }

  function LiveSlots(m: Mem): seq<nat> {
    LiveBelow(m.slots, |m.slots|)
  }

  /** Position of `x`, or the length when absent: `old_to_new`. */
  function IndexOf(list: seq<nat>, x: nat): (i: nat)
    ensures i <= |list|
    ensures i < |list| ==> list[i] == x
    ensures x in list ==> i < |list|
  {
    if list == [] then 0 else if list[0] == x then 0 else 1 + IndexOf(list[1..], x)
  }

  function Renumber(live: Option<nat>, oldSlots: seq<nat>): Option<nat> {
    match live
    case None => None
    case Some(old_) => if old_ in oldSlots then Some(IndexOf(oldSlots, old_)) else None
  }

  /** The state compaction stages: captured live rows under new slot numbers,
      the same key table, and the captured window recorded again. */
  function Staged(m: Mem, capacity: nat): Mem
    requires |m.vectors| == |m.slots|
  {
    var live := LiveSlots(m);
    Mem(seq(|live|, i requires 0 <= i < |live| => m.vectors[live[i]]),
        {},
        m.keyTable,
        map k | k in m.keys :: KeyEntry(m.keys[k].index, Renumber(m.keys[k].live, live)),
        seq(|live|, i requires 0 <= i < |live| => m.slots[live[i]]),
        RecordAll([], capacity, m.window),
        m.high)
  }

  lemma IndexOfAt(list: seq<nat>, i: nat)
    requires i < |list| && forall a, b :: 0 <= a < b < |list| ==> list[a] < list[b]
    ensures IndexOf(list, list[i]) == i
  {
    var k := IndexOf(list, list[i]);
    assert list[k] == list[i];
  }

  lemma StagedSlot(m: Mem, capacity: nat, s: nat)
    requires RepOk(m) && s < |LiveSlots(m)|
    ensures InRange(Staged(m, capacity)) && SlotOk(Staged(m, capacity), s)
    ensures RowAt(Staged(m, capacity), s) == RowAt(m, LiveSlots(m)[s])
  {
    var live := LiveSlots(m);
    assert SlotOk(m, live[s]);
    IndexOfAt(live, s);
  }

  lemma StagedKey(m: Mem, capacity: nat, k: Bytes)
    requires RepOk(m) && k in m.keys
    ensures OwnsSlot(Staged(m, capacity), k)
  {
    assert OwnsSlot(m, k);
    var live := LiveSlots(m);
    if m.keys[k].live.Some? {
      assert m.keys[k].live.value in live;
    }
  }

  /** Rows in slot order, read through the list of live slots. */
  lemma {:induction false} RowsByLive(m: Mem, n: nat)
    requires InRange(m) && n <= |m.slots|
    ensures |RowsBelow(m, n)| == |LiveBelow(m.slots, n)|
    ensures forall i :: 0 <= i < |RowsBelow(m, n)| ==> RowsBelow(m, n)[i] == RowAt(m, LiveBelow(m.slots, n)[i])
  {
    if n > 0 {
      RowsByLive(m, n - 1);
    }
  }

  lemma {:induction false} AllLive(slots: seq<SlotRecord>, n: nat)
    requires n <= |slots| && forall s :: 0 <= s < n ==> !slots[s].tombstone
    ensures |LiveBelow(slots, n)| == n && forall i :: 0 <= i < n ==> LiveBelow(slots, n)[i] == i
  {
    if n > 0 {
      AllLive(slots, n - 1);
    }
  }

  lemma StagedOk(m: Mem, capacity: nat)
    requires RepOk(m)
    ensures RepOk(Staged(m, capacity))
  {
    hide LiveBelow, SlotOk, OwnsSlot;
    var t := Staged(m, capacity);
    if |t.slots| > 0 {
      StagedSlot(m, capacity, 0);
    }
    forall s | 0 <= s < |t.slots|
      ensures t.slots[s].keyIndex < |t.keyTable| && SlotOk(t, s)
    {
      StagedSlot(m, capacity, s);
    }
    forall k | k in t.keys
      ensures OwnsSlot(t, k)
    {
      StagedKey(m, capacity, k);
    }
  }

  /** The staged rows are the captured rows, in the same order. */
  lemma StagedRows(m: Mem, capacity: nat)
    requires RepOk(m) && InRange(m) && InRange(Staged(m, capacity))
    ensures RowsBelow(Staged(m, capacity), |LiveSlots(m)|) == RowsBelow(m, |m.slots|)
  {
    hide RowsBelow, RepOk, RowAt, SlotOk, LiveBelow;
    var t := Staged(m, capacity);
    RowsByLive(m, |m.slots|);
    RowsByLive(t, |t.slots|);
    AllLive(t.slots, |t.slots|);
    forall i | 0 <= i < |t.slots|
      ensures RowsBelow(t, |t.slots|)[i] == RowsBelow(m, |m.slots|)[i]
    {
      StagedSlot(m, capacity, i);
    }
  }

  /** Compaction is a stutter step: the staged state means the same. */
  lemma StagedMeansSame(m: Mem, capacity: nat)
    requires RepOk(m) && WindowOk(m.window, capacity)
    ensures RepOk(Staged(m, capacity)) && Abs(Staged(m, capacity)) == Abs(m)
  {
    hide RowsBelow, LiveBelow, SlotOk, OwnsSlot, RecordAll;
    StagedOk(m, capacity);
    StagedRows(m, capacity);
    RecordAllRebuilds(capacity, m.window);
  }
}
