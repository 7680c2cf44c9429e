/** The loops of snapshot.rs: sections written with a running offset, the
    layout with its cursor, records pushed while the cursor advances, and the
    cross-check of every reference. */
module SnapshotLoops {
  import opened Words
  import opened WalCodec
  import opened LogFold
  import opened PartitionState
  import opened Bits
  import opened SnapshotCodec
  import opened SnapshotGraph
  import opened SnapshotFile

  /** The slots section, the payload offset accumulating record by record. */
  method EncodeSlots(slots: seq<SlotRecord>) returns (out: Bytes)
    ensures out == SlotsSection(slots, 0)
  {
    hide ToLe;
    out := [];
    var payloadOffset: nat := 0;
    assert slots[0..] == slots;
    for i := 0 to |slots|
      invariant out + SlotsSection(slots[i..], payloadOffset) == SlotsSection(slots, 0)
    {
      var r := slots[i];
      assert slots[i..][0] == r && slots[i..][1..] == slots[i + 1..];
      SlotStep(out, r, payloadOffset, SlotsSection(slots[i + 1..], payloadOffset + |r.payload|));
      out := out + ToLe(r.version, 8);
      out := out + Flag(r.tombstone);
      out := out + ToLe(r.keyIndex, 4);
      out := out + ToLe(payloadOffset, 8);
      out := out + ToLe(|r.payload|, 4);
      payloadOffset := payloadOffset + |r.payload|;
    }
    assert slots[|slots|..] == [] && out + [] == out;
  }

  lemma SlotStep(out: Bytes, r: SlotRecord, offset: nat, more: Bytes)
    ensures out + (ToLe(r.version, 8) + (Flag(r.tombstone) + (ToLe(r.keyIndex, 4)
            + (ToLe(offset, 8) + (ToLe(|r.payload|, 4) + more)))))
         == out + ToLe(r.version, 8) + Flag(r.tombstone) + ToLe(r.keyIndex, 4) + ToLe(offset, 8)
            + ToLe(|r.payload|, 4) + more
  {
    hide ToLe, Flag;
  }

  /** Pass 1 of the encoder: the table and where the last section ends. */
  method LayOut(hash: Bytes -> Digest, secs: seq<Bytes>) returns (table: Bytes, cursor: nat)
    ensures table == TableBytes(hash, secs, Align(HEADER + SECTIONS * ENTRY), |secs|)
    ensures cursor == OffsetOf(secs, Align(HEADER + SECTIONS * ENTRY), |secs|)
  {
    hide EntryBytes;
    var first := Align(HEADER + SECTIONS * ENTRY);
    table, cursor := [], first;
    for i := 0 to |secs|
      invariant table == TableBytes(hash, secs, first, i) && cursor == OffsetOf(secs, first, i)
    {
      table := table + EntryBytes(TableEntry(i + 1, cursor, |secs[i]|, hash(secs[i])));
      cursor := Align(cursor + |secs[i]|);
    }
  }

  /** What reading the rest of the records adds to those already pushed. */
  function After(done: seq<SlotRecord>, r: Result<(seq<SlotRecord>, Bytes), SnapError>)
    : Result<(seq<SlotRecord>, Bytes), SnapError>
  {
    match r
    case Err(error) => Err(error)
    case Ok((slots, rest)) => Ok((done + slots, rest))
  }

  lemma AfterOne(done: seq<SlotRecord>, s: SlotRecord, r: Result<(seq<SlotRecord>, Bytes), SnapError>)
    ensures After(done + [s], r) == After(done, After([s], r))
  {
    if r.Ok? {
      assert done + [s] + r.value.0 == done + ([s] + r.value.0);
    }
  }

  /** The loader's loop over the slots section. */
  method LoadSlots(b: Bytes, count: nat, payloads: Bytes) returns (r: Result<(seq<SlotRecord>, Bytes), SnapError>)
    ensures r == ReadSlots(b, count, payloads)
  {
    hide ReadRaw;
    var slots: seq<SlotRecord> := [];
    var cursor := b;
    AfterNone(ReadSlots(b, count, payloads));
    for i := 0 to count
      invariant ReadSlots(b, count, payloads) == After(slots, ReadSlots(cursor, count - i, payloads))
    {
      var raw := ReadRaw(cursor);
      if raw.Err? {
        return Err(raw.error);
      }
      var (fields, rest) := raw.value;
      if fields.offset + fields.len > |payloads| {
        return Err(Misshapen("payload bounds"));
      }
      var record := SlotRecord(fields.version, fields.tombstone, fields.keyIndex,
                               payloads[fields.offset..fields.offset + fields.len]);
      AfterOne(slots, record, ReadSlots(rest, count - i - 1, payloads));
      slots, cursor := slots + [record], rest;
    }
    assert slots + [] == slots;
    r := Ok((slots, cursor));
  }

  lemma AfterNone(r: Result<(seq<SlotRecord>, Bytes), SnapError>)
    ensures After([], r) == r
  {
    if r.Ok? {
      assert [] + r.value.0 == r.value.0;
    }
  }

  // ----- validation

  /** Whether every slot of a list is one of the snapshot's. */
  method AllInRange(flat: seq<nat>, start: nat, len: nat, count: nat) returns (ok: bool)
    requires start + len <= |flat|
    ensures ok <==> forall j :: start <= j < start + len ==> flat[j] < count
  {
    for j := start to start + len
      invariant forall i :: start <= i < j ==> flat[i] < count
    {
      if flat[j] >= count {
        return false;
      }
    }
    ok := true;
  }

  lemma RowInside(s: nat, count: nat, stride: nat, len: nat, size: nat)
    requires s < count && size == count * stride && len <= stride
    ensures s * stride + len <= size
  {
    assert (s + 1) * stride <= count * stride by { MulLe(s + 1, count, stride); }
    assert (s + 1) * stride == s * stride + stride;
  }

  lemma MulLe(a: nat, b: nat, c: nat)
    requires a <= b
    ensures a * c <= b * c
  {
  }

  method ValidateLevel0(p: Params, g: GraphImage, count: nat) returns (r: Result<(), SnapError>)
    requires |g.level0Len| == count && |g.level0| == count * p.m0
    ensures r.Ok? <==> forall s :: 0 <= s < count ==> ListOk(g.level0, s * p.m0, g.level0Len[s], p.m0, count)
  {
    for s := 0 to count
      invariant forall t :: 0 <= t < s ==> ListOk(g.level0, t * p.m0, g.level0Len[t], p.m0, count)
    {
      if g.level0Len[s] > p.m0 {
        return Err(Misshapen("level0 length"));
      }
      RowInside(s, count, p.m0, g.level0Len[s], |g.level0|);
      var ok := AllInRange(g.level0, s * p.m0, g.level0Len[s], count);
      if !ok {
        return Err(Misshapen("neighbour out of range"));
      }
    }
    r := Ok(());
  }

  method ValidateUpper(p: Params, flat: seq<nat>, lens: seq<nat>, count: nat) returns (r: Result<(), SnapError>)
    requires |flat| == |lens| * p.m
    ensures r.Ok? <==> UpperOk(flat, lens, p.m, count)
  {
    for l := 0 to |lens|
      invariant forall k :: 0 <= k < l ==> ListOk(flat, k * p.m, lens[k], p.m, count)
    {
      if lens[l] > p.m {
        return Err(Misshapen("upper length"));
      }
      RowInside(l, |lens|, p.m, lens[l], |flat|);
      var ok := AllInRange(flat, l * p.m, lens[l], count);
      if !ok {
        return Err(Misshapen("upper neighbour out of range"));
      }
    }
    r := Ok(());
  }

  /** Tombstone bits agree with the records, and their number with the count. */
  method ValidateSlots(keys: seq<(Bytes, nat)>, slots: seq<SlotRecord>, g: GraphImage)
    returns (r: Result<(), SnapError>)
    ensures r.Ok? <==>
      && (forall s ::
           0 <= s < |slots|
           ==> (InWords(g.tombstones, s) <==> slots[s].tombstone) && slots[s].keyIndex < |keys|)
      && |slots| - LiveCount(slots) == g.tombstoneCount
  {
    hide InWords;
    var tombstones := 0;
    for s := 0 to |slots|
      invariant forall t ::
                  0 <= t < s
                  ==> (InWords(g.tombstones, t) <==> slots[t].tombstone) && slots[t].keyIndex < |keys|
      invariant tombstones == s - LiveCount(slots[..s])
    {
      if InWords(g.tombstones, s) != slots[s].tombstone {
        return Err(Misshapen("tombstone bitmap disagrees with slots"));
      }
      assert slots[..s + 1][..s] == slots[..s];
      tombstones := tombstones + if slots[s].tombstone then 1 else 0;
      if slots[s].keyIndex >= |keys| {
        return Err(Misshapen("slot key index"));
      }
    }
    assert slots[..|slots|] == slots;
    if tombstones != g.tombstoneCount {
      return Err(Misshapen("tombstone count"));
    }
    r := Ok(());
  }

  method ValidateKeys(keys: seq<(Bytes, nat)>, slots: seq<SlotRecord>) returns (r: Result<(), SnapError>)
    ensures r.Ok? <==> forall k :: 0 <= k < |keys| && keys[k].1 != NO_ENTRY ==>
      keys[k].1 < |slots| && !slots[keys[k].1].tombstone && slots[keys[k].1].keyIndex == k
  {
    for k := 0 to |keys|
      invariant forall i :: 0 <= i < k && keys[i].1 != NO_ENTRY ==>
        keys[i].1 < |slots| && !slots[keys[i].1].tombstone && slots[keys[i].1].keyIndex == i
    {
      var live := keys[k].1;
      if live == NO_ENTRY {
        continue;
      }
      if live >= |slots| {
        return Err(Misshapen("key slot out of range"));
      }
      if slots[live].tombstone || slots[live].keyIndex != k {
        return Err(Misshapen("key points to a slot it does not own"));
      }
    }
    r := Ok(());
  }

  /** `validate_structure`: accepts exactly the well-formed snapshots. */
  method ValidateStructure(p: Params, keys: seq<(Bytes, nat)>, slots: seq<SlotRecord>, g: GraphImage)
    returns (r: Result<(), SnapError>)
    requires |g.levels| == |g.level0Len| == |g.upper| == |g.upperLen| == |slots|
    requires |g.level0| == |slots| * p.m0 && forall s :: 0 <= s < |slots| ==> |g.upper[s]| == |g.upperLen[s]| * p.m
    ensures r.Ok? <==> WellFormed(p, keys, slots, g)
  {
    hide ListOk, UpperOk, InWords, LiveCount;
    r := ValidateLevel0(p, g, |slots|);
    if r.Err? {
      return;
    }
    for s := 0 to |slots|
      invariant forall t :: 0 <= t < s ==> g.levels[t] <= 31 && UpperOk(g.upper[t], g.upperLen[t], p.m, |slots|)
    {
      if g.levels[s] > 31 {
        return Err(Misshapen("level"));
      }
      r := ValidateUpper(p, g.upper[s], g.upperLen[s], |slots|);
      if r.Err? {
        return;
      }
    }
    if (g.entry.Some? && (g.entry.value >= |slots| || g.levels[g.entry.value] != g.maxLevel))
        || (g.entry.None? && |slots| != 0) {
      return Err(Misshapen("entry point"));
    }
    r := ValidateSlots(keys, slots, g);
    if r.Err? {
      return;
    }
    r := ValidateKeys(keys, slots);
  }
}
