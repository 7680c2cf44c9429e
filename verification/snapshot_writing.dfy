/** What a partition freezes into a snapshot, and that the loader's cross-check
    accepts it. */
module SnapshotWriting {
  import opened Words
  import opened WalCodec
  import opened LogFold
  import opened PartitionState
  import opened Bits
  import opened FlatRows
  import opened SnapshotCodec
  import opened SnapshotGraph
  import opened SnapshotFile
  import Graph
  import Hnsw
  import opened Partitions

  /** Each key with its live slot, or the mark for none. */
  function KeyList(keyTable: seq<Bytes>, keys: map<Bytes, KeyEntry>): (r: seq<(Bytes, nat)>)
    ensures |r| == |keyTable|
  {
    seq(|keyTable|, i requires 0 <= i < |keyTable| =>
      (keyTable[i], if keyTable[i] in keys && keys[keyTable[i]].live.Some? then keys[keyTable[i]].live.value
       else NO_ENTRY))
  }

  /** The arrays of the graph as a snapshot borrows them. */
  function GraphParts(index: Hnsw.Index): GraphImage
    reads index
  {
    GraphImage(index.levels, index.level0, index.level0Len, index.upper, index.upperLen,
               index.tombstones, index.tombstoneCount, index.entry, index.maxLevel)
  }

  lemma {:induction false} CountDead(slots: seq<SlotRecord>, dead: set<nat>)
    requires forall s :: s in dead <==> 0 <= s < |slots| && slots[s].tombstone
    ensures |dead| == |slots| - LiveCount(slots)
    decreases |slots|
  {
    if slots == [] {
      assert dead == {};
    } else {
      var n := |slots| - 1;
      var rest := dead - {n};
      CountDead(slots[..n], rest);
      if slots[n].tombstone {
        assert dead == rest + {n};
      } else {
        assert dead == rest;
      }
    }
  }

  lemma KeysOwn(m: Mem)
    requires RepOk(m) && |m.slots| <= NO_ENTRY
    ensures var keys := KeyList(m.keyTable, m.keys);
            forall k :: 0 <= k < |keys| && keys[k].1 != NO_ENTRY ==>
              keys[k].1 < |m.slots| && !m.slots[keys[k].1].tombstone && m.slots[keys[k].1].keyIndex == k
  {
    forall k | 0 <= k < |m.keyTable|
      ensures OwnsSlot(m, m.keyTable[k]) && m.keys[m.keyTable[k]].index == k
    {
    }
  }

  lemma SlotsAgree(m: Mem, words: seq<bv64>, count: nat)
    requires RepOk(m) && Holds(words, m.dead) && count == |m.dead|
    ensures forall s ::
              0 <= s < |m.slots|
              ==> (InWords(words, s) <==> m.slots[s].tombstone) && m.slots[s].keyIndex < |m.keyTable|
    ensures |m.slots| - LiveCount(m.slots) == count
  {
    forall s | 0 <= s < |m.slots|
      ensures s in m.dead <==> m.slots[s].tombstone
    {
      assert SlotOk(m, s);
    }
    CountDead(m.slots, m.dead);
  }

  lemma RowInRange(flat: seq<nat>, stride: nat, row: nat, list: seq<nat>, count: nat)
    requires FlatRows.RowAt(flat, stride, row, list) && forall t :: t in list ==> t < count
    ensures ListOk(flat, row * stride, |list|, stride, count)
  {
    forall j | row * stride <= j < row * stride + |list|
      ensures flat[j] < count
    {
      assert flat[row * stride..row * stride + |list|][j - row * stride] == flat[j];
      assert list[j - row * stride] in list;
    }
  }

  lemma TargetsInGraph(g: Graph.Links, s: nat, l: nat)
    requires Graph.Closed(g) && Graph.OnLevel(g, s, l)
    ensures forall t :: t in g[s][l] ==> t < |g|
  {
    forall t | t in g[s][l]
      ensures t < |g|
    {
      assert Graph.OnLevel(g, t, l);
    }
  }

  lemma BaseInRange(flat: seq<nat>, lens: seq<nat>, m0: nat, g: Graph.Links, s: nat)
    requires BaseHolds(flat, lens, m0, g) && Graph.Closed(g) && s < |g|
    ensures |lens| == |g| && ListOk(flat, s * m0, lens[s], m0, |g|)
  {
    hide Graph.Closed;
    assert g[s] != [];
    TargetsInGraph(g, s, 0);
    RowInRange(flat, m0, s, g[s][0], |g|);
  }

  lemma UpperInRange(flat: seq<nat>, lens: seq<nat>, m: nat, level: nat, g: Graph.Links, s: nat)
    requires s < |g| && UpperHolds(flat, lens, m, level, g[s]) && Graph.Closed(g)
    ensures UpperOk(flat, lens, m, |g|)
  {
    hide Graph.Closed;
    forall l | 0 <= l < |lens|
      ensures ListOk(flat, l * m, lens[l], m, |g|)
    {
      TargetsInGraph(g, s, l + 1);
      assert FlatRows.RowAt(flat, m, l + 1 - 1, g[s][l + 1]);
      RowInRange(flat, m, l, g[s][l + 1], |g|);
    }
  }

  /** Every list of a closed graph is in range, at every level. */
  lemma ListsInRange(index: Hnsw.Index)
    requires index.Valid()
    ensures |index.levels| == |index.level0Len| == |index.upper| == |index.upperLen|
    ensures forall s :: 0 <= s < |index.levels| ==>
      ListOk(index.level0, s * index.m0, index.level0Len[s], index.m0, |index.levels|)
      && UpperOk(index.upper[s], index.upperLen[s], index.m, |index.levels|)
  {
    hide BaseHolds, UpperHolds, Graph.Closed, ListOk, UpperOk;
    FlatParts(index);
    forall s | 0 <= s < |index.levels|
      ensures ListOk(index.level0, s * index.m0, index.level0Len[s], index.m0, |index.levels|)
              && UpperOk(index.upper[s], index.upperLen[s], index.m, |index.levels|)
    {
      BaseInRange(index.level0, index.level0Len, index.m0, index.links, s);
      UpperInRange(index.upper[s], index.upperLen[s], index.m, index.levels[s], index.links, s);
    }
  }

  lemma FlatParts(index: Hnsw.Index)
    requires index.Valid()
    ensures |index.levels| == |index.level0Len| == |index.upper| == |index.upperLen| == |index.links|
    ensures BaseHolds(index.level0, index.level0Len, index.m0, index.links)
    ensures forall s :: 0 <= s < |index.levels| ==>
      UpperHolds(index.upper[s], index.upperLen[s], index.m, index.levels[s], index.links[s])
  {
    hide UpperHolds;
  }

  /** Every snapshot a valid partition writes passes the loader's cross-check:
      no list leaves the graph, bits, flags and counts of tombstones agree, and
      every key points at a live slot of its own. */
  lemma WrittenIsWellFormed(p: Partition, params: Params)
    requires p.Valid() && params.m == p.index.m && params.m0 == p.index.m0 && |p.slots| <= NO_ENTRY
    requires forall s :: 0 <= s < |p.index.levels| ==> p.index.levels[s] <= 31
    ensures |p.index.levels| == |p.index.level0Len| == |p.index.upper| == |p.index.upperLen| == |p.slots|
    ensures WellFormed(params, KeyList(p.keyTable, p.keys), p.slots, GraphParts(p.index))
  {
    hide RepOk, ListOk, UpperOk, LiveCount, InWords, FlatHolds, Graph.Closed, RowsBelow;
    var m := p.State();
    RowPerSlot(m);
    KeysOwn(m);
    SlotsAgree(m, p.index.tombstones, p.index.tombstoneCount);
    ListsInRange(p.index);
  }

  // ----- a partition through its snapshot

  /** The image of a partition. `quantized` holds its int8 copies, `ef` and
      `seed` are graph parameters, `metric` its code. */
  function ImageOf(p: Partition, metric: nat, seed: nat, quantized: Codes): Image
    reads p, p.index, p.idempotency
  {
    Image(p.cfg.id, p.cfg.dims, metric, Params(p.index.m, p.index.m0, p.index.efConstruction, seed), p.highWater,
          KeyList(p.keyTable, p.keys), p.slots, p.index.vectors, quantized, GraphParts(p.index),
          WindowPairs(p.idempotency.order, p.idempotency.seqs))
  }

  function WindowPairs(order: seq<OpId>, seqs: map<OpId, nat>): Window {
    seq(|order|, i requires 0 <= i < |order| => (order[i], if order[i] in seqs then seqs[order[i]] else 0))
  }

  /** The key map the recovery loop builds from the first `n` saved keys. */
  function RestoredKeys(keys: seq<(Bytes, nat)>, n: nat): map<Bytes, KeyEntry>
    requires n <= |keys|
  {
    if n == 0 then map[]
    else
      var entry := KeyEntry(n - 1, if keys[n - 1].1 != NO_ENTRY then Some(keys[n - 1].1) else None);
      RestoredKeys(keys, n - 1)[keys[n - 1].0 := entry]
  }

  /** The state recovery makes of a loaded image. */
  function RestoredMem(x: Image, capacity: nat): Mem {
    Mem(x.vectors, set s: nat | s < |x.slots| && InWords(x.graph.tombstones, s),
        seq(|x.keys|, i requires 0 <= i < |x.keys| => x.keys[i].0), RestoredKeys(x.keys, |x.keys|), x.slots,
        RecordAll([], capacity, x.window), x.high)
  }

  lemma {:induction false} KeysRestored(m: Mem, n: nat)
    requires RepOk(m) && |m.slots| <= NO_ENTRY && n <= |m.keyTable|
    ensures var r := RestoredKeys(KeyList(m.keyTable, m.keys), n);
            && (forall k :: k in r <==> exists i :: 0 <= i < n && m.keyTable[i] == k)
            && (forall k :: k in r ==> k in m.keys && r[k] == m.keys[k])
  {
    hide RepOk;
    if n > 0 {
      KeysRestored(m, n - 1);
      SavedKey(m, n - 1);
    }
  }

  lemma SavedKey(m: Mem, i: nat)
    requires RepOk(m) && |m.slots| <= NO_ENTRY && i < |m.keyTable|
    ensures var keys := KeyList(m.keyTable, m.keys);
            && |keys| == |m.keyTable| && keys[i].0 == m.keyTable[i] && keys[i].0 in m.keys
            && m.keys[keys[i].0] == KeyEntry(i, if keys[i].1 != NO_ENTRY then Some(keys[i].1) else None)
  {
    assert OwnsSlot(m, m.keyTable[i]);
  }

  lemma AllKeysRestored(m: Mem)
    requires RepOk(m) && |m.slots| <= NO_ENTRY
    ensures RestoredKeys(KeyList(m.keyTable, m.keys), |m.keyTable|) == m.keys
  {
    KeysRestored(m, |m.keyTable|);
    var r := RestoredKeys(KeyList(m.keyTable, m.keys), |m.keyTable|);
    forall k | k in m.keys
      ensures k in r
    {
      assert m.keyTable[m.keys[k].index] == k;
    }
  }

  /** Encoding a partition's image and loading it gives back the state the
      partition had: rows, tombstones, key table, key map, slots and window. */
  lemma SnapshotRestoresPartition(p: Partition, crc: Checksum, hash: Bytes -> Digest, metric: nat, seed: nat,
                                  quantized: Codes)
    requires p.Valid() && 0 < p.cfg.capacity && |p.slots| <= NO_ENTRY
    requires forall s :: 0 <= s < |p.index.levels| ==> p.index.levels[s] <= 31
    requires ImageFits(ImageOf(p, metric, seed, quantized))
    ensures |p.index.upperLen| == |p.index.upper| == |p.index.levels|
    ensures var x := ImageOf(p, metric, seed, quantized);
            FileFits(x) ==>
              && EncodeImage(crc, hash, x).Ok?
              && Load(crc, hash, EncodeImage(crc, hash, x).value, p.cfg.id) == Ok(x)
              && RestoredMem(x, p.cfg.capacity) == p.State()
  {
    hide RepOk, WellFormed, ImageFits, FileFits, EncodeImage, Load, FlatHolds, Graph.Closed, RestoredKeys, InWords;
    var x := ImageOf(p, metric, seed, quantized);
    WrittenIsWellFormed(p, x.params);
    Shapes(x);
    if FileFits(x) {
      LoadOfEncode(crc, hash, x);
      RestoredIsState(p, x);
    }
  }

  lemma RestoredIsState(p: Partition, x: Image)
    requires p.Valid() && 0 < p.cfg.capacity && |p.slots| <= NO_ENTRY
    requires x.vectors == p.index.vectors && x.slots == p.slots && x.high == p.highWater
    requires x.keys == KeyList(p.keyTable, p.keys) && x.graph.tombstones == p.index.tombstones
    requires x.window == WindowPairs(p.idempotency.order, p.idempotency.seqs)
    ensures RestoredMem(x, p.cfg.capacity) == p.State()
  {
    hide RepOk, FlatHolds, Graph.Closed, RestoredKeys, LiveCount, InWords;
    var m := p.State();
    AllKeysRestored(m);
    SlotsAgree(m, p.index.tombstones, p.index.tombstoneCount);
    DeadAreTombstoned(m);
    assert x.window == m.window;
    WindowIsOk(p);
    RecordAllRebuilds(p.cfg.capacity, m.window);
    assert seq(|x.keys|, i requires 0 <= i < |x.keys| => x.keys[i].0) == m.keyTable;
  }

  lemma WindowIsOk(p: Partition)
    requires p.idempotency.Valid() && p.idempotency.capacity == p.cfg.capacity
    ensures WindowOk(p.idempotency.Contents(), p.cfg.capacity)
  {
  }
}
