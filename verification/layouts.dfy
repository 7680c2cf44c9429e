/** The byte layouts that the engine contract writes down for log and snapshot
    files, field by field, against what the encoders produce. */
module Layouts {
  import opened Words
  import opened WalCodec
  import opened WalSegment
  import S = SnapshotFile

  // ----- the log

  /** A segment starts with "DHWL", version 1, two reserved bytes, the id of
      the partition and the first sequence. */
  lemma SegmentHeaderLayout(id: PartitionId, first: nat)
    ensures var h := HeaderOf(id, first);
            && |h| == 32 && h[..4] == [0x44, 0x48, 0x57, 0x4C] && HoldsLe(h, 4, 2, 1) && h[6..8] == [0, 0]
            && h[8..24] == id && HoldsLe(h, 24, 8, first)
  {
    hide ToLe, HoldsLe;
    LeField(HeaderOf(id, first), 4, 2, 1);
    LeField(HeaderOf(id, first), 24, 8, first);
  }

  lemma BodyParts(e: Entry)
    ensures var b := Body(e);
            && |b| >= 24 && b[0..8] == ToLe(e.seqNo, 8) && b[8..24] == e.opId && b[24..] == OperationBytes(e.operation)
  {
    hide ToLe, OperationBytes;
  }

  lemma KeyParts(op: Operation)
    ensures var b, k := OperationBytes(op), |op.key|;
            && |b| >= 3 + k && b[0] == (if op.Upsert? then 1 else 2)
            && b[1..3] == ToLe(k, 2) && b[3..3 + k] == op.key
            && (op.Delete? ==> |b| == 3 + k)
  {
    hide ToLe, VectorBytes;
  }

  lemma RecordParts(op: Operation)
    requires op.Upsert?
    ensures var b, p, v := OperationBytes(op), 3 + |op.key|, 3 + |op.key| + 4 + |op.payload|;
            && |b| == v + 4 + 4 * |op.vector| && b[p..p + 4] == ToLe(|op.payload|, 4) && b[p + 4..v] == op.payload
            && b[v..v + 4] == ToLe(|op.vector|, 4) && b[v + 4..] == VectorBytes(op.vector)
  {
    hide ToLe, VectorBytes;
    var front := [1] + ToLe(|op.key|, 2) + op.key;
    var rest := ToLe(|op.payload|, 4) + (op.payload + (ToLe(|op.vector|, 4) + VectorBytes(op.vector)));
    assert OperationBytes(op) == front + rest;
  }

  lemma {:induction false} ComponentAt(v: Vector, i: nat)
    requires i < |v|
    ensures VectorBytes(v)[4 * i..4 * i + 4] == ToLe(v[i], 4)
  {
    hide ToLe;
    if i > 0 {
      ComponentAt(v[1..], i - 1);
      var rest := VectorBytes(v[1..]);
      assert VectorBytes(v) == ToLe(v[0], 4) + rest;
      assert VectorBytes(v)[4 * i..4 * i + 4] == rest[4 * (i - 1)..4 * (i - 1) + 4];
    }
  }

  /** A part of a part of a text. */
  lemma PartOf(b: Bytes, part: Bytes, at: nat, i: nat, j: nat)
    requires at + |part| <= |b| && b[at..at + |part|] == part && i <= j <= |part|
    ensures b[at + i..at + j] == part[i..j]
  {
    forall k | i <= k < j
      ensures b[at + k] == part[k]
    {
      assert b[at..at + |part|][k] == b[at + k];
    }
  }

  /** A frame begins with its length after that field, the checksum of what
      follows the two, the sequence and the operation id. */
  lemma FrameHeadLayout(crc: Checksum, e: Entry)
    ensures var f := FrameOf(crc, e);
            && |f| >= 32 && f[32..] == OperationBytes(e.operation)
            && HoldsLe(f, 0, 4, |f| - 4) && HoldsLe(f, 4, 4, crc(f[8..])) && HoldsLe(f, 8, 8, e.seqNo)
            && f[16..32] == e.opId
  {
    hide ToLe, HoldsLe, OperationBytes, Body, FrameOf;
    var f := FrameOf(crc, e);
    FrameParts(crc, e);
    BodyParts(e);
    assert f[0..4] == f[..4] && f[8..8 + |Body(e)|] == Body(e) == f[8..];
    PartOf(f, Body(e), 8, 0, 8);
    PartOf(f, Body(e), 8, 8, 24);
    PartOf(f, Body(e), 8, 24, |Body(e)|);
    LeField(f, 0, 4, |f| - 4);
    LeField(f, 4, 4, crc(f[8..]));
    LeField(f, 8, 8, e.seqNo);
  }

  /** Then comes 1 for an upsert or 2 for a delete, and the key behind its
      length; a delete ends there. */
  lemma FrameKeyLayout(crc: Checksum, e: Entry)
    ensures var f, k := FrameOf(crc, e), |e.operation.key|;
            && |f| >= 35 + k && f[32] == (if e.operation.Upsert? then 1 else 2)
            && HoldsLe(f, 33, 2, k) && f[35..35 + k] == e.operation.key && (e.operation.Delete? ==> |f| == 35 + k)
  {
    hide ToLe, HoldsLe, OperationBytes, FrameOf;
    var f, k := FrameOf(crc, e), |e.operation.key|;
    FrameHeadLayout(crc, e);
    KeyParts(e.operation);
    var rest := OperationBytes(e.operation);
    assert f[32] == f[32..][0];
    PartOf(f, rest, 32, 1, 3);
    PartOf(f, rest, 32, 3, 3 + k);
    LeField(f, 33, 2, k);
  }

  /** An upsert goes on with the payload behind its length, the number of
      dimensions and the components. */
  lemma FrameRecordLayout(crc: Checksum, e: Entry)
    requires e.operation.Upsert?
    ensures var f, op := FrameOf(crc, e), e.operation;
            var p, v := 35 + |op.key|, 35 + |op.key| + 4 + |op.payload|;
            && |f| == v + 4 + 4 * |op.vector|
            && HoldsLe(f, p, 4, |op.payload|) && f[p + 4..v] == op.payload && HoldsLe(f, v, 4, |op.vector|)
            && forall i: nat :: i < |op.vector| ==> HoldsLe(f, v + 4 + 4 * i, 4, op.vector[i])
  {
    hide ToLe, HoldsLe, OperationBytes, FrameOf, VectorBytes;
    var f, op := FrameOf(crc, e), e.operation;
    var q, u := 3 + |op.key|, 3 + |op.key| + 4 + |op.payload|;
    FrameHeadLayout(crc, e);
    RecordParts(op);
    var rest := OperationBytes(op);
    PartOf(f, rest, 32, q, q + 4);
    PartOf(f, rest, 32, q + 4, u);
    PartOf(f, rest, 32, u, u + 4);
    PartOf(f, rest, 32, u + 4, |rest|);
    LeField(f, 32 + q, 4, |op.payload|);
    LeField(f, 32 + u, 4, |op.vector|);
    forall i: nat | i < |op.vector|
      ensures HoldsLe(f, 32 + u + 4 + 4 * i, 4, op.vector[i])
    {
      ComponentAt(op.vector, i);
      PartOf(f, VectorBytes(op.vector), 32 + u + 4, 4 * i, 4 * i + 4);
      LeField(f, 32 + u + 4 + 4 * i, 4, op.vector[i]);
    }
  }

  // ----- the snapshot

  /** The 128 bytes at the head of a snapshot. */
  lemma SnapshotHeaderLayout(crc: Checksum, id: PartitionId, h: S.Header)
    ensures var b := S.HeaderBytes(crc, id, h);
            && |b| == 128 && b[..4] == [0x44, 0x48, 0x53, 0x4E] && HoldsLe(b, 4, 2, 1) && b[8..24] == id
            && HoldsLe(b, 24, 4, h.dims) && HoldsLe(b, 28, 1, h.metric) && HoldsLe(b, 29, 1, 1)
            && HoldsLe(b, 32, 8, h.high) && HoldsLe(b, 40, 4, h.slotCount) && HoldsLe(b, 44, 4, h.liveCount)
            && HoldsLe(b, 48, 4, h.keyCount) && HoldsLe(b, 52, 4, h.windowCount) && HoldsLe(b, 56, 4, h.sectionCount)
            && HoldsLe(b, 60, 8, h.tableOffset) && HoldsLe(b, 124, 4, crc(b[..124]))
  {
    hide ToLe, HoldsLe, S.IdentBytes, S.CountBytes;
    var b, ident, counts := S.HeaderBytes(crc, id, h), S.IdentBytes(id, h), S.CountBytes(h);
    var check := ToLe(crc(S.HeaderPrefix(id, h)), 4);
    IdentLayout(id, h, counts + S.Zeros(56) + check);
    CountLayout(ident, h, S.Zeros(56) + check);
    assert b == ident + (counts + S.Zeros(56) + check) == ident + (counts + (S.Zeros(56) + check));
    assert b[..124] == S.HeaderPrefix(id, h) && b[124..128] == check;
    LeField(b, 124, 4, crc(b[..124]));
  }

  lemma IdentLayout(id: PartitionId, h: S.Header, rest: Bytes)
    ensures var b := S.IdentBytes(id, h) + rest;
            && b[..4] == [0x44, 0x48, 0x53, 0x4E] && HoldsLe(b, 4, 2, 1) && b[8..24] == id
            && HoldsLe(b, 24, 4, h.dims) && HoldsLe(b, 28, 1, h.metric) && HoldsLe(b, 29, 1, 1)
  {
    hide ToLe, HoldsLe;
    var b := S.IdentBytes(id, h) + rest;
    LeField(b, 4, 2, 1);
    LeField(b, 24, 4, h.dims);
    LeField(b, 28, 1, h.metric);
    LeField(b, 29, 1, 1);
  }

  lemma CountLayout(ident: Bytes, h: S.Header, rest: Bytes)
    requires |ident| == 32
    ensures var b := ident + (S.CountBytes(h) + rest);
            && HoldsLe(b, 32, 8, h.high) && HoldsLe(b, 40, 4, h.slotCount) && HoldsLe(b, 44, 4, h.liveCount)
            && HoldsLe(b, 48, 4, h.keyCount) && HoldsLe(b, 52, 4, h.windowCount) && HoldsLe(b, 56, 4, h.sectionCount)
            && HoldsLe(b, 60, 8, h.tableOffset)
  {
    hide ToLe, HoldsLe;
    var b := ident + (S.CountBytes(h) + rest);
    LeField(b, 32, 8, h.high);
    LeField(b, 40, 4, h.slotCount);
    LeField(b, 44, 4, h.liveCount);
    LeField(b, 48, 4, h.keyCount);
    LeField(b, 52, 4, h.windowCount);
    LeField(b, 56, 4, h.sectionCount);
    LeField(b, 60, 8, h.tableOffset);
  }

  /** Row `i` of the section table: the kind, where the section is, how long it
      is, and its digest. */
  lemma TableRowLayout(hash: Bytes -> S.Digest, secs: seq<Bytes>, first: nat, i: nat)
    requires i < |secs|
    ensures var b := S.EntryBytes(S.EntryOf(hash, secs, first, i));
            && |b| == 52 && HoldsLe(b, 0, 2, i + 1) && HoldsLe(b, 4, 8, S.OffsetOf(secs, first, i))
            && HoldsLe(b, 12, 8, |secs[i]|) && b[20..52] == hash(secs[i])
  {
    hide ToLe, HoldsLe, S.OffsetOf;
    var b := S.EntryBytes(S.EntryOf(hash, secs, first, i));
    LeField(b, 0, 2, i + 1);
    LeField(b, 4, 8, S.OffsetOf(secs, first, i));
    LeField(b, 12, 8, |secs[i]|);
  }
}
