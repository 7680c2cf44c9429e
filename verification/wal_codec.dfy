/** WAL entries and frames (wal.rs): the byte format of one log entry, its
    decoder, and the frame parser. The checksum is any function of the bytes. */
module WalCodec {
  import opened Words

  type Checksum = Bytes -> u32
  type OpId = id: Bytes | |id| == 16 witness seq(16, _ => 0)

  const MAX_KEY_LEN := 512
  const MAX_PAYLOAD_LEN := 64 * 1024
  const MAX_DIMS := 65536
  const MIN_FRAME_LEN := 4 + 8 + 16 + 1 + 2 + 1
  const MAX_FRAME_LEN := 4 + 8 + 16 + 1 + 2 + MAX_KEY_LEN + 4 + MAX_PAYLOAD_LEN + 4 + 4 * MAX_DIMS

  datatype Operation = Upsert(key: Bytes, payload: Bytes, vector: Vector) | Delete(key: Bytes)

  datatype Entry = Entry(seqNo: nat, opId: OpId, operation: Operation)

  datatype WalError =
    | Malformed(what: string)
    | FieldTooLarge(what: string)
    | BadHeader(what: string)
    | UnsupportedVersion(version: nat)
    | WrongPartition(id: Bytes)
    | CorruptAt(offset: nat)
    | SequenceGap(expected: nat, found: nat)
    | Poisoned
    | Io

  // ----- vectors

  function VectorBytes(v: Vector): (r: Bytes)
    ensures |r| == 4 * |v|
  {
    if v == [] then [] else ToLe(v[0], 4) + VectorBytes(v[1..])
  }

  function BytesVector(b: Bytes): (v: Vector)
    ensures |v| == |b| / 4
  {
    if |b| < 4 then [] else
      Widths();
      ToLeFromLe(b[..4]);
      [FromLe(b[..4])] + BytesVector(b[4..])
  }

  lemma {:induction false} VectorRoundTrip(v: Vector)
    ensures BytesVector(VectorBytes(v)) == v
  {
    if v != [] {
      Widths();
      FromLeToLe(v[0], 4);
      VectorRoundTrip(v[1..]);
      assert VectorBytes(v)[..4] == ToLe(v[0], 4) && VectorBytes(v)[4..] == VectorBytes(v[1..]);
    }
  }

  lemma {:induction false} VectorReencode(b: Bytes)
    requires |b| % 4 == 0
    ensures VectorBytes(BytesVector(b)) == b
  {
    if b != [] {
      ToLeFromLe(b[..4]);
      VectorReencode(b[4..]);
      assert BytesVector(b)[1..] == BytesVector(b[4..]);
      assert b == b[..4] + b[4..];
    }
  }

  // ----- encoding

  predicate KeyOk(key: Bytes) {
    0 < |key| <= MAX_KEY_LEN
  }

  predicate Encodable(op: Operation) {
    && KeyOk(op.key)
    && (op.Upsert? ==> |op.payload| <= MAX_PAYLOAD_LEN && 0 < |op.vector| <= MAX_DIMS)
  }

  /** An entry the log can hold: its operation encodes and its sequence number
      is a `u64`. */
  predicate Storable(e: Entry) {
    Encodable(e.operation) && e.seqNo < 0x1_0000_0000_0000_0000
  }

  function OperationBytes(op: Operation): Bytes {
    match op
    case Upsert(key, payload, vector) =>
      [1] + (ToLe(|key|, 2) + (key + (ToLe(|payload|, 4) + (payload + (ToLe(|vector|, 4) + VectorBytes(vector))))))
    case Delete(key) =>
      [2] + (ToLe(|key|, 2) + key)
  }

  function Body(e: Entry): Bytes {
    ToLe(e.seqNo, 8) + (e.opId + OperationBytes(e.operation))
  }

  function FrameOf(crc: Checksum, e: Entry): Bytes {
    ToLe(|Body(e)| + 4, 4) + (ToLe(crc(Body(e)), 4) + Body(e))
  }

  /** `Entry::encode`: an invalid entry is refused before anything is written. */
  function Encode(crc: Checksum, e: Entry): Result<Bytes, WalError> {
    if !KeyOk(e.operation.key) then Err(FieldTooLarge("key"))
    else if e.operation.Upsert? && |e.operation.payload| > MAX_PAYLOAD_LEN then Err(FieldTooLarge("payload"))
    else if e.operation.Upsert?
        && (e.operation.vector == [] || |e.operation.vector| > MAX_DIMS) then Err(FieldTooLarge("vector"))
    else Ok(FrameOf(crc, e))
  }

  // ----- decoding

  /** What is left of the body after reading one field. */
  datatype Read<T> = Got(value: T, rest: Bytes) | Short

  function Take(b: Bytes, n: nat): Read<Bytes> {
    if |b| < n then Short else Got(b[..n], b[n..])
  }

  function TakeLe(b: Bytes, n: nat): Read<nat> {
    if |b| < n then Short else Got(FromLe(b[..n]), b[n..])
  }

  function Finish(seqNo: nat, opId: OpId, op: Operation, rest: Bytes): Result<Entry, WalError> {
    if rest != [] then Err(Malformed("trailing bytes in entry")) else Ok(Entry(seqNo, opId, op))
  }

  function DecodeVector(seqNo: nat, opId: OpId, key: Bytes, payload: Bytes, b: Bytes): Result<Entry, WalError> {
    match TakeLe(b, 4)
    case Short => Err(Malformed("truncated entry body"))
    case Got(dims, b1) =>
      if dims == 0 || dims > MAX_DIMS then Err(Malformed("vector length"))
      else match Take(b1, dims * 4)
        case Short => Err(Malformed("truncated entry body"))
        case Got(raw, b2) => Finish(seqNo, opId, Upsert(key, payload, BytesVector(raw)), b2)
  }

  function DecodeUpsert(seqNo: nat, opId: OpId, key: Bytes, b: Bytes): Result<Entry, WalError> {
    match TakeLe(b, 4)
    case Short => Err(Malformed("truncated entry body"))
    case Got(payloadLen, b1) =>
      if payloadLen > MAX_PAYLOAD_LEN then Err(Malformed("payload length"))
      else match Take(b1, payloadLen)
        case Short => Err(Malformed("truncated entry body"))
        case Got(payload, b2) => DecodeVector(seqNo, opId, key, payload, b2)
  }

  function DecodeKeyed(seqNo: nat, opId: OpId, code: nat, b: Bytes): Result<Entry, WalError> {
    match TakeLe(b, 2)
    case Short => Err(Malformed("truncated entry body"))
    case Got(keyLen, b1) =>
      match Take(b1, keyLen)
      case Short => Err(Malformed("truncated entry body"))
      case Got(key, b2) =>
        if !KeyOk(key) then Err(FieldTooLarge("key"))
        else if code == 1 then DecodeUpsert(seqNo, opId, key, b2)
        else if code == 2 then Finish(seqNo, opId, Delete(key), b2)
        else Err(Malformed("operation code"))
  }

  /** `Entry::decode`. */
  function Decode(b: Bytes): Result<Entry, WalError> {
    match TakeLe(b, 8)
    case Short => Err(Malformed("truncated entry body"))
    case Got(seqNo, b1) =>
      match Take(b1, 16)
      case Short => Err(Malformed("truncated entry body"))
      case Got(opId, b2) =>
        match TakeLe(b2, 1)
        case Short => Err(Malformed("truncated entry body"))
        case Got(code, b3) => DecodeKeyed(seqNo, opId, code, b3)
  }

  lemma TakeHead(a: Bytes, b: Bytes)
    ensures Take(a + b, |a|) == Got(a, b)
  {
    assert (a + b)[..|a|] == a && (a + b)[|a|..] == b;
  }

  lemma TakeLeHead(value: nat, n: nat, b: Bytes)
    requires value < Pow256(n)
    ensures TakeLe(ToLe(value, n) + b, n) == Got(value, b)
  {
    FromLeToLe(value, n);
    TakeHead(ToLe(value, n), b);
  }

  lemma TakeLeBack(b: Bytes, n: nat)
    requires |b| >= n
    ensures FromLe(b[..n]) < Pow256(n) && b == ToLe(FromLe(b[..n]), n) + b[n..]
  {
    ToLeFromLe(b[..n]);
  }

  lemma DecodeUpsertOfBytes(seqNo: nat, opId: OpId, key: Bytes, payload: Bytes, vector: Vector)
    requires |payload| <= MAX_PAYLOAD_LEN && 0 < |vector| <= MAX_DIMS
    ensures DecodeUpsert(seqNo, opId, key, ToLe(|payload|, 4) + (payload + (ToLe(|vector|, 4) + VectorBytes(vector))))
         == Ok(Entry(seqNo, opId, Upsert(key, payload, vector)))
  {
    Widths();
    var raw := VectorBytes(vector);
    TakeLeHead(|payload|, 4, payload + (ToLe(|vector|, 4) + raw));
    TakeHead(payload, ToLe(|vector|, 4) + raw);
    TakeLeHead(|vector|, 4, raw);
    TakeHead(raw, []);
    assert raw + [] == raw;
    VectorRoundTrip(vector);
  }

  lemma DecodeKeyedOfBytes(seqNo: nat, opId: OpId, op: Operation)
    requires Encodable(op)
    ensures OperationBytes(op)[0] == if op.Upsert? then 1 else 2
    ensures DecodeKeyed(seqNo, opId, OperationBytes(op)[0], OperationBytes(op)[1..]) == Ok(Entry(seqNo, opId, op))
  {
    Widths();
    match op
    case Upsert(key, payload, vector) =>
      var rest := ToLe(|payload|, 4) + (payload + (ToLe(|vector|, 4) + VectorBytes(vector)));
      assert OperationBytes(op)[1..] == ToLe(|key|, 2) + (key + rest);
      TakeLeHead(|key|, 2, key + rest);
      TakeHead(key, rest);
      DecodeUpsertOfBytes(seqNo, opId, key, payload, vector);
    case Delete(key) =>
      assert OperationBytes(op)[1..] == ToLe(|key|, 2) + key;
      TakeLeHead(|key|, 2, key);
      TakeHead(key, []);
      assert key + [] == key;
  }

  /** Decoding an encoded body gives the entry back. */
  lemma DecodeOfBody(e: Entry)
    requires Storable(e)
    ensures Decode(Body(e)) == Ok(e)
  {
    Widths();
    var op := OperationBytes(e.operation);
    TakeLeHead(e.seqNo, 8, e.opId + op);
    TakeHead(e.opId, op);
    assert op[..1] == [op[0]] && FromLe(op[1..][..0]) == 0;
    assert FromLe(op[..1]) == op[0];
    DecodeKeyedOfBytes(e.seqNo, e.opId, e.operation);
  }

  /** The tail of an upsert body, from the dimension count on. */
  lemma DecodeVectorBack(seqNo: nat, opId: OpId, key: Bytes, payload: Bytes, b: Bytes)
    requires DecodeVector(seqNo, opId, key, payload, b).Ok?
    ensures var v := BytesVector(b[4..]);
            && 0 < |v| <= MAX_DIMS && b == ToLe(|v|, 4) + VectorBytes(v)
            && DecodeVector(seqNo, opId, key, payload, b).value == Entry(seqNo, opId, Upsert(key, payload, v))
  {
    TakeLeBack(b, 4);
    var dims := FromLe(b[..4]);
    assert b[4..] == b[4..][..dims * 4];
    VectorReencode(b[4..]);
  }

  lemma DecodeUpsertBack(seqNo: nat, opId: OpId, key: Bytes, b: Bytes) returns (payload: Bytes, v: Vector)
    requires DecodeUpsert(seqNo, opId, key, b).Ok?
    ensures DecodeUpsert(seqNo, opId, key, b) == Ok(Entry(seqNo, opId, Upsert(key, payload, v)))
    ensures |payload| <= MAX_PAYLOAD_LEN && 0 < |v| <= MAX_DIMS
    ensures b == ToLe(|payload|, 4) + (payload + (ToLe(|v|, 4) + VectorBytes(v)))
  {
    TakeLeBack(b, 4);
    var b1 := b[4..];
    payload := b1[..FromLe(b[..4])];
    var b2 := b1[|payload|..];
    assert DecodeUpsert(seqNo, opId, key, b) == DecodeVector(seqNo, opId, key, payload, b2);
    DecodeVectorBack(seqNo, opId, key, payload, b2);
    v := BytesVector(b2[4..]);
    JoinFields(b, |payload|, b1, payload, b2, ToLe(|v|, 4) + VectorBytes(v));
  }

  lemma JoinFields(b: Bytes, len: nat, b1: Bytes, field: Bytes, b2: Bytes, tail: Bytes)
    requires b == ToLe(len, 4) + b1 && |field| <= |b1| && field == b1[..|field|] && b2 == b1[|field|..] && b2 == tail
    ensures b == ToLe(len, 4) + (field + tail)
  {
    assert b1 == field + tail;
  }

  lemma DecodeKeyedBack(seqNo: nat, opId: OpId, code: byte, b: Bytes)
    requires DecodeKeyed(seqNo, opId, code, b).Ok?
    ensures var e := DecodeKeyed(seqNo, opId, code, b).value;
            e.seqNo == seqNo && e.opId == opId && Encodable(e.operation) && OperationBytes(e.operation) == [code] + b
  {
    TakeLeBack(b, 2);
    var b1 := b[2..];
    var key := b1[..FromLe(b[..2])];
    var b2 := b1[|key|..];
    assert b1 == key + b2;
    if code == 1 {
      var payload, v := DecodeUpsertBack(seqNo, opId, key, b2);
    } else {
      assert b2 == [] && b1 == key;
    }
  }

  /** A body that decodes is exactly the encoding of what it decodes to. */
  lemma BodyOfDecode(b: Bytes)
    requires Decode(b).Ok?
    ensures Storable(Decode(b).value) && Body(Decode(b).value) == b
  {
    Widths();
    TakeLeBack(b, 8);
    var b1 := b[8..];
    assert b1 == b1[..16] + b1[16..];
    var b2 := b1[16..];
    assert b2 == [b2[0]] + b2[1..] && b2[..1] == [b2[0]];
    assert FromLe(b2[..1]) == b2[0] + 256 * FromLe(b2[..1][1..]) == b2[0];
    DecodeKeyedBack(FromLe(b[..8]), b1[..16], b2[0], b2[1..]);
  }

  // ----- frames

  datatype Parsed = Frame(entry: Entry, consumed: nat) | Unreadable(reason: string) | Corrupt(error: WalError)

  /** The `len` field, when it lies in the legal range. */
  function FrameLen(b: Bytes): Option<nat> {
    if |b| < 4 then None
    else
      var len := FromLe(b[..4]);
      if MIN_FRAME_LEN <= len <= MAX_FRAME_LEN then Some(len) else None
  }

  /** A complete frame whose checksum matches starts the bytes. */
  predicate FrameValid(crc: Checksum, b: Bytes) {
    && |b| >= 8
    && FrameLen(b).Some?
    && |b| >= 4 + FrameLen(b).value
    && crc(b[8..4 + FrameLen(b).value]) == FromLe(b[4..8])
  }

  function ParseEntry(crc: Checksum, b: Bytes): (r: Parsed)
    ensures r.Frame? ==> 8 < r.consumed <= |b|
  {
    if |b| < 8 then Unreadable("short frame")
    else match FrameLen(b)
      case None => Unreadable("frame length out of range")
      case Some(len) =>
        if |b| < 4 + len then Unreadable("frame runs past the end of the segment")
        else if crc(b[8..4 + len]) != FromLe(b[4..8]) then Unreadable("crc mismatch")
        else match Decode(b[8..4 + len])
          case Ok(entry) => Frame(entry, 4 + len)
          case Err(error) => Corrupt(error)
  }

  lemma FrameSize(crc: Checksum, e: Entry)
    requires Storable(e)
    ensures MIN_FRAME_LEN <= |Body(e)| + 4 <= MAX_FRAME_LEN
    ensures |FrameOf(crc, e)| == |Body(e)| + 8
  {
  }

  lemma SliceOfPrefix(b: Bytes, f: Bytes, n: nat, i: nat, j: nat)
    requires i <= j <= n <= |f| && n <= |b| && b[..n] == f[..n]
    ensures b[i..j] == f[i..j]
  {
    assert b[..n][i..j] == b[i..j] && f[..n][i..j] == f[i..j];
  }

  lemma FrameParts(crc: Checksum, e: Entry)
    ensures var f := FrameOf(crc, e);
            |f| == |Body(e)| + 8
            && f[..4] == ToLe(|Body(e)| + 4, 4) && f[4..8] == ToLe(crc(Body(e)), 4) && f[8..] == Body(e)
  {
  }

  /** The fields of a frame, wherever it is cut after them. */
  lemma FrameFields(crc: Checksum, e: Entry, b: Bytes, n: nat)
    requires Storable(e) && 8 <= n <= |FrameOf(crc, e)| && n <= |b| && b[..n] == FrameOf(crc, e)[..n]
    ensures FrameLen(b) == Some(|Body(e)| + 4)
    ensures FromLe(b[4..8]) == crc(Body(e))
    ensures b[8..n] == Body(e)[..n - 8]
  {
    Widths();
    FrameSize(crc, e);
    FrameParts(crc, e);
    var f := FrameOf(crc, e);
    SliceOfPrefix(b, f, n, 0, 4);
    SliceOfPrefix(b, f, n, 4, 8);
    SliceOfPrefix(b, f, n, 8, n);
    assert f[8..n] == f[8..][..n - 8];
    FromLeToLe(|Body(e)| + 4, 4);
    FromLeToLe(crc(Body(e)), 4);
  }

  /** An encoded frame parses back, whatever follows it. */
  lemma ParseFrame(crc: Checksum, e: Entry, rest: Bytes)
    requires Storable(e)
    ensures ParseEntry(crc, FrameOf(crc, e) + rest) == Frame(e, |FrameOf(crc, e)|)
  {
    var b := FrameOf(crc, e) + rest;
    var n := |FrameOf(crc, e)|;
    FrameSize(crc, e);
    assert b[..n] == FrameOf(crc, e) == FrameOf(crc, e)[..n];
    FrameFields(crc, e, b, n);
    assert b[8..n] == Body(e);
    DecodeOfBody(e);
  }

  /** A frame cut short never parses. */
  lemma ParseCutFrame(crc: Checksum, e: Entry, n: nat)
    requires Storable(e) && n < |FrameOf(crc, e)|
    ensures ParseEntry(crc, FrameOf(crc, e)[..n]).Unreadable?
  {
    var b := FrameOf(crc, e)[..n];
    if n >= 8 {
      FrameSize(crc, e);
      assert b[..n] == FrameOf(crc, e)[..n];
      FrameFields(crc, e, b, n);
    }
  }

  /** What parses is exactly the bytes of the frame it parsed to. */
  lemma ParseReencode(crc: Checksum, b: Bytes)
    requires ParseEntry(crc, b).Frame?
    ensures var p := ParseEntry(crc, b);
            Storable(p.entry) && p.consumed <= |b| && b[..p.consumed] == FrameOf(crc, p.entry)
  {
    hide Decode, Body, FrameOf, Storable, ParseEntry;
    ParseShape(crc, b);
    var p := ParseEntry(crc, b);
    BodyOfDecode(b[8..p.consumed]);
    FrameBack(crc, b, p.consumed, p.entry);
  }

  lemma ParseShape(crc: Checksum, b: Bytes)
    requires ParseEntry(crc, b).Frame?
    ensures var p := ParseEntry(crc, b);
            && 8 <= p.consumed <= |b| && p.consumed == 4 + FromLe(b[..4])
            && crc(b[8..p.consumed]) == FromLe(b[4..8]) && Decode(b[8..p.consumed]) == Ok(p.entry)
  {
    hide Decode;
  }

  lemma FrameBack(crc: Checksum, b: Bytes, n: nat, e: Entry)
    requires 8 <= n <= |b| && n == 4 + FromLe(b[..4]) && b[8..n] == Body(e) && FromLe(b[4..8]) == crc(Body(e))
    ensures b[..n] == FrameOf(crc, e)
  {
    ToLeFromLe(b[..4]);
    ToLeFromLe(b[4..8]);
    Rejoin(b, n);
    assert |Body(e)| + 4 == FromLe(b[..4]);
  }

  lemma Rejoin(b: Bytes, n: nat)
    requires 8 <= n <= |b|
    ensures b[..n] == b[..4] + (b[4..8] + b[8..n])
  {
  }

  /** A frame the parser accepts, or calls corrupt, has a matching checksum. */
  lemma ParseValid(crc: Checksum, b: Bytes)
    ensures ParseEntry(crc, b).Unreadable? <==> !FrameValid(crc, b)
  {
  }
}
