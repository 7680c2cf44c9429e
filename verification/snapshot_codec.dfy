/** The seven sections of a snapshot file (snapshot.rs): how each is written
    and how the loader's cursor reads it back. */
module SnapshotCodec {
  import opened Words
  import opened WalCodec
  import opened LogFold
  import opened PartitionState

  /** What disagreed. */
  datatype SnapError =
    | HeaderCrc
    | BadMagic
    | BadVersion(found: nat)
    | OtherPartition(owner: Bytes)
    | FooterHash
    | SectionHash(kind: nat)
    | MissingSection(kind: nat)
    | Misshapen(what: string)
    | Inconsistent(what: string)

  datatype Params = Params(m: nat, m0: nat, ef: nat, seed: nat)

  /** The graph arrays of `GraphParts`. */
  datatype GraphImage = GraphImage(
    levels: seq<nat>, level0: seq<nat>, level0Len: seq<nat>, upper: seq<seq<nat>>, upperLen: seq<seq<nat>>,
    tombstones: seq<bv64>, tombstoneCount: nat, entry: Option<nat>, maxLevel: nat)

  // ----- little-endian words

  function LeWords(values: seq<nat>, n: nat): (r: Bytes)
    ensures |r| == |values| * n
  {
    if values == [] then [] else ToLe(values[0], n) + LeWords(values[1..], n)
  }

  function ReadWords(b: Bytes, count: nat, n: nat): Read<seq<nat>>
    decreases count
  {
    if count == 0 then Got([], b)
    else match TakeLe(b, n)
      case Short => Short
      case Got(v, rest) =>
        match ReadWords(rest, count - 1, n)
        case Short => Short
        case Got(vs, left) => Got([v] + vs, left)
  }

  ghost predicate Fit(values: seq<nat>, n: nat) {
    forall i :: 0 <= i < |values| ==> values[i] < Pow256(n)
  }

  lemma {:induction false} WordsTrip(values: seq<nat>, n: nat, rest: Bytes)
    requires Fit(values, n)
    ensures ReadWords(LeWords(values, n) + rest, |values|, n) == Got(values, rest)
    decreases |values|
  {
    if values == [] {
      assert LeWords(values, n) + rest == rest;
    } else {
      assert LeWords(values, n) + rest == ToLe(values[0], n) + (LeWords(values[1..], n) + rest);
      TakeLeHead(values[0], n, LeWords(values[1..], n) + rest);
      WordsTrip(values[1..], n, rest);
      assert values == [values[0]] + values[1..];
    }
  }

  // ----- keys

  function KeysSection(keys: seq<(Bytes, nat)>): Bytes {
    if keys == [] then []
    else ToLe(|keys[0].0|, 2) + (keys[0].0 + (ToLe(keys[0].1, 4) + KeysSection(keys[1..])))
  }

  function ReadKeys(b: Bytes, count: nat): Result<(seq<(Bytes, nat)>, Bytes), SnapError>
    decreases count
  {
    if count == 0 then Ok(([], b))
    else match TakeLe(b, 2)
      case Short => Err(Misshapen("key length"))
      case Got(len, b1) =>
        match Take(b1, len)
        case Short => Err(Misshapen("key"))
        case Got(key, b2) =>
          match TakeLe(b2, 4)
          case Short => Err(Misshapen("key slot"))
          case Got(slot, b3) =>
            match ReadKeys(b3, count - 1)
            case Err(error) => Err(error)
            case Ok((keys, rest)) => Ok(([(key, slot)] + keys, rest))
  }

  ghost predicate KeysFit(keys: seq<(Bytes, nat)>) {
    forall i :: 0 <= i < |keys| ==> 0 < |keys[i].0| < 0x1_0000 && keys[i].1 < 0x1_0000_0000
  }

  lemma {:induction false} KeysTrip(keys: seq<(Bytes, nat)>)
    requires KeysFit(keys)
    ensures ReadKeys(KeysSection(keys), |keys|) == Ok((keys, []))
    decreases |keys|
  {
    if keys != [] {
      Widths();
      var (key, slot) := keys[0];
      var more := KeysSection(keys[1..]);
      TakeLeHead(|key|, 2, key + (ToLe(slot, 4) + more));
      TakeHead(key, ToLe(slot, 4) + more);
      TakeLeHead(slot, 4, more);
      KeysTrip(keys[1..]);
      assert keys == [(key, slot)] + keys[1..];
    }
  }

  // ----- slots and payloads

  function Flag(b: bool): Bytes {
    [if b then 1 else 0]
  }

  /** Records with their payload offsets; `offset` accumulates. */
  function SlotsSection(slots: seq<SlotRecord>, offset: nat): Bytes
    decreases |slots|
  {
    if slots == [] then []
    else ToLe(slots[0].version, 8) + (Flag(slots[0].tombstone) + (ToLe(slots[0].keyIndex, 4) + (ToLe(offset, 8)
         + (ToLe(|slots[0].payload|, 4) + SlotsSection(slots[1..], offset + |slots[0].payload|)))))
  }

  function PayloadsSection(slots: seq<SlotRecord>): Bytes {
    if slots == [] then [] else slots[0].payload + PayloadsSection(slots[1..])
  }

  /** One record of the slots section: version, flag, key index, offset, length. */
  datatype RawSlot = RawSlot(version: nat, tombstone: bool, keyIndex: nat, offset: nat, len: nat)

  function ReadRaw(b: Bytes): Result<(RawSlot, Bytes), SnapError> {
    match TakeLe(b, 8)
    case Short => Err(Misshapen("slot version"))
    case Got(version, b1) =>
      match TakeLe(b1, 1)
      case Short => Err(Misshapen("tombstone"))
      case Got(flag, b2) =>
        if flag > 1 then Err(Misshapen("tombstone flag"))
        else match TakeLe(b2, 4)
          case Short => Err(Misshapen("key index"))
          case Got(keyIndex, b3) =>
            match TakeLe(b3, 8)
            case Short => Err(Misshapen("payload offset"))
            case Got(offset, b4) =>
              match TakeLe(b4, 4)
              case Short => Err(Misshapen("payload length"))
              case Got(len, b5) => Ok((RawSlot(version, flag == 1, keyIndex, offset, len), b5))
  }

  function ReadSlots(b: Bytes, count: nat, payloads: Bytes): Result<(seq<SlotRecord>, Bytes), SnapError>
    decreases count
  {
    if count == 0 then Ok(([], b))
    else match ReadRaw(b)
      case Err(error) => Err(error)
      case Ok((raw, rest)) =>
        if raw.offset + raw.len > |payloads| then Err(Misshapen("payload bounds"))
        else match ReadSlots(rest, count - 1, payloads)
          case Err(error) => Err(error)
          case Ok((slots, left)) =>
            Ok(([SlotRecord(raw.version, raw.tombstone, raw.keyIndex,
                            payloads[raw.offset..raw.offset + raw.len])] + slots, left))
  }

  ghost predicate SlotFits(r: SlotRecord) {
    r.version < 0x1_0000_0000_0000_0000 && r.keyIndex < 0x1_0000_0000 && |r.payload| < 0x1_0000_0000
  }

  ghost predicate SlotsFit(slots: seq<SlotRecord>) {
    forall i :: 0 <= i < |slots| ==> SlotFits(slots[i])
  }

  lemma RawTrip(r: SlotRecord, offset: nat, more: Bytes)
    requires SlotFits(r) && offset < 0x1_0000_0000_0000_0000
    ensures ReadRaw(ToLe(r.version, 8) + (Flag(r.tombstone) + (ToLe(r.keyIndex, 4)
                    + (ToLe(offset, 8) + (ToLe(|r.payload|, 4) + more)))))
         == Ok((RawSlot(r.version, r.tombstone, r.keyIndex, offset, |r.payload|), more))
  {
    hide ToLe, FromLe;
    Widths();
    var b4 := ToLe(|r.payload|, 4) + more;
    var b3 := ToLe(offset, 8) + b4;
    var b2 := ToLe(r.keyIndex, 4) + b3;
    var b1 := Flag(r.tombstone) + b2;
    TakeLeHead(r.version, 8, b1);
    FlagTrip(r.tombstone, b2);
    TakeLeHead(r.keyIndex, 4, b3);
    TakeLeHead(offset, 8, b4);
    TakeLeHead(|r.payload|, 4, more);
  }

  lemma FlagTrip(flag: bool, rest: Bytes)
    ensures TakeLe(Flag(flag) + rest, 1) == Got(if flag then 1 else 0, rest)
  {
    TakeHead(Flag(flag), rest);
    assert Flag(flag)[1..] == [];
    assert FromLe([]) == 0;
  }

  /** Every payload comes back through its accumulated offset. */
  lemma {:induction false} SlotsTrip(slots: seq<SlotRecord>, before: Bytes, payloads: Bytes)
    requires SlotsFit(slots) && payloads == before + PayloadsSection(slots) && |payloads| < 0x1_0000_0000_0000_0000
    ensures ReadSlots(SlotsSection(slots, |before|), |slots|, payloads) == Ok((slots, []))
    decreases |slots|
  {
    hide ReadRaw, ToLe, FromLe;
    if slots != [] {
      var r, more := slots[0], slots[1..];
      assert SlotFits(slots[0]);
      RawTrip(r, |before|, SlotsSection(more, |before| + |r.payload|));
      assert payloads == (before + r.payload) + PayloadsSection(more);
      assert payloads[|before|..|before| + |r.payload|] == r.payload;
      SlotsTrip(more, before + r.payload, payloads);
      assert slots == [r] + more;
    }
  }

  // ----- vectors

  function RowsSection(rows: seq<Vector>): Bytes {
    if rows == [] then [] else VectorBytes(rows[0]) + RowsSection(rows[1..])
  }

  /** Bytes of `count` rows of `dims` words. */
  function RowBytes(count: nat, dims: nat): nat {
    if count == 0 then 0 else dims * 4 + RowBytes(count - 1, dims)
  }

  /** Rows of `dims` words served from the section. */
  function ReadRows(b: Bytes, count: nat, dims: nat): seq<Vector>
    requires |b| == RowBytes(count, dims)
    decreases count
  {
    if count == 0 then []
    else [BytesVector(b[..dims * 4])] + ReadRows(b[dims * 4..], count - 1, dims)
  }

  lemma {:induction false} RowsTrip(rows: seq<Vector>, dims: nat)
    requires forall i :: 0 <= i < |rows| ==> |rows[i]| == dims
    ensures |RowsSection(rows)| == RowBytes(|rows|, dims) && ReadRows(RowsSection(rows), |rows|, dims) == rows
    decreases |rows|
  {
    if rows != [] {
      hide VectorBytes, BytesVector;
      var more := RowsSection(rows[1..]);
      RowsTrip(rows[1..], dims);
      VectorRoundTrip(rows[0]);
      TakeHead(VectorBytes(rows[0]), more);
      assert rows == [rows[0]] + rows[1..];
    }
  }

  // ----- int8 copies

  datatype Codes = Codes(scales: seq<nat>, norms: seq<nat>, codes: Bytes)

  function CodesSection(q: Codes): Bytes {
    LeWords(q.scales, 4) + (LeWords(q.norms, 4) + q.codes)
  }

  function ReadCodes(b: Bytes, count: nat, dims: nat): Result<Codes, SnapError> {
    match ReadWords(b, count, 4)
    case Short => Err(Misshapen("scale"))
    case Got(scales, b1) =>
      match ReadWords(b1, count, 4)
      case Short => Err(Misshapen("norm"))
      case Got(norms, b2) =>
        match Take(b2, count * dims)
        case Short => Err(Misshapen("int8 codes"))
        case Got(codes, rest) =>
          if rest != [] then Err(Misshapen("int8 section trailing bytes")) else Ok(Codes(scales, norms, codes))
  }

  lemma CodesTrip(q: Codes, count: nat, dims: nat)
    requires Fit(q.scales, 4) && Fit(q.norms, 4) && |q.scales| == |q.norms| == count && |q.codes| == count * dims
    ensures ReadCodes(CodesSection(q), count, dims) == Ok(q)
  {
    WordsTrip(q.scales, 4, LeWords(q.norms, 4) + q.codes);
    WordsTrip(q.norms, 4, q.codes);
    TakeHead(q.codes, []);
    assert q.codes + [] == q.codes;
  }

  // ----- idempotency

  function WindowSection(window: Window): Bytes {
    if window == [] then [] else window[0].0 + (ToLe(window[0].1, 8) + WindowSection(window[1..]))
  }

  function ReadWindow(b: Bytes, count: nat): Result<Window, SnapError>
    decreases count
  {
    if count == 0 then if b != [] then Err(Misshapen("idempotency section trailing bytes")) else Ok([])
    else match Take(b, 16)
      case Short => Err(Misshapen("op id"))
      case Got(op, b1) =>
        match TakeLe(b1, 8)
        case Short => Err(Misshapen("op seq"))
        case Got(s, b2) =>
          match ReadWindow(b2, count - 1)
          case Err(error) => Err(error)
          case Ok(more) => Ok([(op, s)] + more)
  }

  ghost predicate WindowFits(window: Window) {
    forall i :: 0 <= i < |window| ==> window[i].1 < 0x1_0000_0000_0000_0000
  }

  lemma {:induction false} WindowTrip(window: Window)
    requires WindowFits(window)
    ensures ReadWindow(WindowSection(window), |window|) == Ok(window)
    decreases |window|
  {
    if window != [] {
      Widths();
      var (op, s) := window[0];
      var more := WindowSection(window[1..]);
      TakeHead(op, ToLe(s, 8) + more);
      TakeLeHead(s, 8, more);
      WindowTrip(window[1..]);
      assert window == [(op, s)] + window[1..];
    }
  }
}
