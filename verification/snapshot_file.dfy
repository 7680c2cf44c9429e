/** The snapshot file (snapshot.rs): checked header, section table, aligned
    sections, footer digest; encoding it and loading it back. */
module SnapshotFile {
  import opened Words
  import opened WalCodec
  import opened WalSegment
  import opened LogFold
  import opened PartitionState
  import opened Bits
  import opened SnapshotCodec
  import opened SnapshotGraph

  type Digest = b: Bytes | |b| == 32 witness seq(32, _ => 0)

  /** Everything a snapshot captures. */
  datatype Image = Image(
    id: PartitionId, dims: nat, metric: nat, params: Params, high: nat, keys: seq<(Bytes, nat)>, slots: seq<SlotRecord>,
    vectors: seq<Vector>, quantized: Codes, graph: GraphImage, window: Window)

  const HEADER := 128
  const ENTRY := 52
  const FOOTER := 32
  const SECTIONS := 7

  function Align(n: nat): (r: nat)
    ensures n <= r < n + 64 && r % 64 == 0
  {
    (n + 63) / 64 * 64
  }

  function Zeros(n: nat): (r: Bytes)
    ensures |r| == n
  {
    seq(n, _ => 0)
  }

  // ----- the header

  datatype Header = Header(
    dims: nat, metric: nat, high: nat, slotCount: nat, liveCount: nat, keyCount: nat, windowCount: nat,
    sectionCount: nat, tableOffset: nat)

  const MAGIC: Bytes := [0x44, 0x48, 0x53, 0x4E]

  function IdentBytes(id: PartitionId, h: Header): (r: Bytes)
    ensures |r| == 32
  {
    MAGIC + (ToLe(1, 2) + (ToLe(0, 2) + (id + (ToLe(h.dims, 4) + (ToLe(h.metric, 1) + (ToLe(1, 1) + ToLe(0, 2)))))))
  }

  function CountBytes(h: Header): (r: Bytes)
    ensures |r| == 36
  {
    ToLe(h.high, 8) + (ToLe(h.slotCount, 4) + (ToLe(h.liveCount, 4) + (ToLe(h.keyCount, 4) + (ToLe(h.windowCount, 4)
      + (ToLe(h.sectionCount, 4) + ToLe(h.tableOffset, 8))))))
  }

  function HeaderPrefix(id: PartitionId, h: Header): (r: Bytes)
    ensures |r| == HEADER - 4
  {
    IdentBytes(id, h) + (CountBytes(h) + Zeros(56))
  }

  function HeaderBytes(crc: Checksum, id: PartitionId, h: Header): (r: Bytes)
    ensures |r| == HEADER
  {
    HeaderPrefix(id, h) + ToLe(crc(HeaderPrefix(id, h)), 4)
  }

  /** Dimensions and metric, once magic, version, partition and scheme check out. */
  function ReadIdent(b: Bytes, expected: PartitionId): Result<(nat, nat), SnapError>
    requires |b| >= 32
  {
    if b[..4] != MAGIC then Err(BadMagic)
    else if FromLe(b[4..6]) != 1 then Err(BadVersion(FromLe(b[4..6])))
    else if b[8..24] != expected then Err(OtherPartition(b[8..24]))
    else if !(1 <= FromLe(b[28..29]) <= 3) then Err(Misshapen("metric"))
    else if FromLe(b[29..30]) != 1 then Err(Misshapen("quantization scheme"))
    else Ok((FromLe(b[24..28]), FromLe(b[28..29])))
  }

  function ReadHeader(crc: Checksum, b: Bytes, expected: PartitionId): Result<Header, SnapError> {
    if |b| < HEADER + FOOTER then Err(Misshapen("file too short"))
    else if crc(b[..124]) != FromLe(b[124..128]) then Err(HeaderCrc)
    else match ReadIdent(b, expected)
      case Err(error) => Err(error)
      case Ok((dims, metric)) =>
        if dims == 0 then Err(Misshapen("dims"))
        else Ok(Header(dims, metric, FromLe(b[32..40]), FromLe(b[40..44]), FromLe(b[44..48]), FromLe(b[48..52]),
                       FromLe(b[52..56]), FromLe(b[56..60]), FromLe(b[60..68])))
  }

  ghost predicate HeaderFits(h: Header) {
    && 0 < h.dims < 0x1_0000_0000 && 1 <= h.metric <= 3 && h.high < 0x1_0000_0000_0000_0000
    && h.slotCount < 0x1_0000_0000 && h.liveCount < 0x1_0000_0000 && h.keyCount < 0x1_0000_0000
    && h.windowCount < 0x1_0000_0000 && h.sectionCount < 0x1_0000_0000 && h.tableOffset < 0x1_0000_0000_0000_0000
  }

  /** A field of a concatenation, by its place. */
  lemma Field(before: Bytes, field: Bytes, after: Bytes, b: Bytes, at: nat)
    requires b == before + (field + after) && at == |before|
    ensures |b| >= at + |field| && b[at..at + |field|] == field
  {
  }

  lemma IdentTrip(id: PartitionId, h: Header, rest: Bytes)
    requires HeaderFits(h)
    ensures ReadIdent(IdentBytes(id, h) + rest, id) == Ok((h.dims, h.metric))
  {
    hide ToLe, FromLe;
    Widths();
    var b := IdentBytes(id, h) + rest;
    FromLeToLe(1, 2);
    FromLeToLe(h.dims, 4);
    FromLeToLe(h.metric, 1);
    FromLeToLe(1, 1);
    assert b[..4] == MAGIC;
    assert b[4..6] == ToLe(1, 2);
    assert b[8..24] == id;
    assert b[24..28] == ToLe(h.dims, 4);
    assert b[28..29] == ToLe(h.metric, 1);
    assert b[29..30] == ToLe(1, 1);
  }

  lemma CountsTrip(before: Bytes, h: Header, rest: Bytes, b: Bytes)
    requires HeaderFits(h) && |before| == 32 && b == before + (CountBytes(h) + rest)
    ensures FromLe(b[32..40]) == h.high && FromLe(b[40..44]) == h.slotCount && FromLe(b[44..48]) == h.liveCount
    ensures FromLe(b[48..52]) == h.keyCount && FromLe(b[52..56]) == h.windowCount
    ensures FromLe(b[56..60]) == h.sectionCount && FromLe(b[60..68]) == h.tableOffset
  {
    hide ToLe, FromLe;
    Widths();
    FromLeToLe(h.high, 8);
    FromLeToLe(h.slotCount, 4);
    FromLeToLe(h.liveCount, 4);
    FromLeToLe(h.keyCount, 4);
    FromLeToLe(h.windowCount, 4);
    FromLeToLe(h.sectionCount, 4);
    FromLeToLe(h.tableOffset, 8);
    assert b[32..40] == ToLe(h.high, 8);
    assert b[40..44] == ToLe(h.slotCount, 4);
    assert b[44..48] == ToLe(h.liveCount, 4);
    assert b[48..52] == ToLe(h.keyCount, 4);
    assert b[52..56] == ToLe(h.windowCount, 4);
    assert b[56..60] == ToLe(h.sectionCount, 4);
    assert b[60..68] == ToLe(h.tableOffset, 8);
  }

  lemma HeaderTrip(crc: Checksum, id: PartitionId, h: Header, rest: Bytes)
    requires HeaderFits(h) && |rest| >= FOOTER
    ensures ReadHeader(crc, HeaderBytes(crc, id, h) + rest, id) == Ok(h)
  {
    hide ToLe, FromLe, IdentBytes, CountBytes, ReadIdent;
    Widths();
    var prefix := HeaderPrefix(id, h);
    var sum := ToLe(crc(prefix), 4);
    var b := HeaderBytes(crc, id, h) + rest;
    assert b[..124] == prefix;
    FromLeToLe(crc(prefix), 4);
    assert b[124..128] == sum;
    var tail := Zeros(56) + (sum + rest);
    assert b == IdentBytes(id, h) + (CountBytes(h) + tail);
    IdentTrip(id, h, CountBytes(h) + tail);
    CountsTrip(IdentBytes(id, h), h, tail, b);
  }

  // ----- layout

  /** Where section `i` starts: each section is followed by zeros up to the next
      multiple of 64. */
  function OffsetOf(secs: seq<Bytes>, first: nat, i: nat): nat
    requires i <= |secs|
  {
    if i == 0 then first else Align(OffsetOf(secs, first, i - 1) + |secs[i - 1]|)
  }

  function Padded(b: Bytes): (r: Bytes)
    ensures |r| == Align(|b|)
  {
    b + Zeros(Align(|b|) - |b|)
  }

  /** The first `n` sections, padded. */
  function Body(secs: seq<Bytes>, n: nat): Bytes
    requires n <= |secs|
  {
    if n == 0 then [] else Body(secs, n - 1) + Padded(secs[n - 1])
  }

  lemma AlignSum(a: nat, n: nat)
    requires a % 64 == 0
    ensures Align(a + n) == a + Align(n)
  {
  }

  lemma {:induction false} Layout(secs: seq<Bytes>, first: nat, n: nat)
    requires n <= |secs| && first % 64 == 0
    ensures OffsetOf(secs, first, n) == first + |Body(secs, n)| && OffsetOf(secs, first, n) % 64 == 0
  {
    hide Align, Padded;
    if n > 0 {
      Layout(secs, first, n - 1);
      AlignSum(OffsetOf(secs, first, n - 1), |secs[n - 1]|);
    }
  }

  lemma {:induction false} OffsetsGrow(secs: seq<Bytes>, first: nat, i: nat, n: nat)
    requires i <= n <= |secs|
    ensures OffsetOf(secs, first, i) <= OffsetOf(secs, first, n)
  {
    hide Align;
    if i < n {
      OffsetsGrow(secs, first, i, n - 1);
    }
  }

  /** Sections are aligned, in file order, apart from each other, and end before
      the footer. */
  lemma SectionsApart(secs: seq<Bytes>, first: nat, i: nat, j: nat)
    requires i < j <= |secs| && first % 64 == 0
    ensures OffsetOf(secs, first, i) % 64 == 0 && first <= OffsetOf(secs, first, i)
    ensures OffsetOf(secs, first, i) + |secs[i]| <= OffsetOf(secs, first, j) <= first + |Body(secs, |secs|)|
  {
    hide OffsetOf, Body;
    Layout(secs, first, i);
    Layout(secs, first, |secs|);
    NextOffset(secs, first, i);
    OffsetsGrow(secs, first, i + 1, j);
    OffsetsGrow(secs, first, j, |secs|);
  }

  lemma NextOffset(secs: seq<Bytes>, first: nat, i: nat)
    requires i < |secs|
    ensures OffsetOf(secs, first, i) + |secs[i]| <= OffsetOf(secs, first, i + 1)
  {
  }

  lemma {:induction false} BodyPrefix(secs: seq<Bytes>, i: nat, n: nat) returns (more: Bytes)
    requires i <= n <= |secs|
    ensures Body(secs, n) == Body(secs, i) + more
    decreases n
  {
    if i == n {
      more := [];
    } else {
      more := BodyPrefix(secs, i, n - 1);
      more := more + Padded(secs[n - 1]);
    }
  }

  /** Each section's bytes are where the table says. */
  lemma SectionAt(secs: seq<Bytes>, front: Bytes, rest: Bytes, i: nat)
    requires i < |secs| && |front| % 64 == 0
    ensures var at := OffsetOf(secs, |front|, i);
            var b := front + (Body(secs, |secs|) + rest);
            at + |secs[i]| <= |front| + |Body(secs, |secs|)| && b[at..at + |secs[i]|] == secs[i]
  {
    hide Align, OffsetOf, Body;
    SectionsApart(secs, |front|, i, i + 1);
    Layout(secs, |front|, i);
    var more := BodyPrefix(secs, i + 1, |secs|);
    var pad := Zeros(Align(|secs[i]|) - |secs[i]|);
    BodyStep(secs, i);
    Regrouped(front, Body(secs, i), secs[i], pad, more, rest);
    Field(front + Body(secs, i), secs[i], pad + (more + rest), front + (Body(secs, |secs|) + rest),
          OffsetOf(secs, |front|, i));
  }

  lemma BodyStep(secs: seq<Bytes>, i: nat)
    requires i < |secs|
    ensures Body(secs, i + 1) == Body(secs, i) + (secs[i] + Zeros(Align(|secs[i]|) - |secs[i]|))
  {
  }

  lemma Regrouped(front: Bytes, done: Bytes, sec: Bytes, pad: Bytes, more: Bytes, rest: Bytes)
    ensures front + (((done + (sec + pad)) + more) + rest) == (front + done) + (sec + (pad + (more + rest)))
  {
  }

  // ----- the section table

  datatype TableEntry = TableEntry(kind: nat, offset: nat, len: nat, digest: Bytes)

  function EntryBytes(e: TableEntry): Bytes {
    ToLe(e.kind, 2) + (ToLe(0, 2) + (ToLe(e.offset, 8) + (ToLe(e.len, 8) + e.digest)))
  }

  /** Entry of section `i`; kinds count from 1 in file order. */
  function EntryOf(hash: Bytes -> Digest, secs: seq<Bytes>, first: nat, i: nat): TableEntry
    requires i < |secs|
  {
    TableEntry(i + 1, OffsetOf(secs, first, i), |secs[i]|, hash(secs[i]))
  }

  function TableBytes(hash: Bytes -> Digest, secs: seq<Bytes>, first: nat, n: nat): (r: Bytes)
    requires n <= |secs|
    ensures |r| == n * ENTRY
  {
    if n == 0 then [] else TableBytes(hash, secs, first, n - 1) + EntryBytes(EntryOf(hash, secs, first, n - 1))
  }

  function ReadEntry(b: Bytes): TableEntry
    requires |b| == ENTRY
  {
    TableEntry(FromLe(b[0..2]), FromLe(b[4..12]), FromLe(b[12..20]), b[20..52])
  }

  /** The first `n` entries, each within the file and behind the table. */
  function ReadTable(b: Bytes, at: nat, n: nat, tableEnd: nat, footerAt: nat): Result<seq<TableEntry>, SnapError>
    requires at + n * ENTRY <= |b|
  {
    if n == 0 then Ok([])
    else match ReadTable(b, at, n - 1, tableEnd, footerAt)
      case Err(error) => Err(error)
      case Ok(entries) =>
        var e := ReadEntry(b[at + (n - 1) * ENTRY..at + n * ENTRY]);
        if e.offset < tableEnd || e.offset + e.len > footerAt then Err(Misshapen("section bounds"))
        else Ok(entries + [e])
  }

  lemma EntryTrip(e: TableEntry)
    requires e.kind < 0x1_0000 && e.offset < 0x1_0000_0000_0000_0000 && e.len < 0x1_0000_0000_0000_0000
             && |e.digest| == 32
    ensures |EntryBytes(e)| == ENTRY && ReadEntry(EntryBytes(e)) == e
  {
    hide ToLe, FromLe;
    Widths();
    var b := EntryBytes(e);
    FromLeToLe(e.kind, 2);
    FromLeToLe(e.offset, 8);
    FromLeToLe(e.len, 8);
    assert b[0..2] == ToLe(e.kind, 2);
    assert b[4..12] == ToLe(e.offset, 8);
    assert b[12..20] == ToLe(e.len, 8);
    assert b[20..52] == e.digest;
  }

  ghost function Entries(hash: Bytes -> Digest, secs: seq<Bytes>, first: nat, n: nat): (r: seq<TableEntry>)
    requires n <= |secs|
    ensures |r| == n && forall i :: 0 <= i < n ==> r[i] == EntryOf(hash, secs, first, i)
  {
    seq(n, i requires 0 <= i < n => EntryOf(hash, secs, first, i))
  }

  /** The table reads back, its entries within bounds. */
  lemma {:induction false} TableTrip(hash: Bytes -> Digest, secs: seq<Bytes>, first: nat, n: nat, b: Bytes,
                                     front: Bytes, rest: Bytes, tableEnd: nat, footerAt: nat)
    requires n <= |secs| < 0x1_0000 && first % 64 == 0 && b == front + (TableBytes(hash, secs, first, n) + rest)
    requires tableEnd <= first && OffsetOf(secs, first, |secs|) <= footerAt < 0x1_0000_0000_0000_0000
    ensures |front| + n * ENTRY <= |b|
    ensures ReadTable(b, |front|, n, tableEnd, footerAt) == Ok(Entries(hash, secs, first, n))
  {
    hide EntryBytes, ReadEntry, OffsetOf, Body;
    if n > 0 {
      var e := EntryOf(hash, secs, first, n - 1);
      var done := TableBytes(hash, secs, first, n - 1);
      SectionsApart(secs, first, n - 1, |secs|);
      EntryTrip(e);
      assert b == front + (done + (EntryBytes(e) + rest));
      TableTrip(hash, secs, first, n - 1, b, front, EntryBytes(e) + rest, tableEnd, footerAt);
      assert b == (front + done) + (EntryBytes(e) + rest);
      Field(front + done, EntryBytes(e), rest, b, |front| + (n - 1) * ENTRY);
      assert Entries(hash, secs, first, n) == Entries(hash, secs, first, n - 1) + [e];
    }
  }

  // ----- encoding

  function SectionsOf(x: Image): (r: seq<Bytes>)
    requires |x.graph.upperLen| == |x.graph.upper| == |x.graph.levels|
    ensures |r| == SECTIONS
  {
    [KeysSection(x.keys), SlotsSection(x.slots, 0), PayloadsSection(x.slots), RowsSection(x.vectors),
     CodesSection(x.quantized), GraphSection(x.params, x.graph), WindowSection(x.window)]
  }

  function LiveCount(slots: seq<SlotRecord>): nat {
    if slots == [] then 0 else LiveCount(slots[..|slots| - 1]) + if slots[|slots| - 1].tombstone then 0 else 1
  }

  function HeaderOfImage(x: Image): Header {
    Header(x.dims, x.metric, x.high, |x.slots|, LiveCount(x.slots), |x.keys|, |x.window|, SECTIONS, HEADER)
  }

  /** Header, table, and zeros up to the first section. */
  function Front(crc: Checksum, hash: Bytes -> Digest, x: Image, secs: seq<Bytes>): Bytes
    requires |secs| == SECTIONS
  {
    var first := Align(HEADER + SECTIONS * ENTRY);
    HeaderBytes(crc, x.id, HeaderOfImage(x))
      + (TableBytes(hash, secs, first, SECTIONS) + Zeros(first - HEADER - SECTIONS * ENTRY))
  }

  /** `encode_into`: the file, footer included. */
  function EncodeImage(crc: Checksum, hash: Bytes -> Digest, x: Image): Result<Bytes, SnapError>
    requires |x.graph.upperLen| == |x.graph.upper| == |x.graph.levels|
  {
    if |x.vectors| != |x.slots| || |x.quantized.scales| != |x.slots| then
      Err(Inconsistent("vector counts differ from slot count"))
    else if exists i ::
      0 <= i < |x.keys|
      && (|x.keys[i].0| == 0 || |x.keys[i].0| > 0xFFFF) then Err(Inconsistent("key length"))
    else
      var secs := SectionsOf(x);
      var all := Front(crc, hash, x, secs) + Body(secs, SECTIONS);
      Ok(all + hash(all))
  }

  // ----- loading

  /** Everything a loaded snapshot refers to exists and agrees. */
  predicate WellFormed(p: Params, keys: seq<(Bytes, nat)>, slots: seq<SlotRecord>, g: GraphImage)
    requires |g.levels| == |g.level0Len| == |g.upper| == |g.upperLen| == |slots|
  {
    && (forall s :: 0 <= s < |slots| ==> ListOk(g.level0, s * p.m0, g.level0Len[s], p.m0, |slots|))
    && (forall s :: 0 <= s < |slots| ==> g.levels[s] <= 31 && UpperOk(g.upper[s], g.upperLen[s], p.m, |slots|))
    && (match g.entry
        case Some(e) => e < |slots| && g.levels[e] == g.maxLevel
        case None => |slots| == 0)
    && (forall s ::
         0 <= s < |slots|
         ==> (InWords(g.tombstones, s) <==> slots[s].tombstone) && slots[s].keyIndex < |keys|)
    && |slots| - LiveCount(slots) == g.tombstoneCount
    && (forall k :: 0 <= k < |keys| && keys[k].1 != NO_ENTRY ==>
          keys[k].1 < |slots| && !slots[keys[k].1].tombstone && slots[keys[k].1].keyIndex == k)
  }

  /** A list of at most `capacity` slots of the snapshot, at `start`. */
  predicate ListOk(flat: seq<nat>, start: nat, len: nat, capacity: nat, count: nat) {
    len <= capacity && start + len <= |flat| && forall j :: start <= j < start + len ==> flat[j] < count
  }

  predicate UpperOk(flat: seq<nat>, lens: seq<nat>, m: nat, count: nat) {
    forall l :: 0 <= l < |lens| ==> ListOk(flat, l * m, lens[l], m, count)
  }

  /** Bytes of the section of a kind. */
  function FindSection(b: Bytes, entries: seq<TableEntry>, kind: nat): Result<Bytes, SnapError> {
    if entries == [] then Err(MissingSection(kind))
    else if entries[0].kind == kind then
      if entries[0].offset + entries[0].len <= |b| then Ok(b[entries[0].offset..entries[0].offset + entries[0].len])
      else Err(Misshapen("section bounds"))
    else FindSection(b, entries[1..], kind)
  }

  /** The first section whose digest disagrees. */
  function BadDigest(hash: Bytes -> Digest, b: Bytes, entries: seq<TableEntry>): Option<nat> {
    if entries == [] then None
    else if entries[0].offset + entries[0].len > |b|
            || hash(b[entries[0].offset..entries[0].offset + entries[0].len]) != entries[0].digest
               then Some(entries[0].kind)
    else BadDigest(hash, b, entries[1..])
  }

  /** The sections of a file whose header, footer, table and digests agree. */
  datatype Verified = Verified(header: Header, secs: seq<Bytes>)

  function Collect(b: Bytes, entries: seq<TableEntry>, n: nat): Result<seq<Bytes>, SnapError> {
    if n == 0 then Ok([])
    else match Collect(b, entries, n - 1)
      case Err(error) => Err(error)
      case Ok(secs) =>
        match FindSection(b, entries, n)
        case Err(error) => Err(error)
        case Ok(sec) => Ok(secs + [sec])
  }

  function Verify(crc: Checksum, hash: Bytes -> Digest, b: Bytes, expected: PartitionId): Result<Verified, SnapError> {
    match ReadHeader(crc, b, expected)
    case Err(error) => Err(error)
    case Ok(h) =>
      var footerAt := |b| - FOOTER;
      if footerAt < 0 || hash(b[..footerAt]) != b[footerAt..] then Err(FooterHash)
      else if h.tableOffset < HEADER
          || h.tableOffset + h.sectionCount * ENTRY > footerAt then Err(Misshapen("section table"))
      else match ReadTable(b, h.tableOffset, h.sectionCount, h.tableOffset + h.sectionCount * ENTRY, footerAt)
        case Err(error) => Err(error)
        case Ok(entries) =>
          match BadDigest(hash, b, entries)
          case Some(kind) => Err(SectionHash(kind))
          case None =>
            match Collect(b, entries, SECTIONS)
            case Err(error) => Err(error)
            case Ok(secs) => Ok(Verified(h, secs))
  }

  /** Keys, slots and payloads. */
  function ParseRecords(v: Verified): Result<(seq<(Bytes, nat)>, seq<SlotRecord>), SnapError>
    requires |v.secs| == SECTIONS
  {
    match ReadKeys(v.secs[0], v.header.keyCount)
    case Err(error) => Err(error)
    case Ok((keys, rest)) =>
      if rest != [] then Err(Misshapen("keys section trailing bytes"))
      else match ReadSlots(v.secs[1], v.header.slotCount, v.secs[2])
        case Err(error) => Err(error)
        case Ok((slots, left)) =>
          if left != [] then Err(Misshapen("slots section trailing bytes")) else Ok((keys, slots))
  }

  function Parse(v: Verified, id: PartitionId): Result<Image, SnapError>
    requires |v.secs| == SECTIONS
  {
    match ParseRecords(v)
    case Err(error) => Err(error)
    case Ok((keys, slots)) =>
      if |v.secs[3]| != RowBytes(v.header.slotCount, v.header.dims) then Err(Misshapen("f32 section length"))
      else
        var vectors := ReadRows(v.secs[3], v.header.slotCount, v.header.dims);
        match ReadCodes(v.secs[4], v.header.slotCount, v.header.dims)
        case Err(error) => Err(error)
        case Ok(codes) =>
          match ReadGraph(v.secs[5], v.header.slotCount)
          case Err(error) => Err(error)
          case Ok((params, g)) =>
            if !(|g.levels| == |g.level0Len| == |g.upper| == |g.upperLen| == |slots|)
                || !WellFormed(params, keys, slots, g) then
              Err(Misshapen("structure"))
            else match ReadWindow(v.secs[6], v.header.windowCount)
              case Err(error) => Err(error)
              case Ok(window) =>
                Ok(Image(id, v.header.dims, v.header.metric, params, v.header.high, keys, slots, vectors, codes, g,
                         window))
  }

  /** `load`: verify everything, then parse and cross-check. */
  function Load(crc: Checksum, hash: Bytes -> Digest, b: Bytes, expected: PartitionId): Result<Image, SnapError> {
    match Verify(crc, hash, b, expected)
    case Err(error) => Err(error)
    case Ok(v) => if |v.secs| == SECTIONS then Parse(v, expected) else Err(Misshapen("section table"))
  }

  // ----- the round trip

  /** An image the format can hold: every array has the shape the partition
      gives it and every number fits its field. */
  ghost predicate ImageFits(x: Image) {
    && HeaderFits(HeaderOfImage(x))
    && KeysFit(x.keys) && SlotsFit(x.slots) && |PayloadsSection(x.slots)| < 0x1_0000_0000_0000_0000
    && |x.vectors| == |x.slots| && (forall i :: 0 <= i < |x.vectors| ==> |x.vectors[i]| == x.dims)
    && |x.quantized.scales| == |x.quantized.norms| == |x.slots| && |x.quantized.codes| == |x.slots| * x.dims
    && Fit(x.quantized.scales, 4) && Fit(x.quantized.norms, 4)
    && GraphFits(x.params, x.graph, |x.slots|) && WindowFits(x.window)
  }

  /** The whole file, at most 2^64 bytes. */
  ghost predicate FileFits(x: Image)
    requires |x.graph.upperLen| == |x.graph.upper| == |x.graph.levels|
  {
    Align(HEADER + SECTIONS * ENTRY) + |Body(SectionsOf(x), SECTIONS)| < 0x1_0000_0000_0000_0000
  }

  lemma Shapes(x: Image)
    requires ImageFits(x)
    ensures |x.graph.upperLen| == |x.graph.upper| == |x.graph.levels| == |x.graph.level0Len| == |x.slots|
  {
  }

  lemma RecordsTrip(x: Image, v: Verified)
    requires ImageFits(x) && |v.secs| == SECTIONS && v.header == HeaderOfImage(x)
    requires v.secs[0] == KeysSection(x.keys) && v.secs[1] == SlotsSection(x.slots, 0)
             && v.secs[2] == PayloadsSection(x.slots)
    ensures ParseRecords(v) == Ok((x.keys, x.slots))
  {
    hide KeysSection, SlotsSection, PayloadsSection, ReadKeys, ReadSlots, GraphFits;
    KeysTrip(x.keys);
    assert [] + PayloadsSection(x.slots) == PayloadsSection(x.slots);
    SlotsTrip(x.slots, [], PayloadsSection(x.slots));
  }

  /** Parsing the sections of an image gives the image back exactly when its
      references agree, and refuses it otherwise. */
  lemma ParseTrip(x: Image, v: Verified)
    requires ImageFits(x)
             && |x.graph.upperLen| == |x.graph.upper| == |x.graph.levels| == |x.graph.level0Len| == |x.slots|
    requires v == Verified(HeaderOfImage(x), SectionsOf(x))
    ensures Parse(v, x.id)
         == if WellFormed(x.params, x.keys, x.slots, x.graph) then Ok(x) else Err(Misshapen("structure"))
  {
    hide KeysSection, SlotsSection, PayloadsSection, RowsSection, CodesSection, GraphSection, WindowSection;
    hide ParseRecords, ReadRows, ReadCodes, ReadGraph, ReadWindow, RowBytes, WellFormed, GraphFits, LiveCount;
    RecordsTrip(x, v);
    RowsTrip(x.vectors, x.dims);
    CodesTrip(x.quantized, |x.slots|, x.dims);
    GraphTrip(x.params, x.graph, |x.slots|);
    WindowTrip(x.window);
  }

  lemma {:induction false} DigestsAgree(hash: Bytes -> Digest, b: Bytes, entries: seq<TableEntry>)
    requires forall i :: 0 <= i < |entries| ==>
      entries[i].offset + entries[i].len <= |b|
          && hash(b[entries[i].offset..entries[i].offset + entries[i].len]) == entries[i].digest
    ensures BadDigest(hash, b, entries) == None
    decreases |entries|
  {
    if entries != [] {
      DigestsAgree(hash, b, entries[1..]);
    }
  }

  lemma {:induction false} FindByKind(b: Bytes, entries: seq<TableEntry>, k: nat)
    requires k < |entries| && entries[k].offset + entries[k].len <= |b|
    requires forall i :: 0 <= i < k ==> entries[i].kind != entries[k].kind
    ensures FindSection(b, entries, entries[k].kind) == Ok(b[entries[k].offset..entries[k].offset + entries[k].len])
    decreases |entries|
  {
    if k > 0 {
      assert entries[0].kind != entries[k].kind;
      FindByKind(b, entries[1..], k - 1);
    }
  }

  lemma {:induction false} CollectAll(b: Bytes, entries: seq<TableEntry>, secs: seq<Bytes>, n: nat)
    requires n <= |secs| == |entries|
    requires forall i :: 0 <= i < |entries| ==>
      entries[i].kind == i + 1 && entries[i].offset + entries[i].len <= |b|
      && b[entries[i].offset..entries[i].offset + entries[i].len] == secs[i]
    ensures Collect(b, entries, n) == Ok(secs[..n])
  {
    if n > 0 {
      CollectAll(b, entries, secs, n - 1);
      FindByKind(b, entries, n - 1);
      assert entries[n - 1].kind == n;
      assert secs[..n] == secs[..n - 1] + [secs[n - 1]];
    }
  }

  lemma FrontLen(crc: Checksum, hash: Bytes -> Digest, x: Image, secs: seq<Bytes>)
    requires |secs| == SECTIONS
    ensures |Front(crc, hash, x, secs)| == Align(HEADER + SECTIONS * ENTRY) == 512
  {
    hide HeaderBytes, TableBytes, Zeros;
  }

  /** The file as front, sections and footer, and as header, table and the rest. */
  lemma FileParts(crc: Checksum, hash: Bytes -> Digest, x: Image, secs: seq<Bytes>, foot: Bytes)
    requires |secs| == SECTIONS
    ensures var b := (Front(crc, hash, x, secs) + Body(secs, SECTIONS)) + foot;
            && b == Front(crc, hash, x, secs) + (Body(secs, SECTIONS) + foot)
            && b == HeaderBytes(crc, x.id, HeaderOfImage(x))
                 + (TableBytes(hash, secs, 512, SECTIONS) + (Zeros(20) + (Body(secs, SECTIONS) + foot)))
  {
    hide HeaderBytes, TableBytes, Zeros, Body;
    assert Align(HEADER + SECTIONS * ENTRY) == 512;
    Regroup(HeaderBytes(crc, x.id, HeaderOfImage(x)), TableBytes(hash, secs, 512, SECTIONS), Zeros(20),
            Body(secs, SECTIONS), foot);
  }

  lemma Regroup(h: Bytes, t: Bytes, z: Bytes, body: Bytes, foot: Bytes)
    ensures ((h + (t + z)) + body) + foot == (h + (t + z)) + (body + foot)
    ensures ((h + (t + z)) + body) + foot == h + (t + (z + (body + foot)))
  {
  }

  /** Every table entry names its section's bytes and digest. */
  lemma EntriesNameSections(hash: Bytes -> Digest, secs: seq<Bytes>, front: Bytes, foot: Bytes, b: Bytes)
    requires |secs| == SECTIONS && |front| == 512 && b == front + (Body(secs, SECTIONS) + foot)
    ensures forall i :: 0 <= i < SECTIONS ==>
      var e := Entries(hash, secs, 512, SECTIONS)[i];
      e.kind == i + 1 && e.offset + e.len <= |b| && b[e.offset..e.offset + e.len] == secs[i]
          && hash(secs[i]) == e.digest
  {
    hide Body, OffsetOf;
    forall i | 0 <= i < SECTIONS
      ensures var e := Entries(hash, secs, 512, SECTIONS)[i];
              e.kind == i + 1 && e.offset + e.len <= |b| && b[e.offset..e.offset + e.len] == secs[i]
                  && hash(secs[i]) == e.digest
    {
      SectionAt(secs, front, foot, i);
    }
  }

  lemma VerifyTrip(crc: Checksum, hash: Bytes -> Digest, x: Image, secs: seq<Bytes>)
    requires HeaderFits(HeaderOfImage(x)) && |secs| == SECTIONS
             && 512 + |Body(secs, SECTIONS)| < 0x1_0000_0000_0000_0000
    ensures var all := Front(crc, hash, x, secs) + Body(secs, SECTIONS);
            Verify(crc, hash, all + hash(all), x.id) == Ok(Verified(HeaderOfImage(x), secs))
  {
    hide HeaderBytes, TableBytes, Zeros, Body, ReadHeader, ReadTable, Collect, BadDigest, HeaderFits, LiveCount, Front,
         OffsetOf;
    var all := Front(crc, hash, x, secs) + Body(secs, SECTIONS);
    var foot := hash(all);
    var b := all + foot;
    var h := HeaderOfImage(x);
    FrontLen(crc, hash, x, secs);
    FileParts(crc, hash, x, secs, foot);
    var rest := Zeros(20) + (Body(secs, SECTIONS) + foot);
    HeaderTrip(crc, x.id, h, TableBytes(hash, secs, 512, SECTIONS) + rest);
    assert b[..|b| - FOOTER] == all && b[|b| - FOOTER..] == foot;
    Layout(secs, 512, SECTIONS);
    TableTrip(hash, secs, 512, SECTIONS, b, HeaderBytes(crc, x.id, h), rest, HEADER + SECTIONS * ENTRY, |b| - FOOTER);
    EntriesNameSections(hash, secs, Front(crc, hash, x, secs), foot, b);
    DigestsAgree(hash, b, Entries(hash, secs, 512, SECTIONS));
    CollectAll(b, Entries(hash, secs, 512, SECTIONS), secs, SECTIONS);
    assert secs[..SECTIONS] == secs;
  }

  /** Loading what was encoded gives the image back: the same keys, slots,
      payloads through their offsets, rows, codes, lists, tombstones and
      window, for every image whose references agree; any other is refused. */
  lemma LoadOfEncode(crc: Checksum, hash: Bytes -> Digest, x: Image)
    requires ImageFits(x)
             && |x.graph.upperLen| == |x.graph.upper| == |x.graph.levels| == |x.graph.level0Len| == |x.slots|
                && FileFits(x)
    ensures EncodeImage(crc, hash, x).Ok?
    ensures Load(crc, hash, EncodeImage(crc, hash, x).value, x.id)
         == if WellFormed(x.params, x.keys, x.slots, x.graph) then Ok(x) else Err(Misshapen("structure"))
  {
    hide SectionsOf, Front, Body, Verify, Parse, WellFormed, GraphFits, LiveCount, PayloadsSection;
    FrontLen(crc, hash, x, SectionsOf(x));
    VerifyTrip(crc, hash, x, SectionsOf(x));
    ParseTrip(x, Verified(HeaderOfImage(x), SectionsOf(x)));
  }
}
