/** The graph section of a snapshot: parameters, flat arrays, tombstone words,
    and the upper lists of the slots above level 0. */
module SnapshotGraph {
  import opened Words
  import opened WalCodec
  import opened SnapshotCodec

  // ----- tombstone words

  function Nums(words: seq<bv64>): (r: seq<nat>)
    ensures |r| == |words|
  {
    seq(|words|, i requires 0 <= i < |words| => words[i] as nat)
  }

  function Bv(n: nat): bv64 {
    if n < 0x1_0000_0000_0000_0000 then n as bv64 else 0
  }

  function BvWords(values: seq<nat>): (r: seq<bv64>)
    ensures |r| == |values|
  {
    seq(|values|, i requires 0 <= i < |values| => Bv(values[i]))
  }

  lemma WordTrip(w: bv64)
    ensures (w as nat) < 0x1_0000_0000_0000_0000 && Bv(w as nat) == w
  {
  }

  lemma NumsTrip(words: seq<bv64>)
    ensures Fit(Nums(words), 8) && BvWords(Nums(words)) == words
  {
    Widths();
    forall i | 0 <= i < |words|
      ensures Nums(words)[i] < Pow256(8) && BvWords(Nums(words))[i] == words[i]
    {
      WordTrip(words[i]);
    }
  }

  // ----- upper lists

  /** Lists of the slots from `i` on; a slot of level 0 writes nothing. */
  function UpperSection(levels: seq<nat>, upperLen: seq<seq<nat>>, upper: seq<seq<nat>>, i: nat): Bytes
    requires |upperLen| == |upper| == |levels| && i <= |levels|
    decreases |levels| - i
  {
    if i == |levels| then []
    else if levels[i] == 0 then UpperSection(levels, upperLen, upper, i + 1)
    else LeWords(upperLen[i], 1) + (LeWords(upper[i], 4) + UpperSection(levels, upperLen, upper, i + 1))
  }

  datatype Uppers = Uppers(lens: seq<seq<nat>>, links: seq<seq<nat>>, rest: Bytes)

  function ReadUpper(b: Bytes, levels: seq<nat>, m: nat, i: nat): Result<Uppers, SnapError>
    requires i <= |levels|
    decreases |levels| - i
  {
    if i == |levels| then Ok(Uppers([], [], b))
    else if levels[i] == 0 then
      match ReadUpper(b, levels, m, i + 1)
      case Err(error) => Err(error)
      case Ok(more) => Ok(Uppers([[]] + more.lens, [[]] + more.links, more.rest))
    else match ReadWords(b, levels[i], 1)
      case Short => Err(Misshapen("upper lengths"))
      case Got(lens, b1) =>
        match ReadWords(b1, levels[i] * m, 4)
        case Short => Err(Misshapen("upper links"))
        case Got(links, b2) =>
          match ReadUpper(b2, levels, m, i + 1)
          case Err(error) => Err(error)
          case Ok(more) => Ok(Uppers([lens] + more.lens, [links] + more.links, more.rest))
  }

  ghost predicate UpperFits(levels: seq<nat>, upperLen: seq<seq<nat>>, upper: seq<seq<nat>>, m: nat) {
    && |upperLen| == |upper| == |levels|
    && forall i :: 0 <= i < |levels| ==>
         && |upperLen[i]| == levels[i] && |upper[i]| == levels[i] * m
         && Fit(upperLen[i], 1) && Fit(upper[i], 4)
  }

  lemma {:induction false} UpperTrip(levels: seq<nat>, upperLen: seq<seq<nat>>, upper: seq<seq<nat>>, m: nat, i: nat)
    requires UpperFits(levels, upperLen, upper, m) && i <= |levels|
    ensures ReadUpper(UpperSection(levels, upperLen, upper, i), levels, m, i)
            == Ok(Uppers(upperLen[i..], upper[i..], []))
    decreases |levels| - i
  {
    hide LeWords, ReadWords;
    if i < |levels| {
      UpperTrip(levels, upperLen, upper, m, i + 1);
      assert upperLen[i..] == [upperLen[i]] + upperLen[i + 1..] && upper[i..] == [upper[i]] + upper[i + 1..];
      var more := UpperSection(levels, upperLen, upper, i + 1);
      if levels[i] == 0 {
        assert |upper[i]| == 0 * m;
      } else {
        WordsTrip(upperLen[i], 1, LeWords(upper[i], 4) + more);
        WordsTrip(upper[i], 4, more);
      }
    }
  }

  // ----- the section

  const NO_ENTRY := 0xFFFF_FFFF

  datatype Fixed = Fixed(params: Params, entryRaw: nat, maxLevel: nat, tombstoneCount: nat)

  function FixedBytes(f: Fixed): Bytes {
    ToLe(f.params.m, 4) + (ToLe(f.params.m0, 4) + (ToLe(f.params.ef, 4) + (ToLe(f.params.seed, 8)
      + (ToLe(f.entryRaw, 4) + (ToLe(f.maxLevel, 1) + ToLe(f.tombstoneCount, 8))))))
  }

  function ReadParams(b: Bytes): Result<(Params, Bytes), SnapError> {
    match TakeLe(b, 4)
    case Short => Err(Misshapen("m"))
    case Got(m, b1) =>
      match TakeLe(b1, 4)
      case Short => Err(Misshapen("m0"))
      case Got(m0, b2) =>
        match TakeLe(b2, 4)
        case Short => Err(Misshapen("ef_construction"))
        case Got(ef, b3) =>
          match TakeLe(b3, 8)
          case Short => Err(Misshapen("seed"))
          case Got(seed, b4) =>
            if m == 0 || m0 == 0 || m > 255 || m0 > 255 then Err(Misshapen("graph parameters"))
            else Ok((Params(m, m0, ef, seed), b4))
  }

  function ReadFixed(b: Bytes): Result<(Fixed, Bytes), SnapError> {
    match ReadParams(b)
    case Err(error) => Err(error)
    case Ok((params, b1)) =>
      match TakeLe(b1, 4)
      case Short => Err(Misshapen("entry"))
      case Got(entryRaw, b2) =>
        match TakeLe(b2, 1)
        case Short => Err(Misshapen("max level"))
        case Got(maxLevel, b3) =>
          match TakeLe(b3, 8)
          case Short => Err(Misshapen("tombstone count"))
          case Got(count, b4) => Ok((Fixed(params, entryRaw, maxLevel, count), b4))
  }

  ghost predicate FixedFits(f: Fixed) {
    && 1 <= f.params.m <= 255 && 1 <= f.params.m0 <= 255
    && f.params.ef < 0x1_0000_0000 && f.params.seed < 0x1_0000_0000_0000_0000
    && f.entryRaw < 0x1_0000_0000 && f.maxLevel < 0x100 && f.tombstoneCount < 0x1_0000_0000_0000_0000
  }

  lemma FixedTrip(f: Fixed, rest: Bytes)
    requires FixedFits(f)
    ensures ReadFixed(FixedBytes(f) + rest) == Ok((f, rest))
  {
    hide ToLe, FromLe;
    Widths();
    var b6 := ToLe(f.tombstoneCount, 8) + rest;
    var b5 := ToLe(f.maxLevel, 1) + b6;
    var b4 := ToLe(f.entryRaw, 4) + b5;
    var b3 := ToLe(f.params.seed, 8) + b4;
    var b2 := ToLe(f.params.ef, 4) + b3;
    var b1 := ToLe(f.params.m0, 4) + b2;
    TakeLeHead(f.params.m, 4, b1);
    TakeLeHead(f.params.m0, 4, b2);
    TakeLeHead(f.params.ef, 4, b3);
    TakeLeHead(f.params.seed, 8, b4);
    TakeLeHead(f.entryRaw, 4, b5);
    TakeLeHead(f.maxLevel, 1, b6);
    TakeLeHead(f.tombstoneCount, 8, rest);
    assert FixedBytes(f) + rest == ToLe(f.params.m, 4) + b1;
  }

  function EntryRaw(entry: Option<nat>): nat {
    if entry.Some? then entry.value else NO_ENTRY
  }

  function FixedOf(p: Params, g: GraphImage): Fixed {
    Fixed(p, EntryRaw(g.entry), g.maxLevel, g.tombstoneCount)
  }

  function GraphSection(p: Params, g: GraphImage): Bytes
    requires |g.upperLen| == |g.upper| == |g.levels|
  {
    FixedBytes(FixedOf(p, g)) + (LeWords(g.levels, 1) + (LeWords(g.level0Len, 1) + (LeWords(g.level0, 4)
      + (LeWords(Nums(g.tombstones), 8) + UpperSection(g.levels, g.upperLen, g.upper, 0)))))
  }

  datatype Flat = Flat(levels: seq<nat>, level0Len: seq<nat>, level0: seq<nat>, words: seq<nat>, rest: Bytes)

  /** The flat arrays after the scalars. */
  function ReadFlat(b: Bytes, count: nat, m0: nat): Result<Flat, SnapError> {
    match ReadWords(b, count, 1)
    case Short => Err(Misshapen("levels"))
    case Got(levels, b1) =>
      match ReadWords(b1, count, 1)
      case Short => Err(Misshapen("level0 lengths"))
      case Got(lens, b2) =>
        match ReadWords(b2, count * m0, 4)
        case Short => Err(Misshapen("level0 links"))
        case Got(links, b3) =>
          match ReadWords(b3, (count + 63) / 64, 8)
          case Short => Err(Misshapen("tombstone words"))
          case Got(words, b4) => Ok(Flat(levels, lens, links, words, b4))
  }

  function ReadGraph(b: Bytes, count: nat): Result<(Params, GraphImage), SnapError> {
    match ReadFixed(b)
    case Err(error) => Err(error)
    case Ok((f, b1)) =>
      match ReadFlat(b1, count, f.params.m0)
      case Err(error) => Err(error)
      case Ok(flat) =>
        match ReadUpper(flat.rest, flat.levels, f.params.m, 0)
        case Err(error) => Err(error)
        case Ok(u) =>
          if u.rest != [] then Err(Misshapen("graph section trailing bytes"))
          else Ok((f.params,
                   GraphImage(flat.levels, flat.level0, flat.level0Len, u.links, u.lens, BvWords(flat.words),
                              f.tombstoneCount,
                              if f.entryRaw != NO_ENTRY then Some(f.entryRaw) else None, f.maxLevel)))
  }

  /** The shape `GraphParts` has, within the widths of the format. */
  ghost predicate GraphFits(p: Params, g: GraphImage, count: nat) {
    && FixedFits(FixedOf(p, g)) && g.entry != Some(NO_ENTRY)
    && |g.levels| == |g.level0Len| == count && |g.level0| == count * p.m0 && |g.tombstones| == (count + 63) / 64
    && Fit(g.levels, 1) && Fit(g.level0Len, 1) && Fit(g.level0, 4)
    && UpperFits(g.levels, g.upperLen, g.upper, p.m)
  }

  lemma FlatTrip(g: GraphImage, count: nat, m0: nat, rest: Bytes)
    requires |g.levels| == |g.level0Len| == count && |g.level0| == count * m0 && |g.tombstones| == (count + 63) / 64
    requires Fit(g.levels, 1) && Fit(g.level0Len, 1) && Fit(g.level0, 4)
    ensures ReadFlat(LeWords(g.levels, 1) + (LeWords(g.level0Len, 1)
                     + (LeWords(g.level0, 4) + (LeWords(Nums(g.tombstones), 8) + rest))),
                     count, m0)
         == Ok(Flat(g.levels, g.level0Len, g.level0, Nums(g.tombstones), rest))
  {
    hide LeWords, ReadWords;
    var b3 := LeWords(Nums(g.tombstones), 8) + rest;
    var b2 := LeWords(g.level0, 4) + b3;
    NumsTrip(g.tombstones);
    WordsTrip(g.levels, 1, LeWords(g.level0Len, 1) + b2);
    WordsTrip(g.level0Len, 1, b2);
    WordsTrip(g.level0, 4, b3);
    WordsTrip(Nums(g.tombstones), 8, rest);
  }

  /** Reading a graph section gives back every array, word and list. */
  lemma GraphTrip(p: Params, g: GraphImage, count: nat)
    requires GraphFits(p, g, count)
    ensures ReadGraph(GraphSection(p, g), count) == Ok((p, g))
  {
    hide LeWords, ReadWords, FixedBytes, ReadFixed, ReadFlat, ReadUpper, UpperSection, FixedFits, Nums, BvWords;
    var upper := UpperSection(g.levels, g.upperLen, g.upper, 0);
    var flat := LeWords(g.levels, 1) + (LeWords(g.level0Len, 1)
                + (LeWords(g.level0, 4) + (LeWords(Nums(g.tombstones), 8) + upper)));
    FixedTrip(FixedOf(p, g), flat);
    FlatTrip(g, count, p.m0, upper);
    UpperTrip(g.levels, g.upperLen, g.upper, p.m, 0);
    NumsTrip(g.tombstones);
    assert g.upperLen[0..] == g.upperLen && g.upper[0..] == g.upper;
  }
}
