/** Archived partitions (index_archive.rs): which archived rows a restore
    needs. */
module Archive {
  import opened Words

  datatype Part = Manifest | Snapshot | WalSegment

  /** A recorded part: `part` is none when the recorded kind does not parse,
      `number` the number its name carries, if any. */
  datatype Row = Row(part: Option<Part>, isManifestName: bool, number: Option<nat>, file: nat)

  datatype ArchiveError = CorruptPart | CorruptManifestName | CorruptSnapshotName | CorruptSegmentName | NoManifest

  predicate RowOk(row: Row) {
    match row.part
    case None => false
    case Some(Manifest) => row.isManifestName
    case Some(_) => row.number.Some?
  }

  function LastManifest(rows: seq<Row>): Option<Row> {
    if rows == [] then None
    else if rows[|rows| - 1].part == Some(Manifest) then Some(rows[|rows| - 1])
    else LastManifest(rows[..|rows| - 1])
  }

  /** The snapshot with the highest number, the first of equals. */
  function NewestSnapshot(rows: seq<Row>): Option<Row> {
    if rows == [] then None
    else
      var last, newest := rows[|rows| - 1], NewestSnapshot(rows[..|rows| - 1]);
      if last.part != Some(Part.Snapshot) || last.number.None? then newest
      else if newest.None? || newest.value.number.None? || last.number.value > newest.value.number.value then Some(last)
      else newest
  }

  function Segments(rows: seq<Row>): seq<Row> {
    if rows == [] then []
    else Segments(rows[..|rows| - 1]) + if rows[|rows| - 1].part == Some(WalSegment) then [rows[|rows| - 1]] else []
  }

  function FirstOf(row: Row): nat {
    if row.number.Some? then row.number.value else 0
  }

  /** Insert behind every row that starts no later. */
  function Insert(row: Row, sorted: seq<Row>): (r: seq<Row>)
    ensures |r| == |sorted| + 1
  {
    if sorted == [] then [row]
    else if FirstOf(sorted[|sorted| - 1]) <= FirstOf(row) then sorted + [row]
    else Insert(row, sorted[..|sorted| - 1]) + [sorted[|sorted| - 1]]
  }

  /** `sort_by_key` on the first sequence; it is stable. */
  function SortByFirst(rows: seq<Row>): (r: seq<Row>)
    ensures |r| == |rows|
  {
    if rows == [] then [] else Insert(rows[|rows| - 1], SortByFirst(rows[..|rows| - 1]))
  }

  ghost predicate InOrder(rows: seq<Row>) {
    forall i, j :: 0 <= i < j < |rows| ==> FirstOf(rows[i]) <= FirstOf(rows[j])
  }

  lemma {:induction false} InsertKeeps(row: Row, sorted: seq<Row>)
    requires InOrder(sorted)
    ensures InOrder(Insert(row, sorted)) && multiset(Insert(row, sorted)) == multiset(sorted) + multiset{row}
    decreases |sorted|
  {
    if sorted == [] {
    } else {
      var init, last := sorted[..|sorted| - 1], sorted[|sorted| - 1];
      assert sorted == init + [last];
      if FirstOf(last) <= FirstOf(row) {
        AppendInOrder(sorted, row);
      } else {
        InsertKeeps(row, init);
        InsertMembers(row, init);
        AppendInOrder(Insert(row, init), last);
      }
    }
  }

  lemma {:induction false} InsertMembers(row: Row, sorted: seq<Row>)
    ensures forall x :: x in Insert(row, sorted) ==> x == row || x in sorted
    decreases |sorted|
  {
    if sorted != [] {
      InsertMembers(row, sorted[..|sorted| - 1]);
    }
  }

  lemma AppendInOrder(rows: seq<Row>, row: Row)
    requires InOrder(rows) && forall x :: x in rows ==> FirstOf(x) <= FirstOf(row)
    ensures InOrder(rows + [row])
  {
  }

  /** Sorting orders the rows and keeps every one of them. */
  lemma {:induction false} SortKeeps(rows: seq<Row>)
    ensures InOrder(SortByFirst(rows)) && multiset(SortByFirst(rows)) == multiset(rows)
    decreases |rows|
  {
    hide Insert, InOrder;
    if rows == [] {
      NoneInOrder();
    } else {
      SortKeeps(rows[..|rows| - 1]);
      InsertKeeps(rows[|rows| - 1], SortByFirst(rows[..|rows| - 1]));
      assert rows == rows[..|rows| - 1] + [rows[|rows| - 1]];
    }
  }

  lemma NoneInOrder()
    ensures InOrder([])
  {
  }

  /** A segment the snapshot wholly covers: the next one starts no later than
      the entry after the snapshot. */
  predicate WhollyCovered(firsts: seq<nat>, i: nat, covered: nat) {
    i + 1 < |firsts| && firsts[i + 1] <= covered + 1
  }

  function KeptFrom(segments: seq<Row>, firsts: seq<nat>, i: nat, covered: nat): seq<Row>
    requires |firsts| == |segments| && i <= |segments|
    decreases |segments| - i
  {
    if i == |segments| then []
    else if WhollyCovered(firsts, i, covered) then KeptFrom(segments, firsts, i + 1, covered)
    else [segments[i]] + KeptFrom(segments, firsts, i + 1, covered)
  }

  function AsSegments(rows: seq<Row>): (r: seq<(Part, Row)>)
    ensures |r| == |rows|
  {
    seq(|rows|, i requires 0 <= i < |rows| => (WalSegment, rows[i]))
  }

  function Firsts(segments: seq<Row>): (r: seq<nat>)
    ensures |r| == |segments|
  {
    seq(|segments|, i requires 0 <= i < |segments| => FirstOf(segments[i]))
  }

  function Covered(rows: seq<Row>): nat {
    if NewestSnapshot(rows).Some? then FirstOf(NewestSnapshot(rows).value) else 0
  }

  /** The rows of a restore, in order. */
  function RestoreRows(rows: seq<Row>, manifest: Row): seq<(Part, Row)> {
    var segments := SortByFirst(Segments(rows));
    [(Manifest, manifest)] + AsSegments(KeptFrom(segments, Firsts(segments), 0, Covered(rows)))
      + if NewestSnapshot(rows).Some? then [(Part.Snapshot, NewestSnapshot(rows).value)] else []
  }

  /** What the first pass over the rows gathers. */
  datatype Gathered = Gathered(manifest: Option<Row>, snapshot: Option<Row>, segments: seq<Row>)

  /** Sort the rows by part, refusing any whose name does not parse. */
  method Gather(rows: seq<Row>) returns (r: Result<Gathered, ArchiveError>)
    ensures r.Ok? <==> forall i :: 0 <= i < |rows| ==> RowOk(rows[i])
    ensures r.Ok? ==> r.value == Gathered(LastManifest(rows), NewestSnapshot(rows), Segments(rows))
  {
    var manifest: Option<Row> := None;
    var snapshot: Option<Row> := None;
    var segments: seq<Row> := [];
    for i := 0 to |rows|
      invariant forall j :: 0 <= j < i ==> RowOk(rows[j])
      invariant manifest == LastManifest(rows[..i]) && snapshot == NewestSnapshot(rows[..i])
      invariant snapshot.Some? ==> snapshot.value.number.Some?
      invariant segments == Segments(rows[..i])
    {
      var row := rows[i];
      assert rows[..i + 1][..i] == rows[..i];
      match row.part {
        case None => return Err(CorruptPart);
        case Some(Manifest) =>
          if !row.isManifestName {
            return Err(CorruptManifestName);
          }
          manifest := Some(row);
        case Some(Snapshot) =>
          if row.number.None? {
            return Err(CorruptSnapshotName);
          }
          if snapshot.None? || row.number.value > snapshot.value.number.value {
            snapshot := Some(row);
          }
        case Some(WalSegment) =>
          if row.number.None? {
            return Err(CorruptSegmentName);
          }
          segments := segments + [row];
      }
    }
    assert rows[..|rows|] == rows;
    r := Ok(Gathered(manifest, snapshot, segments));
  }

  /** Leave out the segments the snapshot wholly covers. */
  method SelectSegments(segments: seq<Row>, covered: nat) returns (kept: seq<Row>)
    ensures kept == KeptFrom(segments, Firsts(segments), 0, covered)
  {
    var firsts := Firsts(segments);
    kept := [];
    for i := 0 to |segments|
      invariant kept + KeptFrom(segments, firsts, i, covered) == KeptFrom(segments, firsts, 0, covered)
    {
      if !WhollyCovered(firsts, i, covered) {
        kept := kept + [segments[i]];
      }
    }
    assert kept + [] == kept;
  }

  /** `restore_set`: the manifest, the segments not wholly covered, the newest
      snapshot. */
  method RestoreSet(rows: seq<Row>) returns (r: Result<seq<(Part, Row)>, ArchiveError>)
    ensures r.Ok? <==> (forall i :: 0 <= i < |rows| ==> RowOk(rows[i])) && LastManifest(rows).Some?
    ensures r.Ok? ==> r.value == RestoreRows(rows, LastManifest(rows).value)
  {
    hide RowOk, LastManifest, NewestSnapshot, Segments, SortByFirst, KeptFrom;
    var gathered := Gather(rows);
    if gathered.Err? {
      return Err(gathered.error);
    }
    var Gathered(manifest, snapshot, segments) := gathered.value;
    if manifest.None? {
      return Err(NoManifest);
    }
    var kept := SelectSegments(SortByFirst(segments), if snapshot.Some? then FirstOf(snapshot.value) else 0);
    r := Ok([(Manifest, manifest.value)] + AsSegments(kept) + if snapshot.Some? then [(Part.Snapshot, snapshot.value)]
            else []);
  }

  /** The newest snapshot is one of the rows, and none is newer. */
  lemma {:induction false} NewestIsNewest(rows: seq<Row>)
    requires forall i :: 0 <= i < |rows| ==> RowOk(rows[i])
    ensures var newest := NewestSnapshot(rows);
            && (newest.Some? ==>
                 newest.value in rows && newest.value.part == Some(Part.Snapshot)
                 && newest.value.number.Some?)
            && (newest.None? ==> forall x :: x in rows ==> x.part != Some(Part.Snapshot))
            && (newest.Some? ==> forall x ::
                 x in rows && x.part == Some(Part.Snapshot)
                 ==> FirstOf(x) <= FirstOf(newest.value))
    decreases |rows|
  {
    if rows != [] {
      NewestIsNewest(rows[..|rows| - 1]);
      assert rows == rows[..|rows| - 1] + [rows[|rows| - 1]];
      assert RowOk(rows[|rows| - 1]);
    }
  }

  ghost predicate Rising(firsts: seq<nat>) {
    forall a, b :: 0 <= a < b < |firsts| ==> firsts[a] <= firsts[b]
  }

  /** Restored segments are a suffix of the archived ones in order: each omitted
      one ends at or below the snapshot, and what is kept starts no later than
      the entry after it, so every later entry is restored. */
  lemma {:induction false} KeptIsSuffix(segments: seq<Row>, firsts: seq<nat>, i: nat, covered: nat) returns (k: nat)
    requires |firsts| == |segments| && i < |segments| && Rising(firsts)
    ensures i <= k < |segments| && KeptFrom(segments, firsts, i, covered) == segments[k..]
    ensures i < k ==> firsts[k] <= covered + 1
    ensures k + 1 < |segments| ==> firsts[k + 1] > covered + 1
    decreases |segments| - i
  {
    hide Rising;
    if WhollyCovered(firsts, i, covered) {
      k := KeptIsSuffix(segments, firsts, i + 1, covered);
    } else {
      k := i;
      StopsForGood(firsts, i, covered);
      NoneCovered(segments, firsts, i, covered);
    }
  }

  lemma StopsForGood(firsts: seq<nat>, i: nat, covered: nat)
    requires Rising(firsts) && !WhollyCovered(firsts, i, covered)
    ensures forall j :: i <= j ==> !WhollyCovered(firsts, j, covered)
  {
    forall j | i <= j
      ensures !WhollyCovered(firsts, j, covered)
    {
      if i < j && j + 1 < |firsts| {
        assert firsts[i + 1] <= firsts[j + 1];
      }
    }
  }

  lemma {:induction false} NoneCovered(segments: seq<Row>, firsts: seq<nat>, i: nat, covered: nat)
    requires |firsts| == |segments| && i <= |segments|
    requires forall j :: i <= j ==> !WhollyCovered(firsts, j, covered)
    ensures KeptFrom(segments, firsts, i, covered) == segments[i..]
    decreases |segments| - i
  {
    hide WhollyCovered;
    if i < |segments| {
      NoneCovered(segments, firsts, i + 1, covered);
    }
  }

  /** What `restore_set` returns: the segments it restores are those of the
      sorted rows from the last one that starts at or before the entry after
      the newest snapshot, and no earlier. */
  lemma RestoredSegments(rows: seq<Row>) returns (k: nat)
    requires Segments(rows) != []
    ensures var sorted := SortByFirst(Segments(rows));
            && k < |sorted| && InOrder(sorted) && multiset(sorted) == multiset(Segments(rows))
            && KeptFrom(sorted, Firsts(sorted), 0, Covered(rows)) == sorted[k..]
            && (0 < k ==> FirstOf(sorted[k]) <= Covered(rows) + 1)
            && (k + 1 < |sorted| ==> FirstOf(sorted[k + 1]) > Covered(rows) + 1)
  {
    hide SortByFirst, Segments, KeptFrom;
    SortKeeps(Segments(rows));
    var sorted := SortByFirst(Segments(rows));
    assert Rising(Firsts(sorted));
    k := KeptIsSuffix(sorted, Firsts(sorted), 0, Covered(rows));
  }
}
