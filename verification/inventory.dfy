/** The paged object inventory (durability.rs): a walk over a two-level tree of
    hash prefixes that starts at the cursor and stops at the limit. */
module Inventory {
  import opened Words
  import opened TextOrder

  datatype Leaf = Leaf(name: Bytes, isFile: bool, size: nat)
  datatype Second = Second(name: Bytes, isDir: bool, entries: seq<Leaf>)
  datatype First = First(name: Bytes, isDir: bool, seconds: seq<Second>)

  datatype Object = Object(hash: Bytes, size: nat)
  datatype Page = Page(objects: seq<Object>, nextAfter: Option<Bytes>)
  datatype InventoryError = InvalidLimit | MalformedEntry

  const MAX_PAGE := 1000

  predicate IsHex(b: Bytes) {
    forall i :: 0 <= i < |b| ==> 48 <= b[i] <= 57 || 97 <= b[i] <= 102
  }

  /** `.….tmp`, what an interrupted PUT leaves. */
  predicate IsTemporary(name: Bytes) {
    |name| >= 4 && name[0] == 46 && name[|name| - 4..] == [46, 116, 109, 112]
  }

  predicate LeafOk(first: Bytes, second: Bytes, leaf: Leaf) {
    IsTemporary(leaf.name)
    || (leaf.isFile && |leaf.name| == 64 && IsHex(leaf.name) && leaf.name[0..2] == first && leaf.name[2..4] == second)
  }

  predicate EntriesOk(first: Bytes, second: Bytes, entries: seq<Leaf>) {
    forall i :: 0 <= i < |entries| ==> LeafOk(first, second, entries[i])
  }

  predicate SecondOk(first: Bytes, s: Second) {
    s.isDir && |s.name| == 2 && IsHex(s.name) && EntriesOk(first, s.name, s.entries)
  }

  predicate FirstOk(f: First) {
    f.isDir && |f.name| == 2 && IsHex(f.name) && forall j :: 0 <= j < |f.seconds| ==> SecondOk(f.name, f.seconds[j])
  }

  /** Nothing in the namespace is out of place. */
  predicate NamespaceOk(ns: seq<First>) {
    forall i :: 0 <= i < |ns| ==> FirstOk(ns[i])
  }

  // ----- what is stored

  function Stored(leaf: Leaf): seq<Object> {
    if IsTemporary(leaf.name) then [] else [Object(leaf.name, leaf.size)]
  }

  function LeafObjects(entries: seq<Leaf>): seq<Object> {
    if entries == [] then [] else Stored(entries[0]) + LeafObjects(entries[1..])
  }

  function SecondObjects(seconds: seq<Second>): seq<Object> {
    if seconds == [] then [] else LeafObjects(seconds[0].entries) + SecondObjects(seconds[1..])
  }

  /** Every stored object, in the order of the walk. */
  function Listing(ns: seq<First>): seq<Object> {
    if ns == [] then [] else SecondObjects(ns[0].seconds) + Listing(ns[1..])
  }

  predicate Beyond(after: Option<Bytes>, hash: Bytes) {
    after.None? || TextBefore(after.value, hash)
  }

  /** The objects beyond a cursor. */
  function Later(objects: seq<Object>, after: Option<Bytes>): seq<Object> {
    if objects == [] then []
    else (if Beyond(after, objects[0].hash) then [objects[0]] else []) + Later(objects[1..], after)
  }

  /** What a page gathers: the objects so far, and whether one was turned away. */
  datatype Scan = Scan(objects: seq<Object>, more: bool)

  function Fill(objects: seq<Object>, found: seq<Object>, limit: nat): Scan
    requires |objects| <= limit
  {
    if |objects| + |found| <= limit then Scan(objects + found, false)
    else Scan(objects + found[..limit - |objects|], true)
  }

  function PageOf(objects: seq<Object>, after: Option<Bytes>, limit: nat): Page {
    var found := Later(objects, after);
    if |found| <= limit then Page(found, None)
    else Page(found[..limit], if limit == 0 then None else Some(found[limit - 1].hash))
  }

  /** Filling in two goes: the second is skipped once one was turned away. */
  lemma FillTwice(objects: seq<Object>, a: seq<Object>, b: seq<Object>, limit: nat)
    requires |objects| <= limit
    ensures Fill(objects, a, limit).more ==> Fill(objects, a + b, limit) == Fill(objects, a, limit)
    ensures !Fill(objects, a, limit).more ==>
      |Fill(objects, a, limit).objects| <= limit
          && Fill(objects, a + b, limit) == Fill(Fill(objects, a, limit).objects, b, limit)
  {
    assert objects + (a + b) == (objects + a) + b;
    if |objects| + |a| <= limit {
      if limit < |objects| + |a| + |b| {
        assert objects + (a + b)[..limit - |objects|] == (objects + a) + b[..limit - |objects| - |a|];
      }
    } else {
      assert (a + b)[..limit - |objects|] == a[..limit - |objects|];
    }
  }

  lemma {:induction false} LaterAppend(a: seq<Object>, b: seq<Object>, after: Option<Bytes>)
    ensures Later(a + b, after) == Later(a, after) + Later(b, after)
    decreases |a|
  {
    hide Beyond;
    if a == [] {
      assert a + b == b;
    } else {
      LaterAppend(a[1..], b, after);
      LaterCons(a[0], a[1..] + b, after);
      LaterCons(a[0], a[1..], after);
      hide Later;
      assert a + b == [a[0]] + (a[1..] + b) && a == [a[0]] + a[1..];
    }
  }

  lemma LaterCons(x: Object, rest: seq<Object>, after: Option<Bytes>)
    ensures Later([x] + rest, after) == (if Beyond(after, x.hash) then [x] else []) + Later(rest, after)
  {
    hide Beyond;
    assert ([x] + rest)[1..] == rest;
  }

  lemma {:induction false} LaterMember(objects: seq<Object>, after: Option<Bytes>, x: Object)
    ensures x in Later(objects, after) <==> x in objects && Beyond(after, x.hash)
    decreases |objects|
  {
    hide Beyond;
    if objects != [] {
      LaterMember(objects[1..], after, x);
      assert objects == [objects[0]] + objects[1..];
    }
  }

  lemma {:induction false} NoneLater(objects: seq<Object>, after: Option<Bytes>)
    requires forall x :: x in objects ==> !Beyond(after, x.hash)
    ensures Later(objects, after) == []
    decreases |objects|
  {
    hide Beyond;
    if objects != [] {
      NoneLater(objects[1..], after);
    }
  }

  // ----- the walk

  lemma NextLeaf(entries: seq<Leaf>, i: nat, after: Option<Bytes>)
    requires i < |entries|
    ensures Later(LeafObjects(entries[i..]), after)
         == Later(Stored(entries[i]), after) + Later(LeafObjects(entries[i + 1..]), after)
  {
    hide Beyond, Stored;
    assert entries[i..][1..] == entries[i + 1..];
    LaterAppend(Stored(entries[i]), LeafObjects(entries[i + 1..]), after);
  }

  lemma LaterOne(x: Object, after: Option<Bytes>)
    ensures Later([x], after) == if Beyond(after, x.hash) then [x] else []
    ensures Later([], after) == []
  {
    hide Beyond;
    assert [x][1..] == [];
  }

  /** One second-level directory, entry by entry. */
  method ScanEntries(first: Bytes, second: Bytes, entries: seq<Leaf>, after: Option<Bytes>, limit: nat,
                     before: seq<Object>)
    returns (r: Result<Scan, InventoryError>)
    requires |before| <= limit
    ensures EntriesOk(first, second, entries) ==> r == Ok(Fill(before, Later(LeafObjects(entries), after), limit))
    ensures r.Err? ==> !EntriesOk(first, second, entries)
    ensures r.Ok? && !r.value.more ==> |r.value.objects| <= limit
  {
    hide IsHex, IsTemporary, Beyond, Later, LeafObjects;
    var objects := before;
    ghost var goal := Fill(before, Later(LeafObjects(entries), after), limit);
    assert entries[0..] == entries;
    for i := 0 to |entries|
      invariant |objects| <= limit && goal == Fill(objects, Later(LeafObjects(entries[i..]), after), limit)
    {
      var entry := entries[i];
      NextLeaf(entries, i, after);
      LaterOne(Object(entry.name, entry.size), after);
      ghost var rest := Later(LeafObjects(entries[i + 1..]), after);
      if IsTemporary(entry.name) {
        assert [] + rest == rest;
        continue;
      }
      if !entry.isFile || |entry.name| != 64 || !IsHex(entry.name) {
        assert !LeafOk(first, second, entries[i]);
        return Err(MalformedEntry);
      }
      if first != entry.name[0..2] || second != entry.name[2..4] {
        assert !LeafOk(first, second, entries[i]);
        return Err(MalformedEntry);
      }
      if !Beyond(after, entry.name) {
        assert [] + rest == rest;
        continue;
      }
      var found := Object(entry.name, entry.size);
      FillTwice(objects, [found], rest, limit);
      if |objects| == limit {
        assert objects + [found][..0] == objects;
        return Ok(Scan(objects, true));
      }
      objects := objects + [found];
    }
    NothingLeft(entries, after);
    assert objects + [] == objects;
    r := Ok(Scan(objects, false));
  }

  lemma NothingLeft(entries: seq<Leaf>, after: Option<Bytes>)
    ensures Later(LeafObjects(entries[|entries|..]), after) == []
  {
    assert entries[|entries|..] == [];
  }

  // ----- prefix directories before the cursor

  lemma {:induction false} HashesUnder(first: Bytes, second: Bytes, entries: seq<Leaf>, x: Object)
    requires EntriesOk(first, second, entries) && x in LeafObjects(entries)
    ensures |x.hash| == 64 && x.hash[0..2] == first && x.hash[2..4] == second
    decreases |entries|
  {
    hide IsHex, IsTemporary;
    assert LeafOk(first, second, entries[0]);
    if x in LeafObjects(entries[1..]) {
      HashesUnder(first, second, entries[1..], x);
    }
  }

  lemma {:induction false} HashesUnderFirst(f: Bytes, seconds: seq<Second>, x: Object)
    requires (forall j :: 0 <= j < |seconds| ==> SecondOk(f, seconds[j])) && x in SecondObjects(seconds)
    ensures |x.hash| == 64 && x.hash[0..2] == f
    decreases |seconds|
  {
    hide IsHex, EntriesOk;
    assert SecondOk(f, seconds[0]);
    if x in LeafObjects(seconds[0].entries) {
      HashesUnder(f, seconds[0].name, seconds[0].entries, x);
    } else {
      HashesUnderFirst(f, seconds[1..], x);
    }
  }

  /** A hash whose prefix comes before the cursor's comes before the cursor. */
  lemma PrefixBefore(hash: Bytes, cursor: Bytes, n: nat)
    requires n <= |hash| && n <= |cursor| && TextBefore(hash[..n], cursor[..n])
    ensures !TextBefore(cursor, hash)
  {
    hide TextBefore;
    FieldsOrder(hash[..n], cursor[..n], hash[n..], cursor[n..]);
    assert hash == hash[..n] + hash[n..] && cursor == cursor[..n] + cursor[n..];
    NotBoth(hash, cursor);
  }

  /** A cursor is a hash. */
  predicate CursorOk(after: Option<Bytes>) {
    after.Some? ==> |after.value| == 64
  }

  lemma SkippedSecond(first: Bytes, s: Second, after: Option<Bytes>)
    requires SecondOk(first, s) && |first| == 2 && CursorOk(after) && after.Some?
    requires TextBefore(first + s.name, after.value[..4])
    ensures Later(LeafObjects(s.entries), after) == []
  {
    hide TextBefore, IsHex, EntriesOk, LeafObjects, Later;
    forall x | x in LeafObjects(s.entries)
      ensures !Beyond(after, x.hash)
    {
      HashesUnder(first, s.name, s.entries, x);
      assert x.hash[..4] == first + s.name;
      PrefixBefore(x.hash, after.value, 4);
    }
    NoneLater(LeafObjects(s.entries), after);
  }

  lemma SkippedFirst(f: First, after: Option<Bytes>)
    requires FirstOk(f) && CursorOk(after) && after.Some? && TextBefore(f.name, after.value[..2])
    ensures Later(SecondObjects(f.seconds), after) == []
  {
    hide TextBefore, IsHex, SecondOk, SecondObjects, Later;
    forall x | x in SecondObjects(f.seconds)
      ensures !Beyond(after, x.hash)
    {
      HashesUnderFirst(f.name, f.seconds, x);
      assert x.hash[..2] == f.name;
      PrefixBefore(x.hash, after.value, 2);
    }
    NoneLater(SecondObjects(f.seconds), after);
  }

  lemma NextSecond(seconds: seq<Second>, j: nat, after: Option<Bytes>)
    requires j < |seconds|
    ensures Later(SecondObjects(seconds[j..]), after)
         == Later(LeafObjects(seconds[j].entries), after) + Later(SecondObjects(seconds[j + 1..]), after)
  {
    hide Beyond, LeafObjects;
    assert seconds[j..][1..] == seconds[j + 1..];
    LaterAppend(LeafObjects(seconds[j].entries), SecondObjects(seconds[j + 1..]), after);
  }

  lemma NextFirst(ns: seq<First>, i: nat, after: Option<Bytes>)
    requires i < |ns|
    ensures Later(Listing(ns[i..]), after)
            == Later(SecondObjects(ns[i].seconds), after) + Later(Listing(ns[i + 1..]), after)
  {
    hide Beyond, SecondObjects;
    assert ns[i..][1..] == ns[i + 1..];
    LaterAppend(SecondObjects(ns[i].seconds), Listing(ns[i + 1..]), after);
  }

  lemma NoSecondLeft(seconds: seq<Second>, after: Option<Bytes>)
    ensures Later(SecondObjects(seconds[|seconds|..]), after) == []
  {
    assert seconds[|seconds|..] == [];
  }

  lemma NoFirstLeft(ns: seq<First>, after: Option<Bytes>)
    ensures Later(Listing(ns[|ns|..]), after) == []
  {
    assert ns[|ns|..] == [];
  }

  predicate SecondsOk(first: Bytes, seconds: seq<Second>) {
    forall j :: 0 <= j < |seconds| ==> SecondOk(first, seconds[j])
  }

  /** One first-level directory. */
  method ScanSeconds(first: Bytes, seconds: seq<Second>, after: Option<Bytes>, limit: nat, before: seq<Object>)
    returns (r: Result<Scan, InventoryError>)
    requires |before| <= limit && |first| == 2 && CursorOk(after)
    ensures SecondsOk(first, seconds) ==> r == Ok(Fill(before, Later(SecondObjects(seconds), after), limit))
    ensures r.Err? ==> !SecondsOk(first, seconds)
    ensures r.Ok? && !r.value.more ==> |r.value.objects| <= limit
  {
    hide IsHex, Later, LeafObjects, SecondObjects, EntriesOk, TextBefore, Fill;
    var objects := before;
    ghost var goal := Fill(before, Later(SecondObjects(seconds), after), limit);
    assert seconds[0..] == seconds;
    for j := 0 to |seconds|
      invariant |objects| <= limit
      invariant SecondsOk(first, seconds) ==> goal == Fill(objects, Later(SecondObjects(seconds[j..]), after), limit)
    {
      var second := seconds[j];
      if !second.isDir || |second.name| != 2 || !IsHex(second.name) {
        assert !SecondOk(first, seconds[j]);
        return Err(MalformedEntry);
      }
      NextSecond(seconds, j, after);
      ghost var here, rest := Later(LeafObjects(second.entries), after), Later(SecondObjects(seconds[j + 1..]), after);
      if after.Some? && TextBefore(first + second.name, after.value[..4]) {
        if SecondsOk(first, seconds) {
          SkippedSecond(first, second, after);
          assert here + rest == rest;
        }
        continue;
      }
      FillTwice(objects, here, rest, limit);
      r := ScanEntries(first, second.name, second.entries, after, limit, objects);
      if r.Err? {
        assert !SecondOk(first, seconds[j]);
        return;
      }
      if r.value.more {
        return;
      }
      objects := r.value.objects;
    }
    NoSecondLeft(seconds, after);
    FillNothing(objects, limit);
    r := Ok(Scan(objects, false));
  }

  lemma FillNothing(objects: seq<Object>, limit: nat)
    requires |objects| <= limit
    ensures Fill(objects, [], limit) == Scan(objects, false)
  {
    assert objects + [] == objects;
  }

  /** The whole walk. */
  method ScanNamespace(ns: seq<First>, after: Option<Bytes>, limit: nat) returns (r: Result<Scan, InventoryError>)
    requires CursorOk(after)
    ensures NamespaceOk(ns) ==> r == Ok(Fill([], Later(Listing(ns), after), limit))
    ensures r.Err? ==> !NamespaceOk(ns)
  {
    hide IsHex, Later, SecondObjects, Listing, TextBefore, Fill, SecondOk;
    var objects: seq<Object> := [];
    ghost var goal := Fill([], Later(Listing(ns), after), limit);
    assert ns[0..] == ns;
    for i := 0 to |ns|
      invariant |objects| <= limit
      invariant NamespaceOk(ns) ==> goal == Fill(objects, Later(Listing(ns[i..]), after), limit)
    {
      var first := ns[i];
      if !first.isDir || |first.name| != 2 || !IsHex(first.name) {
        assert !FirstOk(ns[i]);
        return Err(MalformedEntry);
      }
      NextFirst(ns, i, after);
      ghost var here, rest := Later(SecondObjects(first.seconds), after), Later(Listing(ns[i + 1..]), after);
      if after.Some? && TextBefore(first.name, after.value[..2]) {
        if NamespaceOk(ns) {
          SkippedFirst(first, after);
          assert here + rest == rest;
        }
        continue;
      }
      FillTwice(objects, here, rest, limit);
      r := ScanSeconds(first.name, first.seconds, after, limit, objects);
      if r.Err? {
        assert !FirstOk(ns[i]);
        return;
      }
      if r.value.more {
        return;
      }
      objects := r.value.objects;
    }
    NoFirstLeft(ns, after);
    FillNothing(objects, limit);
    r := Ok(Scan(objects, false));
  }

  function Capped(limit: nat): nat {
    if limit < MAX_PAGE then limit else MAX_PAGE
  }

  /** `inventory`: skipping the prefix directories before the cursor loses
      nothing; a page holds the first stored objects beyond the cursor. */
  method List(ns: seq<First>, after: Option<Bytes>, limit: nat) returns (r: Result<Page, InventoryError>)
    requires CursorOk(after)
    ensures limit == 0 ==> r == Err(InvalidLimit)
    ensures limit > 0 && NamespaceOk(ns) ==> r == Ok(PageOf(Listing(ns), after, Capped(limit)))
    ensures limit > 0 && r.Err? ==> !NamespaceOk(ns)
  {
    hide Later, Listing, NamespaceOk;
    if limit == 0 {
      return Err(InvalidLimit);
    }
    var scan := ScanNamespace(ns, after, Capped(limit));
    if scan.Err? {
      return Err(scan.error);
    }
    var objects := scan.value.objects;
    var nextAfter := if scan.value.more && objects != [] then Some(objects[|objects| - 1].hash) else None;
    r := Ok(Page(objects, nextAfter));
    if NamespaceOk(ns) {
      assert [] + Later(Listing(ns), after) == Later(Listing(ns), after);
      assert [] + Later(Listing(ns), after)[..Min(Capped(limit), |Later(Listing(ns), after)|)]
          == Later(Listing(ns), after)[..Min(Capped(limit), |Later(Listing(ns), after)|)];
    }
  }

  function Min(a: nat, b: nat): nat { if a <= b then a else b }

  // ----- every page

  /** Entries of each directory in name order, as they are read. */
  ghost predicate Sorted(ns: seq<First>) {
    && (forall i, j :: 0 <= i < j < |ns| ==> TextBefore(ns[i].name, ns[j].name))
    && (forall i :: 0 <= i < |ns| ==> SecondsSorted(ns[i].seconds))
  }

  ghost predicate SecondsSorted(seconds: seq<Second>) {
    && (forall i, j :: 0 <= i < j < |seconds| ==> TextBefore(seconds[i].name, seconds[j].name))
    && (forall i :: 0 <= i < |seconds| ==> LeavesSorted(seconds[i].entries))
  }

  ghost predicate LeavesSorted(entries: seq<Leaf>) {
    forall i, j :: 0 <= i < j < |entries| ==> TextBefore(entries[i].name, entries[j].name)
  }

  ghost predicate Ascending(objects: seq<Object>) {
    forall i, j :: 0 <= i < j < |objects| ==> TextBefore(objects[i].hash, objects[j].hash)
  }

  lemma AscendingJoin(a: seq<Object>, b: seq<Object>)
    requires Ascending(a) && Ascending(b)
    requires forall x, y :: x in a && y in b ==> TextBefore(x.hash, y.hash)
    ensures Ascending(a + b)
  {
    hide TextBefore;
    forall i, j | 0 <= i < j < |a + b|
      ensures TextBefore((a + b)[i].hash, (a + b)[j].hash)
    {
      if i < |a| && j >= |a| {
        assert a[i] in a && b[j - |a|] in b;
      }
    }
  }

  lemma NoneAscend()
    ensures Ascending([])
  {
  }

  lemma {:induction false} LeafNamed(entries: seq<Leaf>, x: Object)
    requires x in LeafObjects(entries)
    ensures exists i :: 0 <= i < |entries| && entries[i].name == x.hash
    decreases |entries|
  {
    hide IsTemporary;
    if x in LeafObjects(entries[1..]) {
      LeafNamed(entries[1..], x);
      var i :| 0 <= i < |entries[1..]| && entries[1..][i].name == x.hash;
      assert entries[i + 1].name == x.hash;
    } else {
      assert x in Stored(entries[0]);
    }
  }

  lemma {:induction false} LeavesAscend(entries: seq<Leaf>)
    requires LeavesSorted(entries)
    ensures Ascending(LeafObjects(entries))
    decreases |entries|
  {
    hide IsTemporary, TextBefore;
    if entries != [] {
      LeavesAscend(entries[1..]);
      forall x, y | x in Stored(entries[0]) && y in LeafObjects(entries[1..])
        ensures TextBefore(x.hash, y.hash)
      {
        LeafNamed(entries[1..], y);
        var i :| 0 <= i < |entries[1..]| && entries[1..][i].name == y.hash;
        assert TextBefore(entries[0].name, entries[i + 1].name);
      }
      AscendingJoin(Stored(entries[0]), LeafObjects(entries[1..]));
    }
  }

  /** Hashes under an earlier prefix come first. */
  lemma PrefixesOrder(x: Bytes, y: Bytes, n: nat)
    requires n <= |x| && n <= |y| && TextBefore(x[..n], y[..n])
    ensures TextBefore(x, y)
  {
    hide TextBefore;
    FieldsOrder(x[..n], y[..n], x[n..], y[n..]);
    assert x == x[..n] + x[n..] && y == y[..n] + y[n..];
  }

  lemma {:induction false} UnderSecond(f: Bytes, seconds: seq<Second>, x: Object)
    requires SecondsOk(f, seconds) && x in SecondObjects(seconds)
    ensures exists j :: 0 <= j < |seconds| && |x.hash| == 64 && x.hash[0..2] == f && x.hash[2..4] == seconds[j].name
    decreases |seconds|
  {
    hide IsHex, EntriesOk;
    assert SecondOk(f, seconds[0]);
    if x in LeafObjects(seconds[0].entries) {
      HashesUnder(f, seconds[0].name, seconds[0].entries, x);
    } else {
      UnderSecond(f, seconds[1..], x);
      var j :| 0 <= j < |seconds[1..]| && |x.hash| == 64 && x.hash[0..2] == f && x.hash[2..4] == seconds[1..][j].name;
      assert seconds[j + 1].name == x.hash[2..4];
    }
  }

  lemma {:induction false} SecondsAscend(f: Bytes, seconds: seq<Second>)
    requires |f| == 2 && SecondsOk(f, seconds) && SecondsSorted(seconds)
    ensures Ascending(SecondObjects(seconds))
    decreases |seconds|
  {
    hide IsHex, EntriesOk, TextBefore, LeafObjects, Ascending, LeavesSorted;
    NoneAscend();
    if seconds != [] {
      var here, rest := seconds[0], seconds[1..];
      assert SecondOk(f, here);
      LeavesAscend(here.entries);
      SecondsAscend(f, rest);
      forall x, y | x in LeafObjects(here.entries) && y in SecondObjects(rest)
        ensures TextBefore(x.hash, y.hash)
      {
        HashesUnder(f, here.name, here.entries, x);
        UnderSecond(f, rest, y);
        var j :| 0 <= j < |rest| && |y.hash| == 64 && y.hash[0..2] == f && y.hash[2..4] == rest[j].name;
        assert TextBefore(here.name, seconds[j + 1].name);
        assert y.hash[..4] == f + rest[j].name && x.hash[..4] == f + here.name;
        Same2(f, here.name, rest[j].name);
        PrefixesOrder(x.hash, y.hash, 4);
      }
      AscendingJoin(LeafObjects(here.entries), SecondObjects(rest));
    }
  }

  lemma Same2(f: Bytes, a: Bytes, b: Bytes)
    requires TextBefore(a, b)
    ensures TextBefore(f + a, f + b)
  {
    hide TextBefore;
    FieldsOrder(f, f, a, b);
  }

  lemma {:induction false} UnderFirst(ns: seq<First>, x: Object)
    requires NamespaceOk(ns) && x in Listing(ns)
    ensures exists i :: 0 <= i < |ns| && |x.hash| == 64 && x.hash[0..2] == ns[i].name
    decreases |ns|
  {
    hide IsHex, SecondOk;
    assert FirstOk(ns[0]);
    if x in SecondObjects(ns[0].seconds) {
      HashesUnderFirst(ns[0].name, ns[0].seconds, x);
    } else {
      UnderFirst(ns[1..], x);
      var i :| 0 <= i < |ns[1..]| && |x.hash| == 64 && x.hash[0..2] == ns[1..][i].name;
      assert ns[i + 1].name == x.hash[0..2];
    }
  }

  /** The walk meets the stored hashes in ascending order, so each once. */
  lemma {:induction false} ListingAscends(ns: seq<First>)
    requires NamespaceOk(ns) && Sorted(ns)
    ensures Ascending(Listing(ns))
    decreases |ns|
  {
    hide IsHex, SecondOk, TextBefore, SecondObjects, Ascending, SecondsSorted;
    NoneAscend();
    if ns != [] {
      var here, rest := ns[0], ns[1..];
      assert FirstOk(here);
      SecondsAscend(here.name, here.seconds);
      ListingAscends(rest);
      forall x, y | x in SecondObjects(here.seconds) && y in Listing(rest)
        ensures TextBefore(x.hash, y.hash)
      {
        HashesUnderFirst(here.name, here.seconds, x);
        UnderFirst(rest, y);
        var i :| 0 <= i < |rest| && |y.hash| == 64 && y.hash[0..2] == rest[i].name;
        assert TextBefore(here.name, ns[i + 1].name);
        assert y.hash[..2] == rest[i].name && x.hash[..2] == here.name;
        PrefixesOrder(x.hash, y.hash, 2);
      }
      AscendingJoin(SecondObjects(here.seconds), Listing(rest));
    }
  }

  lemma {:induction false} AllLater(objects: seq<Object>, after: Option<Bytes>)
    requires forall x :: x in objects ==> Beyond(after, x.hash)
    ensures Later(objects, after) == objects
    decreases |objects|
  {
    hide Beyond;
    if objects != [] {
      AllLater(objects[1..], after);
      assert objects == [objects[0]] + objects[1..];
    }
  }

  /** A cursor further on sees what is beyond it of what the earlier one saw. */
  lemma {:induction false} LaterTwice(objects: seq<Object>, after: Option<Bytes>, cursor: Bytes)
    requires Beyond(after, cursor)
    ensures Later(Later(objects, after), Some(cursor)) == Later(objects, Some(cursor))
    decreases |objects|
  {
    hide TextBefore;
    if objects != [] {
      LaterTwice(objects[1..], after, cursor);
      var x := objects[0];
      if after.Some? && TextBefore(cursor, x.hash) {
        Transitive(after.value, cursor, x.hash);
      }
      if Beyond(after, x.hash) {
        assert Later(objects, after) == [x] + Later(objects[1..], after);
        assert ([x] + Later(objects[1..], after))[1..] == Later(objects[1..], after);
      } else {
        assert Later(objects, after) == Later(objects[1..], after);
      }
    }
  }

  /** The next page starts right behind this one. */
  lemma NextPage(objects: seq<Object>, after: Option<Bytes>, limit: nat)
    requires Ascending(objects) && 0 < limit <= |Later(objects, after)|
    ensures Later(objects, Some(Later(objects, after)[limit - 1].hash)) == Later(objects, after)[limit..]
  {
    hide TextBefore, Later;
    var found := Later(objects, after);
    var cursor := found[limit - 1].hash;
    LaterAscends(objects, after);
    LaterMember(objects, after, found[limit - 1]);
    LaterTwice(objects, after, cursor);
    assert found == found[..limit] + found[limit..];
    LaterAppend(found[..limit], found[limit..], Some(cursor));
    forall x | x in found[..limit]
      ensures !Beyond(Some(cursor), x.hash)
    {
      NotBoth(x.hash, cursor);
    }
    NoneLater(found[..limit], Some(cursor));
    AllLater(found[limit..], Some(cursor));
  }

  lemma {:induction false} LaterAscends(objects: seq<Object>, after: Option<Bytes>)
    requires Ascending(objects)
    ensures Ascending(Later(objects, after))
    decreases |objects|
  {
    hide TextBefore, Beyond;
    if objects != [] {
      LaterAscends(objects[1..], after);
      forall y | y in Later(objects[1..], after)
        ensures TextBefore(objects[0].hash, y.hash)
      {
        LaterMember(objects[1..], after, y);
        var i :| 0 <= i < |objects[1..]| && objects[1..][i] == y;
        assert TextBefore(objects[0].hash, objects[i + 1].hash);
      }
      if Beyond(after, objects[0].hash) {
        AscendingJoin([objects[0]], Later(objects[1..], after));
      } else {
        assert Later(objects, after) == Later(objects[1..], after);
      }
    }
  }

  lemma NoCursor(objects: seq<Object>)
    ensures Later(objects, None) == objects
  {
    AllLater(objects, None);
  }

  /** Following `next_after` from none, at any limit, lists every stored hash
      exactly once in ascending order and stops. */
  method ListAll(ns: seq<First>, limit: nat) returns (all: seq<Object>)
    requires NamespaceOk(ns) && Sorted(ns) && 0 < limit
    ensures all == Listing(ns) && Ascending(all)
  {
    hide Later, Listing, NamespaceOk, Sorted, Ascending, PageOf, Capped;
    all := [];
    var after: Option<Bytes> := None;
    ListingAscends(ns);
    NoCursor(Listing(ns));
    assert [] + Listing(ns) == Listing(ns);
    while true
      invariant CursorOk(after)
      invariant all + Later(Listing(ns), after) == Listing(ns)
      decreases |Later(Listing(ns), after)|
    {
      CappedPositive(limit);
      var page := List(ns, after, limit);
      PageStep(ns, after, Capped(limit));
      all := all + page.value.objects;
      if page.value.nextAfter.None? {
        break;
      }
      after := page.value.nextAfter;
    }
  }

  lemma CappedPositive(limit: nat)
    requires limit > 0
    ensures Capped(limit) > 0
  {
  }

  /** A page and what is left beyond its cursor make up what was left before. */
  lemma PageStep(ns: seq<First>, after: Option<Bytes>, limit: nat)
    requires NamespaceOk(ns) && Ascending(Listing(ns)) && limit > 0
    ensures var page := PageOf(Listing(ns), after, limit);
            && CursorOk(page.nextAfter)
            && (page.nextAfter.None? ==> page.objects == Later(Listing(ns), after))
            && (page.nextAfter.Some? ==>
                  && page.objects + Later(Listing(ns), page.nextAfter) == Later(Listing(ns), after)
                  && |Later(Listing(ns), page.nextAfter)| < |Later(Listing(ns), after)|)
  {
    hide Later, Listing, NamespaceOk, Ascending;
    var found := Later(Listing(ns), after);
    if |found| > limit {
      NextPage(Listing(ns), after, limit);
      CursorFromListing(ns, after, found[limit - 1]);
      assert found == found[..limit] + found[limit..];
    }
  }

  lemma CursorFromListing(ns: seq<First>, after: Option<Bytes>, x: Object)
    requires NamespaceOk(ns) && x in Later(Listing(ns), after)
    ensures |x.hash| == 64
  {
    hide NamespaceOk, Listing, Later;
    LaterMember(Listing(ns), after, x);
    UnderFirst(ns, x);
  }
}
