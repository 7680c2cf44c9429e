/** Renumbering live slots by a strictly increasing map does not change what an
    exact search names: two states with the same rows rank the same keys in the
    same order, for every query and every filter carried through the map. */
module CompactionRank {
  import opened Words
  import WalCodec
  import opened LogFold
  import opened PartitionState
  import opened Compaction
  import opened Rank
  import opened Heuristic
  import opened Graph
  import Hnsw

  ghost predicate Increasing(list: seq<nat>) {
    forall i, j :: 0 <= i < j < |list| ==> list[i] < list[j]
  }

  ghost function Members(list: seq<nat>): set<nat> {
    set x | x in list
  }

  /** Position by position, the two lists of slots have the same distances and
      the same answer from their filters. */
  ghost predicate Carried(a: seq<nat>, b: seq<nat>, pa: nat -> bool, pb: nat -> bool, da: nat -> real,
                          db: nat -> real)
  {
    && |a| == |b| && Increasing(a) && Increasing(b)
    && forall i :: 0 <= i < |a| ==> pa(a[i]) == pb(b[i]) && da(a[i]) == db(b[i])
  }

  /** A hit of the first list under its number in the second. */
  ghost function Carry(a: seq<nat>, b: seq<nat>, h: Hit): Hit
    requires |a| == |b|
  {
    if h.id in a then Hit(h.distance, b[IndexOf(a, h.id)]) else h
  }

  ghost function CarryAll(a: seq<nat>, b: seq<nat>, r: seq<Hit>): (s: seq<Hit>)
    requires |a| == |b|
    ensures |s| == |r|
  {
    seq(|r|, i requires 0 <= i < |r| => Carry(a, b, r[i]))
  }

  /** Carrying keeps the rank order. */
  lemma CarryOrder(a: seq<nat>, b: seq<nat>, g: Hit, h: Hit)
    requires |a| == |b| && Increasing(a) && Increasing(b) && g.id in a && h.id in a
    ensures Before(Carry(a, b, g), Carry(a, b, h)) <==> Before(g, h)
    ensures Carry(a, b, g) == Carry(a, b, h) <==> g == h
  {
    var i, j := IndexOf(a, g.id), IndexOf(a, h.id);
    assert a[i] == g.id && a[j] == h.id;
    assert i < j ==> a[i] < a[j] && b[i] < b[j];
    assert j < i ==> a[j] < a[i] && b[j] < b[i];
  }

  /** Carrying maps the pool of the first list onto that of the second. */
  lemma CarryPool(a: seq<nat>, b: seq<nat>, pa: nat -> bool, pb: nat -> bool, da: nat -> real, db: nat -> real, h: Hit)
    requires Carried(a, b, pa, pb, da, db)
    ensures h in Pool(Members(a), pa, da) ==> h.id in a && Carry(a, b, h) in Pool(Members(b), pb, db)
  {
    PoolMember(Members(a), pa, da, h);
    if h in Pool(Members(a), pa, da) {
      var i := IndexOf(a, h.id);
      assert a[i] == h.id && b[i] in b;
      PoolMember(Members(b), pb, db, Carry(a, b, h));
    }
  }

  lemma CarryBack(a: seq<nat>, b: seq<nat>, pa: nat -> bool, pb: nat -> bool, da: nat -> real, db: nat -> real, y: Hit)
    requires Carried(a, b, pa, pb, da, db) && y in Pool(Members(b), pb, db)
    ensures exists h :: h in Pool(Members(a), pa, da) && Carry(a, b, h) == y
  {
    PoolMember(Members(b), pb, db, y);
    var i := IndexOf(b, y.id);
    assert b[i] == y.id;
    IndexOfAt(a, i);
    var h := Hit(da(a[i]), a[i]);
    assert a[i] in Members(a);
    PoolMember(Members(a), pa, da, h);
    assert Carry(a, b, h) == y;
  }

  lemma SizeFrom(a: seq<nat>, b: seq<nat>, pa: nat -> bool, pb: nat -> bool, da: nat -> real, db: nat -> real)
    requires Carried(a, b, pa, pb, da, db)
    ensures |Pool(Members(a), pa, da)| == |Pool(Members(b), pb, db)|
  {
    PoolSize(Members(a), pa, da);
    PoolSize(Members(b), pb, db);
    AcceptedPositions(a, pa, |a|);
    AcceptedPositions(b, pb, |b|);
    assert Positions(a, pa, |a|) == Positions(b, pb, |b|);
    assert a[..|a|] == a && b[..|b|] == b;
  }

  ghost function Positions(a: seq<nat>, pa: nat -> bool, n: nat): set<nat>
    requires n <= |a|
  {
    set i: nat | i < n && pa(a[i])
  }

  lemma OneMorePosition(a: seq<nat>, pa: nat -> bool, n: nat)
    requires 0 < n <= |a|
    ensures Positions(a, pa, n) == Positions(a, pa, n - 1) + if pa(a[n - 1]) then {n - 1} else {}
    ensures n - 1 !in Positions(a, pa, n - 1)
  {
  }

  lemma OneMoreAccepted(a: seq<nat>, pa: nat -> bool, n: nat)
    requires Increasing(a) && 0 < n <= |a|
    ensures Accepted(Members(a[..n]), pa) == Accepted(Members(a[..n - 1]), pa) + if pa(a[n - 1]) then {a[n - 1]} else {}
    ensures a[n - 1] !in Accepted(Members(a[..n - 1]), pa)
  {
    assert a[..n] == a[..n - 1] + [a[n - 1]];
  }

  /** As many slots are accepted as positions are. */
  lemma {:induction false} AcceptedPositions(a: seq<nat>, pa: nat -> bool, n: nat)
    requires Increasing(a) && n <= |a|
    ensures |Accepted(Members(a[..n]), pa)| == |Positions(a, pa, n)|
  {
    hide Accepted, Positions, Members, Increasing;
    if n == 0 {
      NoneAccepted(a, pa);
    } else {
      AcceptedPositions(a, pa, n - 1);
      OneMorePosition(a, pa, n);
      OneMoreAccepted(a, pa, n);
      OneLarger(Positions(a, pa, n - 1), Positions(a, pa, n), n - 1, pa(a[n - 1]));
      OneLarger(Accepted(Members(a[..n - 1]), pa), Accepted(Members(a[..n]), pa), a[n - 1], pa(a[n - 1]));
    }
  }

  lemma NoneAccepted(a: seq<nat>, pa: nat -> bool)
    ensures Accepted(Members(a[..0]), pa) == {} == Positions(a, pa, 0)
  {
  }

  lemma OneLarger(s: set<nat>, t: set<nat>, x: nat, more: bool)
    requires x !in s && t == s + if more then {x} else {}
    ensures |t| == |s| + if more then 1 else 0
  {
  }

  /** The carried list of a top-k list is the top-k list of the other pool. */
  lemma CarriedTopK(a: seq<nat>, b: seq<nat>, pa: nat -> bool, pb: nat -> bool, da: nat -> real, db: nat -> real,
                    k: nat, r: seq<Hit>)
    requires Carried(a, b, pa, pb, da, db) && IsTopK(Pool(Members(a), pa, da), k, r)
    ensures IsTopK(Pool(Members(b), pb, db), k, CarryAll(a, b, r))
  {
    hide Carried, Pool, Carry;
    Lists(a, b, pa, pb, da, db);
    var pool, other, s := Pool(Members(a), pa, da), Pool(Members(b), pb, db), CarryAll(a, b, r);
    forall i | 0 <= i < |r|
      ensures r[i].id in a && s[i] in other && r[i] in pool
    {
      assert r[i] in multiset(r);
      CarryPool(a, b, pa, pb, da, db, r[i]);
    }
    CarriedSorted(a, b, r);
    CarriedWithin(a, b, pa, pb, da, db, r);
    SizeFrom(a, b, pa, pb, da, db);
    forall x, y | x in s && y in other - multiset(s)
      ensures !Before(y, x)
    {
      RanksAfter(a, b, pa, pb, da, db, k, r, x, y);
    }
  }

  lemma CarriedSorted(a: seq<nat>, b: seq<nat>, r: seq<Hit>)
    requires |a| == |b| && Increasing(a) && Increasing(b) && Sorted(r) && forall i :: 0 <= i < |r| ==> r[i].id in a
    ensures Sorted(CarryAll(a, b, r))
  {
    hide Before, Carry;
    var s := CarryAll(a, b, r);
    forall i, j | 0 <= i < j < |s|
      ensures !Before(s[j], s[i])
    {
      CarryOrder(a, b, r[j], r[i]);
    }
  }

  lemma RanksAfter(a: seq<nat>, b: seq<nat>, pa: nat -> bool, pb: nat -> bool, da: nat -> real, db: nat -> real, k: nat,
                   r: seq<Hit>, x: Hit, y: Hit)
    requires Carried(a, b, pa, pb, da, db) && IsTopK(Pool(Members(a), pa, da), k, r)
    requires forall i :: 0 <= i < |r| ==> r[i].id in a
    requires x in CarryAll(a, b, r) && y in Pool(Members(b), pb, db) - multiset(CarryAll(a, b, r))
    ensures !Before(y, x)
  {
    hide Carried, Pool, Carry, Before;
    Lists(a, b, pa, pb, da, db);
    var s := CarryAll(a, b, r);
    var i :| 0 <= i < |s| && s[i] == x;
    OutsideCarried(a, b, pa, pb, da, db, r, y);
    var h :| h in Pool(Members(a), pa, da) - multiset(r) && h.id in a && Carry(a, b, h) == y;
    CarryOrder(a, b, h, r[i]);
    assert r[i] in r;
  }

  lemma Lists(a: seq<nat>, b: seq<nat>, pa: nat -> bool, pb: nat -> bool, da: nat -> real, db: nat -> real)
    requires Carried(a, b, pa, pb, da, db)
    ensures |a| == |b| && Increasing(a) && Increasing(b)
  {
  }

  /** The carried hits are distinct members of the other pool. */
  lemma CarriedWithin(a: seq<nat>, b: seq<nat>, pa: nat -> bool, pb: nat -> bool, da: nat -> real, db: nat -> real,
                      r: seq<Hit>)
    requires Carried(a, b, pa, pb, da, db) && multiset(r) <= Pool(Members(a), pa, da)
    ensures multiset(CarryAll(a, b, r)) <= Pool(Members(b), pb, db)
  {
    hide Carry, Pool;
    var other, s := Pool(Members(b), pb, db), CarryAll(a, b, r);
    Hnsw.PoolIds(r, Members(a), pa, da);
    forall i | 0 <= i < |r|
      ensures r[i].id in a && s[i] in other
    {
      assert r[i] in multiset(r);
      CarryPool(a, b, pa, pb, da, db, r[i]);
    }
    forall i, j | 0 <= i < j < |s|
      ensures Ids(s)[i] != Ids(s)[j]
    {
      assert Ids(r)[i] != Ids(r)[j];
      DifferentSlots(a, b, r[i], r[j]);
    }
    forall h: Hit
      ensures multiset(s)[h] <= other[h]
    {
      Hnsw.OncePlaced(s, h);
      if h in multiset(s) {
        assert h in s;
      }
    }
  }

  lemma DifferentSlots(a: seq<nat>, b: seq<nat>, g: Hit, h: Hit)
    requires |a| == |b| && Increasing(a) && Increasing(b) && g.id in a && h.id in a && g.id != h.id
    ensures Carry(a, b, g).id != Carry(a, b, h).id
  {
    CarryOrder(a, b, Hit(0.0, g.id), Hit(0.0, h.id));
  }

  /** What the carried list leaves out comes from what the list left out. */
  lemma OutsideCarried(a: seq<nat>, b: seq<nat>, pa: nat -> bool, pb: nat -> bool, da: nat -> real, db: nat -> real,
                       r: seq<Hit>, y: Hit)
    requires Carried(a, b, pa, pb, da, db) && multiset(r) <= Pool(Members(a), pa, da)
    requires y in Pool(Members(b), pb, db) - multiset(CarryAll(a, b, r))
    ensures exists h :: h in Pool(Members(a), pa, da) - multiset(r) && h.id in a && Carry(a, b, h) == y
  {
    hide Carry, Carried;
    Lists(a, b, pa, pb, da, db);
    var pool, s := Pool(Members(a), pa, da), CarryAll(a, b, r);
    CarryBack(a, b, pa, pb, da, db, y);
    var h :| h in pool && Carry(a, b, h) == y;
    CarryPool(a, b, pa, pb, da, db, h);
    PoolOnce(Members(b), pb, db, y);
    CarriedPresent(a, b, r, h);
    assert h !in multiset(r);
  }

  lemma CarriedPresent(a: seq<nat>, b: seq<nat>, r: seq<Hit>, h: Hit)
    requires |a| == |b|
    ensures h in multiset(r) ==> Carry(a, b, h) in multiset(CarryAll(a, b, r))
  {
    hide Carry;
    if h in multiset(r) {
      var i :| 0 <= i < |r| && r[i] == h;
      assert CarryAll(a, b, r)[i] == Carry(a, b, h);
    }
  }

  lemma PoolOnce(s: set<nat>, accepts: nat -> bool, dist: nat -> real, h: Hit)
    ensures Pool(s, accepts, dist)[h] <= 1
  {
  }

  /** Exact search over two states with the same rows, whatever their slot
      numbers: same length, and place by place the same row, the same key and
      the same distance. */
  lemma SameRowsSameRanking(a: Mem, b: Mem, metric: (Vector, Vector) -> real, query: Vector, k: nat, pa: nat -> bool,
                            pb: nat -> bool, ra: seq<Hit>, rb: seq<Hit>)
    requires RepOk(a) && RepOk(b) && Abs(a).rows == Abs(b).rows
    requires forall i :: 0 <= i < |LiveSlots(a)| && i < |LiveSlots(b)| ==> pa(LiveSlots(a)[i]) == pb(LiveSlots(b)[i])
    requires IsTopK(Pool(Members(LiveSlots(a)), pa, Hnsw.From(metric, a.vectors, query)), k, ra)
    requires IsTopK(Pool(Members(LiveSlots(b)), pb, Hnsw.From(metric, b.vectors, query)), k, rb)
    ensures |ra| == |rb|
    ensures forall j :: 0 <= j < |ra| ==>
      && ra[j].id < |a.slots| && rb[j].id < |b.slots| && ra[j].distance == rb[j].distance
      && RowAt(a, ra[j].id) == RowAt(b, rb[j].id)
  {
    hide IsTopK, Pool, RepOk, LiveBelow, Carry;
    var la, lb := LiveSlots(a), LiveSlots(b);
    var da, db := Hnsw.From(metric, a.vectors, query), Hnsw.From(metric, b.vectors, query);
    SameRows(a, b, metric, query, pa, pb);
    CarriedTopK(la, lb, pa, pb, da, db, k, ra);
    TopKUnique(Pool(Members(lb), pb, db), k, CarryAll(la, lb, ra), rb);
    forall j | 0 <= j < |ra|
      ensures ra[j].id < |a.slots| && rb[j].id < |b.slots| && ra[j].distance == rb[j].distance
              && RowAt(a, ra[j].id) == RowAt(b, rb[j].id)
    {
      TopKMember(Pool(Members(la), pa, da), k, ra, j);
      CarryPool(la, lb, pa, pb, da, db, ra[j]);
      CarriedRow(a, b, ra[j]);
    }
  }

  lemma TopKMember(all: multiset<Hit>, k: nat, r: seq<Hit>, j: nat)
    requires IsTopK(all, k, r) && j < |r|
    ensures r[j] in all
  {
    assert r[j] in multiset(r);
  }

  lemma SameRows(a: Mem, b: Mem, metric: (Vector, Vector) -> real, query: Vector, pa: nat -> bool, pb: nat -> bool)
    requires RepOk(a) && RepOk(b) && Abs(a).rows == Abs(b).rows
    requires forall i :: 0 <= i < |LiveSlots(a)| && i < |LiveSlots(b)| ==> pa(LiveSlots(a)[i]) == pb(LiveSlots(b)[i])
    ensures InRange(a) && InRange(b)
    ensures Carried(LiveSlots(a), LiveSlots(b), pa, pb, Hnsw.From(metric, a.vectors, query),
                    Hnsw.From(metric, b.vectors, query))
  {
    hide RowsBelow, LiveBelow;
    RowsByLive(a, |a.slots|);
    RowsByLive(b, |b.slots|);
    var la, lb := LiveSlots(a), LiveSlots(b);
    forall i | 0 <= i < |la|
      ensures Hnsw.From(metric, a.vectors, query)(la[i]) == Hnsw.From(metric, b.vectors, query)(lb[i])
    {
      assert Abs(a).rows[i] == RowAt(a, la[i]) && Abs(b).rows[i] == RowAt(b, lb[i]);
    }
  }

  lemma CarriedRow(a: Mem, b: Mem, h: Hit)
    requires RepOk(a) && RepOk(b) && Abs(a).rows == Abs(b).rows && h.id in LiveSlots(a)
             && |LiveSlots(a)| == |LiveSlots(b)|
    ensures h.id < |a.slots| && Carry(LiveSlots(a), LiveSlots(b), h).id < |b.slots|
    ensures Carry(LiveSlots(a), LiveSlots(b), h).distance == h.distance
    ensures InRange(a) && InRange(b) && RowAt(a, h.id) == RowAt(b, Carry(LiveSlots(a), LiveSlots(b), h).id)
  {
    hide RowsBelow, LiveBelow;
    RowsByLive(a, |a.slots|);
    RowsByLive(b, |b.slots|);
    var i := IndexOf(LiveSlots(a), h.id);
    assert Abs(a).rows[i] == RowAt(a, LiveSlots(a)[i]) && Abs(b).rows[i] == RowAt(b, LiveSlots(b)[i]);
  }

  /** A compaction captured at `m` and caught up over any entries ranks as the
      partition that applied the same entries without compacting. */
  lemma CompactionKeepsRanking(m: Mem, norm: Vector -> Vector, capacity: nat, entries: seq<WalCodec.Entry>,
                               metric: (Vector, Vector) -> real, query: Vector, k: nat, pa: nat -> bool,
                                   pb: nat -> bool, ra: seq<Hit>, rb: seq<Hit>)
    requires RepOk(m) && WindowOk(m.window, capacity)
    requires var a, b := Replay(m, norm, capacity, entries), Replay(Staged(m, capacity), norm, capacity, entries);
             && (forall i ::
                  0 <= i < |LiveSlots(a)| && i < |LiveSlots(b)|
                  ==> pa(LiveSlots(a)[i]) == pb(LiveSlots(b)[i]))
             && IsTopK(Pool(Members(LiveSlots(a)), pa, Hnsw.From(metric, a.vectors, query)), k, ra)
             && IsTopK(Pool(Members(LiveSlots(b)), pb, Hnsw.From(metric, b.vectors, query)), k, rb)
    ensures var a, b := Replay(m, norm, capacity, entries), Replay(Staged(m, capacity), norm, capacity, entries);
            && RepOk(a) && RepOk(b) && Abs(a) == Abs(b) && |ra| == |rb|
            && forall j :: 0 <= j < |ra| ==>
                 && ra[j].id < |a.slots| && rb[j].id < |b.slots| && ra[j].distance == rb[j].distance
                 && RowAt(a, ra[j].id) == RowAt(b, rb[j].id)
  {
    hide IsTopK, Pool, Staged, Replay, RowsBelow, LiveBelow, Fold, SlotOk, OwnsSlot;
    StagedMeansSame(m, capacity);
    ReplayRefines(m, norm, capacity, entries);
    ReplayRefines(Staged(m, capacity), norm, capacity, entries);
    SameRowsSameRanking(Replay(m, norm, capacity, entries), Replay(Staged(m, capacity), norm, capacity, entries),
                        metric, query, k, pa, pb, ra, rb);
  }
}
