/** The in-memory HNSW graph (hnsw.rs): flat neighbour arrays written in
    place, tombstones, sequential insertion, and beam search. */
module Hnsw {
  import opened Words
  import opened Rank
  import opened Bits
  import opened Graph
  import opened FlatRows
  import opened VisitedSet
  import opened Heuristic
  import opened InLinks

  /** `vectors.get(slot)` read as a distance from `query`. */
  function From(metric: (Vector, Vector) -> real, vectors: seq<Vector>, query: Vector): nat -> real {
    (s: nat) => if s < |vectors| then metric(query, vectors[s]) else 0.0
  }

  function Between(metric: (Vector, Vector) -> real, vectors: seq<Vector>): (nat, nat) -> real {
    (a: nat, b: nat) => if a < |vectors| && b < |vectors| then metric(vectors[a], vectors[b]) else 0.0
  }

  /** A live slot the caller's filter admits. */
  function LiveAnd(words: seq<bv64>, allow: nat -> bool): nat -> bool {
    (s: nat) => !InWords(words, s) && allow(s)
  }

  lemma LastStep(g: Links, l: nat, p: seq<nat>)
    requires Path(g, l, p) && |p| > 1
    ensures OnLevel(g, p[|p| - 2], l) && p[|p| - 1] in g[p[|p| - 2]][l]
  {
    assert p[(|p| - 2) + 1] in g[p[|p| - 2]][l];
  }

  lemma NotReachable(g: Links, l: nat, entries: seq<nat>, x: nat)
    requires x !in entries
    requires forall s :: OnLevel(g, s, l) ==> x !in g[s][l]
    ensures x !in Reachable(g, l, entries)
  {
    if x in Reachable(g, l, entries) {
      var p :| Path(g, l, p) && p[0] in entries && p[|p| - 1] == x;
      if |p| > 1 {
        LastStep(g, l, p);
      }
    }
  }

  lemma Twice(r: seq<Hit>, i: nat, j: nat)
    requires i < j < |r| && r[i] == r[j]
    ensures multiset(r)[r[i]] >= 2
  {
    assert r == r[..j] + [r[j]] + r[j + 1..];
    assert r[..j][i] == r[j];
  }

  /** Hits taken from a pool of distinct slots are hits of distinct slots. */
  lemma PoolIds(r: seq<Hit>, s: set<nat>, accepts: nat -> bool, dist: nat -> real)
    requires multiset(r) <= Pool(s, accepts, dist)
    ensures Distinct(Ids(r))
    ensures forall i :: 0 <= i < |r| ==> r[i].id in s && accepts(r[i].id) && r[i].distance == dist(r[i].id)
  {
    forall i | 0 <= i < |r|
      ensures r[i].id in s && accepts(r[i].id) && r[i] == Hit(dist(r[i].id), r[i].id)
    {
      assert r[i] in multiset(r);
      PoolMember(s, accepts, dist, r[i]);
    }
    forall i, j | 0 <= i < j < |r|
      ensures Ids(r)[i] != Ids(r)[j]
    {
      if r[i].id == r[j].id {
        Twice(r, i, j);
      }
    }
  }

  method PeekBest(heap: multiset<Hit>) returns (b: Hit)
    requires heap != multiset{}
    ensures b in heap && forall y :: y in heap ==> !Before(y, b)
  {
    var sorted := SortByRank(heap);
    b := sorted[0];
    assert forall y :: y in heap ==> y in multiset(sorted);
  }

  /** Push onto the results, then pop the worst when they overflow. */
  method PushBounded(found: multiset<Hit>, ef: nat, hit: Hit, ghost worst: Hit) returns (results: multiset<Hit>)
    requires |found| < ef || (|found| == ef && IsWorst(found, worst) && Before(hit, worst))
    ensures results == AdmitResults(found, ef, worst, hit)
  {
    results := found + multiset{hit};
    if |results| > ef {
      var popped := PeekWorst(results);
      assert worst in results && !Before(popped, worst);
      assert !Before(worst, popped);
      results := results - multiset{popped};
    }
  }

  /** `Far(dist(base, s), s)` for each listed slot. */
  function HitsFrom(pair: (nat, nat) -> real, base: nat, list: seq<nat>): (r: seq<Hit>)
    ensures |r| == |list|
  {
    seq(|list|, i requires 0 <= i < |list| => Hit(pair(base, list[i]), list[i]))
  }

  /** The list of `owner` after linking `slot`: appended while there is room,
      otherwise the heuristic's choice from the old list and `slot`. */
  ghost predicate LinkedBack(pair: (nat, nat) -> real, owner: nat, before: seq<nat>, after: seq<nat>, slot: nat,
                             capacity: nat)
  {
    if |before| < capacity then after == before + [slot]
    else Chooses(HitsFrom(pair, owner, before + [slot]), capacity, pair, after)
  }

  lemma LinkedBackShape(pair: (nat, nat) -> real, owner: nat, before: seq<nat>, after: seq<nat>, slot: nat,
                        capacity: nat)
    requires LinkedBack(pair, owner, before, after, slot, capacity)
    ensures forall x :: x in after ==> x in before || x == slot
    ensures slot in after || |after| == capacity
    ensures Distinct(before) && slot !in before ==> Distinct(after)
  {
    if |before| >= capacity {
      var hits := HitsFrom(pair, owner, before + [slot]);
      assert Ids(hits) == before + [slot];
      ChoosesWhat(hits, capacity, pair, after);
    }
  }

  /** Every listed slot has linked `slot` back. */
  ghost predicate BackLinks(pair: (nat, nat) -> real, g: Links, h: Links, list: seq<nat>, slot: nat, l: nat,
                            capacity: nat)
  {
    forall t :: t in list ==>
      OnLevel(g, t, l) && OnLevel(h, t, l) && LinkedBack(pair, t, g[t][l], h[t][l], slot, capacity)
  }

  /** The slots that rank strictly before `h`. */
  ghost function Nearer(g: Links, dist: nat -> real, h: Hit): set<nat> {
    set s: nat | s < |g| && Before(Hit(dist(s), s), h)
  }

  lemma NearerShrinks(g: Links, dist: nat -> real, closer: Hit, h: Hit)
    requires Before(closer, h) && closer.id < |g| && closer.distance == dist(closer.id)
    ensures Nearer(g, dist, closer) < Nearer(g, dist, h)
  {
    assert closer.id in Nearer(g, dist, h);
    assert closer.id !in Nearer(g, dist, closer);
  }

  /** One list per level, all empty. */
  ghost function EmptyLists(level: nat): seq<seq<nat>> {
    seq(level + 1, _ => [])
  }

  lemma AddRow(g: Links, level: nat)
    requires Closed(g)
    ensures Closed(g + [EmptyLists(level)])
    ensures Unlinked(g + [EmptyLists(level)], |g|, level + 1)
    ensures Simple(g) ==> Simple(g + [EmptyLists(level)])
  {
    var h := g + [EmptyLists(level)];
    forall s, l | OnLevel(h, s, l)
      ensures if s == |g| then h[s][l] == [] else OnLevel(g, s, l) && h[s][l] == g[s][l]
    {
    }
    forall s, l, t | OnLevel(h, s, l) && t in h[s][l]
      ensures OnLevel(h, t, l) && t != |g|
    {
      assert OnLevel(g, s, l) && t in g[s][l];
      assert OnLevel(g, t, l);
    }
    forall s, l | OnLevel(h, s, l)
      ensures |g| !in h[s][l]
    {
      if s < |g| {
        assert OnLevel(g, s, l);
        assert forall t :: t in g[s][l] ==> OnLevel(g, t, l);
      }
    }
  }

  function Max(a: nat, b: nat): nat { if a >= b then a else b }

  /** How a search computes distances during traversal. */
  datatype SearchMode = F32 | Int8(rescore: nat)

  /** `F32` traversal: the shortlist is the `beam` best visited, the hits are the
      `k` best visited, and the `k` best reachable when the beam is wide enough. */
  ghost predicate PromiseF32(reach: set<nat>, k: nat, beam: nat, accepts: nat -> bool, exact: nat -> real,
                             hits: seq<Hit>, seen: set<nat>, shortlist: seq<Hit>)
  {
    && KeepsBest(multiset(shortlist), Pool(seen, accepts, exact), beam)
    && IsTopK(Pool(seen, accepts, exact), k, hits)
    && (|Accepted(reach, accepts)| <= beam ==> IsTopK(Pool(reach, accepts, exact), k, hits))
  }

  /** `Int8` traversal: the shortlist is best by the approximate distance; its
      first `max(rescore, k)` entries are ranked by the exact one. */
  ghost predicate PromiseInt8(reach: set<nat>, k: nat, beam: nat, rescore: nat, accepts: nat -> bool,
                              approximate: nat -> real, exact: nat -> real, hits: seq<Hit>, seen: set<nat>,
                                  shortlist: seq<Hit>)
  {
    && KeepsBest(multiset(shortlist), Pool(seen, accepts, approximate), beam)
    && IsTopK(multiset(Rescored(Prefix(shortlist, Max(rescore, k)), exact)), k, hits)
    && (|Accepted(reach, accepts)| <= Min(beam, Max(rescore, k)) ==> IsTopK(Pool(reach, accepts, exact), k, hits))
  }

  datatype VectorError = WrongDims | NonFinite

  lemma NarrowUnlinked(g: Links, slot: nat, level: nat, top: nat)
    requires Unlinked(g, slot, level + 1) && top <= level
    ensures Unlinked(g, slot, top + 1)
  {
  }

  function Rescored(hits: seq<Hit>, exact: nat -> real): (r: seq<Hit>)
    ensures |r| == |hits|
  {
    seq(|hits|, i requires 0 <= i < |hits| => Hit(exact(hits[i].id), hits[i].id))
  }

  function Prefix<T>(s: seq<T>, n: nat): seq<T> {
    s[..Min(n, |s|)]
  }

  lemma OncePlaced(s: seq<Hit>, h: Hit)
    requires Distinct(Ids(s))
    ensures multiset(s)[h] <= 1
  {
    if multiset(s)[h] >= 2 {
      TwicePlaced(s, h);
    }
  }

  /** Rescoring distinct accepted slots gives hits of the exact pool. */
  lemma RescoredPool(hits: seq<Hit>, s: set<nat>, accepts: nat -> bool, exact: nat -> real)
    requires Distinct(Ids(hits)) && forall i :: 0 <= i < |hits| ==> hits[i].id in s && accepts(hits[i].id)
    ensures multiset(Rescored(hits, exact)) <= Pool(s, accepts, exact)
  {
    var r := Rescored(hits, exact);
    assert Ids(r) == Ids(hits);
    forall h: Hit
      ensures multiset(r)[h] <= Pool(s, accepts, exact)[h]
    {
      OncePlaced(r, h);
      if h in r {
        PoolMember(s, accepts, exact, h);
      } else {
        assert h !in multiset(r);
      }
    }
  }

  /** Construction accepts every slot, tombstoned or not. */
  function All(): nat -> bool {
    (s: nat) => true
  }

  /** A filter by an explicit set of slots. */
  function Only(allowed: set<nat>): nat -> bool {
    (s: nat) => s in allowed
  }

  function IdList(hits: seq<Hit>): (r: seq<nat>)
    ensures r == Ids(hits)
  {
    seq(|hits|, i requires 0 <= i < |hits| => hits[i].id)
  }

  /** The candidates for a new slot are distinct old slots of the level. */
  lemma CandidateFacts(g: Links, lc: nat, slot: nat, entries: seq<nat>, ef: nat, dist: nat -> real,
                       candidates: seq<Hit>, seen: set<nat>)
    requires Unlinked(g, slot, lc + 1) && OnLevel(g, slot, lc) && slot !in entries && entries != [] && 1 <= ef
    requires BeamCertificate(g, lc, entries, ef, dist, All(), multiset(candidates), seen)
    ensures 0 < |candidates| <= ef && Distinct(Ids(candidates))
    ensures forall x :: x in Ids(candidates) ==> OnLevel(g, x, lc) && x != slot && slot !in g[x][lc]
  {
    PoolIds(candidates, seen, All(), dist);
    assert |multiset(candidates)| == |candidates|;
    assert entries[0] in seen;
    PoolMember(seen, All(), dist, Hit(dist(entries[0]), entries[0]));
    NotReachable(g, lc, entries, slot);
    forall x | x in Ids(candidates)
      ensures OnLevel(g, x, lc) && x != slot && slot !in g[x][lc]
    {
      var i :| 0 <= i < |candidates| && candidates[i].id == x;
      assert x in seen;
      ReachableOnLevel(g, lc, entries, x);
    }
  }

  /** Where a greedy walk of one level from `from` stops: at a slot it reaches
      that no neighbour, and not `from` either, ranks before. */
  ghost predicate NoCloser(g: Links, dist: nat -> real, level: nat, from: nat, to: nat) {
    && OnLevel(g, to, level) && to in Reachable(g, level, [from])
    && !Before(Hit(dist(from), from), Hit(dist(to), to))
    && forall t :: t in g[to][level] ==> !Before(Hit(dist(t), t), Hit(dist(to), to))
  }

  /** The stops of a descent from level `high` to above level `low`, one for
      each level between. */
  ghost predicate Descent(g: Links, dist: nat -> real, stops: seq<nat>, high: nat, low: nat) {
    && low <= high && |stops| == high - low + 1
    && forall i :: 0 < i < |stops| ==> NoCloser(g, dist, high - i + 1, stops[i - 1], stops[i])
  }

  ghost predicate Descended(g: Links, dist: nat -> real, from: nat, high: nat, low: nat, landing: nat) {
    exists stops :: Descent(g, dist, stops, high, low) && stops[0] == from && stops[|stops| - 1] == landing
  }

  lemma LandingOnBase(g: Links, dist: nat -> real, from: nat, high: nat, landing: nat)
    requires Descended(g, dist, from, high, 0, landing) && OnLevel(g, from, high)
    ensures OnLevel(g, landing, 0)
  {
    var stops :| Descent(g, dist, stops, high, 0) && stops[0] == from && stops[|stops| - 1] == landing;
    if high > 0 {
      assert NoCloser(g, dist, 1, stops[high - 1], stops[high]);
    }
  }

  lemma SamePool(s: set<nat>, t: set<nat>, accepts: nat -> bool, dist: nat -> real)
    requires Accepted(s, accepts) == Accepted(t, accepts)
    ensures Pool(s, accepts, dist) == Pool(t, accepts, dist)
  {
  }

  /** A link back keeps the graph closed and simple. */
  lemma LinkBackKeeps(g: Links, h: Links, t: nat, slot: nat, l: nat, pair: (nat, nat) -> real, capacity: nat)
    requires Closed(g) && OnLevel(g, t, l) && OnLevel(g, slot, l) && OnLevel(h, t, l)
    requires h == SetList(g, t, l, h[t][l]) && LinkedBack(pair, t, g[t][l], h[t][l], slot, capacity)
    ensures Closed(h)
    ensures Simple(g) && slot !in g[t][l] && t != slot ==> Simple(h)
    ensures slot in h[t][l] || |h[t][l]| == capacity
  {
    hide LinkedBack;
    LinkedBackShape(pair, t, g[t][l], h[t][l], slot, capacity);
    ClosedSet(g, t, l, h[t][l]);
    if Simple(g) && slot !in g[t][l] && t != slot {
      SimpleSet(g, t, l, h[t][l]);
    }
  }

  lemma NoBackLinks(pair: (nat, nat) -> real, g: Links, slot: nat, l: nat, capacity: nat)
    ensures BackLinks(pair, g, g, [], slot, l, capacity)
  {
  }

  lemma BackLinkOneMore(pair: (nat, nat) -> real, g0: Links, g: Links, h: Links, selected: seq<nat>, i: nat, slot: nat,
                        l: nat, capacity: nat)
    requires i < |selected| && Distinct(selected) && BackLinks(pair, g0, g, selected[..i], slot, l, capacity)
    requires OnLevel(g0, selected[i], l) && OnLevel(g, selected[i], l) && OnLevel(h, selected[i], l)
    requires g[selected[i]][l] == g0[selected[i]][l]
    requires h == SetList(g, selected[i], l, h[selected[i]][l])
    requires LinkedBack(pair, selected[i], g[selected[i]][l], h[selected[i]][l], slot, capacity)
    ensures BackLinks(pair, g0, h, selected[..i + 1], slot, l, capacity)
  {
    hide LinkedBack;
    var t := selected[i];
    forall s | s in selected[..i + 1]
      ensures OnLevel(g0, s, l) && OnLevel(h, s, l) && LinkedBack(pair, s, g0[s][l], h[s][l], slot, capacity)
    {
      if s != t {
        assert s in selected[..i];
        SetListAt(g, t, l, h[t][l], s, l);
      }
    }
  }

  lemma JoinedHeights(g1: Links, g: Links, slot: nat, lc: nat, top: nat, m: nat, m0: nat)
    requires Joined(g1, g, slot, lc, top, m, m0)
    ensures forall s, l :: OnLevel(g1, s, l) <==> OnLevel(g, s, l)
  {
  }

  lemma BackLinksBefore(pair: (nat, nat) -> real, g0: Links, g: Links, h: Links, list: seq<nat>, slot: nat, l: nat,
                        capacity: nat)
    requires BackLinks(pair, g, h, list, slot, l, capacity) && OnLevel(g0, slot, l)
    requires g == SetList(g0, slot, l, list) && slot !in list
    ensures BackLinks(pair, g0, h, list, slot, l, capacity)
  {
    hide LinkedBack;
    forall t | t in list
      ensures OnLevel(g0, t, l) && g0[t][l] == g[t][l]
    {
      SetListAt(g0, slot, l, list, t, l);
    }
  }

  lemma SelectsSorted(ranked: seq<Hit>, m: nat, pair: (nat, nat) -> real, selected: seq<nat>)
    requires Selects(ranked, m, pair, selected)
    ensures Sorted(ranked)
  {
  }

  lemma NearestFirst(hits: seq<Hit>, seen: set<nat>, ef: nat, dist: nat -> real)
    requires Sorted(hits) && hits != [] && KeepsBest(multiset(hits), Pool(seen, All(), dist), ef)
    ensures forall s :: s in seen ==> !Before(Hit(dist(s), s), hits[0])
  {
    forall s | s in seen
      ensures !Before(Hit(dist(s), s), hits[0])
    {
      var h := Hit(dist(s), s);
      PoolMember(seen, All(), dist, h);
      if h in multiset(hits) {
        var i :| 0 <= i < |hits| && hits[i] == h;
      } else {
        assert h in Pool(seen, All(), dist) - multiset(hits);
        assert hits[0] in multiset(hits);
      }
    }
  }

  /** What a construction beam found. */
  lemma CandidatesWhat(g: Links, l: nat, entries: seq<nat>, ef: nat, dist: nat -> real, candidates: seq<Hit>,
                       seen: set<nat>)
    requires BeamCertificate(g, l, entries, ef, dist, All(), multiset(candidates), seen)
    requires entries != [] && 1 <= ef && Sorted(candidates)
    ensures |candidates| == Min(ef, |seen|) && candidates != [] && Distinct(Ids(candidates))
    ensures candidates[0].id in seen && candidates[0].distance == dist(candidates[0].id)
    ensures forall s :: s in seen ==> !Before(Hit(dist(s), s), candidates[0])
    ensures |Reachable(g, l, entries)| <= ef ==> seen == Reachable(g, l, entries)
  {
    hide Reachable, Expanded, Pool;
    PoolIds(candidates, seen, All(), dist);
    PoolSize(seen, All(), dist);
    assert Accepted(seen, All()) == seen;
    assert |multiset(candidates)| == |candidates|;
    assert entries[0] in seen;
    NearestFirst(candidates, seen, ef, dist);
    if |Reachable(g, l, entries)| <= ef {
      AllVisited(g, l, entries, ef, dist, multiset(candidates), seen);
    }
  }

  /** A beam that accepts all and stays below its width has visited everything
      it can reach. */
  lemma AllVisited(g: Links, l: nat, entries: seq<nat>, ef: nat, dist: nat -> real, results: multiset<Hit>,
                   seen: set<nat>)
    requires BeamCertificate(g, l, entries, ef, dist, All(), results, seen)
    requires |Reachable(g, l, entries)| <= ef
    ensures seen == Reachable(g, l, entries)
  {
    hide Reachable;
    var reach := Reachable(g, l, entries);
    assert Accepted(reach, All()) == reach && Accepted(seen, All()) == seen;
    PoolSize(seen, All(), dist);
    if |seen| < ef {
      FullCover(results, Pool(seen, All(), dist));
      forall s | s in seen
        ensures Expanded(g, l, s, seen)
      {
        PoolMember(seen, All(), dist, Hit(dist(s), s));
      }
      ClosedHoldsReachable(g, l, entries, seen);
    } else {
      assert reach == seen + (reach - seen) && |reach| == |seen| + |reach - seen|;
    }
  }

  /** Back links depend on the lists of their level alone. */
  lemma SameBackLinks(pair: (nat, nat) -> real, g: Links, h: Links, g': Links, h': Links, list: seq<nat>, slot: nat,
                      l: nat, capacity: nat)
    requires BackLinks(pair, g, h, list, slot, l, capacity) && SameLevel(g, g', l) && SameLevel(h, h', l)
    ensures BackLinks(pair, g', h', list, slot, l, capacity)
  {
    hide LinkedBack;
  }

  /** What a level of an insertion decided on: where its beam entered, the
      candidates it found, and the slots it visited. */
  datatype Choice = Choice(entries: seq<nat>, candidates: seq<Hit>, seen: set<nat>)

  class Index {
    const dims: nat
    const m: nat
    const m0: nat
    const efConstruction: nat
    const metric: (Vector, Vector) -> real
    /** What a row becomes when it is stored: normalized for cosine. */
    const stored: Vector -> Vector

    var vectors: seq<Vector>
    var levels: seq<nat>
    var level0: seq<nat>
    var level0Len: seq<nat>
    var upper: seq<seq<nat>>
    var upperLen: seq<seq<nat>>
    var tombstones: seq<bv64>
    var tombstoneCount: nat
    var entry: Option<nat>
    var maxLevel: nat
    /** The slots whose tombstone bit is set. */
    ghost var dead: set<nat>
    /** The neighbour lists the flat arrays hold. */
    ghost var links: Links

    function Capacity(level: nat): nat {
      CapacityAt(level, m, m0)
    }

    /** The flat arrays hold the lists of the graph. */
    ghost predicate Shape()
      reads this
    {
      && 1 <= m <= m0 && 1 <= efConstruction
      && |levels| == |vectors|
      && FlatHolds(level0, level0Len, upper, upperLen, levels, m, m0, links)
    }

    ghost predicate TombstonesOk()
      reads this
    {
      && |levels| <= 64 * |tombstones| < |levels| + 64
      && Holds(tombstones, dead)
      && (forall s :: s in dead ==> s < |levels|)
      && tombstoneCount == |dead|
    }

    ghost predicate EntryOk()
      reads this
    {
      && (entry.None? <==> |levels| == 0)
      && (entry.Some? ==> entry.value < |levels| && levels[entry.value] == maxLevel)
      && forall s :: 0 <= s < |levels| ==> levels[s] <= maxLevel
    }

    ghost predicate Valid()
      reads this
    {
      Shape() && Closed(links) && TombstonesOk() && EntryOk()
    }

    constructor (dims: nat, m: nat, m0: nat, efConstruction: nat, metric: (Vector, Vector) -> real,
                 stored: Vector -> Vector)
      requires 1 <= m <= m0 && 1 <= efConstruction
      ensures Valid() && vectors == [] && links == [] && dead == {}
      ensures this.m == m && this.m0 == m0 && this.metric == metric && this.stored == stored
      ensures this.efConstruction == efConstruction && this.dims == dims
    {
      this.dims := dims;
      this.m, this.m0, this.efConstruction, this.metric, this.stored := m, m0, efConstruction, metric, stored;
      vectors, levels, level0, level0Len, upper, upperLen := [], [], [], [], [], [];
      tombstones, tombstoneCount, entry, maxLevel, links := [], 0, None, 0, [];
      dead := {};
      new;
    }

    function IsTombstoned(slot: nat): (r: bool)
      reads this
      requires TombstonesOk()
      ensures r <==> slot in dead
    {
      InWords(tombstones, slot)
    }

    /** Mask a slot from results; its links stay for routing. */
    method Tombstone(slot: nat) returns (changed: bool)
      requires Valid() && slot < |levels|
      modifies `tombstones, `tombstoneCount, `dead
      ensures Valid()
      ensures dead == old(dead) + {slot}
      ensures changed <==> slot !in old(dead)
      ensures |tombstones| == |old(tombstones)|
    {
      var word := tombstones[slot / 64];
      assert InWords(tombstones, slot) <==> slot in dead;
      if Bit(word, slot) {
        assert dead + {slot} == dead;
        return false;
      }
      HoldsAfterSet(tombstones, dead, slot);
      tombstones := tombstones[slot / 64 := With(word, Low(slot))];
      tombstoneCount := tombstoneCount + 1;
      dead := dead + {slot};
      changed := true;
    }

    /** The stored list of `slot` at `level`, sliced out of the flat array. */
    function Neighbours(slot: nat, level: nat): (list: seq<nat>)
      reads this
      requires Shape() && OnLevel(links, slot, level)
      ensures list == links[slot][level]
    {
      if level == 0 then
        ReadRow(level0, m0, slot, level0Len[slot], links[slot][0])
      else
        assert UpperHolds(upper[slot], upperLen[slot], m, levels[slot], links[slot]);
        ReadRow(upper[slot], m, level - 1, upperLen[slot][level - 1], links[slot][level])
    }

    method SetNeighbours(slot: nat, level: nat, list: seq<nat>)
      requires Shape() && OnLevel(links, slot, level) && |list| <= Capacity(level)
      modifies `level0, `level0Len, `upper, `upperLen, `links
      ensures Shape() && links == SetList(old(links), slot, level, list)
    {
      if level == 0 {
        SetBase(slot, list);
      } else {
        SetUpper(slot, level, list);
      }
    }

    method SetBase(slot: nat, list: seq<nat>)
      requires Shape() && OnLevel(links, slot, 0) && |list| <= m0
      modifies `level0, `level0Len, `links
      ensures Shape() && links == SetList(old(links), slot, 0, list)
    {
      hide UpperHolds, RowAt;
      ghost var g := links;
      BaseWrite(level0, level0Len, m0, g, slot, list);
      var row, lens := Splice(level0, slot * m0, list), level0Len[slot := |list|];
      FlatBase(level0, level0Len, upper, upperLen, levels, m, m0, g, row, lens, slot, list);
      level0, level0Len, links := row, lens, SetList(links, slot, 0, list);
    }

    method SetUpper(slot: nat, level: nat, list: seq<nat>)
      requires Shape() && OnLevel(links, slot, level) && 0 < level && |list| <= m
      modifies `upper, `upperLen, `links
      ensures Shape() && links == SetList(old(links), slot, level, list)
    {
      LevelRows(slot);
      ghost var g := links;
      var row, lens := WriteRow(upper[slot], upperLen[slot], levels[slot], links[slot], level, list);
      FlatUpper(level0, level0Len, upper, upperLen, levels, m, m0, g, row, lens, slot, level, list);
      upper, upperLen, links := upper[slot := row], upperLen[slot := lens], SetList(links, slot, level, list);
    }

    method WriteRow(row: seq<nat>, lens: seq<nat>, ghost height: nat, ghost lists: seq<seq<nat>>, level: nat,
                    list: seq<nat>)
      returns (row': seq<nat>, lens': seq<nat>)
      requires UpperHolds(row, lens, m, height, lists) && 0 < level <= height && |list| <= m
      ensures UpperHolds(row', lens', m, height, lists[level := list])
    {
      UpperWrite(row, lens, m, height, lists, level, list);
      row', lens' := Splice(row, (level - 1) * m, list), lens[level - 1 := |list|];
    }

    /** The in-place append of `link_back` on level 0: the list has room. */
    method AppendBase(neighbour: nat, slot: nat)
      requires Shape() && OnLevel(links, neighbour, 0) && |links[neighbour][0]| < m0
      modifies `level0, `level0Len, `links
      ensures Shape()
      ensures links == SetList(old(links), neighbour, 0, old(links)[neighbour][0] + [slot])
    {
      ghost var g, list := links, links[neighbour][0] + [slot];
      BaseAppend(level0, level0Len, m0, g, neighbour, slot);
      var row := level0[neighbour * m0 + level0Len[neighbour] := slot];
      var lens := level0Len[neighbour := level0Len[neighbour] + 1];
      FlatBase(level0, level0Len, upper, upperLen, levels, m, m0, g, row, lens, neighbour, list);
      level0, level0Len, links := row, lens, SetList(links, neighbour, 0, list);
    }

    /** The same above level 0. */
    method AppendUpper(neighbour: nat, slot: nat, level: nat)
      requires Shape() && OnLevel(links, neighbour, level) && 0 < level && |links[neighbour][level]| < m
      modifies `upper, `upperLen, `links
      ensures Shape()
      ensures links == SetList(old(links), neighbour, level, old(links)[neighbour][level] + [slot])
    {
      assert UpperHolds(upper[neighbour], upperLen[neighbour], m, levels[neighbour], links[neighbour]);
      ghost var g, list := links, links[neighbour][level] + [slot];
      var row, lens := upper[neighbour], upperLen[neighbour];
      UpperAppend(row, lens, m, levels[neighbour], g[neighbour], level, slot);
      row := row[(level - 1) * m + lens[level - 1] := slot];
      lens := lens[level - 1 := lens[level - 1] + 1];
      FlatUpper(level0, level0Len, upper, upperLen, levels, m, m0, g, row, lens, neighbour, level, list);
      upper, upperLen, links := upper[neighbour := row], upperLen[neighbour := lens],
          SetList(links, neighbour, level, list);
    }

    /** Add `slot` to `neighbour`'s list, pruning with the heuristic when the
        list is full. */
    method LinkBack(neighbour: nat, slot: nat, level: nat)
      requires Shape() && OnLevel(links, neighbour, level)
      modifies `level0, `level0Len, `upper, `upperLen, `links
      ensures Shape()
      ensures OnLevel(old(links), neighbour, level) && OnLevel(links, neighbour, level)
      ensures links == SetList(old(links), neighbour, level, links[neighbour][level])
      ensures LinkedBack(Between(metric, vectors), neighbour, old(links)[neighbour][level], links[neighbour][level],
                         slot, Capacity(level))
    {
      var list := Neighbours(neighbour, level);
      if |list| < Capacity(level) {
        if level == 0 {
          AppendBase(neighbour, slot);
        } else {
          AppendUpper(neighbour, slot, level);
        }
        return;
      }
      var candidates := HitsFrom(Between(metric, vectors), neighbour, list + [slot]);
      var selected, ranked := SelectHeuristic(candidates, Capacity(level), Between(metric, vectors));
      assert Chooses(candidates, Capacity(level), Between(metric, vectors), selected);
      SetNeighbours(neighbour, level, selected);
    }

    /** One pass over the neighbours of `from`, moving to the best one seen. */
    method ScanNeighbours(dist: nat -> real, ghost start: nat, level: nat, d0: real, from: nat)
      returns (best: real, current: nat, improved: bool)
      requires Shape() && Closed(links) && OnLevel(links, from, level) && d0 == dist(from)
      requires from in Reachable(links, level, [start])
      ensures OnLevel(links, current, level) && best == dist(current)
      ensures current in Reachable(links, level, [start])
      ensures improved ==> Before(Hit(best, current), Hit(d0, from))
      ensures !improved ==> current == from
      ensures forall t :: t in links[from][level] ==> !Before(Hit(dist(t), t), Hit(best, current))
    {
      best, current, improved := d0, from, false;
      var list := Neighbours(from, level);
      for i := 0 to |list|
        invariant current == from || current in list
        invariant best == dist(current)
        invariant improved ==> Before(Hit(best, current), Hit(d0, from))
        invariant !improved ==> current == from
        invariant forall j :: 0 <= j < i ==> !Before(Hit(dist(list[j]), list[j]), Hit(best, current))
      {
        var neighbour := list[i];
        var d := dist(neighbour);
        if d < best || (d == best && neighbour < current) {
          best, current, improved := d, neighbour, true;
        }
      }
      if current != from {
        StepReachable(links, level, [start], from, current);
      }
    }

    /** Greedy descent on one level (`greedy_closest`): it stops at a slot that
        no neighbour ranks before. */
    method GreedyClosest(dist: nat -> real, start: nat, level: nat) returns (current: nat)
      requires Shape() && Closed(links) && OnLevel(links, start, level)
      ensures OnLevel(links, current, level) && NoCloser(links, dist, level, start, current)
    {
      current := start;
      var best := dist(start);
      EntryReachable(links, level, [start], start);
      while true
        invariant OnLevel(links, current, level) && best == dist(current)
        invariant !Before(Hit(dist(start), start), Hit(best, current))
        invariant current in Reachable(links, level, [start])
        decreases Nearer(links, dist, Hit(best, current))
      {
        ghost var origin := Hit(best, current);
        var improved;
        best, current, improved := ScanNeighbours(dist, start, level, best, current);
        if !improved {
          return;
        }
        NearerShrinks(links, dist, Hit(best, current), origin);
      }
    }

    /** Expand one slot of the beam: visit its neighbours, queue the admitted
        ones, and keep the results at the `ef` best. */
    method ExpandSlot(visited: Visited, dist: nat -> real, ghost entries: seq<nat>, ghost reach: set<nat>, ef: nat,
                      level: nat, accepts: nat -> bool, current: nat, queued: multiset<Hit>, found: multiset<Hit>)
      returns (candidates: multiset<Hit>, results: multiset<Hit>)
      requires 1 <= ef && Shape() && LinkClosed(links, level, reach) && visited.Valid()
               && |links| <= 64 * |visited.bits|
      requires BeamState(links, level, entries, reach, ef, dist, accepts, queued, found, visited.slots, {current})
      requires current in visited.slots
      modifies visited
      ensures visited.Valid() && |links| <= 64 * |visited.bits|
      ensures BeamState(links, level, entries, reach, ef, dist, accepts, candidates, results, visited.slots, {})
      ensures old(visited.slots) <= visited.slots
      ensures visited.slots == old(visited.slots) ==> candidates == queued
    {
      var list := Neighbours(current, level);
      candidates, results := VisitAll(visited, dist, entries, reach, ef, level, accepts, current, list, queued, found);
      FinishExpand(links, level, entries, reach, ef, dist, accepts, candidates, results, visited.slots, current);
    }

    method VisitAll(visited: Visited, dist: nat -> real, ghost entries: seq<nat>, ghost reach: set<nat>, ef: nat,
                    level: nat, accepts: nat -> bool, ghost current: nat, list: seq<nat>, queued: multiset<Hit>,
                        found: multiset<Hit>)
      returns (candidates: multiset<Hit>, results: multiset<Hit>)
      requires 1 <= ef && LinkClosed(links, level, reach)
      requires visited.Valid() && |links| <= 64 * |visited.bits|
      requires current in visited.slots && OnLevel(links, current, level) && list == links[current][level]
      requires BeamState(links, level, entries, reach, ef, dist, accepts, queued, found, visited.slots, {current})
      modifies visited
      ensures visited.Valid() && |links| <= 64 * |visited.bits|
      ensures BeamState(links, level, entries, reach, ef, dist, accepts, candidates, results, visited.slots, {current})
      ensures old(visited.slots) <= visited.slots && forall x :: x in list ==> x in visited.slots
      ensures visited.slots == old(visited.slots) ==> candidates == queued
    {
      hide BeamState, LinkClosed;
      candidates, results := queued, found;
      ghost var seen := visited.slots;
      for i := 0 to |list|
        invariant visited.Valid() && |links| <= 64 * |visited.bits| && visited.slots == seen
        invariant old(visited.slots) <= seen && current in seen
        invariant seen == old(visited.slots) ==> candidates == queued
        invariant BeamState(links, level, entries, reach, ef, dist, accepts, candidates, results, seen, {current})
        invariant forall j :: 0 <= j < i ==> list[j] in seen
      {
        candidates, results := VisitNeighbour(visited, dist, entries, reach, ef, level, accepts, current, list[i],
                                              candidates, results, seen);
        seen := seen + {list[i]};
      }
    }

    /** Visit one neighbour of the slot being expanded. */
    method VisitNeighbour(visited: Visited, dist: nat -> real, ghost entries: seq<nat>, ghost reach: set<nat>, ef: nat,
                          level: nat, accepts: nat -> bool, ghost current: nat, neighbour: nat, queued: multiset<Hit>,
                              found: multiset<Hit>, ghost seen: set<nat>)
      returns (candidates: multiset<Hit>, results: multiset<Hit>)
      requires 1 <= ef && LinkClosed(links, level, reach) && visited.Valid() && |links| <= 64 * |visited.bits|
      requires visited.slots == seen && current in seen
      requires OnLevel(links, current, level) && neighbour in links[current][level]
      requires BeamState(links, level, entries, reach, ef, dist, accepts, queued, found, seen, {current})
      modifies visited
      ensures visited.Valid() && |links| <= 64 * |visited.bits| && visited.slots == seen + {neighbour}
      ensures BeamState(links, level, entries, reach, ef, dist, accepts, candidates, results, seen + {neighbour},
                        {current})
      ensures neighbour in seen ==> candidates == queued
    {
      candidates, results := queued, found;
      assert OnLevel(links, neighbour, level);
      var isNew := visited.Insert(neighbour);
      if isNew {
        candidates, results := AdmitHit(dist, entries, reach, ef, level, accepts, Hit(dist(neighbour), neighbour),
                                        queued, found, seen, current);
      } else {
        assert seen + {neighbour} == seen;
      }
    }

    /** The admission test for one newly visited slot. */
    method AdmitHit(dist: nat -> real, ghost entries: seq<nat>, ghost reach: set<nat>, ef: nat, level: nat,
                    accepts: nat -> bool, hit: Hit, queued: multiset<Hit>, found: multiset<Hit>, ghost seen: set<nat>,
                        ghost current: nat)
      returns (candidates: multiset<Hit>, results: multiset<Hit>)
      requires 1 <= ef && BeamState(links, level, entries, reach, ef, dist, accepts, queued, found, seen, {current})
      requires hit == Hit(dist(hit.id), hit.id) && hit.id !in seen
      requires hit.id in reach && OnLevel(links, hit.id, level)
      ensures BeamState(links, level, entries, reach, ef, dist, accepts, candidates, results, seen + {hit.id},
                        {current})
    {
      candidates, results := queued, found;
      var admit := |results| < ef;
      ghost var worst := hit;
      if !admit && results != multiset{} {
        var w := PeekWorst(results);
        worst, admit := w, Before(hit, w);
      }
      if admit {
        AdmitStep(links, level, entries, reach, ef, dist, accepts, candidates, results, seen, {current}, hit.id, worst);
        candidates := candidates + multiset{hit};
        if accepts(hit.id) {
          results := PushBounded(results, ef, hit, worst);
        }
      } else {
        assert results != multiset{};
        RefuseStep(links, level, entries, reach, ef, dist, accepts, candidates, results, seen, {current}, hit.id,
                   worst);
      }
    }

    /** Seed the beam with the entry slots, each once. */
    method SeedBeam(visited: Visited, dist: nat -> real, entries: seq<nat>, ghost reach: set<nat>, ef: nat, level: nat,
                    accepts: nat -> bool)
      returns (candidates: multiset<Hit>, results: multiset<Hit>)
      requires visited.Valid() && visited.slots == {} && |links| <= 64 * |visited.bits|
      requires |entries| <= ef
      requires forall e :: e in entries ==> OnLevel(links, e, level) && e in reach
      modifies visited
      ensures visited.Valid() && |links| <= 64 * |visited.bits|
      ensures BeamState(links, level, entries, reach, ef, dist, accepts, candidates, results, visited.slots, {})
    {
      candidates, results := multiset{}, multiset{};
      assert Pool({}, accepts, dist) == multiset{};
      ghost var seen: set<nat> := {};
      for i := 0 to |entries|
        invariant visited.Valid() && |links| <= 64 * |visited.bits| && visited.slots == seen
        invariant |results| <= i
        invariant BeamState(links, level, entries[..i], reach, ef, dist, accepts, candidates, results, seen, {})
      {
        var entry := entries[i];
        assert entry in entries && OnLevel(links, entry, level);
        var isNew := visited.Insert(entry);
        if isNew {
          var hit := Hit(dist(entry), entry);
          AdmitStep(links, level, entries[..i], reach, ef, dist, accepts, candidates, results, seen, {}, entry, hit);
          candidates := candidates + multiset{hit};
          if accepts(entry) {
            results := results + multiset{hit};
          }
        } else {
          assert seen + {entry} == seen;
        }
        seen := seen + {entry};
        SeedStep(links, level, entries, i, reach, ef, dist, accepts, candidates, results, seen);
      }
      assert entries[..|entries|] == entries;
    }

    /** Beam search on one level returning up to `ef` nearest slots that pass
        `accepts`; every visited slot routes, accepted or not. */
    method SearchLayer(visited: Visited, dist: nat -> real, entries: seq<nat>, ef: nat, level: nat,
                       accepts: nat -> bool)
      returns (r: seq<Hit>, ghost seen: set<nat>)
      requires Shape() && Closed(links) && visited.Valid()
      requires 1 <= ef && |entries| <= ef
      requires forall e :: e in entries ==> OnLevel(links, e, level)
      modifies visited
      ensures visited.Valid()
      ensures Sorted(r) && BeamCertificate(links, level, entries, ef, dist, accepts, multiset(r), seen)
      ensures |Accepted(Reachable(links, level, entries), accepts)| <= ef
              ==> multiset(r) == Pool(Reachable(links, level, entries), accepts, dist)
    {
      ghost var reach := Reachable(links, level, entries);
      ReachableLinkClosed(links, level, entries);
      forall e | e in entries
        ensures e in reach
      {
        EntryReachable(links, level, entries, e);
      }
      visited.Reset(|levels|);
      var results := RunBeam(visited, dist, entries, reach, ef, level, accepts);
      seen := visited.slots;
      if |Accepted(reach, accepts)| <= ef {
        WideBeamIsExact(links, level, entries, ef, dist, accepts, results, seen);
      }
      r := SortByRank(results);
    }

    method RunBeam(visited: Visited, dist: nat -> real, entries: seq<nat>, ghost reach: set<nat>, ef: nat, level: nat,
                   accepts: nat -> bool)
      returns (results: multiset<Hit>)
      requires Shape() && LinkClosed(links, level, reach)
      requires visited.Valid() && visited.slots == {} && |links| <= 64 * |visited.bits|
      requires 1 <= ef && |entries| <= ef
      requires forall e :: e in entries ==> OnLevel(links, e, level) && e in reach
      modifies visited
      ensures visited.Valid()
      ensures forall e :: e in entries ==> e in visited.slots
      ensures visited.slots <= reach
      ensures KeepsBest(results, Pool(visited.slots, accepts, dist), ef)
      ensures forall h :: h in results ==> Expanded(links, level, h.id, visited.slots)
      ensures |results| < ef ==> forall s :: s in visited.slots ==> Expanded(links, level, s, visited.slots)
    {
      var candidates;
      candidates, results := SeedBeam(visited, dist, entries, reach, ef, level, accepts);
      var stop := false;
      while candidates != multiset{} && !stop
        invariant visited.Valid() && |links| <= 64 * |visited.bits|
        invariant BeamState(links, level, entries, reach, ef, dist, accepts, candidates, results, visited.slots, {})
        invariant stop ==> |results| >= ef && forall h :: h in results ==> Expanded(links, level, h.id, visited.slots)
        decreases !stop, reach - visited.slots, |candidates|
      {
        stop, candidates, results := BeamStep(visited, dist, entries, reach, ef, level, accepts, candidates, results);
      }
      if !stop {
        DrainedStep(links, level, entries, reach, ef, dist, accepts, results, visited.slots);
      }
    }

    /** One turn of the loop: stop at a full beam that the nearest queued slot
        cannot improve, otherwise expand that slot. */
    method BeamStep(visited: Visited, dist: nat -> real, ghost entries: seq<nat>, ghost reach: set<nat>, ef: nat,
                    level: nat, accepts: nat -> bool, queued: multiset<Hit>, found: multiset<Hit>)
      returns (stop: bool, candidates: multiset<Hit>, results: multiset<Hit>)
      requires 1 <= ef && Shape() && LinkClosed(links, level, reach)
      requires visited.Valid() && |links| <= 64 * |visited.bits| && queued != multiset{}
      requires BeamState(links, level, entries, reach, ef, dist, accepts, queued, found, visited.slots, {})
      modifies visited
      ensures visited.Valid() && |links| <= 64 * |visited.bits|
      ensures BeamState(links, level, entries, reach, ef, dist, accepts, candidates, results, visited.slots, {})
      ensures stop ==> |results| >= ef && forall h :: h in results ==> Expanded(links, level, h.id, visited.slots)
      ensures !stop ==> reach - visited.slots < reach - old(visited.slots)
                        || (visited.slots == old(visited.slots) && |candidates| < |queued|)
    {
      candidates, results, stop := queued, found, false;
      var current := PeekBest(candidates);
      if |results| >= ef {
        var worst := PeekWorst(results);
        if Before(worst, current) {
          StopStep(links, level, entries, reach, ef, dist, accepts, candidates, results, visited.slots, current, worst);
          stop := true;
          return;
        }
      }
      PopStep(links, level, entries, reach, ef, dist, accepts, candidates, results, visited.slots, current);
      candidates, results := ExpandSlot(visited, dist, entries, reach, ef, level, accepts, current.id,
                                        candidates - multiset{current}, results);
      FewerLeft(reach, old(visited.slots), visited.slots);
    }

    // ----- insertion

    method GrowTombstones()
      requires Holds(tombstones, dead) && (forall s :: s in dead ==> s < |levels|) && tombstoneCount == |dead|
      requires |levels| > 0 && |levels| - 1 <= 64 * |tombstones| < |levels| + 63
      modifies `tombstones
      ensures TombstonesOk()
    {
      if |tombstones| * 64 < |levels| {
        HoldsAfterGrow(tombstones, dead);
        tombstones := tombstones + [0];
      }
    }

    /** Append the row, its level, and its empty lists. */
    method Allocate(vector: Vector, level: nat) returns (slot: nat)
      requires Valid()
      modifies this
      ensures Shape() && Closed(links) && TombstonesOk() && dead == old(dead)
      ensures slot == |old(links)| && links == old(links) + [EmptyLists(level)]
      ensures vectors == old(vectors) + [stored(vector)] && levels == old(levels) + [level]
      ensures entry == old(entry) && maxLevel == old(maxLevel)
      ensures Unlinked(links, slot, level + 1)
      ensures old(Simple(links)) ==> Simple(links)
    {
      slot := |levels|;
      AddRow(links, level);
      AppendRow(vector, level);
      GrowTombstones();
    }

    method AppendRow(vector: Vector, level: nat)
      requires Shape()
      modifies `vectors, `levels, `level0, `level0Len, `upper, `upperLen, `links
      ensures Shape() && links == old(links) + [EmptyLists(level)]
      ensures vectors == old(vectors) + [stored(vector)] && levels == old(levels) + [level]
    {
      FlatGrow(level0, level0Len, upper, upperLen, levels, m, m0, links, level);
      vectors, levels := vectors + [stored(vector)], levels + [level];
      level0, level0Len := level0 + seq(m0, _ => 0), level0Len + [0];
      upper, upperLen := upper + [seq(level * m, _ => 0)], upperLen + [seq(level, _ => 0)];
      links := links + [EmptyLists(level)];
    }

    /** Link every selected neighbour back to the new slot. */
    method LinkAll(selected: seq<nat>, slot: nat, lc: nat)
      requires Shape() && Closed(links) && OnLevel(links, slot, lc) && Distinct(selected)
      requires forall t :: t in selected ==> OnLevel(links, t, lc) && t != slot && slot !in links[t][lc]
      modifies `level0, `level0Len, `upper, `upperLen, `links
      ensures Shape() && Closed(links)
      ensures LinkedSoFar(old(links), links, selected, |selected|, slot, lc, Capacity(lc))
      ensures BackLinks(Between(metric, vectors), old(links), links, selected, slot, lc, Capacity(lc))
      ensures old(Simple(links)) ==> Simple(links)
    {
      hide LinkedBack, BackLinks, BaseHolds, UpperHolds, RowAt;
      ghost var g0, pair := links, Between(metric, vectors);
      NoBackLinks(pair, g0, slot, lc, Capacity(lc));
      assert selected[..0] == [];
      for i := 0 to |selected|
        invariant Shape() && Closed(links)
        invariant LinkedSoFar(g0, links, selected, i, slot, lc, Capacity(lc))
        invariant BackLinks(pair, g0, links, selected[..i], slot, lc, Capacity(lc))
        invariant Simple(g0) ==> Simple(links)
      {
        var t := selected[i];
        assert t in selected && t !in selected[..i];
        ghost var g := links;
        assert OnLevel(g, t, lc) && OnLevel(g, slot, lc) && g[t][lc] == g0[t][lc];
        LinkBack(t, slot, lc);
        LinkBackKeeps(g, links, t, slot, lc, pair, Capacity(lc));
        LinkOneMore(g0, g, links, selected, i, slot, lc, Capacity(lc));
        BackLinkOneMore(pair, g0, g, links, selected, i, slot, lc, Capacity(lc));
      }
      assert selected[..|selected|] == selected;
    }

    /** The candidates for the new slot at one level, and the heuristic's
        choice among them. */
    method ChooseNeighbours(visited: Visited, slot: nat, lc: nat, entries: seq<nat>)
      returns (candidates: seq<Hit>, selected: seq<nat>, ghost seen: set<nat>)
      requires Shape() && Closed(links) && visited.Valid()
      requires OnLevel(links, slot, lc) && Unlinked(links, slot, lc + 1)
      requires entries != [] && |entries| <= efConstruction && slot !in entries
      requires forall e :: e in entries ==> OnLevel(links, e, lc)
      modifies visited
      ensures visited.Valid() && 0 < |candidates| <= efConstruction
      ensures forall x :: x in Ids(candidates) ==> OnLevel(links, x, lc) && x != slot && slot !in links[x][lc]
      ensures ChosenAt(links, vectors, slot, lc, Choice(entries, candidates, seen), selected)
      ensures selected != [] && Distinct(selected) && |selected| <= Capacity(lc)
      ensures forall t :: t in selected ==> OnLevel(links, t, lc) && t != slot && slot !in links[t][lc]
    {
      var dist := From(metric, vectors, vectors[slot]);
      candidates, seen := SearchLayer(visited, dist, entries, efConstruction, lc, All());
      CandidateFacts(links, lc, slot, entries, efConstruction, dist, candidates, seen);
      ghost var ranked;
      selected, ranked := SelectHeuristic(candidates, Capacity(lc), Between(metric, vectors));
      assert Sorted(ranked);
      SortedUnique(ranked, candidates);
    }

    /** The list is the heuristic's choice from the candidates, which are the
        `efConstruction` best of a beam from the entries. */
    ghost predicate ChosenAt(g: Links, rows: seq<Vector>, slot: nat, lc: nat, choice: Choice, selected: seq<nat>) {
      && slot < |rows|
      && BeamCertificate(g, lc, choice.entries, efConstruction, From(metric, rows, rows[slot]), All(),
                         multiset(choice.candidates), choice.seen)
      && Selects(choice.candidates, Capacity(lc), Between(metric, rows), selected)
    }

    /** The choices at the levels from `top` down, each from a beam that entered
        at the candidates of the level above, and at the top level at `start`;
        they are the lists of `slot`, and the chosen slots linked back. */
    ghost predicate Trail(g: Links, h: Links, rows: seq<Vector>, slot: nat, start: nat, top: nat, choices: seq<Choice>)
    {
      && |choices| <= top + 1
      && (choices != [] ==> choices[0].entries == [start])
      && (forall i :: 0 < i < |choices| ==> choices[i].entries == Ids(choices[i - 1].candidates))
      && forall i :: 0 <= i < |choices| ==> ConnectedAt(g, h, rows, slot, top - i, choices[i])
    }

    ghost predicate ConnectedAt(g: Links, h: Links, rows: seq<Vector>, slot: nat, l: nat, choice: Choice) {
      && OnLevel(h, slot, l) && ChosenAt(g, rows, slot, l, choice, h[slot][l])
      && BackLinks(Between(metric, rows), g, h, h[slot][l], slot, l, Capacity(l))
    }

    /** A list that was chosen is as long as capacity and candidates allow. The
        candidates are the `efConstruction` nearest of the slots visited, all
        the slots of the level that can be reached when these are no more. The
        nearest heads the list; then come the other kept ones, none closer to an
        earlier one than to the new slot; then dropped ones, each closer to one
        that was kept. */
    lemma ChosenWhat(g: Links, rows: seq<Vector>, slot: nat, l: nat, choice: Choice, selected: seq<nat>)
      requires ChosenAt(g, rows, slot, l, choice, selected)
      requires choice.entries != [] && 1 <= efConstruction && 1 <= Capacity(l)
      ensures |choice.candidates| == Min(efConstruction, |choice.seen|) && choice.candidates != []
      ensures |selected| == Min(Capacity(l), |choice.candidates|) && Distinct(selected)
      ensures var dist, nearest := From(metric, rows, rows[slot]), choice.candidates[0];
              && selected[0] == nearest.id && nearest.id in choice.seen && nearest.distance == dist(nearest.id)
              && forall s :: s in choice.seen ==> !Before(Hit(dist(s), s), nearest)
      ensures exists kept ::
                && kept <= selected
                && (forall j :: 0 <= j < |kept| ==> KeptApart(choice.candidates, kept, j, Between(metric, rows)))
                && forall j :: |kept| <= j < |selected| ==>
                     PrunedNear(choice.candidates, kept, selected[j], Between(metric, rows))
      ensures |Reachable(g, l, choice.entries)| <= efConstruction ==> choice.seen == Reachable(g, l, choice.entries)
    {
      hide Selects, KeptApart, PrunedNear, BeamCertificate, Distinct, Reachable;
      SelectsSorted(choice.candidates, Capacity(l), Between(metric, rows), selected);
      CandidatesWhat(g, l, choice.entries, efConstruction, From(metric, rows, rows[slot]), choice.candidates,
                     choice.seen);
      SelectsWhat(choice.candidates, Capacity(l), Between(metric, rows), selected);
    }

    /** How an insertion connects `slot`: from where the greedy descent from
        `from` on level `high` stops, one choice for each level from `top` to 0. */
    ghost predicate Connected(g: Links, h: Links, rows: seq<Vector>, slot: nat, from: nat, high: nat, top: nat) {
      slot < |rows| && exists start, choices ::
        && Descended(g, From(metric, rows, rows[slot]), from, high, top, start)
        && |choices| == top + 1 && Trail(g, h, rows, slot, start, top, choices)
    }

    method JoinNeighbours(slot: nat, lc: nat, selected: seq<nat>)
      requires Shape() && Closed(links) && OnLevel(links, slot, lc)
      requires selected != [] && Distinct(selected) && |selected| <= Capacity(lc)
      requires forall t :: t in selected ==> OnLevel(links, t, lc) && t != slot && slot !in links[t][lc]
      modifies `level0, `level0Len, `upper, `upperLen, `links
      ensures Shape() && Closed(links) && OnlyLevel(old(links), links, lc)
      ensures old(Simple(links)) ==> Simple(links)
      ensures OnLevel(links, slot, lc) && links[slot][lc] == selected && LinkedAt(links, slot, lc, Capacity(lc))
      ensures BackLinks(Between(metric, vectors), old(links), links, selected, slot, lc, Capacity(lc))
      ensures forall s :: OnLevel(links, s, lc) && s != slot && s !in selected ==> links[s][lc] == old(links)[s][lc]
    {
      hide BaseHolds, UpperHolds, RowAt, BackLinks;
      ghost var g0 := links;
      SetNeighbours(slot, lc, selected);
      ghost var g1 := links;
      ClosedSet(g0, slot, lc, selected);
      LinkAll(selected, slot, lc);
      BackLinksBefore(Between(metric, vectors), g0, g1, links, selected, slot, lc, Capacity(lc));
    }

    /** Link the new slot from level `top` down to 0: search, select, link. */
    method Connect(visited: Visited, slot: nat, start: nat, top: nat) returns (ghost choices: seq<Choice>)
      requires Shape() && Closed(links) && visited.Valid()
      requires OnLevel(links, slot, top) && Unlinked(links, slot, top + 1)
      requires OnLevel(links, start, top) && start != slot
      modifies visited, `level0, `level0Len, `upper, `upperLen, `links
      ensures Shape() && Closed(links) && visited.Valid()
      ensures old(Simple(links)) ==> Simple(links)
      ensures Joined(old(links), links, slot, 0, top, m, m0)
      ensures |choices| == top + 1 && Trail(old(links), links, vectors, slot, start, top, choices)
    {
      hide Trail, ChosenAt, BackLinks, Joined, Unlinked, OnlyLevel, LinkedAt, FlatHolds, Distinct, Simple, Closed;
      ghost var g1 := links;
      var entries := [start];
      choices := [];
      NothingJoined(g1, vectors, slot, start, top);
      for lc := top + 1 downto 0
        invariant Shape() && Closed(links) && visited.Valid()
        invariant Simple(g1) ==> Simple(links)
        invariant Unlinked(links, slot, lc) && Joined(g1, links, slot, lc, top, m, m0)
        invariant entries != [] && |entries| <= efConstruction && slot !in entries
        invariant lc > 0 ==> forall e :: e in entries ==> OnLevel(links, e, lc - 1)
        invariant |choices| == top + 1 - lc && Trail(g1, links, vectors, slot, start, top, choices)
        invariant entries == if choices == [] then [start] else Ids(choices[|choices| - 1].candidates)
      {
        ghost var g := links;
        JoinedHeights(g1, g, slot, lc + 1, top, m, m0);
        var candidates, selected, seen := ChooseNeighbours(visited, slot, lc, entries);
        JoinNeighbours(slot, lc, selected);
        LevelJoined(g1, g, links, vectors, slot, start, top, lc, choices, Choice(entries, candidates, seen));
        choices := choices + [Choice(entries, candidates, seen)];
        entries := IdList(candidates);
      }
    }

    lemma NothingJoined(g: Links, rows: seq<Vector>, slot: nat, start: nat, top: nat)
      ensures Trail(g, g, rows, slot, start, top, []) && Joined(g, g, slot, top + 1, top, m, m0)
    {
    }

    /** A level is joined: it completes the join so far, and the candidates are
        there to enter the level below. */
    lemma LevelJoined(g1: Links, g: Links, h: Links, rows: seq<Vector>, slot: nat, start: nat, top: nat, lc: nat,
                      choices: seq<Choice>, choice: Choice)
      requires lc <= top && |choices| == top - lc && Trail(g1, g, rows, slot, start, top, choices)
      requires Joined(g1, g, slot, lc + 1, top, m, m0) && OnlyLevel(g, h, lc) && Unlinked(g, slot, lc + 1)
      requires choice.entries == if choices == [] then [start] else Ids(choices[|choices| - 1].candidates)
      requires OnLevel(g, slot, lc) && OnLevel(h, slot, lc) && LinkedAt(h, slot, lc, Capacity(lc))
      requires ChosenAt(g, rows, slot, lc, choice, h[slot][lc])
      requires BackLinks(Between(metric, rows), g, h, h[slot][lc], slot, lc, Capacity(lc))
      requires forall s :: OnLevel(h, s, lc) && s != slot && s !in h[slot][lc] ==> h[s][lc] == g[s][lc]
      ensures Unlinked(h, slot, lc) && Joined(g1, h, slot, lc, top, m, m0)
      ensures Trail(g1, h, rows, slot, start, top, choices + [choice])
      ensures forall x :: OnLevel(g, x, lc) && lc > 0 ==> OnLevel(h, x, lc - 1)
    {
      hide ChosenAt, BackLinks, Trail, Joined, LinkedAt, Unlinked;
      UnlinkedBelow(g, h, slot, lc);
      TrailOneMore(g1, g, h, rows, slot, start, top, choices, choice);
      JoinLevel(g1, g, h, slot, lc, top, m, m0, h[slot][lc]);
    }

    /** One more level of the trail: the beam ran over lists the levels above
        did not touch, and the level changes no other. */
    lemma TrailOneMore(g1: Links, g: Links, h: Links, rows: seq<Vector>, slot: nat, start: nat, top: nat,
                       choices: seq<Choice>, choice: Choice)
      requires |choices| <= top && Trail(g1, g, rows, slot, start, top, choices)
      requires Joined(g1, g, slot, top - |choices| + 1, top, m, m0) && OnlyLevel(g, h, top - |choices|)
      requires choice.entries == if choices == [] then [start] else Ids(choices[|choices| - 1].candidates)
      requires OnLevel(h, slot, top - |choices|)
      requires ChosenAt(g, rows, slot, top - |choices|, choice, h[slot][top - |choices|])
      requires BackLinks(Between(metric, rows), g, h, h[slot][top - |choices|], slot, top - |choices|,
                         Capacity(top - |choices|))
      ensures Trail(g1, h, rows, slot, start, top, choices + [choice])
    {
      hide ChosenAt, BackLinks, Joined;
      var l, longer := top - |choices|, choices + [choice];
      JoinedBelow(g1, g, slot, l, top, m, m0);
      SameChoice(g1, g, rows, slot, l, choice, h[slot][l]);
      SameBackLinks(Between(metric, rows), g, h, g1, h, h[slot][l], slot, l, Capacity(l));
      forall i | 0 <= i < |longer|
        ensures ConnectedAt(g1, h, rows, slot, top - i, longer[i])
      {
        if i < |choices| {
          assert ConnectedAt(g1, g, rows, slot, top - i, choices[i]);
          assert h[slot][top - i] == g[slot][top - i];
          SameBackLinks(Between(metric, rows), g1, g, g1, h, h[slot][top - i], slot, top - i, Capacity(top - i));
        }
      }
    }

    lemma SameChoice(g: Links, h: Links, rows: seq<Vector>, slot: nat, l: nat, choice: Choice, selected: seq<nat>)
      requires SameLevel(g, h, l) && ChosenAt(h, rows, slot, l, choice, selected)
      ensures ChosenAt(g, rows, slot, l, choice, selected)
    {
      hide Selects;
      SameBeam(g, h, l, choice.entries, efConstruction, From(metric, rows, rows[slot]), All(),
               multiset(choice.candidates), choice.seen);
    }

    /** Greedy descent for a new slot through the levels above its own. */
    method DescendTo(dist: nat -> real, from: nat, high: nat, low: nat) returns (current: nat)
      requires Shape() && Closed(links) && OnLevel(links, from, high) && low <= high
      ensures OnLevel(links, current, low) && Descended(links, dist, from, high, low, current)
      ensures if low == high then current == from else OnLevel(links, current, low + 1)
    {
      hide NoCloser;
      current := from;
      ghost var stops := [from];
      var level := high;
      while level > low
        invariant low <= level <= high && OnLevel(links, current, level)
        invariant if level == high then current == from else OnLevel(links, current, level + 1)
        invariant Descent(links, dist, stops, high, level) && stops[0] == from && stops[|stops| - 1] == current
      {
        var next := GreedyClosest(dist, current, level);
        assert NoCloser(links, dist, level, current, next);
        current, stops := next, stops + [next];
        level := level - 1;
      }
    }

    /** Insert a vector and return its slot. `level` is the level the seed
        draws for the slot. */
    method Insert(visited: Visited, vector: Vector, level: nat) returns (r: Result<nat, VectorError>)
      requires Valid() && visited.Valid()
      modifies this, visited
      ensures Valid() && visited.Valid()
      ensures r.Err? <==> |vector| != dims || !Finite(vector)
      ensures r.Err? ==> unchanged(this)
      ensures r.Ok? ==> r.value == |old(levels)| && vectors == old(vectors) + [stored(vector)]
                        && levels == old(levels) + [level] && dead == old(dead)
      ensures r.Ok? && old(Simple(links)) ==> Simple(links)
      // old lists change only where the new slot chose their owner, and every
      // slot after the first is linked on all levels it shares with the graph,
      // to the heuristic's choice from the candidates of that level
      ensures r.Ok? && old(entry).Some?
              ==> Joined(old(links) + [EmptyLists(level)], links, r.value, 0, Min(level, old(maxLevel)), m, m0)
                  && Connected(old(links) + [EmptyLists(level)], links, vectors, r.value, old(entry.value),
                               old(maxLevel), Min(level, old(maxLevel)))
      ensures r.Ok? ==> maxLevel == if old(entry).None? then level else Max(level, old(maxLevel))
      ensures r.Ok? ==> entry == if old(entry).None? || level > old(maxLevel) then Some(r.value) else old(entry)
    {
      hide Connected, Joined, Simple, Finite, BaseHolds, UpperHolds, RowAt;
      if |vector| != dims {
        return Err(WrongDims);
      }
      if !Finite(vector) {
        return Err(NonFinite);
      }
      var slot := Allocate(vector, level);
      r := Ok(slot);
      if entry.None? {
        entry, maxLevel := Some(slot), level;
        return;
      }
      LinkIn(visited, slot, level);
    }

    /** Descend to the new slot's level, connect it, and move the entry to it
        when it is the highest. */
    method LinkIn(visited: Visited, slot: nat, level: nat)
      requires Shape() && Closed(links) && visited.Valid()
      requires entry.Some? && entry.value < slot && slot + 1 == |levels| && levels[slot] == level
      requires levels[entry.value] == maxLevel && forall s :: 0 <= s < slot ==> levels[s] <= maxLevel
      requires Unlinked(links, slot, level + 1)
      modifies visited, `level0, `level0Len, `upper, `upperLen, `links, `entry, `maxLevel
      ensures Shape() && Closed(links) && EntryOk() && visited.Valid()
      ensures old(Simple(links)) ==> Simple(links)
      ensures Joined(old(links), links, slot, 0, Min(level, old(maxLevel)), m, m0)
      ensures Connected(old(links), links, vectors, slot, old(entry.value), old(maxLevel), Min(level, old(maxLevel)))
      ensures entry == (if level > old(maxLevel) then Some(slot) else old(entry))
              && maxLevel == Max(level, old(maxLevel))
    {
      hide Descended, BaseHolds, RowAt, Trail, Joined;
      ghost var g := links;
      var top := Min(level, maxLevel);
      LevelRows(entry.value);
      LevelRows(slot);
      var start := DescendTo(From(metric, vectors, vectors[slot]), entry.value, maxLevel, top);
      NarrowUnlinked(links, slot, level, top);
      ghost var choices := Connect(visited, slot, start, top);
      assert Trail(g, links, vectors, slot, start, top, choices);
      if level > maxLevel {
        entry, maxLevel := Some(slot), level;
      }
    }

    lemma LevelRows(s: nat)
      requires Shape() && s < |levels|
      ensures |links[s]| == levels[s] + 1
    {
      assert UpperHolds(upper[s], upperLen[s], m, levels[s], links[s]);
    }

    // ----- orphan repair after a parallel build

    /** Overwrite one link of a level-0 list in place. */
    method ReplaceBase(host: nat, i: nat, orphan: nat)
      requires Shape() && OnLevel(links, host, 0) && i < |links[host][0]|
      modifies `level0, `links
      ensures Shape()
      ensures links == SetList(old(links), host, 0, old(links)[host][0][i := orphan])
    {
      ghost var g, list := links, links[host][0][i := orphan];
      BaseReplace(level0, level0Len, m0, g, host, i, orphan);
      var row := level0[host * m0 + i := orphan];
      FlatBase(level0, level0Len, upper, upperLen, levels, m, m0, g, row, level0Len, host, list);
      level0, links := row, SetList(links, host, 0, list);
    }

    ghost predicate DegreesRight(degree: seq<nat>)
      reads this
      requires HasBase(links)
    {
      |degree| == |links| && forall x :: 0 <= x < |degree| ==> degree[x] == InDegree(links, x)
    }

    method CountDegrees() returns (degree: seq<nat>)
      requires Shape() && Closed(links) && HasBase(links)
      ensures DegreesRight(degree)
    {
      hide BaseHolds, UpperHolds, RowAt;
      degree := seq(|levels|, _ => 0);
      for slot := 0 to |levels|
        invariant |degree| == |links|
        invariant forall x :: 0 <= x < |degree| ==> degree[x] == CountBelow(links, slot, x)
      {
        var list := Neighbours(slot, 0);
        for i := 0 to |list|
          invariant |degree| == |links|
          invariant forall x :: 0 <= x < |degree| ==> degree[x] == CountBelow(links, slot, x) + multiset(list[..i])[x]
        {
          assert list[i] in links[slot][0] && OnLevel(links, list[i], 0);
          assert list[..i + 1] == list[..i] + [list[i]];
          degree := degree[list[i] := degree[list[i]] + 1];
        }
        assert list[..|list|] == list;
      }
    }

    /** The farthest link of `host` whose target keeps another in-link, the
        first of equals. */
    method PickReplaceable(host: nat, list: seq<nat>, degree: seq<nat>) returns (pick: Option<nat>)
      requires forall i :: 0 <= i < |list| ==> list[i] < |degree|
      ensures pick.None? ==> forall i :: 0 <= i < |list| ==> degree[list[i]] <= 1
      ensures pick.Some? ==> pick.value < |list| && degree[list[pick.value]] > 1
                             && forall j :: 0 <= j < |list| && degree[list[j]] > 1
                                  ==> !Before(Hit(Between(metric, vectors)(host, list[pick.value]), j),
                                              Hit(Between(metric, vectors)(host, list[j]), pick.value))
    {
      pick := None;
      var pair := Between(metric, vectors);
      for i := 0 to |list|
        invariant pick.None? ==> forall j :: 0 <= j < i ==> degree[list[j]] <= 1
        invariant pick.Some? ==> pick.value < i && degree[list[pick.value]] > 1
                                 && forall j :: 0 <= j < i && degree[list[j]] > 1
                                      ==> !Before(Hit(pair(host, list[pick.value]), j),
                                                  Hit(pair(host, list[j]), pick.value))
      {
        if degree[list[i]] > 1 {
          if pick.None? || pair(host, list[i]) > pair(host, list[pick.value]) {
            pick := Some(i);
          }
        }
      }
    }

    /** Give one orphan an in-link from the nearest of its neighbours that can
        take it. `j` is the number of nearer hosts, all saturated. */
    method RepairOne(orphan: nat, hosts: seq<Hit>, degree0: seq<nat>) returns (degree: seq<nat>, j: nat)
      requires Shape() && Closed(links) && HasBase(links) && DegreesRight(degree0)
      requires orphan < |links| && InDegree(links, orphan) == 0
      requires forall i :: 0 <= i < |hosts| ==> hosts[i].id < |links|
      modifies `level0, `level0Len, `links
      ensures Shape() && Closed(links) && HasBase(links) && DegreesRight(degree)
      ensures j <= |hosts| && forall i :: 0 <= i < j ==> Saturated(old(links), m0, hosts[i].id)
      ensures j == |hosts| ==> links == old(links)
      ensures j < |hosts| ==> Relinked(old(links), links, m0, hosts[j].id, orphan)
    {
      degree, j := degree0, 0;
      while j < |hosts|
        invariant j <= |hosts| && links == old(links) && degree == degree0
        invariant Shape() && Closed(links) && HasBase(links)
        invariant forall i :: 0 <= i < j ==> Saturated(links, m0, hosts[i].id)
      {
        var linked;
        degree, linked := TryHost(orphan, hosts[j].id, degree);
        if linked {
          return;
        }
        j := j + 1;
      }
    }

    method TryHost(orphan: nat, host: nat, degree0: seq<nat>) returns (degree: seq<nat>, linked: bool)
      requires Shape() && Closed(links) && HasBase(links) && DegreesRight(degree0)
      requires orphan < |links| && InDegree(links, orphan) == 0 && host < |links|
      modifies `level0, `level0Len, `links
      ensures Shape() && Closed(links) && HasBase(links) && DegreesRight(degree)
      ensures linked ==> Relinked(old(links), links, m0, host, orphan)
      ensures !linked ==> links == old(links) && degree == degree0 && Saturated(links, m0, host)
    {
      degree, linked := degree0, false;
      var list := Neighbours(host, 0);
      TargetsLinked(links, host);
      if |list| < m0 {
        degree := HostAppend(orphan, host, degree0);
        return degree, true;
      }
      var pick := PickReplaceable(host, list, degree0);
      if pick.Some? {
        degree := HostReplace(orphan, host, pick.value, degree0);
        return degree, true;
      }
      forall t | t in list
        ensures InDegree(links, t) == 1
      {
        var i :| 0 <= i < |list| && list[i] == t;
        assert degree0[list[i]] <= 1;
      }
    }

    method HostAppend(orphan: nat, host: nat, degree0: seq<nat>) returns (degree: seq<nat>)
      requires Shape() && Closed(links) && HasBase(links) && DegreesRight(degree0)
      requires orphan < |links| && host < |links| && |links[host][0]| < m0
      modifies `level0, `level0Len, `links
      ensures Shape() && Closed(links) && HasBase(links) && DegreesRight(degree)
      ensures links == SetList(old(links), host, 0, old(links)[host][0] + [orphan])
    {
      ghost var g := links;
      assert forall t :: t in g[host][0] ==> OnLevel(g, t, 0);
      AppendBase(host, orphan);
      ClosedSet(g, host, 0, g[host][0] + [orphan]);
      degree := degree0[orphan := degree0[orphan] + 1];
      RelinkDegrees(g, links, m0, host, orphan, -1, degree0, degree);
    }

    method HostReplace(orphan: nat, host: nat, i: nat, degree0: seq<nat>) returns (degree: seq<nat>)
      requires Shape() && Closed(links) && HasBase(links) && DegreesRight(degree0)
      requires orphan < |links| && host < |links| && i < |links[host][0]|
      requires links[host][0][i] < |degree0| && degree0[links[host][0][i]] > 1
      modifies `level0, `level0Len, `links
      ensures Shape() && Closed(links) && HasBase(links) && DegreesRight(degree)
      ensures links == SetList(old(links), host, 0, old(links)[host][0][i := orphan])
    {
      ghost var g := links;
      assert forall t :: t in g[host][0] ==> OnLevel(g, t, 0);
      var lost := Neighbours(host, 0)[i];
      ReplaceBase(host, i, orphan);
      ClosedSet(g, host, 0, g[host][0][i := orphan]);
      degree := degree0[lost := degree0[lost] - 1];
      degree := degree[orphan := degree[orphan] + 1];
      RelinkDegrees(g, links, m0, host, orphan, i, degree0, degree);
    }

    /** Give every slot without a level-0 in-link one, where a neighbour of it
        can take one. */
    method LinkLevel0Orphans()
      requires Valid() && HasBase(links)
      modifies `level0, `level0Len, `links
      ensures Valid() && HasBase(links)
      ensures RepairState(old(links), links, m0, if entry.Some? then entry.value else -1, |links|)
    {
      ghost var g0 := links;
      ghost var e: int := if entry.Some? then entry.value else -1;
      var degree := CountDegrees();
      RepairStart(g0, m0, e);
      hide RepairState, Relinked, FlatHolds, TombstonesOk;
      for orphan := 0 to |levels|
        invariant Shape() && Closed(links) && HasBase(links) && DegreesRight(degree)
        invariant RepairState(g0, links, m0, e, orphan)
      {
        if degree[orphan] > 0 || entry == Some(orphan) {
          RepairSkip(g0, links, m0, e, orphan);
          continue;
        }
        degree := TreatOrphan(orphan, degree, g0, e);
      }
    }

    /** Offer one orphan to its neighbours, nearest first. */
    method TreatOrphan(orphan: nat, degree0: seq<nat>, ghost g0: Links, ghost e: int) returns (degree: seq<nat>)
      requires Shape() && Closed(links) && HasBase(links) && DegreesRight(degree0)
      requires orphan < |levels| && InDegree(links, orphan) == 0
      requires HasBase(g0) && RepairState(g0, links, m0, e, orphan)
      modifies `level0, `level0Len, `links
      ensures Shape() && Closed(links) && HasBase(links) && DegreesRight(degree)
      ensures RepairState(g0, links, m0, e, orphan + 1)
    {
      hide RepairState, Relinked, Saturated;
      ghost var g := links;
      LevelRows(orphan);
      var list := Neighbours(orphan, 0);
      var hosts := SortByRank(multiset(HitsFrom(Between(metric, vectors), orphan, list)));
      HostIds(g, orphan, list, hosts, Between(metric, vectors));
      var j;
      degree, j := RepairOne(orphan, hosts, degree0);
      OrphanTreated(g0, g, links, m0, e, orphan, list, hosts, j);
    }

    // ----- search

    /** Every slot of the graph. */
    ghost function Slots(): set<nat>
      reads this
    {
      set s: nat | s < |links| && OnLevel(links, s, 0)
    }

    ghost function Live(): set<nat>
      reads this
    {
      set s: nat | s < |levels| && s !in dead
    }

    lemma SlotsAreRows(landing: nat, accepts: nat -> bool)
      requires Valid()
      ensures Accepted(Slots(), accepts) == AllowedRows(|levels|, accepts)
      ensures Reachable(links, 0, [landing]) <= Slots()
    {
      forall s: nat | s < |levels|
        ensures OnLevel(links, s, 0)
      {
        LevelRows(s);
      }
      forall x | x in Reachable(links, 0, [landing])
        ensures x in Slots()
      {
        ReachableOnLevel(links, 0, [landing], x);
      }
    }

    /** What every search returns: the k best of a set of distinct live
        accepted slots, each with its own exact distance. */
    ghost predicate HitsFromLive(hits: seq<Hit>, k: nat, exact: nat -> real, allow: nat -> bool)
      reads this
    {
      && |hits| <= k && Sorted(hits) && Distinct(Ids(hits))
      && forall i :: 0 <= i < |hits| ==>
           && hits[i].id < |levels| && hits[i].id !in dead && allow(hits[i].id)
           && hits[i].distance == exact(hits[i].id)
    }

    /** The slots visited are reachable from the landing slot, and the
        shortlisted ones had all their neighbours visited. */
    ghost predicate VisitPromise(landing: nat, seen: set<nat>, shortlist: seq<Hit>)
      reads this
    {
      && landing in seen && seen <= Reachable(links, 0, [landing])
      && Sorted(shortlist)
      && forall h :: h in shortlist ==> Expanded(links, 0, h.id, seen)
    }

    /** What a search promises. `shortlist` is the beam's result in traversal
        order of preference. */
    ghost predicate SearchPromise(query: Vector, k: nat, beam: nat, mode: SearchMode, accepts: nat -> bool,
                                  approximate: nat -> real, hits: seq<Hit>, landing: nat, seen: set<nat>,
                                      shortlist: seq<Hit>)
      reads this
    {
      var exact := From(metric, vectors, query);
      var reach := Reachable(links, 0, [landing]);
      && VisitPromise(landing, seen, shortlist)
      && match mode {
           case F32 => PromiseF32(reach, k, beam, accepts, exact, hits, seen, shortlist)
           case Int8(rescore) => PromiseInt8(reach, k, beam, rescore, accepts, approximate, exact, hits, seen,
                                             shortlist)
         }
    }

    /** What a search by traversal returns: hits of live slots, promised from
        where the greedy descent of the upper levels lands. */
    ghost predicate Traversed(query: Vector, k: nat, ef: nat, mode: SearchMode, allow: nat -> bool,
                              approximate: nat -> real, hits: seq<Hit>)
      reads this
    {
      && HitsFromLive(hits, k, From(metric, vectors, query), allow)
      && (k == 0 || entry.None? ==> hits == [])
      && (k > 0 && entry.Some? ==>
            exists landing, seen, shortlist ::
              && Descended(links, if mode.F32? then From(metric, vectors, query) else approximate,
                           entry.value, maxLevel, 0, landing)
              && SearchPromise(query, k, Max(ef, k), mode, LiveAnd(tombstones, allow), approximate, hits, landing, seen,
                               shortlist))
    }

    method SearchWith(visited: Visited, query: Vector, k: nat, ef: nat, mode: SearchMode, allow: nat -> bool,
                      approximate: nat -> real)
      returns (hits: seq<Hit>, ghost landing: nat, ghost seen: set<nat>, ghost shortlist: seq<Hit>)
      requires Valid() && visited.Valid() && |query| == dims
      modifies visited
      ensures visited.Valid()
      ensures HitsFromLive(hits, k, From(metric, vectors, query), allow)
      ensures k == 0 || entry.None? ==> hits == []
      ensures k > 0 && entry.Some? ==>
        Descended(links, if mode.F32? then From(metric, vectors, query) else approximate,
                  entry.value, maxLevel, 0, landing)
      ensures k > 0 && entry.Some? ==>
        SearchPromise(query, k, Max(ef, k), mode, LiveAnd(tombstones, allow), approximate, hits, landing, seen,
                      shortlist)
    {
      hide Descended, SearchPromise, BaseHolds, RowAt;
      landing, seen, shortlist := 0, {}, [];
      hits := [];
      if entry.None? || k == 0 {
        return;
      }
      LevelRows(entry.value);
      var dist := if mode.F32? then From(metric, vectors, query) else approximate;
      var start := DescendTo(dist, entry.value, maxLevel, 0);
      landing := start;
      hits, seen, shortlist := SearchFrom(visited, query, k, Max(ef, k), mode, allow, approximate, start);
    }

    /** The level-0 beam from the landing slot, and the ranking of its results. */
    method SearchFrom(visited: Visited, query: Vector, k: nat, beam: nat, mode: SearchMode, allow: nat -> bool,
                      approximate: nat -> real, start: nat)
      returns (hits: seq<Hit>, ghost seen: set<nat>, ghost shortlist: seq<Hit>)
      requires Valid() && visited.Valid() && 0 < k <= beam && OnLevel(links, start, 0)
      modifies visited
      ensures visited.Valid()
      ensures HitsFromLive(hits, k, From(metric, vectors, query), allow)
      ensures SearchPromise(query, k, beam, mode, LiveAnd(tombstones, allow), approximate, hits, start, seen, shortlist)
    {
      var exact := From(metric, vectors, query);
      var accepts := LiveAnd(tombstones, allow);
      if mode.F32? {
        hits, seen, shortlist := SearchF32(visited, exact, k, beam, accepts, start);
      } else {
        hits, seen, shortlist := SearchInt8(visited, exact, approximate, k, beam, mode.rescore, accepts, start);
      }
      LiveHits(hits, k, exact, accepts, allow, start, seen);
    }

    method SearchF32(visited: Visited, exact: nat -> real, k: nat, beam: nat, accepts: nat -> bool, start: nat)
      returns (hits: seq<Hit>, ghost seen: set<nat>, ghost shortlist: seq<Hit>)
      requires Shape() && Closed(links) && visited.Valid() && 0 < k <= beam && OnLevel(links, start, 0)
      modifies visited
      ensures visited.Valid()
      ensures VisitPromise(start, seen, shortlist)
      ensures PromiseF32(Reachable(links, 0, [start]), k, beam, accepts, exact, hits, seen, shortlist)
      ensures multiset(hits) <= Pool(seen, accepts, exact)
    {
      var candidates;
      candidates, seen := SearchLayer(visited, exact, [start], beam, 0, accepts);
      hits, shortlist := FinishExact(candidates, k, beam, exact, accepts, Reachable(links, 0, [start]), seen);
      assert start in [start];
    }

    method SearchInt8(visited: Visited, exact: nat -> real, approximate: nat -> real, k: nat, beam: nat, rescore: nat,
                      accepts: nat -> bool, start: nat)
      returns (hits: seq<Hit>, ghost seen: set<nat>, ghost shortlist: seq<Hit>)
      requires Shape() && Closed(links) && visited.Valid() && 0 < k <= beam && OnLevel(links, start, 0)
      modifies visited
      ensures visited.Valid()
      ensures VisitPromise(start, seen, shortlist)
      ensures PromiseInt8(Reachable(links, 0, [start]), k, beam, rescore, accepts, approximate, exact, hits, seen,
                          shortlist)
      ensures multiset(hits) <= Pool(seen, accepts, exact)
    {
      var candidates;
      candidates, seen := SearchLayer(visited, approximate, [start], beam, 0, accepts);
      hits, shortlist := FinishRescored(candidates, k, beam, rescore, exact, approximate, accepts,
                                        Reachable(links, 0, [start]), seen);
      assert start in [start];
    }

    lemma LiveHits(hits: seq<Hit>, k: nat, exact: nat -> real, accepts: nat -> bool, allow: nat -> bool, landing: nat,
                   seen: set<nat>)
      requires Valid() && accepts == LiveAnd(tombstones, allow) && |hits| <= k && Sorted(hits)
      requires seen <= Reachable(links, 0, [landing])
      requires multiset(hits) <= Pool(seen, accepts, exact)
      ensures HitsFromLive(hits, k, exact, allow)
    {
      PoolIds(hits, seen, accepts, exact);
      forall i | 0 <= i < |hits|
        ensures hits[i].id < |levels| && hits[i].id !in dead && allow(hits[i].id)
      {
        ReachableOnLevel(links, 0, [landing], hits[i].id);
        assert InWords(tombstones, hits[i].id) <==> hits[i].id in dead;
      }
    }

    /** Where every slot of level 0 reaches the live accepted ones, and these are
        no more than beam and rescore take in, a traversal by any approximate
        distance returns their `k` nearest. */
    lemma ConnectedIsExact(query: Vector, k: nat, ef: nat, rescore: nat, allow: nat -> bool, approximate: nat -> real,
                           hits: seq<Hit>)
      requires Valid() && entry.Some? && k > 0
      requires Traversed(query, k, ef, Int8(rescore), allow, approximate, hits)
      requires var accepts := LiveAnd(tombstones, allow);
               && |Accepted(Slots(), accepts)| <= Min(Max(ef, k), Max(rescore, k))
               && forall s :: s in Slots() ==> Accepted(Slots(), accepts) <= Reachable(links, 0, [s])
      ensures IsTopK(Pool(Slots(), LiveAnd(tombstones, allow), From(metric, vectors, query)), k, hits)
    {
      hide Reachable, IsTopK, Pool, KeepsBest;
      var accepts, exact := LiveAnd(tombstones, allow), From(metric, vectors, query);
      LevelRows(entry.value);
      var landing, seen, shortlist :|
        && Descended(links, approximate, entry.value, maxLevel, 0, landing)
        && SearchPromise(query, k, Max(ef, k), Int8(rescore), accepts, approximate, hits, landing, seen, shortlist);
      LandingOnBase(links, approximate, entry.value, maxLevel, landing);
      var reach := Reachable(links, 0, [landing]);
      SlotsAreRows(landing, accepts);
      assert Accepted(reach, accepts) == Accepted(Slots(), accepts);
      SamePool(reach, Slots(), accepts, exact);
    }

    /** Exact top-k over an explicit slot set (the selective-filter route). */
    method SearchExactOver(query: Vector, k: nat, allowed: set<nat>) returns (hits: seq<Hit>)
      requires Valid() && |query| == dims
      ensures IsTopK(Pool(allowed * Live(), All(), From(metric, vectors, query)), k, hits)
    {
      var top := new TopK(k);
      var dist := From(metric, vectors, query);
      ghost var live := Live();
      var rest := allowed;
      StartPool(allowed, live, dist);
      while rest != {}
        invariant top.Valid() && fresh(top) && top.k == k
        invariant rest <= allowed
        invariant top.pushed == Pool((allowed - rest) * live, All(), dist)
      {
        var slot :| slot in rest;
        if slot < |levels| && !IsTombstoned(slot) {
          top.Push(Hit(dist(slot), slot));
        }
        OneMoreSlot(allowed, rest, live, slot, dist);
        rest := rest - {slot};
      }
      assert (allowed - rest) * live == allowed * live;
      hits := top.IntoSorted();
    }

    /** Filtered search: small allowed sets are answered exactly, larger ones
        by masked traversal. */
    method SearchFiltered(visited: Visited, query: Vector, k: nat, ef: nat, mode: SearchMode, allowed: set<nat>,
                          cutover: nat, approximate: nat -> real)
      returns (hits: seq<Hit>)
      requires Valid() && visited.Valid() && |query| == dims
      modifies visited
      ensures visited.Valid()
      ensures HitsFromLive(hits, k, From(metric, vectors, query), Only(allowed))
      ensures |allowed| <= cutover ==> IsTopK(Pool(allowed * Live(), All(), From(metric, vectors, query)), k, hits)
      ensures |allowed| > cutover ==> Traversed(query, k, ef, mode, Only(allowed), approximate, hits)
    {
      hide Descended, SearchPromise;
      if k == 0 || allowed == {} {
        assert allowed == {} ==> allowed * Live() == {};
        assert Pool({}, All(), From(metric, vectors, query)) == multiset{};
        return [];
      }
      if |allowed| <= cutover {
        hits := SearchExactOver(query, k, allowed);
        ExactHits(hits, k, From(metric, vectors, query), allowed);
        return;
      }
      ghost var landing, seen, shortlist;
      hits, landing, seen, shortlist := SearchWith(visited, query, k, ef, mode, Only(allowed), approximate);
    }

    lemma ExactHits(hits: seq<Hit>, k: nat, exact: nat -> real, allowed: set<nat>)
      requires IsTopK(Pool(allowed * Live(), All(), exact), k, hits)
      ensures HitsFromLive(hits, k, exact, Only(allowed))
    {
      PoolIds(hits, allowed * Live(), All(), exact);
    }
  }

  /** The in-degree array follows a relink. */
  lemma RelinkDegrees(g: Links, h: Links, m0: nat, host: nat, orphan: nat, i: int, before: seq<nat>, after: seq<nat>)
    requires HasBase(g) && host < |g| && HasBase(h) && orphan < |g|
    requires if i < 0 then h == SetList(g, host, 0, g[host][0] + [orphan])
             else i < |g[host][0]| && g[host][0][i] < |g| && h == SetList(g, host, 0, g[host][0][i := orphan])
    requires |before| == |g| && forall x :: 0 <= x < |g| ==> before[x] == InDegree(g, x)
    requires |after| == |g| && forall x :: 0 <= x < |g| ==>
      after[x] + (if i >= 0 && x == g[host][0][i] then 1 else 0) == before[x] + (if x == orphan then 1 else 0)
    ensures forall x :: 0 <= x < |h| ==> after[x] == InDegree(h, x)
  {
    forall x | 0 <= x < |h|
      ensures after[x] == InDegree(h, x)
    {
      RelinkCounts(g, h, m0, host, orphan, i, x);
    }
  }

  lemma TargetsLinked(g: Links, host: nat)
    requires Closed(g) && HasBase(g) && host < |g|
    ensures forall i :: 0 <= i < |g[host][0]| ==> g[host][0][i] < |g|
    ensures forall t :: t in g[host][0] ==> InDegree(g, t) > 0
  {
    forall i | 0 <= i < |g[host][0]|
      ensures g[host][0][i] < |g|
    {
      assert g[host][0][i] in g[host][0] && OnLevel(g, host, 0);
      assert OnLevel(g, g[host][0][i], 0);
    }
    forall t | t in g[host][0]
      ensures InDegree(g, t) > 0
    {
      CountPositive(g, |g|, host, t);
    }
  }

  /** One orphan treated: relinked at the first host that could take it, or
      all its hosts are saturated. */
  lemma RepairStart(g0: Links, m0: nat, e: int)
    requires HasBase(g0)
    ensures RepairState(g0, g0, m0, e, 0)
  {
  }

  lemma RepairSkip(g0: Links, g: Links, m0: nat, e: int, orphan: nat)
    requires HasBase(g0) && HasBase(g) && RepairState(g0, g, m0, e, orphan) && orphan < |g|
    requires InDegree(g, orphan) > 0 || orphan == e
    ensures RepairState(g0, g, m0, e, orphan + 1)
  {
  }

  lemma OrphanTreated(g0: Links, g: Links, h: Links, m0: nat, e: int, orphan: nat, list: seq<nat>, hosts: seq<Hit>,
                      j: nat)
    requires HasBase(g0) && HasBase(g) && HasBase(h) && RepairState(g0, g, m0, e, orphan) && orphan < |g|
    requires InDegree(g, orphan) == 0 && list == g[orphan][0] && j <= |hosts|
    requires forall x :: x in list ==> exists i :: 0 <= i < |hosts| && hosts[i].id == x
    requires forall i :: 0 <= i < j ==> Saturated(g, m0, hosts[i].id)
    requires j == |hosts| ==> h == g
    requires j < |hosts| ==> Relinked(g, h, m0, hosts[j].id, orphan)
    ensures RepairState(g0, h, m0, e, orphan + 1)
  {
    assert InDegree(g0, orphan) == 0;
    if j < |hosts| {
      RelinkStep(g0, g, h, m0, e, orphan, hosts[j].id, orphan);
    } else {
      forall x | x in g0[orphan][0] && x in h[orphan][0]
        ensures Saturated(h, m0, x)
      {
        var i :| 0 <= i < |hosts| && hosts[i].id == x;
      }
      assert Blocked(g0, h, m0, orphan);
    }
  }

  lemma HostIds(g: Links, orphan: nat, list: seq<nat>, hosts: seq<Hit>, pair: (nat, nat) -> real)
    requires Closed(g) && OnLevel(g, orphan, 0) && list == g[orphan][0]
    requires multiset(hosts) == multiset(HitsFrom(pair, orphan, list))
    ensures forall i :: 0 <= i < |hosts| ==> hosts[i].id < |g|
    ensures forall h :: h in list ==> exists i :: 0 <= i < |hosts| && hosts[i].id == h
  {
    var hits := HitsFrom(pair, orphan, list);
    RankedIds(hits, hosts);
    forall i | 0 <= i < |hosts|
      ensures hosts[i].id < |g|
    {
      assert hosts[i] in multiset(hosts);
      var j :| 0 <= j < |hits| && hits[j] == hosts[i];
      assert list[j] in g[orphan][0];
      assert OnLevel(g, list[j], 0);
    }
    forall h | h in list
      ensures exists i :: 0 <= i < |hosts| && hosts[i].id == h
    {
      var j :| 0 <= j < |list| && list[j] == h;
      assert hits[j] in multiset(hits);
      assert hits[j] in multiset(hosts);
      var i :| 0 <= i < |hosts| && hosts[i] == hits[j];
    }
  }

  lemma StartPool(allowed: set<nat>, live: set<nat>, dist: nat -> real)
    ensures Pool((allowed - allowed) * live, All(), dist) == multiset{}
  {
    assert Accepted((allowed - allowed) * live, All()) == {};
  }

  lemma OneMoreSlot(allowed: set<nat>, rest: set<nat>, live: set<nat>, slot: nat, dist: nat -> real)
    requires slot in rest && rest <= allowed
    ensures Pool((allowed - (rest - {slot})) * live, All(), dist)
         == Pool((allowed - rest) * live, All(), dist) + if slot in live then multiset{Hit(dist(slot), slot)}
         else multiset{}
  {
    var done := allowed - rest;
    if slot in live {
      assert (allowed - (rest - {slot})) * live == done * live + {slot};
      PoolAdd(done * live, slot, All(), dist);
    } else {
      assert (allowed - (rest - {slot})) * live == done * live;
    }
  }

  lemma PrefixIds(hits: seq<Hit>, n: nat)
    requires Distinct(Ids(hits))
    ensures Distinct(Ids(Prefix(hits, n)))
    ensures forall i :: 0 <= i < |Prefix(hits, n)| ==> Prefix(hits, n)[i] == hits[i]
  {
    var p := Prefix(hits, n);
    forall i, j | 0 <= i < j < |p|
      ensures Ids(p)[i] != Ids(p)[j]
    {
      assert Ids(hits)[i] != Ids(hits)[j];
    }
  }

  /** When the shortlist holds every accepted slot, rescoring it ranks them all exactly. */
  lemma RescoreAll(ranked: seq<Hit>, n: nat, s: set<nat>, accepts: nat -> bool, approximate: nat -> real,
                   exact: nat -> real)
    requires multiset(ranked) == Pool(s, accepts, approximate) && |Accepted(s, accepts)| <= n
    ensures multiset(Rescored(Prefix(ranked, n), exact)) == Pool(s, accepts, exact)
  {
    PoolSize(s, accepts, approximate);
    PoolSize(s, accepts, exact);
    PoolIds(ranked, s, accepts, approximate);
    assert |multiset(ranked)| == |ranked|;
    var all := Rescored(ranked, exact);
    assert Prefix(ranked, n) == ranked;
    RescoredPool(ranked, s, accepts, exact);
    assert |multiset(all)| == |all|;
    FullCover(multiset(all), Pool(s, accepts, exact));
  }

  method FinishExact(candidates: seq<Hit>, k: nat, beam: nat, exact: nat -> real, ghost accepts: nat -> bool,
                     ghost reach: set<nat>, ghost seen: set<nat>)
    returns (hits: seq<Hit>, ghost shortlist: seq<Hit>)
    requires k <= beam && KeepsBest(multiset(candidates), Pool(seen, accepts, exact), beam)
    requires |Accepted(reach, accepts)| <= beam
             ==> multiset(candidates) == Pool(reach, accepts, exact)
    ensures Sorted(shortlist) && multiset(shortlist) == multiset(candidates)
    ensures IsTopK(Pool(seen, accepts, exact), k, hits)
    ensures |Accepted(reach, accepts)| <= beam
            ==> IsTopK(Pool(reach, accepts, exact), k, hits)
    ensures multiset(hits) <= Pool(seen, accepts, exact)
  {
    hits := RankHits(candidates, k);
    shortlist := SortByRank(multiset(candidates));
    TopKOfBest(multiset(candidates), Pool(seen, accepts, exact), beam, k, hits);
  }

  method FinishRescored(candidates: seq<Hit>, k: nat, beam: nat, rescore: nat, exact: nat -> real,
                        ghost approximate: nat -> real, ghost accepts: nat -> bool, ghost reach: set<nat>,
                            ghost seen: set<nat>)
    returns (hits: seq<Hit>, ghost shortlist: seq<Hit>)
    requires KeepsBest(multiset(candidates), Pool(seen, accepts, approximate), beam)
    requires |Accepted(reach, accepts)| <= beam
             ==> multiset(candidates) == Pool(reach, accepts, approximate)
    ensures Sorted(shortlist) && multiset(shortlist) == multiset(candidates)
    ensures IsTopK(multiset(Rescored(Prefix(shortlist, Max(rescore, k)), exact)), k, hits)
    ensures |Accepted(reach, accepts)| <= Min(beam, Max(rescore, k))
            ==> IsTopK(Pool(reach, accepts, exact), k, hits)
    ensures multiset(hits) <= Pool(seen, accepts, exact)
  {
    var ranked := SortByRank(multiset(candidates));
    shortlist := ranked;
    PoolIds(ranked, seen, accepts, approximate);
    var best := Prefix(ranked, Max(rescore, k));
    PrefixIds(ranked, Max(rescore, k));
    RescoredPool(best, seen, accepts, exact);
    if |Accepted(reach, accepts)| <= Min(beam, Max(rescore, k)) {
      RescoreAll(ranked, Max(rescore, k), reach, accepts, approximate, exact);
    }
    hits := RankHits(Rescored(best, exact), k);
  }

  /** When the beam is as wide as the live accepted slots and they are all
      reachable, graph search returns what the exact oracle returns. */
  method SearchMatchesOracle(index: Index, visited: Visited, query: Vector, k: nat, ef: nat, allow: nat -> bool)
    returns (found: seq<Hit>, exact: seq<Hit>, ghost landing: nat)
    requires index.Valid() && visited.Valid() && |query| == index.dims
    modifies visited
    ensures index.entry.Some? && k > 0 ==>
      Descended(index.links, From(index.metric, index.vectors, query), index.entry.value, index.maxLevel, 0, landing)
    ensures index.entry.Some? && k > 0
            && Accepted(index.Slots(), LiveAnd(index.tombstones, allow)) <= Reachable(index.links, 0, [landing])
            && |Accepted(index.Slots(), LiveAnd(index.tombstones, allow))| <= Max(ef, k)
            ==> found == exact
  {
    var accepts := LiveAnd(index.tombstones, allow);
    var dist := From(index.metric, index.vectors, query);
    ghost var seen, shortlist;
    found, landing, seen, shortlist := index.SearchWith(visited, query, k, ef, F32, allow, dist);
    exact := OracleSearch(|index.levels|, k, dist, accepts);
    ghost var reach := Reachable(index.links, 0, [landing]);
    ghost var live := Accepted(index.Slots(), accepts);
    if index.entry.Some? && k > 0 && live <= reach && |live| <= Max(ef, k) {
      index.SlotsAreRows(landing, accepts);
      assert Accepted(reach, accepts) == live;
      assert HitsOf(AllowedRows(|index.levels|, accepts), dist) == HitsOf(live, dist);
      TopKUnique(Pool(reach, accepts, dist), k, found, exact);
    }
  }
}
