/** The layered neighbour graph as a value, and what a beam search over it
    promises. `g[s][l]` is the neighbour list of slot `s` at level `l`; a slot
    of level `v` has the lists `0..v`. */
module Graph {
  import opened Rank

  type Links = seq<seq<seq<nat>>>

  ghost predicate OnLevel(g: Links, s: int, l: int) {
    0 <= s < |g| && 0 <= l < |g[s]|
  }

  /** Every listed slot exists and has the level it is listed at, so following
      a link at a level never leaves the level. */
  ghost predicate Closed(g: Links) {
    forall s, l, t :: OnLevel(g, s, l) && t in g[s][l] ==> OnLevel(g, t, l)
  }

  ghost predicate Distinct(list: seq<nat>) {
    forall i, j :: 0 <= i < j < |list| ==> list[i] != list[j]
  }

  /** No list repeats a slot or names its owner. */
  ghost predicate Simple(g: Links) {
    forall s, l :: OnLevel(g, s, l) ==> Distinct(g[s][l]) && s !in g[s][l]
  }

  ghost predicate Within(g: Links, m: nat, m0: nat) {
    forall s, l :: OnLevel(g, s, l) ==> |g[s][l]| <= if l == 0 then m0 else m
  }

  ghost function SetList(g: Links, s: int, l: int, list: seq<nat>): Links
    requires OnLevel(g, s, l)
  {
    g[s := g[s][l := list]]
  }

  ghost predicate SameHeights(g: Links, h: Links) {
    |g| == |h| && forall s :: 0 <= s < |g| ==> |g[s]| == |h[s]|
  }

  /** `h` is `g` except for lists of level `l`. */
  ghost predicate OnlyLevel(g: Links, h: Links, l: nat) {
    SameHeights(g, h) && forall s, k :: OnLevel(g, s, k) && k != l ==> h[s][k] == g[s][k]
  }

  /** At the levels below `below`, `slot` has no links and no list names it. */
  ghost predicate Unlinked(g: Links, slot: nat, below: nat) {
    forall s, l :: OnLevel(g, s, l) && l < below ==> slot !in g[s][l] && (s == slot ==> g[s][l] == [])
  }

  /** Each neighbour of `slot` at level `l` links back, unless its list was
      full and the selection dropped the link. */
  ghost predicate LinkedAt(g: Links, slot: nat, l: nat, capacity: nat) {
    OnLevel(g, slot, l) && g[slot][l] != []
    && forall t :: t in g[slot][l] ==> OnLevel(g, t, l) && (slot in g[t][l] || |g[t][l]| == capacity)
  }

  lemma SetListAt(g: Links, s: int, l: int, list: seq<nat>, a: int, k: int)
    requires OnLevel(g, s, l)
    ensures OnLevel(SetList(g, s, l, list), a, k) <==> OnLevel(g, a, k)
    ensures OnLevel(g, a, k) ==> SetList(g, s, l, list)[a][k] == if a == s && k == l then list else g[a][k]
  {
  }

  lemma ClosedSet(g: Links, s: nat, l: nat, list: seq<nat>)
    requires Closed(g) && OnLevel(g, s, l) && forall t :: t in list ==> OnLevel(g, t, l)
    ensures Closed(SetList(g, s, l, list))
  {
    var h := SetList(g, s, l, list);
    forall a, k, t | OnLevel(h, a, k) && t in h[a][k]
      ensures OnLevel(h, t, k)
    {
      SetListAt(g, s, l, list, a, k);
      SetListAt(g, s, l, list, t, k);
    }
  }

  lemma SimpleSet(g: Links, s: nat, l: nat, list: seq<nat>)
    requires Simple(g) && OnLevel(g, s, l) && Distinct(list) && s !in list
    ensures Simple(SetList(g, s, l, list))
  {
    var h := SetList(g, s, l, list);
    forall a, k | OnLevel(h, a, k)
      ensures Distinct(h[a][k]) && a !in h[a][k]
    {
      SetListAt(g, s, l, list, a, k);
    }
  }

  /** The first `i` selected neighbours have been linked back to `slot`. */
  ghost predicate LinkedSoFar(g0: Links, g: Links, selected: seq<nat>, i: nat, slot: nat, l: nat, capacity: nat) {
    && i <= |selected|
    && OnlyLevel(g0, g, l)
    && (forall s :: OnLevel(g, s, l) && s !in selected[..i] ==> g[s][l] == g0[s][l])
    && (forall t :: t in selected[..i] && OnLevel(g, t, l) ==> slot in g[t][l] || |g[t][l]| == capacity)
  }

  lemma LinkOneMore(g0: Links, g: Links, h: Links, selected: seq<nat>, i: nat, slot: nat, l: nat, capacity: nat)
    requires LinkedSoFar(g0, g, selected, i, slot, l, capacity) && i < |selected|
    requires OnLevel(g, selected[i], l) && OnLevel(h, selected[i], l)
    requires h == SetList(g, selected[i], l, h[selected[i]][l])
    requires slot in h[selected[i]][l] || |h[selected[i]][l]| == capacity
    ensures LinkedSoFar(g0, h, selected, i + 1, slot, l, capacity)
  {
    var t := selected[i];
    assert selected[..i + 1] == selected[..i] + [t];
    forall s, k | OnLevel(g0, s, k)
      ensures OnLevel(h, s, k) && (k != l ==> h[s][k] == g0[s][k])
    {
      SetListAt(g, t, l, h[t][l], s, k);
    }
    forall s | OnLevel(h, s, l)
      ensures s == t || (OnLevel(g, s, l) && h[s][l] == g[s][l])
    {
      SetListAt(g, t, l, h[t][l], s, l);
    }
  }

  function CapacityAt(l: nat, m: nat, m0: nat): nat {
    if l == 0 then m0 else m
  }

  /** `g` is `g1` with `slot` linked at the levels `lc..top`: lists elsewhere,
      and lists of slots it did not choose, are untouched. */
  ghost predicate Joined(g1: Links, g: Links, slot: nat, lc: int, top: int, m: nat, m0: nat) {
    && SameHeights(g1, g)
    && (forall s, l :: OnLevel(g1, s, l) && !(lc <= l <= top && OnLevel(g, slot, l) && (s == slot || s in g[slot][l]))
                       ==> g[s][l] == g1[s][l])
    && (forall l: nat :: lc <= l <= top ==> LinkedAt(g, slot, l, CapacityAt(l, m, m0)))
  }

  /** The two graphs have the same slots on a level, with the same lists. */
  ghost predicate SameLevel(g: Links, h: Links, l: int) {
    && (forall s :: OnLevel(g, s, l) <==> OnLevel(h, s, l))
    && forall s :: OnLevel(g, s, l) ==> g[s][l] == h[s][l]
  }

  /** A join changed nothing on the levels below it. */
  lemma JoinedBelow(g1: Links, g: Links, slot: nat, l: nat, top: nat, m: nat, m0: nat)
    requires Joined(g1, g, slot, l + 1, top, m, m0)
    ensures SameLevel(g1, g, l) && SameLevel(g, g1, l)
  {
    assert forall s :: OnLevel(g1, s, l) ==> g[s][l] == g1[s][l];
  }

  /** One more level of the join. */
  lemma JoinLevel(g1: Links, g: Links, h: Links, slot: nat, lc: nat, top: nat, m: nat, m0: nat, selected: seq<nat>)
    requires Joined(g1, g, slot, lc + 1, top, m, m0) && lc <= top
    requires OnLevel(g, slot, lc) && OnlyLevel(g, h, lc) && h[slot][lc] == selected
    requires LinkedAt(h, slot, lc, CapacityAt(lc, m, m0))
    requires forall s :: OnLevel(g, s, lc) && s != slot && s !in selected ==> h[s][lc] == g[s][lc]
    ensures Joined(g1, h, slot, lc, top, m, m0)
  {
    forall s, l | OnLevel(g1, s, l) && !(lc <= l <= top && OnLevel(h, slot, l) && (s == slot || s in h[slot][l]))
      ensures h[s][l] == g1[s][l]
    {
      assert OnLevel(g, s, l);
      if l != lc {
        assert h[s][l] == g[s][l];
        assert OnLevel(h, slot, l) <==> OnLevel(g, slot, l);
      }
    }
    forall l: nat | lc <= l <= top
      ensures LinkedAt(h, slot, l, CapacityAt(l, m, m0))
    {
      if l != lc {
        assert LinkedAt(g, slot, l, CapacityAt(l, m, m0));
        assert h[slot][l] == g[slot][l];
        forall t | t in h[slot][l]
          ensures OnLevel(h, t, l) && h[t][l] == g[t][l]
        {
          assert OnLevel(g, t, l);
        }
      }
    }
  }

  lemma UnlinkedBelow(g: Links, h: Links, slot: nat, lc: nat)
    requires Unlinked(g, slot, lc + 1) && OnlyLevel(g, h, lc)
    ensures Unlinked(h, slot, lc)
  {
    forall s, l | OnLevel(h, s, l) && l < lc
      ensures slot !in h[s][l] && (s == slot ==> h[s][l] == [])
    {
      assert OnLevel(g, s, l);
    }
  }

  lemma ReachableOnLevel(g: Links, l: nat, entries: seq<nat>, x: nat)
    requires x in Reachable(g, l, entries)
    ensures OnLevel(g, x, l)
  {
    var p :| Path(g, l, p) && p[0] in entries && p[|p| - 1] == x;
  }

  // ----- reachability on one level

  ghost predicate Path(g: Links, l: nat, p: seq<nat>) {
    && p != []
    && (forall i :: 0 <= i < |p| ==> OnLevel(g, p[i], l))
    && (forall i :: 0 <= i < |p| - 1 ==> p[i + 1] in g[p[i]][l])
  }

  ghost predicate Reaches(g: Links, l: nat, entries: seq<nat>, x: nat) {
    exists p :: Path(g, l, p) && p[0] in entries && p[|p| - 1] == x
  }

  ghost function Reachable(g: Links, l: nat, entries: seq<nat>): set<nat> {
    set x: nat | x < |g| && Reaches(g, l, entries, x)
  }

  lemma EntryReachable(g: Links, l: nat, entries: seq<nat>, e: nat)
    requires e in entries && OnLevel(g, e, l)
    ensures e in Reachable(g, l, entries)
  {
    assert Path(g, l, [e]);
  }

  lemma StepReachable(g: Links, l: nat, entries: seq<nat>, s: nat, t: nat)
    requires Closed(g) && s in Reachable(g, l, entries) && OnLevel(g, s, l) && t in g[s][l]
    ensures t in Reachable(g, l, entries)
  {
    var p :| Path(g, l, p) && p[0] in entries && p[|p| - 1] == s;
    var q := p + [t];
    assert OnLevel(g, t, l);
    assert Path(g, l, q) && q[0] in entries && q[|q| - 1] == t;
  }

  /** All neighbours of `s` at level `l` are in `seen`. */
  ghost predicate Expanded(g: Links, l: nat, s: nat, seen: set<nat>) {
    OnLevel(g, s, l) && forall t :: t in g[s][l] ==> t in seen
  }

  lemma {:induction false} PathStaysIn(g: Links, l: nat, p: seq<nat>, seen: set<nat>)
    requires Path(g, l, p) && p[0] in seen
    requires forall s :: s in seen ==> Expanded(g, l, s, seen)
    ensures p[|p| - 1] in seen
    decreases |p|
  {
    if |p| > 1 {
      var q := p[1..];
      assert p[0 + 1] in g[p[0]][l];
      forall i | 0 <= i < |q| - 1
        ensures q[i + 1] in g[q[i]][l]
      {
        assert p[(i + 1) + 1] in g[p[i + 1]][l];
      }
      PathStaysIn(g, l, q, seen);
    }
  }

  lemma ClosedHoldsReachable(g: Links, l: nat, entries: seq<nat>, seen: set<nat>)
    requires forall e :: e in entries ==> e in seen
    requires forall s :: s in seen ==> Expanded(g, l, s, seen)
    ensures Reachable(g, l, entries) <= seen
  {
    forall x | x in Reachable(g, l, entries)
      ensures x in seen
    {
      var p :| Path(g, l, p) && p[0] in entries && p[|p| - 1] == x;
      PathStaysIn(g, l, p, seen);
    }
  }

  // ----- what a beam search promises

  ghost function Accepted(s: set<nat>, accepts: nat -> bool): set<nat> {
    set x | x in s && accepts(x)
  }

  /** The accepted part of a set of slots, as hits. */
  ghost function Pool(s: set<nat>, accepts: nat -> bool, dist: nat -> real): multiset<Hit> {
    multiset(HitsOf(Accepted(s, accepts), dist))
  }

  /** The results are the `ef` best accepted slots among those visited, only
      reachable slots were visited, and every neighbour of a result was. */
  ghost predicate BeamCertificate(g: Links, l: nat, entries: seq<nat>, ef: nat, dist: nat -> real, accepts: nat -> bool,
                                  results: multiset<Hit>, seen: set<nat>)
  {
    && (forall e :: e in entries ==> e in seen)
    && seen <= Reachable(g, l, entries)
    && KeepsBest(results, Pool(seen, accepts, dist), ef)
    && (forall h :: h in results ==> Expanded(g, l, h.id, seen))
  }

  lemma SamePath(g: Links, h: Links, l: nat, p: seq<nat>)
    requires SameLevel(g, h, l) && Path(g, l, p)
    ensures Path(h, l, p)
  {
    assert forall i :: 0 <= i < |p| ==> OnLevel(g, p[i], l);
  }

  /** What a beam certifies depends on the lists of its level alone. */
  lemma SameBeam(g: Links, h: Links, l: nat, entries: seq<nat>, ef: nat, dist: nat -> real, accepts: nat -> bool,
                 results: multiset<Hit>, seen: set<nat>)
    requires SameLevel(g, h, l) && BeamCertificate(h, l, entries, ef, dist, accepts, results, seen)
    ensures BeamCertificate(g, l, entries, ef, dist, accepts, results, seen)
  {
    forall x | x in seen
      ensures x in Reachable(g, l, entries)
    {
      ReachableOnLevel(h, l, entries, x);
      var p :| Path(h, l, p) && p[0] in entries && p[|p| - 1] == x;
      SamePath(h, g, l, p);
    }
    forall r | r in results
      ensures Expanded(g, l, r.id, seen)
    {
      assert Expanded(h, l, r.id, seen);
    }
  }

  lemma PoolAdd(s: set<nat>, x: nat, accepts: nat -> bool, dist: nat -> real)
    requires x !in s
    ensures Pool(s + {x}, accepts, dist)
         == Pool(s, accepts, dist) + if accepts(x) then multiset{Hit(dist(x), x)} else multiset{}
  {
    if accepts(x) {
      assert Accepted(s + {x}, accepts) == Accepted(s, accepts) + {x};
      HitsOfAdd(Accepted(s, accepts), x, dist);
    } else {
      assert Accepted(s + {x}, accepts) == Accepted(s, accepts);
    }
  }

  lemma PoolMember(s: set<nat>, accepts: nat -> bool, dist: nat -> real, h: Hit)
    ensures h in Pool(s, accepts, dist) <==> h.id in s && accepts(h.id) && h == Hit(dist(h.id), h.id)
  {
  }

  lemma {:induction false} PoolSize(s: set<nat>, accepts: nat -> bool, dist: nat -> real)
    ensures |Pool(s, accepts, dist)| == |Accepted(s, accepts)|
    decreases s
  {
    if s == {} {
      assert Accepted(s, accepts) == {};
      assert HitsOf({}, dist) == {};
    } else {
      var x :| x in s;
      var rest := s - {x};
      assert s == rest + {x};
      PoolSize(rest, accepts, dist);
      PoolAdd(rest, x, accepts, dist);
      if accepts(x) {
        assert Accepted(s, accepts) == Accepted(rest, accepts) + {x};
      } else {
        assert Accepted(s, accepts) == Accepted(rest, accepts);
      }
    }
  }

  lemma PoolMonotone(s: set<nat>, t: set<nat>, accepts: nat -> bool, dist: nat -> real)
    requires s <= t
    ensures Pool(s, accepts, dist) <= Pool(t, accepts, dist)
  {
    forall h: Hit
      ensures Pool(s, accepts, dist)[h] <= Pool(t, accepts, dist)[h]
    {
      PoolMember(s, accepts, dist, h);
      PoolMember(t, accepts, dist, h);
    }
  }

  /** Local optimality: an accepted neighbour of a result that is not itself a
      result ranks after every result, and the beam is then full. */
  lemma NoBetterNeighbour(g: Links, l: nat, entries: seq<nat>, ef: nat, dist: nat -> real, accepts: nat -> bool,
                          results: multiset<Hit>, seen: set<nat>, h: Hit, t: nat)
    requires BeamCertificate(g, l, entries, ef, dist, accepts, results, seen)
    requires h in results && OnLevel(g, h.id, l) && t in g[h.id][l] && accepts(t)
    ensures Hit(dist(t), t) in results || (|results| == ef && forall r :: r in results ==> Before(r, Hit(dist(t), t)))
  {
    var n := Hit(dist(t), t);
    var pool := Pool(seen, accepts, dist);
    assert t in seen;
    PoolMember(seen, accepts, dist, n);
    if n !in results {
      assert n in pool - results;
      if |results| != ef {
        FullCover(results, pool);
      }
      forall r | r in results
        ensures Before(r, n)
      {
        assert !Before(n, r);
      }
    }
  }

  /** With a beam as wide as the accepted reachable set the search is exact. */
  lemma WideBeamIsExact(g: Links, l: nat, entries: seq<nat>, ef: nat, dist: nat -> real, accepts: nat -> bool,
                        results: multiset<Hit>, seen: set<nat>)
    requires BeamCertificate(g, l, entries, ef, dist, accepts, results, seen)
    requires |results| < ef ==> forall s :: s in seen ==> Expanded(g, l, s, seen)
    requires |Accepted(Reachable(g, l, entries), accepts)| <= ef
    ensures results == Pool(Reachable(g, l, entries), accepts, dist)
  {
    var reach := Reachable(g, l, entries);
    PoolMonotone(seen, reach, accepts, dist);
    PoolSize(reach, accepts, dist);
    if |results| < ef {
      ClosedHoldsReachable(g, l, entries, seen);
      assert seen == reach;
      FullCover(results, Pool(seen, accepts, dist));
    } else {
      var all := Pool(reach, accepts, dist);
      assert all == results + (all - results);
      FullCover(results, all);
    }
  }

  // ----- the beam search state

  /** A slot in the beam is queued, being expanded (`pending`), or expanded. */
  ghost predicate Handled(g: Links, l: nat, candidates: multiset<Hit>, pending: set<nat>, seen: set<nat>, h: Hit) {
    h in candidates || h.id in pending || Expanded(g, l, h.id, seen)
  }

  /** The search stays inside `reach`, a set closed under links. In the loop
      `reach` is just a set; it is the reachable slots. */
  ghost predicate LinkClosed(g: Links, l: nat, reach: set<nat>) {
    forall s, t :: s in reach && OnLevel(g, s, l) && t in g[s][l] ==> t in reach && OnLevel(g, t, l)
  }

  lemma ReachableLinkClosed(g: Links, l: nat, entries: seq<nat>)
    requires Closed(g)
    ensures LinkClosed(g, l, Reachable(g, l, entries))
  {
    var reach := Reachable(g, l, entries);
    forall s, t | s in reach && OnLevel(g, s, l) && t in g[s][l]
      ensures t in reach && OnLevel(g, t, l)
    {
      StepReachable(g, l, entries, s, t);
    }
  }

  ghost predicate BeamState(g: Links, l: nat, entries: seq<nat>, reach: set<nat>, ef: nat, dist: nat -> real,
                            accepts: nat -> bool, candidates: multiset<Hit>, results: multiset<Hit>, seen: set<nat>,
                                pending: set<nat>)
  {
    && (forall e :: e in entries ==> e in seen)
    && seen <= reach
    && (forall s :: s in seen ==> OnLevel(g, s, l))
    && (forall h :: h in candidates ==> h.id in seen && h == Hit(dist(h.id), h.id))
    && KeepsBest(results, Pool(seen, accepts, dist), ef)
    && AllHandled(g, l, ef, dist, candidates, results, seen, pending)
  }

  ghost predicate AllHandled(g: Links, l: nat, ef: nat, dist: nat -> real, candidates: multiset<Hit>,
                             results: multiset<Hit>, seen: set<nat>, pending: set<nat>)
  {
    && (forall h :: h in results ==> Handled(g, l, candidates, pending, seen, h))
    && (|results| < ef ==> forall s :: s in seen ==> Handled(g, l, candidates, pending, seen, Hit(dist(s), s)))
  }

  lemma AdmitHandled(g: Links, l: nat, ef: nat, dist: nat -> real, candidates: multiset<Hit>, results: multiset<Hit>,
                     after: multiset<Hit>, seen: set<nat>, pending: set<nat>, t: nat)
    requires AllHandled(g, l, ef, dist, candidates, results, seen, pending)
    requires forall h :: h in after ==> h in results || h == Hit(dist(t), t)
    requires |results| <= |after|
    ensures AllHandled(g, l, ef, dist, candidates + multiset{Hit(dist(t), t)}, after, seen + {t}, pending)
  {
    var hit := Hit(dist(t), t);
    forall h | h in after
      ensures Handled(g, l, candidates + multiset{hit}, pending, seen + {t}, h)
    {
      if h != hit {
        HandledMonotone(g, l, candidates, multiset{hit}, pending, seen, t, h);
      }
    }
    if |after| < ef {
      forall s | s in seen + {t}
        ensures Handled(g, l, candidates + multiset{hit}, pending, seen + {t}, Hit(dist(s), s))
      {
        if s != t {
          HandledMonotone(g, l, candidates, multiset{hit}, pending, seen, t, Hit(dist(s), s));
        }
      }
    }
  }

  lemma HandledMonotone(g: Links, l: nat, candidates: multiset<Hit>, more: multiset<Hit>, pending: set<nat>,
                        seen: set<nat>, t: nat, h: Hit)
    requires Handled(g, l, candidates, pending, seen, h)
    ensures Handled(g, l, candidates + more, pending, seen + {t}, h)
  {
  }

  lemma RefuseHandled(g: Links, l: nat, ef: nat, dist: nat -> real, candidates: multiset<Hit>, results: multiset<Hit>,
                      seen: set<nat>, pending: set<nat>, t: nat)
    requires AllHandled(g, l, ef, dist, candidates, results, seen, pending) && |results| == ef
    ensures AllHandled(g, l, ef, dist, candidates, results, seen + {t}, pending)
  {
    forall h | h in results
      ensures Handled(g, l, candidates, pending, seen + {t}, h)
    {
      HandledMonotone(g, l, candidates, multiset{}, pending, seen, t, h);
      assert candidates + multiset{} == candidates;
    }
  }

  /** A newly visited slot that the full beam refuses. */
  lemma RefuseStep(g: Links, l: nat, entries: seq<nat>, reach: set<nat>, ef: nat, dist: nat -> real,
                   accepts: nat -> bool, candidates: multiset<Hit>, results: multiset<Hit>, seen: set<nat>,
                       pending: set<nat>, t: nat, worst: Hit)
    requires BeamState(g, l, entries, reach, ef, dist, accepts, candidates, results, seen, pending)
    requires t !in seen && t in reach && OnLevel(g, t, l)
    requires |results| == ef && IsWorst(results, worst) && !Before(Hit(dist(t), t), worst)
    ensures BeamState(g, l, entries, reach, ef, dist, accepts, candidates, results, seen + {t}, pending)
  {
    PoolAdd(seen, t, accepts, dist);
    if accepts(t) {
      RefuseHit(results, Pool(seen, accepts, dist), ef, worst, Hit(dist(t), t));
    } else {
      assert Pool(seen + {t}, accepts, dist) == Pool(seen, accepts, dist);
    }
    RefuseHandled(g, l, ef, dist, candidates, results, seen, pending, t);
  }

  /** A newly visited slot that the beam admits: it is queued, and if accepted
      it enters the results, from which the worst is dropped when they overflow. */
  ghost function AdmitResults(results: multiset<Hit>, ef: nat, worst: Hit, hit: Hit): multiset<Hit> {
    if |results| < ef then results + multiset{hit} else results - multiset{worst} + multiset{hit}
  }

  lemma AdmitBest(seen: set<nat>, ef: nat, dist: nat -> real, accepts: nat -> bool, results: multiset<Hit>, t: nat,
                  worst: Hit)
    requires KeepsBest(results, Pool(seen, accepts, dist), ef) && t !in seen
    requires |results| < ef || (IsWorst(results, worst) && Before(Hit(dist(t), t), worst))
    ensures KeepsBest(if accepts(t) then AdmitResults(results, ef, worst, Hit(dist(t), t)) else results,
                      Pool(seen + {t}, accepts, dist), ef)
  {
    PoolAdd(seen, t, accepts, dist);
    var pool := Pool(seen, accepts, dist);
    if accepts(t) {
      if |results| < ef {
        FullCover(results, pool);
      } else {
        ReplaceWorst(results, pool, ef, worst, Hit(dist(t), t));
      }
    } else {
      assert Pool(seen + {t}, accepts, dist) == pool;
    }
  }

  lemma AdmitStep(g: Links, l: nat, entries: seq<nat>, reach: set<nat>, ef: nat, dist: nat -> real,
                  accepts: nat -> bool, candidates: multiset<Hit>, results: multiset<Hit>, seen: set<nat>,
                      pending: set<nat>, t: nat, worst: Hit)
    requires BeamState(g, l, entries, reach, ef, dist, accepts, candidates, results, seen, pending)
    requires t !in seen && t in reach && OnLevel(g, t, l)
    requires |results| < ef || (IsWorst(results, worst) && Before(Hit(dist(t), t), worst))
    ensures BeamState(g, l, entries, reach, ef, dist, accepts, candidates + multiset{Hit(dist(t), t)},
                      if accepts(t) then AdmitResults(results, ef, worst, Hit(dist(t), t))
                      else results, seen + {t}, pending)
  {
    var hit := Hit(dist(t), t);
    var after := if accepts(t) then AdmitResults(results, ef, worst, hit) else results;
    AdmitBest(seen, ef, dist, accepts, results, t, worst);
    AdmitHandled(g, l, ef, dist, candidates, results, after, seen, pending, t);
  }

  /** A slot whose neighbours were all visited is no longer pending. */
  lemma FinishExpand(g: Links, l: nat, entries: seq<nat>, reach: set<nat>, ef: nat, dist: nat -> real,
                     accepts: nat -> bool, candidates: multiset<Hit>, results: multiset<Hit>, seen: set<nat>,
                         current: nat)
    requires BeamState(g, l, entries, reach, ef, dist, accepts, candidates, results, seen, {current})
    requires Expanded(g, l, current, seen)
    ensures BeamState(g, l, entries, reach, ef, dist, accepts, candidates, results, seen, {})
  {
    forall h | Handled(g, l, candidates, {current}, seen, h)
      ensures Handled(g, l, candidates, {}, seen, h)
    {
    }
  }

  /** Popping a queued slot makes it the pending one. */
  lemma PopStep(g: Links, l: nat, entries: seq<nat>, reach: set<nat>, ef: nat, dist: nat -> real, accepts: nat -> bool,
                candidates: multiset<Hit>, results: multiset<Hit>, seen: set<nat>, current: Hit)
    requires BeamState(g, l, entries, reach, ef, dist, accepts, candidates, results, seen, {})
    requires current in candidates
    ensures BeamState(g, l, entries, reach, ef, dist, accepts, candidates - multiset{current}, results, seen,
                      {current.id})
  {
    forall h | Handled(g, l, candidates, {}, seen, h)
      ensures Handled(g, l, candidates - multiset{current}, {current.id}, seen, h)
    {
    }
  }

  lemma SeedStep(g: Links, l: nat, entries: seq<nat>, i: nat, reach: set<nat>, ef: nat, dist: nat -> real,
                 accepts: nat -> bool, candidates: multiset<Hit>, results: multiset<Hit>, seen: set<nat>)
    requires i < |entries| && entries[i] in seen
    requires BeamState(g, l, entries[..i], reach, ef, dist, accepts, candidates, results, seen, {})
    ensures BeamState(g, l, entries[..i + 1], reach, ef, dist, accepts, candidates, results, seen, {})
  {
    assert entries[..i + 1] == entries[..i] + [entries[i]];
  }

  lemma DrainedStep(g: Links, l: nat, entries: seq<nat>, reach: set<nat>, ef: nat, dist: nat -> real,
                    accepts: nat -> bool, results: multiset<Hit>, seen: set<nat>)
    requires BeamState(g, l, entries, reach, ef, dist, accepts, multiset{}, results, seen, {})
    ensures forall h :: h in results ==> Expanded(g, l, h.id, seen)
    ensures |results| < ef ==> forall s :: s in seen ==> Expanded(g, l, s, seen)
  {
    forall h | h in results
      ensures Expanded(g, l, h.id, seen)
    {
      assert Handled(g, l, multiset{}, {}, seen, h);
    }
    if |results| < ef {
      forall s | s in seen
        ensures Expanded(g, l, s, seen)
      {
        assert Handled(g, l, multiset{}, {}, seen, Hit(dist(s), s));
      }
    }
  }

  lemma FewerLeft(reach: set<nat>, before: set<nat>, after: set<nat>)
    requires before <= after <= reach
    ensures before != after ==> reach - after < reach - before
  {
    if before != after {
      var x :| x in after && x !in before;
      assert x in reach - before && x !in reach - after;
    }
  }

  /** The stop rule: once the nearest queued slot ranks after the worst result
      of a full beam, every result is already expanded. */
  lemma StopStep(g: Links, l: nat, entries: seq<nat>, reach: set<nat>, ef: nat, dist: nat -> real, accepts: nat -> bool,
                 candidates: multiset<Hit>, results: multiset<Hit>, seen: set<nat>, current: Hit, worst: Hit)
    requires BeamState(g, l, entries, reach, ef, dist, accepts, candidates, results, seen, {})
    requires current in candidates && forall y :: y in candidates ==> !Before(y, current)
    requires IsWorst(results, worst) && Before(worst, current)
    ensures forall h :: h in results ==> Expanded(g, l, h.id, seen)
  {
    forall h | h in results
      ensures Expanded(g, l, h.id, seen)
    {
      assert !Before(worst, h);
      assert Handled(g, l, candidates, {}, seen, h);
    }
  }
}
