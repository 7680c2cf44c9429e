/** HNSW Algorithm 4, the neighbour selection both builders share
    (`select_heuristic`). */
module Heuristic {
  import opened Rank
  import opened Graph

  datatype Split = Split(kept: seq<nat>, pruned: seq<nat>)

  predicate CloserToKept(c: Hit, kept: seq<nat>, pair: (nat, nat) -> real) {
    exists i :: 0 <= i < |kept| && pair(c.id, kept[i]) < c.distance
  }

  /** Walk the ranked candidates: keep one unless it is closer to a kept slot
      than to the query, stop keeping at `m`. */
  function Diversify(ranked: seq<Hit>, m: nat, pair: (nat, nat) -> real): Split {
    if ranked == [] then Split([], [])
    else
      var before := Diversify(ranked[..|ranked| - 1], m, pair);
      var c := ranked[|ranked| - 1];
      if |before.kept| >= m then before
      else if CloserToKept(c, before.kept, pair) then before.(pruned := before.pruned + [c.id])
      else before.(kept := before.kept + [c.id])
  }

  /** The kept slots, then pruned ones as backfill up to `m`. */
  function Backfill(split: Split, m: nat): seq<nat>
    requires |split.kept| <= m
  {
    split.kept + split.pruned[..Min(m - |split.kept|, |split.pruned|)]
  }

  ghost function Ids(hits: seq<Hit>): seq<nat> {
    seq(|hits|, i requires 0 <= i < |hits| => hits[i].id)
  }

  lemma {:induction false} DiversifyShape(ranked: seq<Hit>, m: nat, pair: (nat, nat) -> real)
    ensures var d := Diversify(ranked, m, pair);
            && |d.kept| <= m
            && |d.kept| + |d.pruned| <= |ranked|
            && (|d.kept| < m ==> |d.kept| + |d.pruned| == |ranked|)
            && forall x :: x in d.kept || x in d.pruned ==> x in Ids(ranked)
  {
    if ranked != [] {
      var prev := ranked[..|ranked| - 1];
      DiversifyShape(prev, m, pair);
      assert Ids(ranked) == Ids(prev) + [ranked[|ranked| - 1].id];
    }
  }

  /** Distinct candidates stay distinct through the split. */
  lemma {:induction false} DiversifyDistinct(ranked: seq<Hit>, m: nat, pair: (nat, nat) -> real)
    requires Distinct(Ids(ranked))
    ensures var d := Diversify(ranked, m, pair);
            && Distinct(d.kept) && Distinct(d.pruned)
            && forall x :: x in d.kept ==> x !in d.pruned
  {
    if ranked != [] {
      var prev := ranked[..|ranked| - 1];
      assert Ids(ranked) == Ids(prev) + [ranked[|ranked| - 1].id];
      assert forall i, j :: 0 <= i < j < |prev| ==> Ids(ranked)[i] == Ids(prev)[i] && Ids(ranked)[j] == Ids(prev)[j];
      DiversifyDistinct(prev, m, pair);
      DiversifyShape(prev, m, pair);
      var c := ranked[|ranked| - 1].id;
      assert c !in Ids(prev) by {
        forall i | 0 <= i < |prev|
          ensures Ids(prev)[i] != c
        {
          assert Ids(ranked)[i] != Ids(ranked)[|prev|];
        }
      }
    }
  }

  /** The `j`-th kept slot is a candidate no closer to an earlier kept one than
      to the query. */
  ghost predicate KeptApart(ranked: seq<Hit>, kept: seq<nat>, j: nat, pair: (nat, nat) -> real)
    requires j < |kept|
  {
    exists c :: c in ranked && c.id == kept[j] && !CloserToKept(c, kept[..j], pair)
  }

  /** The slot is a candidate closer to some kept one than to the query. */
  ghost predicate PrunedNear(ranked: seq<Hit>, kept: seq<nat>, slot: nat, pair: (nat, nat) -> real) {
    exists c :: c in ranked && c.id == slot && CloserToKept(c, kept, pair)
  }

  /** No kept slot is closer to an earlier kept slot than to the query, each
      pruned one is closer to some kept slot, and the nearest candidate is
      always kept. */
  lemma {:induction false} DiversifyKeepsSpread(ranked: seq<Hit>, m: nat, pair: (nat, nat) -> real)
    ensures var d := Diversify(ranked, m, pair);
            && (forall j :: 0 <= j < |d.kept| ==> KeptApart(ranked, d.kept, j, pair))
            && (forall j :: 0 <= j < |d.pruned| ==> PrunedNear(ranked, d.kept, d.pruned[j], pair))
            && (m > 0 && ranked != [] ==> d.kept != [] && d.kept[0] == ranked[0].id)
  {
    if ranked != [] {
      var prev, last := ranked[..|ranked| - 1], ranked[|ranked| - 1];
      DiversifyKeepsSpread(prev, m, pair);
      var before, d := Diversify(prev, m, pair), Diversify(ranked, m, pair);
      assert last in ranked;
      forall j | 0 <= j < |d.kept|
        ensures KeptApart(ranked, d.kept, j, pair)
      {
        if j < |before.kept| {
          assert KeptApart(prev, before.kept, j, pair) && d.kept[..j] == before.kept[..j];
        } else {
          assert d.kept[..j] == before.kept;
        }
      }
      forall j | 0 <= j < |d.pruned|
        ensures PrunedNear(ranked, d.kept, d.pruned[j], pair)
      {
        if j < |before.pruned| {
          assert PrunedNear(prev, before.kept, before.pruned[j], pair);
          var c :| c in prev && c.id == before.pruned[j] && CloserToKept(c, before.kept, pair);
          StillCloser(c, before.kept, d.kept, pair);
        }
      }
    }
  }

  lemma StillCloser(c: Hit, kept: seq<nat>, more: seq<nat>, pair: (nat, nat) -> real)
    requires kept <= more && CloserToKept(c, kept, pair)
    ensures CloserToKept(c, more, pair)
  {
    var i :| 0 <= i < |kept| && pair(c.id, kept[i]) < c.distance;
    assert more[i] == kept[i];
  }

  lemma BackfillDistinct(split: Split, m: nat)
    requires |split.kept| <= m && Distinct(split.kept) && Distinct(split.pruned)
    requires forall x :: x in split.kept ==> x !in split.pruned
    ensures Distinct(Backfill(split, m))
  {
    var r, n := Backfill(split, m), |split.kept|;
    forall i, j | 0 <= i < j < |r|
      ensures r[i] != r[j]
    {
      if j < n {
        assert r[i] == split.kept[i] && r[j] == split.kept[j];
      } else if i < n {
        assert r[i] == split.kept[i] && r[j] == split.pruned[j - n];
        assert split.kept[i] in split.kept;
      } else {
        assert r[i] == split.pruned[i - n] && r[j] == split.pruned[j - n];
      }
    }
  }

  /** The selection has exactly `min(m, candidates)` slots, all candidates. */
  lemma BackfillSpec(ranked: seq<Hit>, m: nat, pair: (nat, nat) -> real)
    ensures |Diversify(ranked, m, pair).kept| <= m
    ensures |Backfill(Diversify(ranked, m, pair), m)| == Min(m, |ranked|)
    ensures forall x :: x in Backfill(Diversify(ranked, m, pair), m) ==> x in Ids(ranked)
    ensures Distinct(Ids(ranked)) ==> Distinct(Backfill(Diversify(ranked, m, pair), m))
  {
    DiversifyShape(ranked, m, pair);
    var d := Diversify(ranked, m, pair);
    assert forall x :: x in Backfill(d, m) ==> x in d.kept || x in d.pruned;
    if Distinct(Ids(ranked)) {
      DiversifyDistinct(ranked, m, pair);
      BackfillDistinct(d, m);
    }
  }

  lemma {:induction false} DiversifyStops(ranked: seq<Hit>, i: nat, m: nat, pair: (nat, nat) -> real)
    requires i <= |ranked| && |Diversify(ranked[..i], m, pair).kept| >= m
    ensures Diversify(ranked, m, pair) == Diversify(ranked[..i], m, pair)
    decreases |ranked|
  {
    if i < |ranked| {
      var prev := ranked[..|ranked| - 1];
      assert prev[..i] == ranked[..i];
      DiversifyStops(prev, i, m, pair);
    } else {
      assert ranked[..i] == ranked;
    }
  }

  /** Distinct slots give distinct hits, so sorting keeps the ids distinct. */
  lemma RankedIds(candidates: seq<Hit>, ranked: seq<Hit>)
    requires multiset(candidates) == multiset(ranked)
    ensures |ranked| == |candidates|
    ensures forall x :: x in Ids(ranked) <==> x in Ids(candidates)
    ensures Distinct(Ids(candidates)) ==> Distinct(Ids(ranked))
  {
    assert |ranked| == |multiset(ranked)| == |multiset(candidates)| == |candidates|;
    forall x
      ensures x in Ids(ranked) <==> x in Ids(candidates)
    {
      if x in Ids(ranked) {
        var i :| 0 <= i < |ranked| && Ids(ranked)[i] == x;
        assert ranked[i] in multiset(candidates);
        var j :| 0 <= j < |candidates| && candidates[j] == ranked[i];
        assert Ids(candidates)[j] == x;
      }
      if x in Ids(candidates) {
        var i :| 0 <= i < |candidates| && Ids(candidates)[i] == x;
        assert candidates[i] in multiset(ranked);
        var j :| 0 <= j < |ranked| && ranked[j] == candidates[i];
        assert Ids(ranked)[j] == x;
      }
    }
    if Distinct(Ids(candidates)) {
      forall i, j | 0 <= i < j < |ranked|
        ensures Ids(ranked)[i] != Ids(ranked)[j]
      {
        TwoPlaces(candidates, ranked, i, j);
      }
    }
  }

  lemma TwoPlaces(candidates: seq<Hit>, ranked: seq<Hit>, i: nat, j: nat)
    requires multiset(candidates) == multiset(ranked) && Distinct(Ids(candidates)) && i < j < |ranked|
    ensures Ids(ranked)[i] != Ids(ranked)[j]
  {
    var a, b := ranked[i], ranked[j];
    if a == b {
      assert ranked == ranked[..j] + [b] + ranked[j + 1..];
      assert ranked[..j][i] == a;
      assert multiset(candidates)[a] >= 2;
      TwicePlaced(candidates, a);
    } else {
      assert a in multiset(candidates) && b in multiset(candidates);
      var p :| 0 <= p < |candidates| && candidates[p] == a;
      var q :| 0 <= q < |candidates| && candidates[q] == b;
      assert Ids(candidates)[p] != Ids(candidates)[q];
    }
  }

  lemma TwicePlaced(candidates: seq<Hit>, a: Hit)
    requires multiset(candidates)[a] >= 2
    ensures !Distinct(Ids(candidates))
  {
    assert a in multiset(candidates);
    var p :| 0 <= p < |candidates| && candidates[p] == a;
    assert candidates == candidates[..p] + [a] + candidates[p + 1..];
    assert a in candidates[..p] || a in candidates[p + 1..];
    var again :| 0 <= again < |candidates| && again != p && candidates[again] == a;
    assert Ids(candidates)[p] == Ids(candidates)[again];
  }

  /** The heuristic's choice of `m` among ranked candidates. */
  ghost predicate Selects(ranked: seq<Hit>, m: nat, pair: (nat, nat) -> real, selected: seq<nat>) {
    && Sorted(ranked) && |Diversify(ranked, m, pair).kept| <= m
    && selected == Backfill(Diversify(ranked, m, pair), m)
  }

  /** The choice has exactly `min(m, candidates)` slots, all candidates; the
      nearest one comes first; then the other kept ones, none closer to an
      earlier kept slot than to the query; then, where room is left, dropped
      ones in rank order, each closer to a kept slot than to the query. */
  lemma SelectsWhat(ranked: seq<Hit>, m: nat, pair: (nat, nat) -> real, selected: seq<nat>)
    requires Selects(ranked, m, pair, selected)
    ensures |selected| == Min(m, |ranked|) && forall x :: x in selected ==> x in Ids(ranked)
    ensures Distinct(Ids(ranked)) ==> Distinct(selected)
    ensures m > 0 && ranked != [] ==> selected != [] && selected[0] == ranked[0].id
    ensures exists kept ::
              && kept <= selected && (forall j :: 0 <= j < |kept| ==> KeptApart(ranked, kept, j, pair))
              && forall j :: |kept| <= j < |selected| ==> PrunedNear(ranked, kept, selected[j], pair)
  {
    hide Diversify, KeptApart, PrunedNear;
    var d := Diversify(ranked, m, pair);
    BackfillSpec(ranked, m, pair);
    DiversifyKeepsSpread(ranked, m, pair);
    assert d.kept <= selected;
    assert forall j :: |d.kept| <= j < |selected| ==> selected[j] == d.pruned[j - |d.kept|];
  }

  /** The heuristic's choice of `m` of the candidates. */
  ghost predicate Chooses(candidates: seq<Hit>, m: nat, pair: (nat, nat) -> real, selected: seq<nat>) {
    exists ranked :: multiset(ranked) == multiset(candidates) && Selects(ranked, m, pair, selected)
  }

  lemma ChoosesWhat(candidates: seq<Hit>, m: nat, pair: (nat, nat) -> real, selected: seq<nat>)
    requires Chooses(candidates, m, pair, selected)
    ensures |selected| == Min(m, |candidates|)
    ensures forall x :: x in selected ==> x in Ids(candidates)
    ensures Distinct(Ids(candidates)) ==> Distinct(selected)
  {
    hide Selects, Distinct;
    var ranked :| multiset(ranked) == multiset(candidates) && Selects(ranked, m, pair, selected);
    RankedIds(candidates, ranked);
    SelectsWhat(ranked, m, pair, selected);
  }

  method AnyCloser(c: Hit, kept: seq<nat>, pair: (nat, nat) -> real) returns (closer: bool)
    ensures closer <==> CloserToKept(c, kept, pair)
  {
    closer := false;
    for j := 0 to |kept|
      invariant closer <==> exists x :: 0 <= x < j && pair(c.id, kept[x]) < c.distance
    {
      if pair(c.id, kept[j]) < c.distance {
        closer := true;
      }
    }
  }

  /** The selection loop over the sorted candidates. */
  method SplitRanked(sorted: seq<Hit>, m: nat, pair: (nat, nat) -> real) returns (selected: seq<nat>, pruned: seq<nat>)
    ensures Diversify(sorted, m, pair) == Split(selected, pruned) && |selected| <= m
  {
    selected, pruned := [], [];
    var i := 0;
    while i < |sorted| && |selected| < m
      invariant 0 <= i <= |sorted| && |selected| <= m
      invariant Diversify(sorted[..i], m, pair) == Split(selected, pruned)
    {
      var c := sorted[i];
      assert sorted[..i + 1][..i] == sorted[..i];
      var closer := AnyCloser(c, selected, pair);
      if closer {
        pruned := pruned + [c.id];
      } else {
        selected := selected + [c.id];
      }
      i := i + 1;
    }
    if i < |sorted| {
      DiversifyStops(sorted, i, m, pair);
    } else {
      assert sorted[..i] == sorted;
    }
  }

  /** Backfill from the dropped ones while there is room. */
  method FillUp(kept: seq<nat>, pruned: seq<nat>, m: nat) returns (selected: seq<nat>)
    requires |kept| <= m
    ensures selected == Backfill(Split(kept, pruned), m)
  {
    selected := kept;
    var p := 0;
    while p < |pruned| && |selected| < m
      invariant 0 <= p <= |pruned| && |selected| <= m
      invariant selected == kept + pruned[..p]
    {
      selected := selected + [pruned[p]];
      p := p + 1;
    }
  }

  /** `select_heuristic`. `pair` is the distance between two stored slots. */
  method SelectHeuristic(candidates: seq<Hit>, m: nat, pair: (nat, nat) -> real)
    returns (selected: seq<nat>, ghost ranked: seq<Hit>)
    ensures multiset(ranked) == multiset(candidates) && Selects(ranked, m, pair, selected)
    ensures |selected| == Min(m, |candidates|)
    ensures forall x :: x in selected ==> x in Ids(candidates)
    ensures Distinct(Ids(candidates)) ==> Distinct(selected)
  {
    hide Diversify, Backfill, Distinct;
    var sorted := SortByRank(multiset(candidates));
    ranked := sorted;
    var kept, pruned := SplitRanked(sorted, m, pair);
    selected := FillUp(kept, pruned, m);
    RankedIds(candidates, sorted);
    BackfillSpec(sorted, m, pair);
  }
}
