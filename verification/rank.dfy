/** The engine-wide result order and the bounded collector built on it
    (`Hit::cmp_rank`, `TopK`, and the exact `search` of oracle.rs).

    Distances are values of a totally ordered type; `real` stands in for the
    finite `f32` values the engine admits. A heap of the Rust standard library
    is modelled by the multiset of its elements: `peek` and `pop` return a
    greatest element, which is all the callers rely on. */
module Rank {

  datatype Hit = Hit(distance: real, id: nat)

  /** Distance ascending, then id ascending. */
  predicate Before(a: Hit, b: Hit) {
    a.distance < b.distance || (a.distance == b.distance && a.id < b.id)
  }

  predicate Sorted(hits: seq<Hit>) {
    forall i, j :: 0 <= i < j < |hits| ==> !Before(hits[j], hits[i])
  }

  function Min(a: nat, b: nat): nat { if a <= b then a else b }

  /** `r` lists the `k` best hits of `all` in rank order. */
  ghost predicate IsTopK(all: multiset<Hit>, k: nat, r: seq<Hit>) {
    && Sorted(r)
    && multiset(r) <= all
    && |r| == Min(k, |all|)
    && forall x, y :: x in r && y in all - multiset(r) ==> !Before(y, x)
  }

  /** The rank order leaves no choice: there is one top-k list. */
  lemma {:induction false} TopKUnique(all: multiset<Hit>, k: nat, r: seq<Hit>, s: seq<Hit>)
    requires IsTopK(all, k, r) && IsTopK(all, k, s)
    ensures r == s
    decreases |r|
  {
    hide IsTopK, Before;
    SameHead(all, k, r, s);
    if r != [] {
      TopKHead(all, k, r);
      TopKHead(all, k, s);
      TopKUnique(all - multiset{r[0]}, k - 1, r[1..], s[1..]);
      assert r == [r[0]] + r[1..] && s == [s[0]] + s[1..];
    }
  }

  /** Hits sort in one way. */
  lemma SortedUnique(r: seq<Hit>, s: seq<Hit>)
    requires Sorted(r) && Sorted(s) && multiset(r) == multiset(s)
    ensures r == s
  {
    hide Before;
    assert |r| == |multiset(r)| == |multiset(s)| == |s|;
    TopKUnique(multiset(r), |r|, r, s);
  }

  lemma SameHead(all: multiset<Hit>, k: nat, r: seq<Hit>, s: seq<Hit>)
    requires IsTopK(all, k, r) && IsTopK(all, k, s)
    ensures |r| == |s| <= k
    ensures r != [] ==> r[0] == s[0]
  {
    if r != [] {
      TopKHead(all, k, r);
      TopKHead(all, k, s);
    }
  }

  /** The head of a top-k list ranks before everything else, and the tail is
      the top-(k-1) list of the rest. */
  lemma TopKHead(all: multiset<Hit>, k: nat, r: seq<Hit>)
    requires IsTopK(all, k, r) && r != []
    ensures r[0] in all && forall y :: y in all ==> !Before(y, r[0])
    ensures IsTopK(all - multiset{r[0]}, k - 1, r[1..])
  {
    assert r == [r[0]] + r[1..];
    assert multiset(r) == multiset{r[0]} + multiset(r[1..]);
    assert r[0] in multiset(r);
    forall y | y in all
      ensures !Before(y, r[0])
    {
      if y !in all - multiset(r) {
        assert y in multiset(r);
        assert y in r;
      }
    }
    assert all - multiset{r[0]} - multiset(r[1..]) == all - multiset(r);
  }

  /** A greatest element under the rank order. */
  ghost predicate IsWorst(heap: multiset<Hit>, w: Hit) {
    w in heap && forall y :: y in heap ==> !Before(w, y)
  }

  lemma {:induction false} WorstExists(heap: multiset<Hit>)
    requires heap != multiset{}
    ensures exists w :: IsWorst(heap, w)
    decreases |heap|
  {
    var x :| x in heap;
    var rest := heap - multiset{x};
    assert heap == rest + multiset{x};
    if rest == multiset{} {
      assert IsWorst(heap, x);
    } else {
      WorstExists(rest);
      var w :| IsWorst(rest, w);
      WorseOfTwo(heap, rest, x, w);
    }
  }

  lemma WorseOfTwo(heap: multiset<Hit>, rest: multiset<Hit>, x: Hit, w: Hit)
    requires heap == rest + multiset{x} && IsWorst(rest, w)
    ensures IsWorst(heap, if Before(w, x) then x else w)
  {
    forall y | y in heap
      ensures y == x || !Before(w, y)
    {
      assert y in rest || y in multiset{x};
    }
  }

  /** `BinaryHeap::peek` on a nonempty max-heap. */
  method PeekWorst(heap: multiset<Hit>) returns (w: Hit)
    requires heap != multiset{}
    ensures IsWorst(heap, w)
  {
    WorstExists(heap);
    w :| w in heap && forall y :: y in heap ==> !Before(w, y);
  }

  /** `sort` by rank: the elements in ascending order. */
  method SortByRank(heap: multiset<Hit>) returns (r: seq<Hit>)
    ensures Sorted(r) && multiset(r) == heap
  {
    r := [];
    var rest := heap;
    while rest != multiset{}
      invariant Sorted(r)
      invariant rest + multiset(r) == heap
      invariant forall x, i :: x in rest && 0 <= i < |r| ==> !Before(r[i], x)
      decreases |rest|
    {
      var w := PeekWorst(rest);
      rest, r := rest - multiset{w}, [w] + r;
    }
  }

  /** `heap` holds the k best of everything pushed. */
  ghost predicate KeepsBest(heap: multiset<Hit>, pushed: multiset<Hit>, k: nat) {
    && heap <= pushed
    && |heap| == Min(k, |pushed|)
    && forall x, y :: x in heap && y in pushed - heap ==> !Before(y, x)
  }

  lemma ReplaceWorst(heap: multiset<Hit>, pushed: multiset<Hit>, k: nat, worst: Hit, hit: Hit)
    requires KeepsBest(heap, pushed, k) && |heap| == k && IsWorst(heap, worst) && Before(hit, worst)
    ensures KeepsBest(heap - multiset{worst} + multiset{hit}, pushed + multiset{hit}, k)
  {
    var kept, all := heap - multiset{worst} + multiset{hit}, pushed + multiset{hit};
    assert all - kept == (pushed - heap) + multiset{worst};
    forall x, y | x in kept && y in all - kept
      ensures !Before(y, x)
    {
      assert x == hit || x in heap;
      assert y == worst || y in pushed - heap;
    }
  }

  lemma RefuseHit(heap: multiset<Hit>, pushed: multiset<Hit>, k: nat, worst: Hit, hit: Hit)
    requires KeepsBest(heap, pushed, k) && |heap| == k && IsWorst(heap, worst) && !Before(hit, worst)
    ensures KeepsBest(heap, pushed + multiset{hit}, k)
  {
    var all := pushed + multiset{hit};
    assert all - heap == (pushed - heap) + multiset{hit};
    forall x, y | x in heap && y in all - heap
      ensures !Before(y, x)
    {
      assert y == hit || y in pushed - heap;
    }
  }

  /** Bounded collector of the k best hits (`TopK`). */
  class TopK {
    const k: nat
    var heap: multiset<Hit>
    ghost var pushed: multiset<Hit>

    ghost predicate Valid()
      reads this
    {
      KeepsBest(heap, pushed, k)
    }

    constructor (k: nat)
      ensures Valid() && this.k == k && pushed == multiset{}
    {
      this.k := k;
      heap := multiset{};
      pushed := multiset{};
    }

    method Push(hit: Hit)
      requires Valid()
      modifies this
      ensures Valid() && pushed == old(pushed) + multiset{hit}
    {
      pushed := pushed + multiset{hit};
      if k == 0 {
        return;
      }
      if |heap| < k {
        FullCover(heap, old(pushed));
        heap := heap + multiset{hit};
        return;
      }
      var worst := PeekWorst(heap);
      if Before(hit, worst) {
        ReplaceWorst(heap, old(pushed), k, worst, hit);
        heap := heap - multiset{worst} + multiset{hit};
      } else {
        RefuseHit(heap, old(pushed), k, worst, hit);
      }
    }

    method IntoSorted() returns (r: seq<Hit>)
      requires Valid()
      ensures IsTopK(pushed, k, r)
    {
      r := SortByRank(heap);
      assert |multiset(r)| == |r|;
    }
  }

  lemma FullCover(part: multiset<Hit>, whole: multiset<Hit>)
    requires part <= whole && |part| == |whole|
    ensures part == whole
  {
    assert whole == part + (whole - part);
  }

  /** `Hit`s of the slots in `s` under a distance. */
  ghost function HitsOf(s: set<nat>, dist: nat -> real): set<Hit> {
    set x | x in s :: Hit(dist(x), x)
  }

  /** The top k of the `ef` best are the top k of all, when `k <= ef`. */
  lemma TopKOfBest(best: multiset<Hit>, all: multiset<Hit>, ef: nat, k: nat, r: seq<Hit>)
    requires KeepsBest(best, all, ef) && k <= ef && IsTopK(best, k, r)
    ensures IsTopK(all, k, r)
  {
    forall x, y | x in r && y in all - multiset(r)
      ensures !Before(y, x)
    {
      assert x in multiset(r) && x in best;
      assert y in best - multiset(r) || y in all - best;
    }
  }

  /** Push a list of hits and take the k best (`TopK` over a candidate list). */
  method RankHits(hits: seq<Hit>, k: nat) returns (r: seq<Hit>)
    ensures IsTopK(multiset(hits), k, r)
  {
    var top := new TopK(k);
    for i := 0 to |hits|
      invariant top.Valid() && fresh(top) && top.k == k && top.pushed == multiset(hits[..i])
    {
      top.Push(hits[i]);
      assert hits[..i + 1] == hits[..i] + [hits[i]];
    }
    assert hits[..|hits|] == hits;
    r := top.IntoSorted();
  }

  ghost function AllowedRows(rows: nat, allow: nat -> bool): set<nat> {
    set id | 0 <= id < rows && allow(id)
  }

  /** The exact reference search: every accepted row, ranked, cut at `k`. */
  method OracleSearch(rows: nat, k: nat, dist: nat -> real, allow: nat -> bool) returns (r: seq<Hit>)
    ensures IsTopK(multiset(HitsOf(AllowedRows(rows, allow), dist)), k, r)
  {
    var top := new TopK(k);
    ghost var seen: set<nat> := {};
    for id := 0 to rows
      invariant top.Valid() && fresh(top) && top.k == k
      invariant seen == AllowedRows(id, allow)
      invariant top.pushed == multiset(HitsOf(seen, dist))
    {
      if allow(id) {
        top.Push(Hit(dist(id), id));
        HitsOfAdd(seen, id, dist);
        seen := seen + {id};
      }
    }
    r := top.IntoSorted();
  }

  lemma HitsOfAdd(s: set<nat>, x: nat, dist: nat -> real)
    requires x !in s
    ensures multiset(HitsOf(s + {x}, dist)) == multiset(HitsOf(s, dist)) + multiset{Hit(dist(x), x)}
  {
    assert HitsOf(s + {x}, dist) == HitsOf(s, dist) + {Hit(dist(x), x)};
    assert Hit(dist(x), x) !in HitsOf(s, dist);
  }
}
