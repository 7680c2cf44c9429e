/** Counting the level-0 in-links of a slot, and what replacing one link does
    to the counts (the orphan repair of hnsw.rs). */
module InLinks {
  import opened Graph

  /** Links to `x` in the level-0 lists of the slots below `n`. */
  ghost function CountBelow(g: Links, n: nat, x: nat): nat
    requires n <= |g| && forall s :: 0 <= s < n ==> g[s] != []
  {
    if n == 0 then 0 else CountBelow(g, n - 1, x) + multiset(g[n - 1][0])[x]
  }

  ghost predicate HasBase(g: Links) {
    forall s :: 0 <= s < |g| ==> g[s] != []
  }

  ghost function InDegree(g: Links, x: nat): nat
    requires HasBase(g)
  {
    CountBelow(g, |g|, x)
  }

  lemma {:induction false} CountSet(g: Links, h: Links, n: nat, host: nat, list: seq<nat>, x: nat)
    requires HasBase(g) && host < |g| && n <= |g| && h == SetList(g, host, 0, list) && HasBase(h)
    ensures CountBelow(h, n, x) + (if host < n then multiset(g[host][0])[x] else 0)
         == CountBelow(g, n, x) + (if host < n then multiset(list)[x] else 0)
  {
    if n > 0 {
      CountSet(g, h, n - 1, host, list, x);
    }
  }

  lemma {:induction false} CountPositive(g: Links, n: nat, s: nat, x: nat)
    requires HasBase(g) && s < n <= |g| && x in g[s][0]
    ensures CountBelow(g, n, x) > 0
  {
    if s < n - 1 {
      CountPositive(g, n - 1, s, x);
    }
  }

  /** A full list all of whose targets have no other in-link: a host that can
      take no orphan. */
  ghost predicate Saturated(g: Links, m0: nat, host: nat)
    requires HasBase(g)
  {
    host < |g| && |g[host][0]| == m0 && forall t :: t in g[host][0] ==> InDegree(g, t) == 1
  }

  /** `h` is `g` after one orphan was linked at `host`: appended where there
      was room, or in place of a target that keeps another in-link. */
  ghost predicate Relinked(g: Links, h: Links, m0: nat, host: nat, orphan: nat)
    requires HasBase(g)
  {
    && host < |g| && InDegree(g, orphan) == 0
    && ((|g[host][0]| < m0 && h == SetList(g, host, 0, g[host][0] + [orphan]))
        || exists i :: 0 <= i < |g[host][0]| && InDegree(g, g[host][0][i]) > 1
                       && h == SetList(g, host, 0, g[host][0][i := orphan]))
  }

  /** The change of every count in one relink. `lost` is the target that was
      replaced, if any. */
  lemma RelinkCounts(g: Links, h: Links, m0: nat, host: nat, orphan: nat, i: int, x: nat)
    requires HasBase(g) && host < |g| && HasBase(h)
    requires if i < 0 then h == SetList(g, host, 0, g[host][0] + [orphan])
             else i < |g[host][0]| && h == SetList(g, host, 0, g[host][0][i := orphan])
    ensures InDegree(h, x) == InDegree(g, x) + (if x == orphan then 1 else 0)
                              - (if i >= 0 && x == g[host][0][i] then 1 else 0)
  {
    var list := h[host][0];
    CountSet(g, h, |g|, host, list, x);
    if i >= 0 {
      CountReplaced(g[host][0], i, orphan, x);
    }
  }

  lemma CountReplaced(list: seq<nat>, i: nat, y: nat, x: nat)
    requires i < |list|
    ensures multiset(list[i := y])[x] == multiset(list)[x] + (if x == y then 1 else 0) - (if x == list[i] then 1 else 0)
  {
    assert list == list[..i] + [list[i]] + list[i + 1..];
    assert list[i := y] == list[..i] + [y] + list[i + 1..];
  }

  /** A relink orphans nobody: a slot with an in-link keeps one, the orphan
      gains one, and nobody but the orphan gains any. */
  lemma RelinkKeeps(g: Links, h: Links, m0: nat, host: nat, orphan: nat, x: nat)
    requires HasBase(g) && Relinked(g, h, m0, host, orphan)
    ensures HasBase(h) && |h| == |g|
    ensures InDegree(h, orphan) == 1
    ensures InDegree(g, x) > 0 ==> InDegree(h, x) > 0
    ensures x != orphan ==> InDegree(h, x) <= InDegree(g, x)
    ensures InDegree(g, x) == 1 ==> InDegree(h, x) == 1
  {
    if |g[host][0]| < m0 && h == SetList(g, host, 0, g[host][0] + [orphan]) {
      RelinkCounts(g, h, m0, host, orphan, -1, x);
      RelinkCounts(g, h, m0, host, orphan, -1, orphan);
    } else {
      var i :| 0 <= i < |g[host][0]| && InDegree(g, g[host][0][i]) > 1
          && h == SetList(g, host, 0, g[host][0][i := orphan]);
      RelinkCounts(g, h, m0, host, orphan, i, x);
      RelinkCounts(g, h, m0, host, orphan, i, orphan);
    }
  }

  lemma HostHadRoom(g: Links, h: Links, m0: nat, host: nat, orphan: nat)
    requires HasBase(g) && Relinked(g, h, m0, host, orphan)
    ensures !Saturated(g, m0, host)
  {
    if |g[host][0]| >= m0 {
      var i :| 0 <= i < |g[host][0]| && InDegree(g, g[host][0][i]) > 1;
      assert g[host][0][i] in g[host][0];
    }
  }

  /** A saturated host stays saturated: nothing it lists can be replaced. */
  lemma RelinkSaturated(g: Links, h: Links, m0: nat, host: nat, orphan: nat, other: nat)
    requires HasBase(g) && Relinked(g, h, m0, host, orphan) && Saturated(g, m0, other)
    ensures HasBase(h) && Saturated(h, m0, other)
  {
    RelinkKeeps(g, h, m0, host, orphan, orphan);
    HostHadRoom(g, h, m0, host, orphan);
    assert h[other][0] == g[other][0];
    forall t | t in h[other][0]
      ensures InDegree(h, t) == 1
    {
      RelinkKeeps(g, h, m0, host, orphan, t);
    }
  }

  // ----- the whole repair

  /** The repair so far, after the orphans below `done` were treated. */
  ghost predicate RepairState(g0: Links, g: Links, m0: nat, entry: int, done: nat)
    requires HasBase(g0) && HasBase(g)
  {
    && SameHeights(g0, g)
    && (forall s, l :: OnLevel(g0, s, l) && l > 0 ==> g[s][l] == g0[s][l])
    && (forall x: nat :: x < |g| && InDegree(g0, x) > 0 ==> InDegree(g, x) > 0)
    && (forall s, t :: 0 <= s < |g| && t in g[s][0] ==> t in g0[s][0] || InDegree(g0, t) == 0)
    && (forall x: nat :: x < done && x < |g| && x != entry ==> InDegree(g, x) > 0 || Blocked(g0, g, m0, x))
  }

  /** Every neighbour the orphan had from the start and still has can take no
      orphan. */
  ghost predicate Blocked(g0: Links, g: Links, m0: nat, x: nat)
    requires HasBase(g0) && HasBase(g) && |g0| == |g| && x < |g|
  {
    forall h :: h in g0[x][0] && h in g[x][0] ==> Saturated(g, m0, h)
  }

  lemma RelinkStep(g0: Links, g: Links, h: Links, m0: nat, entry: int, done: nat, host: nat, orphan: nat)
    requires HasBase(g0) && HasBase(g) && RepairState(g0, g, m0, entry, done)
    requires Relinked(g, h, m0, host, orphan) && InDegree(g0, orphan) == 0
    ensures HasBase(h) && RepairState(g0, h, m0, entry, done) && InDegree(h, orphan) == 1
  {
    RelinkKeeps(g, h, m0, host, orphan, orphan);
    forall x: nat
      ensures InDegree(g, x) > 0 ==> InDegree(h, x) > 0
    {
      RelinkKeeps(g, h, m0, host, orphan, x);
    }
    forall s, t | 0 <= s < |h| && t in h[s][0]
      ensures t in g[s][0] || t == orphan
    {
    }
    assert forall s, t :: 0 <= s < |g| && t in g[s][0] ==> t in g0[s][0] || InDegree(g0, t) == 0;
    forall x: nat | x < done && x < |h| && x != entry
      ensures InDegree(h, x) > 0 || Blocked(g0, h, m0, x)
    {
      if InDegree(g, x) == 0 {
        StaysBlocked(g0, g, h, m0, host, orphan, x);
      }
    }
  }

  /** An orphan none of whose neighbours can take it stays that way. */
  lemma StaysBlocked(g0: Links, g: Links, h: Links, m0: nat, host: nat, orphan: nat, x: nat)
    requires HasBase(g0) && HasBase(g) && HasBase(h) && |g0| == |g| == |h| && x < |g|
    requires Relinked(g, h, m0, host, orphan) && InDegree(g0, orphan) == 0 && Blocked(g0, g, m0, x)
    requires forall t :: t in h[x][0] ==> t in g[x][0] || t == orphan
    ensures Blocked(g0, h, m0, x)
  {
    forall k | k in g0[x][0] && k in h[x][0]
      ensures Saturated(h, m0, k)
    {
      CountPositive(g0, |g0|, x, k);
      RelinkSaturated(g, h, m0, host, orphan, k);
    }
  }
}
