/** The parallel bulk builder (hnsw.rs, `BuildCore::insert`) as a state
    machine. Every neighbour list has its own lock, so the atomic steps are:
    clone one list, update the slot's own list, link back into one neighbour's
    list. Threads interleave between any two of them and act on what they
    cloned earlier. The order in which a beam visits slots, and when it stops,
    is left open: a thread may clone the list of any slot it knows and choose
    its candidates among the slots it knows. */
module ParallelBuild {
  import opened Rank
  import opened Graph
  import opened Heuristic
  import opened FlatRows

  datatype Config = Config(m: nat, m0: nat, ef: nat, pair: (nat, nat) -> real, entry: nat, maxLevel: nat)

  datatype Thread =
    | Idle
    | Descend(slot: nat, current: nat, at: nat, copy: seq<nat>)
    | Beam(slot: nat, lc: nat, known: set<nat>, copy: seq<nat>)
    | Own(slot: nat, lc: nat, selected: seq<nat>, entries: set<nat>)
    | LinkBack(slot: nat, lc: nat, todo: seq<nat>, entries: set<nat>)

  /** The shared lists, the threads, and the slots whose insertion finished. */
  datatype Build = Build(g: Links, threads: seq<Thread>, done: set<nat>)

  function HitList(c: Config, base: nat, list: seq<nat>): (r: seq<Hit>)
    ensures Ids(r) == list
  {
    seq(|list|, i requires 0 <= i < |list| => Hit(c.pair(base, list[i]), list[i]))
  }

  function NotIn(list: seq<nat>, other: seq<nat>): (r: seq<nat>)
    ensures forall x :: x in r <==> x in list && x !in other
  {
    if list == [] then []
    else (if list[0] in other then [] else [list[0]]) + NotIn(list[1..], other)
  }

  function Cap(c: Config, l: nat): nat { CapacityAt(l, c.m, c.m0) }

  /** The locked update of the slot's own list: take the selection, or merge
      it with the links other threads already made. */
  ghost predicate OwnStep(c: Config, slot: nat, lc: nat, selected: seq<nat>, before: seq<nat>, after: seq<nat>) {
    if before == [] then after == selected
    else Chooses(HitList(c, slot, selected + NotIn(before, selected)), Cap(c, lc), c.pair, after)
  }

  /** The locked link-back: push while there is room, otherwise reselect. */
  ghost predicate LinkStep(c: Config, slot: nat, neighbour: nat, lc: nat, before: seq<nat>, after: seq<nat>) {
    if |before| < Cap(c, lc) then after == before + [slot]
    else Chooses(HitList(c, neighbour, before + [slot]), Cap(c, lc), c.pair, after)
  }

  /** One step of one thread on the shared lists. */
  ghost predicate ThreadStep(c: Config, g: Links, t: Thread, h: Links, u: Thread) {
    match t
    case Idle =>
      && h == g
      && match u {
           case Descend(slot, current, at, copy) =>
             slot < |g| && slot != c.entry && |g[slot]| - 1 < c.maxLevel && current == c.entry && at == c.maxLevel
                 && copy == []
           case Beam(slot, lc, known, copy) =>
             slot < |g| && slot != c.entry && |g[slot]| - 1 >= c.maxLevel && lc == c.maxLevel && known == {c.entry}
                 && copy == []
           case _ => false
         }
    case Descend(slot, current, at, copy) =>
      && h == g
      && (|| (OnLevel(g, current, at) && u == Descend(slot, current, at, g[current][at]))
          || (exists x :: x in copy && u == Descend(slot, x, at, copy))
          || (slot < |g| && at > |g[slot]| && u == Descend(slot, current, at - 1, []))
          || (slot < |g| && 0 < at == |g[slot]| && u == Beam(slot, at - 1, {current}, [])))
    case Beam(slot, lc, known, copy) =>
      && h == g
      && (|| (exists s :: s in known && OnLevel(g, s, lc) && u == Beam(slot, lc, known, g[s][lc]))
          || (exists x :: x in copy && u == Beam(slot, lc, known + {x}, copy))
          || (exists candidates: seq<Hit>, selected ::
                && 0 < |candidates| <= c.ef
                && (forall x :: x in Ids(candidates) ==> x in known)
                && Chooses(candidates, Cap(c, lc), c.pair, selected)
                && u == Own(slot, lc, selected, set x | x in Ids(candidates))))
    case Own(slot, lc, selected, entries) =>
      && OnLevel(g, slot, lc) && OnLevel(h, slot, lc)
      && h == SetList(g, slot, lc, h[slot][lc])
      && OwnStep(c, slot, lc, selected, g[slot][lc], h[slot][lc])
      && u == LinkBack(slot, lc, selected, entries)
    case LinkBack(slot, lc, todo, entries) =>
      if todo != [] then
        && OnLevel(g, todo[0], lc) && OnLevel(h, todo[0], lc)
        && h == SetList(g, todo[0], lc, h[todo[0]][lc])
        && LinkStep(c, slot, todo[0], lc, g[todo[0]][lc], h[todo[0]][lc])
        && u == LinkBack(slot, lc, todo[1..], entries)
      else
        h == g && u == if lc > 0 then Beam(slot, lc - 1, entries, []) else Idle
  }

  ghost predicate Finishes(t: Thread, u: Thread) {
    t.LinkBack? && u.Idle?
  }

  ghost predicate Next(c: Config, b: Build, b': Build) {
    exists i :: 0 <= i < |b.threads| && NextBy(c, b, b', i)
  }

  ghost predicate NextBy(c: Config, b: Build, b': Build, i: nat)
    requires i < |b.threads|
  {
    && |b'.threads| == |b.threads|
    && ThreadStep(c, b.g, b.threads[i], b'.g, b'.threads[i])
    && b'.threads == b.threads[i := b'.threads[i]]
    && b'.done == b.done + if Finishes(b.threads[i], b'.threads[i]) then {b.threads[i].slot} else {}
  }

  ghost predicate ConfigOk(c: Config, g: Links) {
    && 1 <= c.m <= c.m0 && 1 <= c.ef
    && OnLevel(g, c.entry, c.maxLevel)
    && forall s :: 0 <= s < |g| ==> 0 < |g[s]| <= c.maxLevel + 1
  }

  /** The build starts with empty lists and idle threads. */
  ghost predicate Init(c: Config, b: Build) {
    && ConfigOk(c, b.g) && b.done == {}
    && (forall s, l :: OnLevel(b.g, s, l) ==> b.g[s][l] == [])
    && forall i :: 0 <= i < |b.threads| ==> b.threads[i].Idle?
  }

  ghost predicate AllOn(g: Links, list: seq<nat>, l: int) {
    forall x :: x in list ==> OnLevel(g, x, l)
  }

  /** Above level `lc` the slot has links on all of its levels. */
  ghost predicate LinkedAbove(g: Links, slot: nat, lc: int) {
    forall l :: lc < l && OnLevel(g, slot, l) ==> g[slot][l] != []
  }

  /** What a thread holds is still true later: levels never change. */
  ghost predicate ThreadOk(c: Config, g: Links, t: Thread) {
    match t
    case Idle => true
    case Descend(slot, current, at, copy) =>
      slot < |g| && |g[slot]| <= at && OnLevel(g, current, at) && AllOn(g, copy, at)
    case Beam(slot, lc, known, copy) =>
      OnLevel(g, slot, lc) && LinkedAbove(g, slot, lc)
      && known != {} && (forall x :: x in known ==> OnLevel(g, x, lc)) && AllOn(g, copy, lc)
    case Own(slot, lc, selected, entries) =>
      OnLevel(g, slot, lc) && LinkedAbove(g, slot, lc)
      && selected != [] && |selected| <= Cap(c, lc) && AllOn(g, selected, lc)
      && entries != {} && forall x :: x in entries ==> OnLevel(g, x, lc)
    case LinkBack(slot, lc, todo, entries) =>
      OnLevel(g, slot, lc) && LinkedAbove(g, slot, lc - 1) && AllOn(g, todo, lc)
      && entries != {} && forall x :: x in entries ==> OnLevel(g, x, lc)
  }

  /** Kept by every step: the lists are closed and within capacity, and a slot
      whose insertion finished has links on all of its levels. */
  ghost predicate BuildOk(c: Config, b: Build) {
    && ConfigOk(c, b.g) && Closed(b.g) && Within(b.g, c.m, c.m0)
    && (forall i :: 0 <= i < |b.threads| ==> ThreadOk(c, b.g, b.threads[i]))
    && forall s :: s in b.done ==> OnLevel(b.g, s, 0) && LinkedAbove(b.g, s, -1)
  }

  /** Writing one list with slots of its level keeps everything but that list. */
  lemma WriteList(c: Config, g: Links, h: Links, s: nat, l: nat)
    requires ConfigOk(c, g) && Closed(g) && Within(g, c.m, c.m0) && OnLevel(g, s, l) && OnLevel(h, s, l)
    requires h == SetList(g, s, l, h[s][l]) && AllOn(g, h[s][l], l) && 0 < |h[s][l]| <= Cap(c, l)
    ensures ConfigOk(c, h) && Closed(h) && Within(h, c.m, c.m0) && SameHeights(g, h)
    ensures forall x, k :: OnLevel(g, x, k) && g[x][k] != [] ==> h[x][k] != []
  {
    ClosedSet(g, s, l, h[s][l]);
    forall x, k | OnLevel(h, x, k)
      ensures OnLevel(g, x, k) && h[x][k] == if x == s && k == l then h[s][l] else g[x][k]
    {
      SetListAt(g, s, l, h[s][l], x, k);
    }
  }

  lemma OwnStepOk(c: Config, g: Links, slot: nat, lc: nat, selected: seq<nat>, after: seq<nat>)
    requires ConfigOk(c, g) && Closed(g) && OnLevel(g, slot, lc)
    requires selected != [] && |selected| <= Cap(c, lc) && AllOn(g, selected, lc)
    requires OwnStep(c, slot, lc, selected, g[slot][lc], after)
    ensures 0 < |after| <= Cap(c, lc) && AllOn(g, after, lc)
  {
    var before := g[slot][lc];
    if before != [] {
      ChoosesWhat(HitList(c, slot, selected + NotIn(before, selected)), Cap(c, lc), c.pair, after);
    }
  }

  lemma LinkStepOk(c: Config, g: Links, slot: nat, neighbour: nat, lc: nat, after: seq<nat>)
    requires ConfigOk(c, g) && Closed(g) && Within(g, c.m, c.m0) && OnLevel(g, neighbour, lc) && OnLevel(g, slot, lc)
    requires LinkStep(c, slot, neighbour, lc, g[neighbour][lc], after)
    ensures 0 < |after| <= Cap(c, lc) && AllOn(g, after, lc)
  {
    var before := g[neighbour][lc];
    if |before| >= Cap(c, lc) {
      ChoosesWhat(HitList(c, neighbour, before + [slot]), Cap(c, lc), c.pair, after);
    }
  }

  /** A beam that ends chooses among what it saw. */
  lemma ChoosesOwn(c: Config, g: Links, t: Thread, h: Links, u: Thread)
    requires ConfigOk(c, g) && ThreadOk(c, g, t) && t.Beam? && u.Own? && ThreadStep(c, g, t, h, u)
    ensures h == g && ThreadOk(c, h, u)
  {
    hide Chooses;
    var candidates: seq<Hit>, selected :|
      && 0 < |candidates| <= c.ef
      && (forall x :: x in Ids(candidates) ==> x in t.known)
      && Chooses(candidates, Cap(c, t.lc), c.pair, selected)
      && u == Own(t.slot, t.lc, selected, set x | x in Ids(candidates));
    ChoosesWhat(candidates, Cap(c, t.lc), c.pair, selected);
    assert Ids(candidates)[0] in u.entries;
  }

  /** What every step of a thread keeps, and leaves true of the thread. */
  ghost predicate Keeps(c: Config, g: Links, t: Thread, h: Links, u: Thread) {
    && ConfigOk(c, h) && Closed(h) && Within(h, c.m, c.m0) && SameHeights(g, h)
    && (forall x, k :: OnLevel(g, x, k) && g[x][k] != [] ==> h[x][k] != [])
    && ThreadOk(c, h, u)
    && (Finishes(t, u) ==> OnLevel(h, t.slot, 0) && LinkedAbove(h, t.slot, -1))
  }

  ghost predicate Ready(c: Config, g: Links, t: Thread) {
    ConfigOk(c, g) && Closed(g) && Within(g, c.m, c.m0) && ThreadOk(c, g, t)
  }

  /** A thread that only reads. */
  lemma ReadKeeps(c: Config, g: Links, t: Thread, h: Links, u: Thread)
    requires Ready(c, g, t) && ThreadStep(c, g, t, h, u) && (t.Idle? || t.Descend? || (t.Beam? && !u.Own?))
    ensures Keeps(c, g, t, h, u)
  {
    hide Chooses, Within, Min;
  }

  lemma BeamKeeps(c: Config, g: Links, t: Thread, h: Links, u: Thread)
    requires Ready(c, g, t) && ThreadStep(c, g, t, h, u) && t.Beam? && u.Own?
    ensures Keeps(c, g, t, h, u)
  {
    hide Closed, Within;
    ChoosesOwn(c, g, t, h, u);
  }

  lemma OwnKeeps(c: Config, g: Links, t: Thread, h: Links, u: Thread)
    requires Ready(c, g, t) && ThreadStep(c, g, t, h, u) && t.Own?
    ensures Keeps(c, g, t, h, u)
  {
    hide Closed, Within, SetList, OwnStep;
    OwnStepOk(c, g, t.slot, t.lc, t.selected, h[t.slot][t.lc]);
    WriteList(c, g, h, t.slot, t.lc);
  }

  lemma LinkBackKeeps(c: Config, g: Links, t: Thread, h: Links, u: Thread)
    requires Ready(c, g, t) && ThreadStep(c, g, t, h, u) && t.LinkBack?
    ensures Keeps(c, g, t, h, u)
  {
    hide Closed, Within, SetList, LinkStep;
    if t.todo != [] {
      LinkStepOk(c, g, t.slot, t.todo[0], t.lc, h[t.todo[0]][t.lc]);
      WriteList(c, g, h, t.todo[0], t.lc);
      assert forall x :: x in t.todo[1..] ==> x in t.todo;
    }
  }

  /** A step of one thread keeps the lists good and its own knowledge true. */
  lemma StepKeepsLists(c: Config, g: Links, t: Thread, h: Links, u: Thread)
    requires Ready(c, g, t) && ThreadStep(c, g, t, h, u)
    ensures Keeps(c, g, t, h, u)
  {
    hide Ready, Keeps, ThreadStep;
    match t
    case Idle => ReadKeeps(c, g, t, h, u);
    case Descend(_, _, _, _) => ReadKeeps(c, g, t, h, u);
    case Beam(_, _, _, _) =>
      if u.Own? {
        BeamKeeps(c, g, t, h, u);
      } else {
        ReadKeeps(c, g, t, h, u);
      }
    case Own(_, _, _, _) => OwnKeeps(c, g, t, h, u);
    case LinkBack(_, _, _, _) => LinkBackKeeps(c, g, t, h, u);
  }

  /** What another thread knows survives the step. */
  lemma OthersKeep(c: Config, g: Links, h: Links, t: Thread)
    requires ThreadOk(c, g, t) && SameHeights(g, h)
    requires forall x, k :: OnLevel(g, x, k) && g[x][k] != [] ==> h[x][k] != []
    ensures ThreadOk(c, h, t)
  {
  }

  lemma StepKeepsBuild(c: Config, b: Build, b': Build)
    requires BuildOk(c, b) && Next(c, b, b')
    ensures BuildOk(c, b')
  {
    var i :| 0 <= i < |b.threads| && NextBy(c, b, b', i);
    StepKeepsLists(c, b.g, b.threads[i], b'.g, b'.threads[i]);
    forall j | 0 <= j < |b'.threads|
      ensures ThreadOk(c, b'.g, b'.threads[j])
    {
      if j != i {
        OthersKeep(c, b.g, b'.g, b.threads[j]);
      }
    }
  }

  ghost predicate IsRun(c: Config, run: seq<Build>) {
    run != [] && Init(c, run[0]) && forall i :: 0 <= i < |run| - 1 ==> Next(c, run[i], run[i + 1])
  }

  /** Under every interleaving the lists stay within capacity and closed, and
      every slot that was inserted has links on all of its levels. */
  lemma {:induction false} EveryInterleavingIsSafe(c: Config, run: seq<Build>)
    requires IsRun(c, run)
    ensures BuildOk(c, run[|run| - 1])
  {
    if |run| > 1 {
      var prev := run[..|run| - 1];
      forall i | 0 <= i < |prev| - 1
        ensures Next(c, prev[i], prev[i + 1])
      {
        assert Next(c, run[i], run[i + 1]);
      }
      EveryInterleavingIsSafe(c, prev);
      assert Next(c, run[|run| - 2], run[(|run| - 2) + 1]);
      StepKeepsBuild(c, run[|run| - 2], run[|run| - 1]);
    }
  }

  ghost predicate Copies(g: Links, level0: seq<nat>, level0Len: seq<nat>, upper: seq<seq<nat>>, upperLen: seq<seq<nat>>,
                         levels: seq<nat>, m: nat, m0: nat)
  {
    FlatHolds(level0, level0Len, upper, upperLen, levels, m, m0, g)
  }

  /** Copy the finished lists into the fixed-stride arrays. Because the lists
      are within capacity no row overruns its stride. */
  method CopyOut(g: Links, m: nat, m0: nat)
    returns (level0: seq<nat>, level0Len: seq<nat>, upper: seq<seq<nat>>, upperLen: seq<seq<nat>>, levels: seq<nat>)
    requires Within(g, m, m0) && forall s :: 0 <= s < |g| ==> g[s] != []
    ensures Copies(g, level0, level0Len, upper, upperLen, levels, m, m0)
  {
    level0, level0Len, upper, upperLen, levels := [], [], [], [], [];
    for s := 0 to |g|
      invariant Copies(g[..s], level0, level0Len, upper, upperLen, levels, m, m0)
    {
      assert OnLevel(g, s, 0);
      var level := |g[s]| - 1;
      FlatGrow(level0, level0Len, upper, upperLen, levels, m, m0, g[..s], level);
      var grown := level0 + seq(m0, _ => 0);
      var lens := level0Len + [0];
      ghost var lists := g[..s] + [seq(level + 1, _ => [])];
      BaseWrite(grown, lens, m0, lists, s, g[s][0]);
      var row, rowLens := CopyUpper(g, s, m, m0);
      level0, level0Len := Splice(grown, s * m0, g[s][0]), lens[s := |g[s][0]|];
      upper, upperLen, levels := upper + [row], upperLen + [rowLens], levels + [level];
      assert g[..s + 1] == g[..s] + [g[s]];
      CopiedRow(g[..s], lists, g[..s + 1], level0, level0Len, m0, s);
    }
    assert g[..|g|] == g;
  }

  lemma CopiedRow(before: Links, lists: Links, after: Links, flat: seq<nat>, lens: seq<nat>, stride: nat, s: nat)
    requires |before| == s && |after| == |lists| == s + 1 && lists[..s] == before && after[..s] == before
    requires lists[s] != [] && after[s] != []
    requires BaseHolds(flat, lens, stride, lists[s := lists[s][0 := after[s][0]]])
    ensures BaseHolds(flat, lens, stride, after)
  {
    var written := lists[s := lists[s][0 := after[s][0]]];
    forall r | 0 <= r < |after|
      ensures written[r] != [] && written[r][0] == after[r][0]
    {
      if r < s {
        assert before[r] == lists[..s][r] == after[..s][r];
      }
    }
  }

  /** The lists of a slot with only the levels `1..i` filled in. */
  ghost function Filled(lists: seq<seq<nat>>, i: nat): seq<seq<nat>> {
    seq(|lists|, l requires 0 <= l < |lists| => if 0 < l <= i then lists[l] else [])
  }

  lemma UpperStep(row: seq<nat>, lens: seq<nat>, m: nat, lists: seq<seq<nat>>, i: nat)
    requires i + 1 < |lists| && |lists[i + 1]| <= m && UpperHolds(row, lens, m, |lists| - 1, Filled(lists, i))
    ensures i * m + |lists[i + 1]| <= |row|
    ensures UpperHolds(Splice(row, i * m, lists[i + 1]), lens[i := |lists[i + 1]|], m, |lists| - 1,
                       Filled(lists, i + 1))
  {
    UpperWrite(row, lens, m, |lists| - 1, Filled(lists, i), i + 1, lists[i + 1]);
    assert Filled(lists, i)[i + 1 := lists[i + 1]] == Filled(lists, i + 1);
  }

  lemma UpperDone(row: seq<nat>, lens: seq<nat>, m: nat, lists: seq<seq<nat>>)
    requires lists != [] && UpperHolds(row, lens, m, |lists| - 1, Filled(lists, |lists| - 1))
    ensures UpperHolds(row, lens, m, |lists| - 1, lists)
  {
    var full := Filled(lists, |lists| - 1);
    assert forall l :: 0 < l <= |lists| - 1 ==> full[l] == lists[l];
  }

  method CopyUpper(g: Links, s: nat, m: nat, m0: nat) returns (row: seq<nat>, lens: seq<nat>)
    requires Within(g, m, m0) && s < |g| && g[s] != []
    ensures UpperHolds(row, lens, m, |g[s]| - 1, g[s])
  {
    hide Splice, RowAt;
    var level := |g[s]| - 1;
    row, lens := seq(level * m, _ => 0), seq(level, _ => 0);
    UpperEmpty(row, lens, m, level, Filled(g[s], 0));
    for i := 0 to level
      invariant UpperHolds(row, lens, m, level, Filled(g[s], i))
    {
      assert OnLevel(g, s, i + 1);
      UpperStep(row, lens, m, g[s], i);
      row, lens := Splice(row, i * m, g[s][i + 1]), lens[i := |g[s][i + 1]|];
    }
    UpperDone(row, lens, m, g[s]);
  }
}
