/** Lists stored at a fixed stride in one flat buffer, as the graph keeps its
    neighbour lists. */
module FlatRows {

  /** Row `row` of the buffer starts with `list`. */
  ghost predicate RowAt(flat: seq<nat>, stride: nat, row: nat, list: seq<nat>) {
    && |list| <= stride
    && row * stride + |list| <= |flat|
    && flat[row * stride..row * stride + |list|] == list
  }

  /** `flat[at..at + list.len()].copy_from_slice(list)`. */
  function Splice(flat: seq<nat>, at: nat, list: seq<nat>): (r: seq<nat>)
    requires at + |list| <= |flat|
    ensures |r| == |flat|
  {
    flat[..at] + list + flat[at + |list|..]
  }

  lemma StrideApart(a: nat, b: nat, stride: nat)
    requires a < b
    ensures a * stride + stride <= b * stride
    decreases b - a
  {
    assert (a + 1) * stride == a * stride + stride;
    if a + 1 < b {
      StrideApart(a + 1, b, stride);
    }
  }

  lemma RowFits(rows: nat, stride: nat, row: nat)
    requires row < rows
    ensures row * stride + stride <= rows * stride
  {
    StrideApart(row, rows, stride);
  }

  /** Writing one row leaves every other row alone. */
  lemma SpliceRow(flat: seq<nat>, stride: nat, rows: nat, row: nat, list: seq<nat>)
    requires |flat| == rows * stride && row < rows && |list| <= stride
    ensures row * stride + |list| <= |flat|
    ensures RowAt(Splice(flat, row * stride, list), stride, row, list)
    ensures forall r, other ::
              0 <= r < rows && r != row && RowAt(flat, stride, r, other)
              ==> RowAt(Splice(flat, row * stride, list), stride, r, other)
  {
    RowFits(rows, stride, row);
    var after := Splice(flat, row * stride, list);
    forall r, other | 0 <= r < rows && r != row && RowAt(flat, stride, r, other)
      ensures RowAt(after, stride, r, other)
    {
      if r < row {
        StrideApart(r, row, stride);
      } else {
        StrideApart(row, r, stride);
      }
    }
  }

  lemma GrowRows(flat: seq<nat>, stride: nat, more: seq<nat>)
    ensures forall r, other :: 0 <= r && RowAt(flat, stride, r, other) ==> RowAt(flat + more, stride, r, other)
  {
    forall r, other | 0 <= r && RowAt(flat, stride, r, other)
      ensures RowAt(flat + more, stride, r, other)
    {
      assert (flat + more)[r * stride..r * stride + |other|] == flat[r * stride..r * stride + |other|];
    }
  }

  function ReadRow(flat: seq<nat>, stride: nat, row: nat, len: nat, ghost list: seq<nat>): (r: seq<nat>)
    requires RowAt(flat, stride, row, list) && len == |list|
    ensures r == list
  {
    flat[row * stride..row * stride + len]
  }

  lemma AppendInRow(flat: seq<nat>, stride: nat, row: nat, list: seq<nat>, x: nat)
    requires RowAt(flat, stride, row, list) && |list| < stride && row * stride + stride <= |flat|
    ensures flat[row * stride + |list| := x] == Splice(flat, row * stride, list + [x])
  {
  }

  /** The level-0 buffer holds the first list of every slot. */
  ghost predicate BaseHolds(flat: seq<nat>, lens: seq<nat>, stride: nat, lists: seq<seq<seq<nat>>>) {
    && |flat| == |lists| * stride && |lens| == |lists|
    && forall s ::
         0 <= s < |lists|
         ==> lists[s] != [] && RowAt(flat, stride, s, lists[s][0]) && lens[s] == |lists[s][0]|
  }

  /** The upper buffer of a slot holds its lists above level 0. */
  ghost predicate UpperHolds(flat: seq<nat>, lens: seq<nat>, stride: nat, level: nat, lists: seq<seq<nat>>) {
    && |lists| == level + 1 && |flat| == level * stride && |lens| == level
    && forall i :: 0 < i <= level ==> RowAt(flat, stride, i - 1, lists[i]) && lens[i - 1] == |lists[i]|
  }

  lemma BaseWrite(flat: seq<nat>, lens: seq<nat>, stride: nat, lists: seq<seq<seq<nat>>>, s: nat, list: seq<nat>)
    requires BaseHolds(flat, lens, stride, lists) && s < |lists| && |list| <= stride
    ensures s * stride + |list| <= |flat| && s * stride + stride <= |flat|
    ensures BaseHolds(Splice(flat, s * stride, list), lens[s := |list|], stride, lists[s := lists[s][0 := list]])
  {
    RowFits(|lists|, stride, s);
    SpliceRow(flat, stride, |lists|, s, list);
  }

  lemma UpperWrite(flat: seq<nat>, lens: seq<nat>, stride: nat, level: nat, lists: seq<seq<nat>>, l: nat,
                   list: seq<nat>)
    requires UpperHolds(flat, lens, stride, level, lists) && 0 < l <= level && |list| <= stride
    ensures (l - 1) * stride + |list| <= |flat| && (l - 1) * stride + stride <= |flat|
    ensures UpperHolds(Splice(flat, (l - 1) * stride, list), lens[l - 1 := |list|], stride, level, lists[l := list])
  {
    RowFits(level, stride, l - 1);
    SpliceRow(flat, stride, level, l - 1, list);
  }

  lemma BaseAppend(flat: seq<nat>, lens: seq<nat>, stride: nat, lists: seq<seq<seq<nat>>>, s: nat, x: nat)
    requires BaseHolds(flat, lens, stride, lists) && s < |lists| && |lists[s][0]| < stride
    ensures s * stride + lens[s] < |flat|
    ensures BaseHolds(flat[s * stride + lens[s] := x], lens[s := lens[s] + 1], stride,
                      lists[s := lists[s][0 := lists[s][0] + [x]]])
  {
    BaseWrite(flat, lens, stride, lists, s, lists[s][0] + [x]);
    AppendInRow(flat, stride, s, lists[s][0], x);
  }

  lemma BaseReplace(flat: seq<nat>, lens: seq<nat>, stride: nat, lists: seq<seq<seq<nat>>>, s: nat, i: nat, x: nat)
    requires BaseHolds(flat, lens, stride, lists) && s < |lists| && i < |lists[s][0]|
    ensures s * stride + i < |flat|
    ensures BaseHolds(flat[s * stride + i := x], lens, stride, lists[s := lists[s][0 := lists[s][0][i := x]]])
  {
    var list := lists[s][0][i := x];
    assert |list| == |lists[s][0]|;
    BaseWrite(flat, lens, stride, lists, s, list);
    assert flat[s * stride + i := x] == Splice(flat, s * stride, list);
    assert lens[s := |list|] == lens;
  }

  lemma UpperAppend(flat: seq<nat>, lens: seq<nat>, stride: nat, level: nat, lists: seq<seq<nat>>, l: nat, x: nat)
    requires UpperHolds(flat, lens, stride, level, lists) && 0 < l <= level && |lists[l]| < stride
    ensures (l - 1) * stride + lens[l - 1] < |flat|
    ensures UpperHolds(flat[(l - 1) * stride + lens[l - 1] := x], lens[l - 1 := lens[l - 1] + 1], stride, level,
                       lists[l := lists[l] + [x]])
  {
    UpperWrite(flat, lens, stride, level, lists, l, lists[l] + [x]);
    AppendInRow(flat, stride, l - 1, lists[l], x);
  }

  lemma BaseGrow(flat: seq<nat>, lens: seq<nat>, stride: nat, lists: seq<seq<seq<nat>>>, more: seq<nat>,
                 added: seq<seq<nat>>)
    requires BaseHolds(flat, lens, stride, lists) && |more| == stride && added != [] && added[0] == []
    ensures BaseHolds(flat + more, lens + [0], stride, lists + [added])
  {
    GrowRows(flat, stride, more);
    assert |lists + [added]| * stride == |lists| * stride + stride;
    assert RowAt(flat + more, stride, |lists|, []);
  }

  lemma UpperEmpty(row: seq<nat>, lens: seq<nat>, stride: nat, level: nat, lists: seq<seq<nat>>)
    requires |row| == level * stride && |lens| == level && forall i :: 0 <= i < level ==> lens[i] == 0
    requires |lists| == level + 1 && forall i :: 0 <= i <= level ==> lists[i] == []
    ensures UpperHolds(row, lens, stride, level, lists)
  {
    forall i | 0 < i <= level
      ensures RowAt(row, stride, i - 1, lists[i])
    {
      RowFits(level, stride, i - 1);
    }
  }

  /** All buffers of the graph together hold `lists`. */
  ghost predicate FlatHolds(level0: seq<nat>, level0Len: seq<nat>, upper: seq<seq<nat>>, upperLen: seq<seq<nat>>,
                            levels: seq<nat>, m: nat, m0: nat, lists: seq<seq<seq<nat>>>)
  {
    && |levels| == |upper| == |upperLen| == |lists|
    && BaseHolds(level0, level0Len, m0, lists)
    && forall s :: 0 <= s < |levels| ==> UpperHolds(upper[s], upperLen[s], m, levels[s], lists[s])
  }

  /** New level-0 buffers for slot `s`, the upper ones as before. */
  lemma FlatBase(level0: seq<nat>, level0Len: seq<nat>, upper: seq<seq<nat>>, upperLen: seq<seq<nat>>, levels: seq<nat>,
                 m: nat, m0: nat, lists: seq<seq<seq<nat>>>, after0: seq<nat>, afterLen: seq<nat>, s: nat,
                     list: seq<nat>)
    requires FlatHolds(level0, level0Len, upper, upperLen, levels, m, m0, lists) && s < |lists|
    requires lists[s] != [] && BaseHolds(after0, afterLen, m0, lists[s := lists[s][0 := list]])
    ensures FlatHolds(after0, afterLen, upper, upperLen, levels, m, m0, lists[s := lists[s][0 := list]])
  {
    var after := lists[s := lists[s][0 := list]];
    forall r | 0 <= r < |levels|
      ensures UpperHolds(upper[r], upperLen[r], m, levels[r], after[r])
    {
      assert UpperHolds(upper[r], upperLen[r], m, levels[r], lists[r]);
    }
  }

  /** New upper buffers for slot `s`, the level-0 ones as before. */
  lemma FlatUpper(level0: seq<nat>, level0Len: seq<nat>, upper: seq<seq<nat>>, upperLen: seq<seq<nat>>,
                  levels: seq<nat>, m: nat, m0: nat, lists: seq<seq<seq<nat>>>, row: seq<nat>, lens: seq<nat>, s: nat,
                      l: nat, list: seq<nat>)
    requires FlatHolds(level0, level0Len, upper, upperLen, levels, m, m0, lists) && s < |lists|
    requires 0 < l < |lists[s]| && UpperHolds(row, lens, m, levels[s], lists[s][l := list])
    ensures FlatHolds(level0, level0Len, upper[s := row], upperLen[s := lens], levels, m, m0,
                      lists[s := lists[s][l := list]])
  {
    var after := lists[s := lists[s][l := list]];
    assert forall r :: 0 <= r < |lists| ==> after[r][0] == lists[r][0];
  }

  lemma FlatGrow(level0: seq<nat>, level0Len: seq<nat>, upper: seq<seq<nat>>, upperLen: seq<seq<nat>>, levels: seq<nat>,
                 m: nat, m0: nat, lists: seq<seq<seq<nat>>>, level: nat)
    requires FlatHolds(level0, level0Len, upper, upperLen, levels, m, m0, lists)
    ensures FlatHolds(level0 + seq(m0, _ => 0), level0Len + [0], upper + [seq(level * m, _ => 0)],
                      upperLen + [seq(level, _ => 0)], levels + [level], m, m0, lists + [seq(level + 1, _ => [])])
  {
    BaseGrow(level0, level0Len, m0, lists, seq(m0, _ => 0), seq(level + 1, _ => []));
    UpperEmpty(seq(level * m, _ => 0), seq(level, _ => 0), m, level, seq(level + 1, _ => []));
  }
}
