/** Per-vector int8 quantization (quant.rs): the laned integer dot product, and
    how far approximate distances are from exact ones, over the reals. */
module Quant {

  newtype i8 = x: int | -128 <= x < 128
  newtype i32 = x: int | -0x8000_0000 <= x < 0x8000_0000

  const LANES := 16
  /** Largest dimensionality a partition accepts. */
  const MAX_DIMS := 65536

  // ----- the integer dot product

  function Term(a: seq<i8>, b: seq<i8>, i: nat): int
    requires i < |a| == |b|
  {
    (a[i] as int) * (b[i] as int)
  }

  function DotTo(a: seq<i8>, b: seq<i8>, n: nat): int
    requires n <= |a| == |b|
  {
    if n == 0 then 0 else DotTo(a, b, n - 1) + Term(a, b, n - 1)
  }

  /** What lane `l` accumulates over the first `c` chunks. */
  function LaneTo(a: seq<i8>, b: seq<i8>, l: nat, c: nat): int
    requires l < LANES && LANES * c <= |a| == |b|
  {
    if c == 0 then 0 else LaneTo(a, b, l, c - 1) + Term(a, b, LANES * (c - 1) + l)
  }

  /** The first `n` lanes together. */
  function LanesTo(a: seq<i8>, b: seq<i8>, n: nat, c: nat): int
    requires n <= LANES && LANES * c <= |a| == |b|
  {
    if n == 0 then 0 else LanesTo(a, b, n - 1, c) + LaneTo(a, b, n - 1, c)
  }

  lemma TermBound(a: seq<i8>, b: seq<i8>, i: nat)
    requires i < |a| == |b|
    ensures -16_384 <= Term(a, b, i) <= 16_384
  {
    ProductBound(a[i] as int, b[i] as int);
  }

  lemma ProductBound(x: int, y: int)
    requires -128 <= x < 128 && -128 <= y < 128
    ensures -16_384 <= x * y <= 16_384
  {
    if y >= 0 {
      IntMulLe(x, 128, y);
      IntMulLe(-128, x, y);
    } else {
      IntMulLe(x, 128, -y);
      IntMulLe(-128, x, -y);
    }
  }

  lemma IntMulLe(x: int, y: int, k: int)
    requires x <= y && k >= 0
    ensures x * k <= y * k
  {
  }

  lemma {:induction false} DotBound(a: seq<i8>, b: seq<i8>, n: nat)
    requires n <= |a| == |b|
    ensures -16_384 * n <= DotTo(a, b, n) <= 16_384 * n
  {
    if n > 0 {
      DotBound(a, b, n - 1);
      TermBound(a, b, n - 1);
    }
  }

  lemma {:induction false} LaneBound(a: seq<i8>, b: seq<i8>, l: nat, c: nat)
    requires l < LANES && LANES * c <= |a| == |b|
    ensures -16_384 * c <= LaneTo(a, b, l, c) <= 16_384 * c
  {
    if c > 0 {
      LaneBound(a, b, l, c - 1);
      TermBound(a, b, LANES * (c - 1) + l);
    }
  }

  lemma {:induction false} LanesBound(a: seq<i8>, b: seq<i8>, n: nat, c: nat)
    requires n <= LANES && LANES * c <= |a| == |b| <= MAX_DIMS
    ensures -67_108_864 * n <= LanesTo(a, b, n, c) <= 67_108_864 * n
  {
    if n > 0 {
      LanesBound(a, b, n - 1, c);
      LaneBound(a, b, n - 1, c);
    }
  }

  lemma {:induction false} LanesStep(a: seq<i8>, b: seq<i8>, n: nat, c: nat)
    requires n <= LANES && LANES * (c + 1) <= |a| == |b|
    ensures LanesTo(a, b, n, c + 1) == LanesTo(a, b, n, c) + DotTo(a, b, LANES * c + n) - DotTo(a, b, LANES * c)
  {
    if n > 0 {
      LanesStep(a, b, n - 1, c);
      assert LANES * (c + 1 - 1) + (n - 1) == LANES * c + n - 1;
    }
  }

  /** The lanes add up to the plain sum over the chunks. */
  lemma {:induction false} LanesAreDot(a: seq<i8>, b: seq<i8>, c: nat)
    requires LANES * c <= |a| == |b|
    ensures LanesTo(a, b, LANES, c) == DotTo(a, b, LANES * c)
  {
    if c == 0 {
      NoChunks(a, b, LANES);
    } else {
      LanesAreDot(a, b, c - 1);
      LanesStep(a, b, LANES, c - 1);
    }
  }

  lemma {:induction false} NoChunks(a: seq<i8>, b: seq<i8>, n: nat)
    requires n <= LANES && |a| == |b|
    ensures LanesTo(a, b, n, 0) == 0
  {
    if n > 0 {
      NoChunks(a, b, n - 1);
    }
  }

  lemma LaneStep(a: seq<i8>, b: seq<i8>, l: nat, c: nat)
    requires l < LANES && LANES * (c + 1) <= |a| == |b| <= MAX_DIMS
    ensures LaneTo(a, b, l, c + 1) == LaneTo(a, b, l, c) + Term(a, b, LANES * c + l)
    ensures -0x8000_0000 <= LaneTo(a, b, l, c + 1) < 0x8000_0000 && -16_384 <= Term(a, b, LANES * c + l) <= 16_384
  {
    LaneBound(a, b, l, c + 1);
    TermBound(a, b, LANES * c + l);
  }

  /** One chunk of 16 products into the lanes. */
  method AddChunk(a: seq<i8>, b: seq<i8>, c: nat, acc: array<i32>)
    requires LANES * (c + 1) <= |a| == |b| <= MAX_DIMS && acc.Length == LANES
    requires forall l :: 0 <= l < LANES ==> acc[l] as int == LaneTo(a, b, l, c)
    modifies acc
    ensures forall l :: 0 <= l < LANES ==> acc[l] as int == LaneTo(a, b, l, c + 1)
  {
    hide LaneTo;
    for lane := 0 to LANES
      invariant forall l :: 0 <= l < lane ==> acc[l] as int == LaneTo(a, b, l, c + 1)
      invariant forall l :: lane <= l < LANES ==> acc[l] as int == LaneTo(a, b, l, c)
    {
      LaneStep(a, b, lane, c);
      acc[lane] := acc[lane] + (a[LANES * c + lane] as i32) * (b[LANES * c + lane] as i32);
    }
  }

  /** `dot_i8` in 32-bit accumulators: it is the dot product, and up to 65536
      dimensions no accumulator leaves its range. */
  method DotI8(a: seq<i8>, b: seq<i8>) returns (sum: i32)
    requires |a| == |b| <= MAX_DIMS
    ensures sum as int == DotTo(a, b, |a|)
  {
    hide LaneTo, LanesTo, Term;
    var acc := new i32[LANES](_ => 0);
    var chunks := |a| / LANES;
    LanesStart(a, b);
    for c := 0 to chunks
      invariant forall l :: 0 <= l < LANES ==> acc[l] as int == LaneTo(a, b, l, c)
    {
      AddChunk(a, b, c, acc);
    }
    sum := SumLanes(a, b, chunks, acc);
    LanesAreDot(a, b, chunks);
    for i := LANES * chunks to |a|
      invariant sum as int == DotTo(a, b, i)
    {
      TailStep(a, b, i);
      sum := sum + (a[i] as i32) * (b[i] as i32);
    }
  }

  lemma LanesStart(a: seq<i8>, b: seq<i8>)
    requires |a| == |b|
    ensures forall l :: 0 <= l < LANES ==> LaneTo(a, b, l, 0) == 0
  {
  }

  lemma TailStep(a: seq<i8>, b: seq<i8>, i: nat)
    requires i < |a| == |b| <= MAX_DIMS
    ensures DotTo(a, b, i + 1) == DotTo(a, b, i) + (a[i] as int) * (b[i] as int)
    ensures -0x8000_0000 <= DotTo(a, b, i + 1) < 0x8000_0000 && -16_384 <= (a[i] as int) * (b[i] as int) <= 16_384
  {
    DotBound(a, b, i + 1);
    TermBound(a, b, i);
  }

  method SumLanes(a: seq<i8>, b: seq<i8>, c: nat, acc: array<i32>) returns (sum: i32)
    requires LANES * c <= |a| == |b| <= MAX_DIMS && acc.Length == LANES
    requires forall l :: 0 <= l < LANES ==> acc[l] as int == LaneTo(a, b, l, c)
    ensures sum as int == LanesTo(a, b, LANES, c)
  {
    hide LaneTo;
    sum := 0;
    for l := 0 to LANES
      invariant sum as int == LanesTo(a, b, l, c)
    {
      LanesBound(a, b, l + 1, c);
      sum := sum + acc[l];
    }
  }

  // ----- quantization over the reals

  function Abs(x: real): (r: real)
    ensures r >= 0.0 && r >= x && r >= -x
  {
    if x >= 0.0 then x else -x
  }

  /** The largest magnitude of any component. */
  ghost predicate Largest(v: seq<real>, m: real) {
    && (forall i :: 0 <= i < |v| ==> Abs(v[i]) <= m)
    && (if v == [] then m == 0.0 else exists i :: 0 <= i < |v| && Abs(v[i]) == m)
  }

  function MaxAbs(v: seq<real>): (r: real)
    ensures r >= 0.0 && Largest(v, r)
  {
    if v == [] then 0.0
    else
      var n := |v| - 1;
      var m := MaxAbs(v[..n]);
      if Abs(v[n]) > m then Abs(v[n])
      else
        assert n > 0 ==> exists i :: 0 <= i < n && Abs(v[..n][i]) == m && v[..n][i] == v[i];
        m
  }

  /** Nearest integer, halves away from zero. */
  function Round(x: real): int {
    if x >= 0.0 then (x + 0.5).Floor else -((-x + 0.5).Floor)
  }

  function Clamp(n: int): int {
    if n < -127 then -127 else if n > 127 then 127 else n
  }

  datatype Quantized = Quantized(codes: seq<int>, scale: real, normSq: real)

  function SumSq(v: seq<real>): real {
    if v == [] then 0.0 else SumSq(v[..|v| - 1]) + v[|v| - 1] * v[|v| - 1]
  }

  function Ratio(x: real, scale: real): real
    requires scale > 0.0
  {
    x * (1.0 / scale)
  }

  /** The code of one component. */
  function Code(x: real, scale: real): int
    requires scale > 0.0
  {
    Clamp(Round(Ratio(x, scale)))
  }

  /** `quantize`: `scale = max|x| / 127`, codes are rounded and clamped. */
  function Quantize(v: seq<real>): (q: Quantized)
    ensures |q.codes| == |v| && q.scale >= 0.0 && q.normSq == SumSq(v)
  {
    var max := MaxAbs(v);
    if max == 0.0 then Quantized(seq(|v|, _ => 0), 0.0, SumSq(v))
    else
      var scale := max / 127.0;
      Quantized(seq(|v|, i requires 0 <= i < |v| => Code(v[i], scale)), scale, SumSq(v))
  }

  /** The component a code stands for. */
  function Restored(code: int, scale: real): real {
    scale * code as real
  }

  predicate Within(x: real, y: real, e: real) {
    -e <= x - y <= e
  }

  lemma RoundNear(x: real)
    ensures Within(x, Round(x) as real, 0.5)
    ensures -127.0 <= x <= 127.0 ==> -127 <= Round(x) <= 127
    ensures x >= 0.0 ==> x - Round(x) as real < 0.5
    ensures x < 0.0 ==> x - Round(x) as real > -0.5
  {
  }

  // ----- products, one law each, so that what uses them is linear

  function Prod(x: real, y: real): real {
    x * y
  }

  lemma Swap(x: real, y: real)
    ensures Prod(x, y) == Prod(y, x)
  {
  }

  lemma Apart(x: real, y: real, k: real)
    ensures Prod(x - y, k) == Prod(x, k) - Prod(y, k)
  {
  }

  lemma Negate(x: real, k: real)
    ensures Prod(-x, k) == -Prod(x, k)
  {
  }

  lemma Sign(x: real, k: real)
    ensures x >= 0.0 && k >= 0.0 ==> Prod(x, k) >= 0.0
    ensures x > 0.0 && k > 0.0 ==> Prod(x, k) > 0.0
  {
  }

  lemma ByConstant(k: real)
    ensures Prod(0.5, k) == k / 2.0 && Prod(127.0, k) == 127.0 * k
  {
  }

  lemma ScaledPair(x: real, y: real)
    ensures Prod(127.0 * x, y / 2.0) == 63.5 * Prod(x, y)
  {
  }

  lemma ProdLe(x: real, y: real, k: real)
    requires x <= y && k >= 0.0
    ensures Prod(x, k) <= Prod(y, k)
  {
    hide Prod;
    Apart(y, x, k);
    Sign(y - x, k);
  }

  lemma ProdLess(x: real, y: real, k: real)
    requires x < y && k > 0.0
    ensures Prod(x, k) < Prod(y, k)
  {
    hide Prod;
    Apart(y, x, k);
    Sign(y - x, k);
  }

  lemma Inverse(scale: real)
    requires scale > 0.0
    ensures (1.0 / scale) * scale == 1.0
  {
  }

  lemma Regroup(x: real, y: real, z: real)
    ensures (x * y) * z == x * (y * z)
  {
  }

  lemma Unscale(y: real, scale: real)
    requires scale > 0.0
    ensures Prod(Ratio(y, scale), scale) == y
  {
    var inverse := 1.0 / scale;
    Regroup(y, inverse, scale);
    Inverse(scale);
    assert y * 1.0 == y;
  }

  lemma RatioWithin(y: real, scale: real)
    requires scale > 0.0 && -127.0 * scale <= y <= 127.0 * scale
    ensures -127.0 <= Ratio(y, scale) <= 127.0
  {
    hide Prod, Ratio;
    var x := Ratio(y, scale);
    Unscale(y, scale);
    ByConstant(scale);
    Negate(127.0, scale);
    if x > 127.0 {
      ProdLess(127.0, x, scale);
    } else if x < -127.0 {
      ProdLess(x, -127.0, scale);
    }
  }

  /** Rounding a scaled component is off by at most half a step. */
  lemma HalfStep(x: real, r: real, scale: real)
    requires scale > 0.0 && Within(x, r, 0.5)
    ensures Within(Prod(x, scale), Prod(scale, r), scale / 2.0)
  {
    hide Prod;
    ProdLe(x - r, 0.5, scale);
    ProdLe(-0.5, x - r, scale);
    Apart(x, r, scale);
    Swap(scale, r);
    ByConstant(scale);
    Negate(0.5, scale);
  }

  lemma RestoredIs(code: int, scale: real)
    ensures Restored(code, scale) == Prod(scale, code as real)
  {
  }

  lemma CodeOf(y: real, scale: real)
    requires scale > 0.0 && -127.0 * scale <= y <= 127.0 * scale
    ensures -127 <= Code(y, scale) <= 127 && Within(y, Restored(Code(y, scale), scale), scale / 2.0)
  {
    hide Round, Restored, Ratio, Prod;
    var x := Ratio(y, scale);
    Unscale(y, scale);
    RatioWithin(y, scale);
    RoundNear(x);
    HalfStep(x, Round(x) as real, scale);
    RestoredIs(Round(x), scale);
  }

  /** A component and its code: within half a step, and in range. */
  ghost predicate NearAt(x: real, code: int, scale: real) {
    -127.0 * scale <= x <= 127.0 * scale && -127 <= code <= 127 && Within(x, Restored(code, scale), scale / 2.0)
  }

  /** Each code is within half a step of its component, and in range. */
  lemma CodeNear(v: seq<real>, i: nat)
    requires i < |v|
    ensures NearAt(v[i], Quantize(v).codes[i], Quantize(v).scale)
  {
    hide MaxAbs, SumSq, Code, Restored;
    var max := MaxAbs(v);
    if max == 0.0 {
      assert Restored(0, 0.0) == 0.0 by { NothingRestored(); }
    } else {
      CodeOf(v[i], max / 127.0);
    }
  }

  /** The scale is the step that takes the largest component to 127: no
      component exceeds 127 steps and one of them reaches it, with the code 127
      or -127. Only a vector of zeros has the step 0, and then no code but 0. */
  lemma ScaleExact(v: seq<real>)
    ensures Largest(v, 127.0 * Quantize(v).scale)
    ensures Quantize(v).scale == 0.0 <==> forall i :: 0 <= i < |v| ==> v[i] == 0.0
    ensures Quantize(v).scale == 0.0 ==> forall i :: 0 <= i < |v| ==> Quantize(v).codes[i] == 0
    ensures forall i :: 0 <= i < |v| && Abs(v[i]) == 127.0 * Quantize(v).scale && v[i] != 0.0 ==>
              Quantize(v).codes[i] == if v[i] > 0.0 then 127 else -127
  {
    hide SumSq, Code, MaxAbs;
    var max, scale := MaxAbs(v), Quantize(v).scale;
    assert 127.0 * scale == max;
    if v != [] {
      var k :| 0 <= k < |v| && Abs(v[k]) == max;
      assert max == 0.0 || v[k] != 0.0;
    }
    if max > 0.0 {
      FullCode(scale);
    }
  }

  /** The ends of the range get the outermost codes. */
  lemma FullCode(scale: real)
    requires scale > 0.0
    ensures Code(127.0 * scale, scale) == 127 && Code(-(127.0 * scale), scale) == -127
  {
    hide Ratio;
    RatioOf(127.0, scale);
    RatioOf(-127.0, scale);
    assert -127.0 * scale == -(127.0 * scale);
  }

  lemma RatioOf(k: real, scale: real)
    requires scale > 0.0
    ensures Ratio(k * scale, scale) == k
  {
    var inverse := 1.0 / scale;
    Regroup(k, scale, inverse);
    Inverse(scale);
    assert scale * inverse == 1.0;
    assert k * 1.0 == k;
  }

  /** A component half-way between two codes gets the outer one. */
  lemma TiesAway(v: seq<real>, i: nat)
    requires i < |v| && v[i] != 0.0
    ensures var rest := v[i] - Restored(Quantize(v).codes[i], Quantize(v).scale);
            if v[i] > 0.0 then rest < Quantize(v).scale / 2.0 else rest > -(Quantize(v).scale / 2.0)
  {
    hide SumSq, Code, Restored;
    TieOf(v[i], MaxAbs(v) / 127.0);
  }

  lemma TieOf(y: real, scale: real)
    requires scale > 0.0 && -127.0 * scale <= y <= 127.0 * scale && y != 0.0
    ensures var rest := y - Restored(Code(y, scale), scale);
            if y > 0.0 then rest < scale / 2.0 else rest > -(scale / 2.0)
  {
    hide Round, Restored, Ratio, Prod;
    var x := Ratio(y, scale);
    var r := Round(x) as real;
    Unscale(y, scale);
    RatioWithin(y, scale);
    RoundNear(x);
    RestoredIs(Round(x), scale);
    Apart(x, r, scale);
    Swap(scale, r);
    ByConstant(scale);
    Negate(0.5, scale);
    Sign(x, scale);
    Sign(-x, scale);
    Negate(x, scale);
    if x >= 0.0 {
      ProdLess(x - r, 0.5, scale);
    } else {
      ProdLess(-0.5, x - r, scale);
    }
  }

  lemma NothingRestored()
    ensures Restored(0, 0.0) == 0.0
  {
  }

  // ----- distances

  function Dot(a: seq<real>, b: seq<real>): real
    requires |a| == |b|
  {
    if a == [] then 0.0 else Dot(a[..|a| - 1], b[..|b| - 1]) + a[|a| - 1] * b[|b| - 1]
  }

  function CodeDot(a: seq<int>, b: seq<int>): int
    requires |a| == |b|
  {
    if a == [] then 0 else CodeDot(a[..|a| - 1], b[..|b| - 1]) + a[|a| - 1] * b[|b| - 1]
  }

  datatype Metric = Cosine | DotProduct | L2

  /** The dot product of two quantized vectors. */
  function ScaledDot(q: Quantized, codes: seq<int>, scale: real): real
    requires |q.codes| == |codes|
  {
    q.scale * scale * CodeDot(q.codes, codes) as real
  }

  /** `distance_i8`. */
  function DistanceI8(metric: Metric, q: Quantized, codes: seq<int>, scale: real, normSq: real): real
    requires |q.codes| == |codes|
  {
    FromDot(metric, ScaledDot(q, codes, scale), q.normSq + normSq)
  }

  function FromDot(metric: Metric, dot: real, norms: real): real {
    match metric
    case Cosine => 1.0 - dot
    case DotProduct => -dot
    case L2 => if norms - 2.0 * dot > 0.0 then norms - 2.0 * dot else 0.0
  }

  /** The distance the codes approximate. */
  function Exact(metric: Metric, a: seq<real>, b: seq<real>): real
    requires |a| == |b|
  {
    match metric
    case Cosine => 1.0 - Dot(a, b)
    case DotProduct => -Dot(a, b)
    case L2 => SumSq(a) + SumSq(b) - 2.0 * Dot(a, b)
  }

  /** Vectors and codes, component by component within half a step. */
  ghost predicate Near(a: seq<real>, qa: seq<int>, scale: real) {
    |qa| == |a| && scale >= 0.0 && forall i :: 0 <= i < |a| ==> NearAt(a[i], qa[i], scale)
  }

  lemma ProductWithin(x: real, y: real, mx: real, my: real)
    requires -mx <= x <= mx && -my <= y <= my
    ensures -Prod(mx, my) <= Prod(x, y) <= Prod(mx, my)
  {
    hide Prod;
    var size := if y >= 0.0 then y else -y;
    ProdLe(x, mx, size);
    ProdLe(-mx, x, size);
    ProdLe(size, my, mx);
    Swap(mx, size);
    Swap(mx, my);
    Negate(mx, size);
    Negate(y, x);
    Swap(x, y);
    Swap(x, -y);
  }

  lemma RestoredBound(code: int, scale: real)
    requires -127 <= code <= 127 && scale >= 0.0
    ensures -(127.0 * scale) <= Restored(code, scale) <= 127.0 * scale
  {
    hide Prod, Restored;
    var c := code as real;
    ProdLe(c, 127.0, scale);
    ProdLe(-127.0, c, scale);
    ByConstant(scale);
    Negate(127.0, scale);
    Swap(scale, c);
    RestoredIs(code, scale);
  }

  lemma Split(x: real, u: real, y: real, w: real)
    ensures Prod(x, y) - Prod(u, w) == Prod(x, y - w) + Prod(w, x - u)
  {
    hide Prod;
    Apart(y, w, x);
    Apart(x, u, w);
    Swap(x, y - w);
    Swap(w, x - u);
    Swap(x, y);
    Swap(x, w);
  }

  lemma ProductsNear(x: real, u: real, y: real, w: real, sa: real, sb: real)
    requires -127.0 * sa <= x <= 127.0 * sa && -127.0 * sb <= w <= 127.0 * sb
    requires Within(x, u, sa / 2.0) && Within(y, w, sb / 2.0)
    ensures Within(Prod(x, y), Prod(u, w), 127.0 * Prod(sa, sb))
  {
    hide Prod;
    Split(x, u, y, w);
    ProductWithin(x, y - w, 127.0 * sa, sb / 2.0);
    ProductWithin(w, x - u, 127.0 * sb, sa / 2.0);
    ScaledPair(sa, sb);
    ScaledPair(sb, sa);
    Swap(sa, sb);
  }

  /** One product: at most 127 times both steps off. */
  lemma ProductNear(x: real, p: int, y: real, q: int, sa: real, sb: real)
    requires sa >= 0.0 && sb >= 0.0 && NearAt(x, p, sa) && NearAt(y, q, sb)
    ensures Within(x * y, Restored(p, sa) * Restored(q, sb), 127.0 * sa * sb)
  {
    var u, w := Restored(p, sa), Restored(q, sb);
    hide Restored;
    RestoredBound(q, sb);
    ProductsNear(x, u, y, w, sa, sb);
    Regroup(127.0, sa, sb);
  }

  /** The dot product of the restored components. */
  function RestoredDot(qa: seq<int>, qb: seq<int>, sa: real, sb: real): real
    requires |qa| == |qb|
  {
    if qa == [] then 0.0
    else RestoredDot(qa[..|qa| - 1], qb[..|qb| - 1], sa, sb) + Restored(qa[|qa| - 1], sa) * Restored(qb[|qb| - 1], sb)
  }

  lemma {:induction false} RestoredDotIs(qa: seq<int>, qb: seq<int>, sa: real, sb: real)
    requires |qa| == |qb|
    ensures RestoredDot(qa, qb, sa, sb) == sa * sb * CodeDot(qa, qb) as real
    decreases |qa|
  {
    if qa == [] {
      assert sa * sb * (0 as real) == 0.0;
    } else {
      var n := |qa| - 1;
      RestoredDotIs(qa[..n], qb[..n], sa, sb);
      OneMore(CodeDot(qa[..n], qb[..n]), qa[n], qb[n], sa, sb);
    }
  }

  lemma OneMore(c: int, p: int, q: int, sa: real, sb: real)
    ensures sa * sb * (c + p * q) as real == sa * sb * c as real + Restored(p, sa) * Restored(q, sb)
  {
    var x, y, z := p as real, q as real, c as real;
    AsReals(p, q);
    assert (c + p * q) as real == z + x * y;
    FourWays(sa, x, sb, y);
    Sum(sa * sb, z, x * y);
  }

  lemma AsReals(p: int, q: int)
    ensures (p * q) as real == p as real * q as real
  {
  }

  lemma FourWays(a: real, x: real, b: real, y: real)
    ensures (a * x) * (b * y) == a * b * (x * y)
  {
    Regroup(a, x, b * y);
    Regroup(x, b, y);
    assert x * b == b * x;
    Regroup(b, x, y);
    Regroup(a, b, x * y);
  }

  lemma Sum(k: real, x: real, y: real)
    ensures k * (x + y) == k * x + k * y
  {
  }

  /** The restored dot product is within `127·n·sa·sb` of the exact one. */
  lemma {:induction false} DotNear(a: seq<real>, b: seq<real>, qa: seq<int>, qb: seq<int>, sa: real, sb: real)
    requires |a| == |b| && Near(a, qa, sa) && Near(b, qb, sb)
    ensures Within(Dot(a, b), RestoredDot(qa, qb, sa, sb), |a| as real * (127.0 * sa * sb))
    decreases |a|
  {
    hide NearAt, Restored;
    if a != [] {
      var n := |a| - 1;
      NearInit(a, qa, sa);
      NearInit(b, qb, sb);
      DotNear(a[..n], b[..n], qa[..n], qb[..n], sa, sb);
      ProductNear(a[n], qa[n], b[n], qb[n], sa, sb);
      Times(n, 127.0 * sa * sb);
    }
  }

  lemma Times(n: nat, e: real)
    ensures (n + 1) as real * e == n as real * e + e
  {
  }

  lemma NearInit(a: seq<real>, qa: seq<int>, scale: real)
    requires Near(a, qa, scale) && a != []
    ensures Near(a[..|a| - 1], qa[..|a| - 1], scale) && NearAt(a[|a| - 1], qa[|a| - 1], scale)
  {
    hide NearAt;
  }

  lemma {:induction false} SquaresApart(a: seq<real>, b: seq<real>)
    requires |a| == |b|
    ensures SumSq(a) + SumSq(b) - 2.0 * Dot(a, b) >= 0.0
    decreases |a|
  {
    if a != [] {
      var n := |a| - 1;
      SquaresApart(a[..n], b[..n]);
      Square(a[n], b[n]);
    }
  }

  lemma Square(x: real, y: real)
    ensures x * x + y * y - 2.0 * (x * y) >= 0.0
  {
    SquareApart(x, y);
    NotNegative(x - y);
  }

  lemma SquareApart(x: real, y: real)
    ensures Prod(x - y, x - y) == x * x + y * y - 2.0 * (x * y)
  {
    Apart(x, y, x - y);
    Apart(x, y, x);
    Apart(x, y, y);
    Swap(x, x - y);
    Swap(y, x - y);
  }

  lemma NotNegative(d: real)
    ensures Prod(d, d) >= 0.0
  {
  }

  lemma QuantizeNear(v: seq<real>)
    ensures Near(v, Quantize(v).codes, Quantize(v).scale)
  {
    hide Quantize, NearAt;
    forall i | 0 <= i < |v|
      ensures NearAt(v[i], Quantize(v).codes[i], Quantize(v).scale)
    {
      CodeNear(v, i);
    }
  }

  /** How far approximate distances may be off. */
  function Bound(a: seq<real>, b: seq<real>): real {
    |a| as real * (MaxAbs(a) * MaxAbs(b) / 127.0)
  }

  lemma BoundIs(v: seq<real>, w: seq<real>)
    ensures Bound(v, w) == |v| as real * (127.0 * Quantize(v).scale * Quantize(w).scale)
  {
    hide SumSq, Code, MaxAbs;
    var sa, sb := Quantize(v).scale, Quantize(w).scale;
    Steps(sa, sb);
  }

  lemma Steps(sa: real, sb: real)
    ensures (127.0 * sa) * (127.0 * sb) / 127.0 == 127.0 * sa * sb
  {
    var p := sa * sb;
    assert (127.0 * sa) * (127.0 * sb) == 127.0 * 127.0 * p by { FourWays(127.0, sa, 127.0, sb); }
    Regroup(127.0, sa, sb);
  }

  lemma CodesNear(a: seq<real>, b: seq<real>)
    requires |a| == |b|
    ensures var qa, qb := Quantize(a), Quantize(b);
            Within(Dot(a, b), ScaledDot(qa, qb.codes, qb.scale), Bound(a, b))
  {
    hide Quantize, Dot, CodeDot, SumSq, Near, RestoredDot, Bound;
    var qa, qb := Quantize(a), Quantize(b);
    QuantizeNear(a);
    QuantizeNear(b);
    DotNear(a, b, qa.codes, qb.codes, qa.scale, qb.scale);
    RestoredDotIs(qa.codes, qb.codes, qa.scale, qb.scale);
    BoundIs(a, b);
  }

  /** Approximate distances: for cosine and dot product within
      `n·max|a|·max|b| / 127` of the exact one, and within twice that for the
      clamped L2. */
  lemma DistanceNear(metric: Metric, a: seq<real>, b: seq<real>)
    requires |a| == |b|
    ensures var qa, qb := Quantize(a), Quantize(b);
            Within(DistanceI8(metric, qa, qb.codes, qb.scale, qb.normSq), Exact(metric, a, b),
                   if metric.L2? then 2.0 * Bound(a, b) else Bound(a, b))
  {
    hide Quantize, Dot, ScaledDot, SumSq, Bound, FromDot;
    var qa, qb := Quantize(a), Quantize(b);
    CodesNear(a, b);
    SquaresApart(a, b);
    Carries(metric, Dot(a, b), ScaledDot(qa, qb.codes, qb.scale), SumSq(a) + SumSq(b), Bound(a, b));
  }

  /** A dot product that is close gives a distance that is close; clamping at
      zero only brings it closer to a distance that is not negative. */
  lemma Carries(metric: Metric, dot: real, near: real, norms: real, bound: real)
    requires Within(dot, near, bound) && norms - 2.0 * dot >= 0.0
    ensures Within(FromDot(metric, near, norms),
                   match metric { case Cosine => 1.0 - dot case DotProduct => -dot case L2 => norms - 2.0 * dot },
                   if metric.L2? then 2.0 * bound else bound)
  {
  }

  // ----- the loop on the codes

  function Ints(a: seq<i8>): (r: seq<int>)
    ensures |r| == |a|
  {
    seq(|a|, i requires 0 <= i < |a| => a[i] as int)
  }

  /** The code dot product of `i8` codes is what the laned loop computes. */
  lemma {:induction false} CodesAsI8(a: seq<i8>, b: seq<i8>, n: nat)
    requires n <= |a| == |b|
    ensures CodeDot(Ints(a[..n]), Ints(b[..n])) == DotTo(a, b, n)
  {
    if n > 0 {
      CodesAsI8(a, b, n - 1);
      assert Ints(a[..n])[..n - 1] == Ints(a[..n - 1]) && Ints(b[..n])[..n - 1] == Ints(b[..n - 1]);
    }
  }

  /** Every code of a quantized vector fits its byte. */
  lemma CodesFit(v: seq<real>)
    ensures forall i :: 0 <= i < |v| ==> -127 <= Quantize(v).codes[i] <= 127
  {
    hide Quantize;
    QuantizeNear(v);
  }

  method StoreCodes(codes: seq<int>) returns (stored: seq<i8>)
    requires forall i :: 0 <= i < |codes| ==> -127 <= codes[i] <= 127
    ensures Ints(stored) == codes
  {
    stored := [];
    for i := 0 to |codes|
      invariant Ints(stored) == codes[..i]
    {
      stored := stored + [codes[i] as i8];
    }
  }

  lemma FromSum(metric: Metric, qa: Quantized, qb: Quantized, sum: int)
    requires |qa.codes| == |qb.codes| && sum == CodeDot(qa.codes, qb.codes)
    ensures FromDot(metric, qa.scale * qb.scale * sum as real, qa.normSq + qb.normSq)
         == DistanceI8(metric, qa, qb.codes, qb.scale, qb.normSq)
  {
  }

  /** Quantize two vectors and compare their codes by the laned loop: the
      result is near the exact distance. */
  method ApproximateDistance(metric: Metric, a: seq<real>, b: seq<real>) returns (distance: real)
    requires |a| == |b| <= MAX_DIMS
    ensures Within(distance, Exact(metric, a, b), if metric.L2? then 2.0 * Bound(a, b) else Bound(a, b))
  {
    hide Quantize, FromDot, Bound, CodeDot, Exact, DotTo, Within;
    var qa, qb := Quantize(a), Quantize(b);
    CodesFit(a);
    CodesFit(b);
    var ca := StoreCodes(qa.codes);
    var cb := StoreCodes(qb.codes);
    var dot := DotI8(ca, cb);
    CodesAsI8(ca, cb, |a|);
    assert ca[..|a|] == ca && cb[..|a|] == cb;
    var sum := dot as int;
    assert sum == CodeDot(qa.codes, qb.codes);
    distance := FromDot(metric, qa.scale * qb.scale * sum as real, qa.normSq + qb.normSq);
    FromSum(metric, qa, qb, sum);
    DistanceNear(metric, a, b);
  }
}
