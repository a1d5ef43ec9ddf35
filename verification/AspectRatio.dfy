/**
 Image sizes under a locked aspect ratio `w:h`, in exact arithmetic: the limits that a ratio imposes, the size
 computed for a resolution, and edits of one side that drag the other along.
 */
module AspectRatio {
  import opened Ecma

  const MAX_DIMENSION: int := 6240

  /** `Math.round`. */
  function Round(x: real): int { (x + 0.5).Floor }

  /** A whole side, scaled. */
  function Scaled(k: int, q: real): int { Round(k as real * q) }

  datatype Size = Size(width: int, height: int)

  function MaxDimensions(w: real, h: real): Size
    requires w > 0.0 && h > 0.0
  {
    if w > h then
      var maxWidth := Scaled(MAX_DIMENSION, w / h);
      if maxWidth > MAX_DIMENSION then Size(MAX_DIMENSION, Scaled(MAX_DIMENSION, h / w))
      else Size(maxWidth, MAX_DIMENSION)
    else
      var maxHeight := Scaled(MAX_DIMENSION, h / w);
      if maxHeight > MAX_DIMENSION then Size(Scaled(MAX_DIMENSION, w / h), MAX_DIMENSION)
      else Size(MAX_DIMENSION, maxHeight)
  }

  function BaseSize(resolution: string): int {
    match resolution
    case "1K" => 1024
    case "2K" => 2048
    case "4K" => 4096
    case _ => 2048
  }

  function CalculateSize(w: real, h: real, resolution: string): Size
    requires w > 0.0 && h > 0.0
  {
    var base, max := BaseSize(resolution), MaxDimensions(w, h);
    if w > h then
      var width := Min(base, Min(max.width, Scaled(base, w / h)));
      Size(width, Scaled(width, h / w))
    else
      var height := Min(base, Min(max.height, Scaled(base, h / w)));
      Size(Scaled(height, w / h), height)
  }

  function Clamp(n: int, max: int): int { Max(1, Min(max, n)) }

  /** The height that a locked ratio derives from the width `k`. */
  function DerivedHeight(k: int, w: real, h: real): int
    requires w > 0.0 && h > 0.0
  {
    Clamp(Scaled(k, h / w), MaxDimensions(w, h).height)
  }

  function DerivedWidth(k: int, w: real, h: real): int
    requires w > 0.0 && h > 0.0
  {
    Clamp(Scaled(k, w / h), MaxDimensions(w, h).width)
  }

  /** The size after an edit of the width to `n`; the height follows if the ratio is locked. */
  function WidthEdited(s: Size, locked: bool, n: int, w: real, h: real): Size
    requires w > 0.0 && h > 0.0
  {
    var width := Clamp(n, MaxDimensions(w, h).width);
    Size(width, if locked then DerivedHeight(width, w, h) else s.height)
  }

  function HeightEdited(s: Size, locked: bool, n: int, w: real, h: real): Size
    requires w > 0.0 && h > 0.0
  {
    var height := Clamp(n, MaxDimensions(w, h).height);
    Size(if locked then DerivedWidth(height, w, h) else s.width, height)
  }

  // Rounding.

  lemma RoundIsNearest(x: real)
    ensures x - 0.5 < Round(x) as real <= x + 0.5
  {
  }

  lemma RoundIsMonotone(x: real, y: real)
    requires x <= y
    ensures Round(x) <= Round(y)
  {
  }

  /** A product under a name of its own. */
  function Prod(x: real, y: real): real { x * y }

  lemma Quotient(n: real, a: real, b: real)
    requires b > 0.0
    ensures Prod(n * (a / b), b) == Prod(n, a)
  {
    assert a / b * b == a;
  }

  lemma ProdOrder(x: real, y: real, b: real)
    requires b > 0.0
    ensures x <= y <==> Prod(x, b) <= Prod(y, b)
  {
  }

  lemma ProdHalf(x: real, b: real)
    ensures Prod(x + 0.5, b) == Prod(x, b) + b / 2.0 && Prod(x - 0.5, b) == Prod(x, b) - b / 2.0
    ensures Prod(0.5, b) == b / 2.0
  {
  }

  lemma RoundedProduct(x: real, b: real)
    requires b > 0.0
    ensures Prod(x, b) - b / 2.0 <= Prod(Round(x) as real, b) <= Prod(x, b) + b / 2.0
    ensures Prod(x, b) >= b / 2.0 <==> Round(x) >= 1
  {
    RoundIsNearest(x);
    ProdHalf(x, b);
    ProdOrder(Round(x) as real, x + 0.5, b);
    ProdOrder(x - 0.5, Round(x) as real, b);
    ProdOrder(0.5, x, b);
  }

  /** A side times a ratio term. */
  function Times(n: int, x: real): real { Prod(n as real, x) }

  /** Rounding `n` times `a / b` errs by at most half of `b` in the cross product, and gives 0 or less below one half. */
  lemma RoundedCrossProduct(n: int, a: real, b: real)
    requires a > 0.0 && b > 0.0
    ensures Times(n, a) - b / 2.0 <= Times(Scaled(n, a / b), b) <= Times(n, a) + b / 2.0
    ensures 2.0 * Times(n, a) >= b <==> Scaled(n, a / b) >= 1
  {
    var x := n as real * (a / b);
    assert Scaled(n, a / b) == Round(x);
    Quotient(n as real, a, b);
    RoundedProduct(x, b);
  }

  lemma TimesOrder(n: int, m: int, x: real)
    requires n <= m && x > 0.0
    ensures Times(n, x) <= Times(m, x)
  {
    ProdOrder(n as real, m as real, x);
  }

  lemma ProductOrder(n: real, m: real, q: real)
    requires n <= m && q >= 0.0
    ensures n * q <= m * q
  {
  }

  lemma QuotientOrder(a: real, b: real)
    requires 0.0 < a <= b
    ensures a / b <= 1.0 <= b / a
  {
  }

  lemma RoundScaled(n: int, m: int, q: real)
    requires n <= m && q >= 0.0
    ensures Round(n as real * q) <= Round(m as real * q)
  {
    ProductOrder(n as real, m as real, q);
    RoundIsMonotone(n as real * q, m as real * q);
  }

  lemma RoundWhole(n: int)
    ensures Round(n as real) == n
  {
  }

  /** The limits of a landscape ratio: full width, and the height that belongs to it or the full height. */
  lemma LandscapeLimits(w: real, h: real)
    requires 0.0 < h <= w
    ensures MaxDimensions(w, h).width == MAX_DIMENSION
    ensures Scaled(MAX_DIMENSION, h / w) <= MaxDimensions(w, h).height <= MAX_DIMENSION
    ensures MaxDimensions(w, h).height < MAX_DIMENSION ==> MaxDimensions(w, h).height == Scaled(MAX_DIMENSION, h / w)
  {
    var d := MAX_DIMENSION as real;
    QuotientOrder(h, w);
    ProductOrder(1.0, w / h, d);
    ProductOrder(h / w, 1.0, d);
    RoundIsMonotone(d, d * (w / h));
    RoundIsMonotone(d * (h / w), d);
    RoundWhole(MAX_DIMENSION);
  }

  lemma PortraitLimits(w: real, h: real)
    requires 0.0 < w <= h
    ensures MaxDimensions(w, h).height == MAX_DIMENSION
    ensures Scaled(MAX_DIMENSION, w / h) <= MaxDimensions(w, h).width <= MAX_DIMENSION
    ensures MaxDimensions(w, h).width < MAX_DIMENSION ==> MaxDimensions(w, h).width == Scaled(MAX_DIMENSION, w / h)
  {
    var d := MAX_DIMENSION as real;
    QuotientOrder(w, h);
    ProductOrder(1.0, h / w, d);
    ProductOrder(w / h, 1.0, d);
    RoundIsMonotone(d, d * (h / w));
    RoundIsMonotone(d * (w / h), d);
    RoundWhole(MAX_DIMENSION);
  }

  /** The longer side may be 6240, and the other what belongs to it by the ratio, or 6240 too. */
  lemma LimitsOfTheLonger(w: real, h: real)
    requires 0.0 < h <= w
    ensures MaxDimensions(w, h).width == 6240 == MaxDimensions(h, w).height
    ensures Scaled(6240, h / w) <= MaxDimensions(w, h).height <= 6240 && Scaled(6240, h / w) <= MaxDimensions(h, w).width <= 6240
    ensures MaxDimensions(w, h).height in {Scaled(6240, h / w), 6240} && MaxDimensions(h, w).width in {Scaled(6240, h / w), 6240}
  {
    LandscapeLimits(w, h);
    PortraitLimits(h, w);
  }

  function Longer(w: real, h: real): real { if w >= h then w else h }

  function Abs(x: real): real { if x >= 0.0 then x else -x }

  predicate Within(s: Size, max: Size) {
    1 <= s.width <= max.width && 1 <= s.height <= max.height
  }

  lemma BetweenProducts(limitB: real, rB: real, x: real, a: real, b: real)
    requires limitB <= rB <= x + b / 2.0 && x - limitB <= a / 2.0
    ensures Abs(limitB - x) <= Longer(a, b) / 2.0
  {
  }

  lemma CloseProduct(rB: real, x: real, a: real, b: real)
    requires x - b / 2.0 <= rB <= x + b / 2.0
    ensures Abs(rB - x) <= Longer(a, b) / 2.0
  {
  }

  lemma OneIsTooFar(x: real, a: real, b: real)
    requires a <= x && 2.0 * x < b
    ensures Abs(Times(1, b) - x) > Longer(a, b) / 2.0
  {
  }

  /** `r`, clamped, against the exact product `x` that it should have with `b`. */
  lemma ClampedSide(r: int, limit: int, x: real, a: real, b: real)
    requires a > 0.0 && b > 0.0 && limit >= 1 && x >= a
    requires x - b / 2.0 <= Times(r, b) <= x + b / 2.0 && (2.0 * x >= b <==> r >= 1)
    requires r > limit ==> x - Times(limit, b) <= a / 2.0
    ensures Abs(Times(Clamp(r, limit), b) - x) <= Longer(a, b) / 2.0 <==> 2.0 * x >= b
  {
    if r > limit {
      assert Clamp(r, limit) == limit;
      TimesOrder(limit, r, b);
      BetweenProducts(Times(limit, b), Times(r, b), x, a, b);
    } else if r < 1 {
      assert Clamp(r, limit) == 1;
      OneIsTooFar(x, a, b);
    } else {
      assert Clamp(r, limit) == r;
      CloseProduct(Times(r, b), x, a, b);
    }
  }

  /**
   `derived` is as close to `n` times `a / b` as half of the longer ratio term allows exactly if that product does not
   round to 0; and if it does, `derived` is 1.
   */
  ghost predicate KeepsRatio(n: int, derived: int, a: real, b: real) {
    && (Abs(Times(derived, b) - Times(n, a)) <= Longer(a, b) / 2.0 <==> 2.0 * Times(n, a) >= b)
    && (2.0 * Times(n, a) < b ==> derived == 1)
  }

  /** The derived side `r` of `n`, after clamping, with its ratio as a cross product. */
  lemma DerivedSide(n: int, r: int, limit: int, a: real, b: real)
    requires a > 0.0 && b > 0.0 && n >= 1 && limit >= 1 && r == Scaled(n, a / b)
    requires r > limit ==> Times(n, a) - Times(limit, b) <= a / 2.0
    ensures KeepsRatio(n, Clamp(r, limit), a, b)
  {
    RoundedCrossProduct(n, a, b);
    TimesOrder(1, n, a);
    ClampedSide(r, limit, Times(n, a), a, b);
  }

  /** Where the side derived from `n` exceeds its limit, the limit is close enough. */
  lemma PortraitHeightFits(n: int, w: real, h: real)
    requires 0.0 < w <= h && 1 <= n <= MaxDimensions(w, h).width
    requires Scaled(n, h / w) > MaxDimensions(w, h).height
    ensures Times(n, h) - Times(MAX_DIMENSION, w) <= h / 2.0
  {
    PortraitLimits(w, h);
    RoundScaled(n, MaxDimensions(w, h).width, h / w);
    var m := Scaled(MAX_DIMENSION, w / h);
    assert n <= m;
    RoundedCrossProduct(MAX_DIMENSION, w, h);
    TimesOrder(n, m, h);
  }

  lemma LandscapeWidthFits(n: int, w: real, h: real)
    requires 0.0 < h <= w && 1 <= n <= MaxDimensions(w, h).height
    requires Scaled(n, w / h) > MaxDimensions(w, h).width
    ensures Times(n, w) - Times(MAX_DIMENSION, h) <= w / 2.0
  {
    LandscapeLimits(w, h);
    RoundScaled(n, MaxDimensions(w, h).height, w / h);
    var m := Scaled(MAX_DIMENSION, h / w);
    assert n <= m;
    RoundedCrossProduct(MAX_DIMENSION, h, w);
    TimesOrder(n, m, w);
  }

  /** A locked edit of the width leaves a height that keeps the ratio. */
  lemma HeightKeepsRatio(k: int, w: real, h: real)
    requires w > 0.0 && h > 0.0 && 1 <= k <= MaxDimensions(w, h).width && 1 <= MaxDimensions(w, h).height
    ensures KeepsRatio(k, DerivedHeight(k, w, h), h, w)
  {
    var r := Scaled(k, h / w);
    if w <= h {
      PortraitLimits(w, h);
      if r > MAX_DIMENSION { PortraitHeightFits(k, w, h); }
    } else {
      LandscapeLimits(w, h);
      RoundScaled(k, MAX_DIMENSION, h / w);
    }
    DerivedSide(k, r, MaxDimensions(w, h).height, h, w);
  }

  /** A locked edit of the height leaves a width that keeps the ratio. */
  lemma WidthKeepsRatio(k: int, w: real, h: real)
    requires w > 0.0 && h > 0.0 && 1 <= k <= MaxDimensions(w, h).height && 1 <= MaxDimensions(w, h).width
    ensures KeepsRatio(k, DerivedWidth(k, w, h), w, h)
  {
    var r := Scaled(k, w / h);
    if h <= w {
      LandscapeLimits(w, h);
      if r > MAX_DIMENSION { LandscapeWidthFits(k, w, h); }
    } else {
      PortraitLimits(w, h);
      RoundScaled(k, MAX_DIMENSION, w / h);
    }
    DerivedSide(k, r, MaxDimensions(w, h).width, w, h);
  }

  lemma RoundAtLeast(n: int, q: real)
    requires n >= 0 && q >= 1.0
    ensures Round(n as real * q) >= n
  {
    ProductOrder(1.0, q, n as real);
    RoundIsMonotone(n as real, n as real * q);
    RoundWhole(n);
  }

  /** The three-way minimum of a calculated landscape size always yields the base size. */
  lemma CalculatedLandscape(w: real, h: real, resolution: string)
    requires 0.0 < h < w
    ensures var base := if resolution == "1K" then 1024 else if resolution == "4K" then 4096 else 2048;
            CalculateSize(w, h, resolution) == Size(base, Scaled(base, h / w))
  {
    LandscapeLimits(w, h);
    QuotientOrder(h, w);
    RoundAtLeast(BaseSize(resolution), w / h);
  }

  lemma CalculatedPortrait(w: real, h: real, resolution: string)
    requires 0.0 < w <= h
    ensures var base := if resolution == "1K" then 1024 else if resolution == "4K" then 4096 else 2048;
            CalculateSize(w, h, resolution) == Size(Scaled(base, w / h), base)
  {
    PortraitLimits(w, h);
    QuotientOrder(w, h);
    RoundAtLeast(BaseSize(resolution), h / w);
  }

  // The hook itself, whose ratio may be any two numbers.

  /** A JavaScript number, exact and without the sign of zero. */
  datatype Num = Fin(x: real) | PosInf | NegInf | NaN

  function Whole(n: int): Num { Fin(n as real) }

  predicate Greater(a: Num, b: Num) {
    match (a, b)
    case (Fin(x), Fin(y)) => x > y
    case (PosInf, Fin(_)) => true
    case (PosInf, NegInf) => true
    case (Fin(_), NegInf) => true
    case _ => false
  }

  function Infinite(positive: bool): Num { if positive then PosInf else NegInf }

  function Over(a: Num, b: Num): Num {
    match (a, b)
    case (Fin(x), Fin(y)) => if y != 0.0 then Fin(x / y) else if x == 0.0 then NaN else Infinite(x > 0.0)
    case (PosInf, Fin(y)) => Infinite(y >= 0.0)
    case (NegInf, Fin(y)) => Infinite(y < 0.0)
    case (Fin(_), PosInf) => Fin(0.0)
    case (Fin(_), NegInf) => Fin(0.0)
    case _ => NaN
  }

  function Sign(a: Num): int {
    match a
    case Fin(x) => if x > 0.0 then 1 else if x < 0.0 then -1 else 0
    case PosInf => 1
    case NegInf => -1
    case NaN => 0
  }

  function Product(a: Num, b: Num): Num {
    if a.Fin? && b.Fin? then Fin(a.x * b.x)
    else if Sign(a) == 0 || Sign(b) == 0 then NaN
    else Infinite(Sign(a) == Sign(b))
  }

  function Rounded(a: Num): Num {
    if a.Fin? then Whole(Round(a.x)) else a
  }

  /** `Math.min` and `Math.max`: NaN if one of them is. */
  function Least(a: Num, b: Num): Num {
    if a == NaN || b == NaN then NaN else if Greater(a, b) then b else a
  }

  function Greatest(a: Num, b: Num): Num {
    if a == NaN || b == NaN then NaN else if Greater(b, a) then b else a
  }

  /** A part of the ratio's text that is missing counts as 0, one that is no number as NaN. */
  function Part(ratio: seq<Num>, k: nat): Num {
    if k < |ratio| then ratio[k] else Fin(0.0)
  }

  datatype Sides = Sides(width: Num, height: Num)

  function SidesOf(s: Size): Sides { Sides(Whole(s.width), Whole(s.height)) }

  function GetMaxDimensions(w: Num, h: Num): Sides {
    var max := Whole(MAX_DIMENSION);
    if Greater(w, h) then
      var maxWidth := Rounded(Product(max, Over(w, h)));
      if Greater(maxWidth, max) then Sides(max, Rounded(Product(max, Over(h, w)))) else Sides(maxWidth, max)
    else
      var maxHeight := Rounded(Product(max, Over(h, w)));
      if Greater(maxHeight, max) then Sides(Rounded(Product(max, Over(w, h))), max) else Sides(max, maxHeight)
  }

  /** The least of the three candidates for the leading side, and the other side that follows from it. */
  function LeadAndOther(base: Num, max: Num, q: Num, r: Num): (Num, Num) {
    var lead := Least(Least(base, max), Rounded(Product(base, q)));
    (lead, Rounded(Product(lead, r)))
  }

  function CalculatedSides(w: Num, h: Num, resolution: string): Sides {
    var base, max := Whole(BaseSize(resolution)), GetMaxDimensions(w, h);
    if Greater(w, h) then
      var (width, height) := LeadAndOther(base, max.width, Over(w, h), Over(h, w));
      Sides(width, height)
    else
      var (height, width) := LeadAndOther(base, max.height, Over(h, w), Over(w, h));
      Sides(width, height)
  }

  function Clamped(n: Num, max: Num): Num { Greatest(Whole(1), Least(max, n)) }

  function Derived(side: Num, q: Num, max: Num): Num {
    Clamped(Rounded(Product(side, q)), max)
  }

  /** The sides after an edit of the width to `n`. */
  function WidthSet(s: Sides, locked: bool, n: int, w: Num, h: Num): Sides {
    var max := GetMaxDimensions(w, h);
    var width := Clamped(Whole(n), max.width);
    Sides(width, if locked then Derived(width, Over(h, w), max.height) else s.height)
  }

  function HeightSet(s: Sides, locked: bool, n: int, w: Num, h: Num): Sides {
    var max := GetMaxDimensions(w, h);
    var height := Clamped(Whole(n), max.height);
    Sides(if locked then Derived(height, Over(w, h), max.width) else s.width, height)
  }

  class SizeHook {
    var width: Num
    var height: Num
    var ratioLocked: bool

    constructor (ratio: seq<Num>, resolution: string, locked: bool)
      ensures Sides(width, height) == CalculatedSides(Part(ratio, 0), Part(ratio, 1), resolution) && ratioLocked == locked
    {
      var size := CalculatedSides(Part(ratio, 0), Part(ratio, 1), resolution);
      width, height, ratioLocked := size.width, size.height, locked;
    }

    /** `value` is the parsed input, `None` where it is no number; `ratio` holds the numbers between its colons. */
    method HandleWidthChange(value: Option<int>, ratio: seq<Num>)
      modifies this`width, this`height
      ensures Sides(width, height) ==
        if value.None? then old(Sides(width, height))
        else WidthSet(old(Sides(width, height)), ratioLocked, value.value, Part(ratio, 0), Part(ratio, 1))
    {
      if value.None? { return; }
      var w, h := Part(ratio, 0), Part(ratio, 1);
      var max := GetMaxDimensions(w, h);
      var clampedValue := Greatest(Whole(1), Least(max.width, Whole(value.value)));
      width := clampedValue;
      if ratioLocked {
        var newHeight := Rounded(Product(clampedValue, Over(h, w)));
        height := Greatest(Whole(1), Least(max.height, newHeight));
      }
    }

    method HandleHeightChange(value: Option<int>, ratio: seq<Num>)
      modifies this`width, this`height
      ensures Sides(width, height) ==
        if value.None? then old(Sides(width, height))
        else HeightSet(old(Sides(width, height)), ratioLocked, value.value, Part(ratio, 0), Part(ratio, 1))
    {
      if value.None? { return; }
      var w, h := Part(ratio, 0), Part(ratio, 1);
      var max := GetMaxDimensions(w, h);
      var clampedValue := Greatest(Whole(1), Least(max.height, Whole(value.value)));
      height := clampedValue;
      if ratioLocked {
        var newWidth := Rounded(Product(clampedValue, Over(w, h)));
        width := Greatest(Whole(1), Least(max.width, newWidth));
      }
    }
  }

  /** A side that can be shown: a number, and at least 1. */
  predicate IsSide(a: Num) {
    a.Fin? && a.x >= 1.0
  }

  lemma ClampedIsSideIff(n: Num, max: Num)
    requires n != PosInf || max != PosInf
    ensures IsSide(Clamped(n, max)) <==> n != NaN && max != NaN
  {
  }

  /** The parts of the ratio make no quotient: one of them is no number, or both are zero, or both infinite. */
  predicate Degenerate(w: Num, h: Num) {
    w == NaN || h == NaN || (w == Fin(0.0) && h == Fin(0.0)) || (!w.Fin? && !h.Fin?)
  }

  lemma DegenerateQuotients(w: Num, h: Num)
    ensures Over(w, h) == NaN <==> Degenerate(w, h)
    ensures Over(h, w) == NaN <==> Degenerate(w, h)
  {
  }

  /** A quotient above 1 is the inverse of one that is finite. */
  lemma FiniteInverse(w: Num, h: Num)
    requires Greater(Over(w, h), Fin(0.0))
    ensures Over(h, w).Fin?
  {
  }

  /** A multiple of the largest dimension. */
  function LimitOf(q: Num): Num {
    Rounded(Product(Whole(MAX_DIMENSION), q))
  }

  lemma LimitTells(q: Num)
    ensures LimitOf(q) == NaN <==> q == NaN
    ensures LimitOf(q) == PosInf <==> q == PosInf
    ensures q.Fin? ==> LimitOf(q).Fin?
    ensures Greater(LimitOf(q), Whole(MAX_DIMENSION)) ==> Greater(q, Fin(0.0))
  {
    if q.Fin? && q.x <= 0.0 {
      assert 6240.0 * q.x <= 0.0;
    }
  }

  lemma LimitsTell(w: Num, h: Num)
    ensures var max := GetMaxDimensions(w, h);
            && max.width != PosInf && max.height != PosInf
            && (max.width == NaN || max.height == NaN <==> Degenerate(w, h))
  {
    DegenerateQuotients(w, h);
    LimitTells(Over(w, h));
    LimitTells(Over(h, w));
    if Greater(LimitOf(Over(w, h)), Whole(MAX_DIMENSION)) { FiniteInverse(w, h); }
    if Greater(LimitOf(Over(h, w)), Whole(MAX_DIMENSION)) { FiniteInverse(h, w); }
  }

  lemma DerivedIsNumber(side: Num, q: Num)
    requires IsSide(side) && q != NaN
    ensures Rounded(Product(side, q)) != NaN
  {
  }

  /**
   After a locked edit both sides can be shown if and only if the ratio is not degenerate, whatever else it is: zero,
   negative or infinite on one side.
   */
  lemma EditLeavesSidesIff(s: Sides, n: int, w: Num, h: Num)
    ensures var t := WidthSet(s, true, n, w, h); IsSide(t.width) && IsSide(t.height) <==> !Degenerate(w, h)
    ensures var t := HeightSet(s, true, n, w, h); IsSide(t.width) && IsSide(t.height) <==> !Degenerate(w, h)
  {
    var max := GetMaxDimensions(w, h);
    LimitsTell(w, h);
    DegenerateQuotients(w, h);
    var width, height := Clamped(Whole(n), max.width), Clamped(Whole(n), max.height);
    ClampedIsSideIff(Whole(n), max.width);
    ClampedIsSideIff(Whole(n), max.height);
    ClampedIsSideIff(Rounded(Product(width, Over(h, w))), max.height);
    ClampedIsSideIff(Rounded(Product(height, Over(w, h))), max.width);
    if !Degenerate(w, h) {
      DerivedIsNumber(width, Over(h, w));
      DerivedIsNumber(height, Over(w, h));
    }
  }

  // On positive ratios the hook computes with whole sides.

  lemma ClampedWhole(n: int, max: int)
    ensures Clamped(Whole(n), Whole(max)) == Whole(Clamp(n, max))
  {
  }

  lemma PositiveLimits(w: real, h: real)
    requires w > 0.0 && h > 0.0
    ensures GetMaxDimensions(Fin(w), Fin(h)) == SidesOf(MaxDimensions(w, h))
  {
    assert LimitOf(Fin(w / h)) == Whole(Scaled(MAX_DIMENSION, w / h));
    assert LimitOf(Fin(h / w)) == Whole(Scaled(MAX_DIMENSION, h / w));
  }

  lemma LeastWhole(a: int, b: int)
    ensures Least(Whole(a), Whole(b)) == Whole(Min(a, b))
  {
  }

  lemma RoundedFin(x: real)
    ensures Rounded(Fin(x)) == Whole(Round(x))
  {
  }

  lemma SideTimes(k: int, q: real)
    ensures Rounded(Product(Whole(k), Fin(q))) == Whole(Scaled(k, q))
  {
    var x := k as real * q;
    assert Product(Whole(k), Fin(q)) == Fin(x);
    RoundedFin(x);
  }

  lemma LeadWhole(base: int, max: int, q: real, r: real)
    ensures var lead := Min(base, Min(max, Scaled(base, q)));
            LeadAndOther(Whole(base), Whole(max), Fin(q), Fin(r)) == (Whole(lead), Whole(Scaled(lead, r)))
  {
    var third := Scaled(base, q);
    SideTimes(base, q);
    LeastWhole(base, max);
    LeastWhole(Min(base, max), third);
    SideTimes(Min(base, Min(max, third)), r);
  }

  lemma PositiveQuotient(w: real, h: real)
    requires h > 0.0
    ensures Over(Fin(w), Fin(h)) == Fin(w / h)
  {
  }

  /** On positive ratios the hook starts with the calculated whole sides. */
  lemma PositiveSides(w: real, h: real, resolution: string)
    requires w > 0.0 && h > 0.0
    ensures CalculatedSides(Fin(w), Fin(h), resolution) == SidesOf(CalculateSize(w, h, resolution))
  {
    PositiveLimits(w, h);
    PositiveQuotient(w, h);
    PositiveQuotient(h, w);
    SidesFromQuotients(w, h, w / h, h / w, resolution);
  }

  lemma SidesFromQuotients(w: real, h: real, q: real, r: real, resolution: string)
    requires w > 0.0 && h > 0.0 && q == w / h && r == h / w
    requires GetMaxDimensions(Fin(w), Fin(h)) == SidesOf(MaxDimensions(w, h))
    requires Over(Fin(w), Fin(h)) == Fin(q) && Over(Fin(h), Fin(w)) == Fin(r)
    ensures CalculatedSides(Fin(w), Fin(h), resolution) == SidesOf(CalculateSize(w, h, resolution))
  {
    var base, max := BaseSize(resolution), MaxDimensions(w, h);
    if w > h {
      LeadWhole(base, max.width, q, r);
    } else {
      LeadWhole(base, max.height, r, q);
    }
  }

  lemma DerivedWhole(side: int, q: real, max: int)
    ensures Derived(Whole(side), Fin(q), Whole(max)) == Whole(Clamp(Scaled(side, q), max))
  {
    SideTimes(side, q);
    ClampedWhole(Scaled(side, q), max);
  }

  lemma PositiveWidth(s: Size, locked: bool, n: int, w: real, h: real)
    requires w > 0.0 && h > 0.0
    ensures WidthSet(SidesOf(s), locked, n, Fin(w), Fin(h)) == SidesOf(WidthEdited(s, locked, n, w, h))
  {
    var max := MaxDimensions(w, h);
    PositiveLimits(w, h);
    PositiveQuotient(h, w);
    ClampedWhole(n, max.width);
    DerivedWhole(Clamp(n, max.width), h / w, max.height);
  }

  lemma PositiveHeight(s: Size, locked: bool, n: int, w: real, h: real)
    requires w > 0.0 && h > 0.0
    ensures HeightSet(SidesOf(s), locked, n, Fin(w), Fin(h)) == SidesOf(HeightEdited(s, locked, n, w, h))
  {
    var max := MaxDimensions(w, h);
    PositiveLimits(w, h);
    PositiveQuotient(w, h);
    ClampedWhole(n, max.height);
    DerivedWhole(Clamp(n, max.height), w / h, max.width);
  }

  /** And every edit of whole sides gives whole sides again. */
  lemma PositiveEdits(s: Size, locked: bool, n: int, w: real, h: real)
    requires w > 0.0 && h > 0.0
    ensures WidthSet(SidesOf(s), locked, n, Fin(w), Fin(h)) == SidesOf(WidthEdited(s, locked, n, w, h))
    ensures HeightSet(SidesOf(s), locked, n, Fin(w), Fin(h)) == SidesOf(HeightEdited(s, locked, n, w, h))
  {
    PositiveWidth(s, locked, n, w, h);
    PositiveHeight(s, locked, n, w, h);
  }

  // The range of locked edits.

  predicate AtMostSide(a: Num, b: Num) {
    a.Fin? && b.Fin? && a.x <= b.x
  }

  /** Both sides lie between 1 and their limits. */
  predicate SidesWithin(t: Sides, max: Sides) {
    && AtMostSide(Whole(1), t.width) && AtMostSide(t.width, max.width)
    && AtMostSide(Whole(1), t.height) && AtMostSide(t.height, max.height)
  }

  /** The quotient is a number between 1 / 12480 and 12480. */
  predicate InRange(q: Num) {
    q.Fin? && 1.0 <= 12480.0 * q.x && q.x <= 12480.0
  }

  lemma ClampedWithin(n: Num, max: Num)
    ensures n != NaN && IsSide(max) ==> AtMostSide(Whole(1), Clamped(n, max)) && AtMostSide(Clamped(n, max), max)
    ensures AtMostSide(Whole(1), Clamped(n, max)) && AtMostSide(Clamped(n, max), max) ==> IsSide(max)
  {
  }

  /** A limit is at least 1 exactly from half a pixel on. */
  lemma LimitIsSideIff(q: Num)
    ensures IsSide(LimitOf(q)) <==> q.Fin? && 1.0 <= 12480.0 * q.x
  {
    if q.Fin? { assert LimitOf(q) == Whole(Round(6240.0 * q.x)); }
  }

  lemma SmallLimit(q: Num)
    requires q.Fin? && !Greater(LimitOf(q), Whole(MAX_DIMENSION))
    ensures q.x <= 12480.0
  {
    assert LimitOf(q) == Whole(Round(6240.0 * q.x));
  }

  lemma LargeLimit(q: Num)
    requires q.Fin? && Greater(LimitOf(q), Whole(MAX_DIMENSION))
    ensures 1.0 <= 12480.0 * q.x
  {
    assert LimitOf(q) == Whole(Round(6240.0 * q.x));
  }

  lemma SignOfFactor(x: real, y: real)
    requires x > 0.0
    ensures y <= 0.0 ==> x * y <= 0.0
  {
  }

  lemma InverseBounds(x: real, y: real)
    requires x * y == 1.0 && x > 0.0
    ensures y > 0.0 && (1.0 <= 12480.0 * y <==> x <= 12480.0)
  {
    SignOfFactor(x, y);
    if x <= 12480.0 { ProductOrder(x, 12480.0, y); }
    if x > 12480.0 {
      var d := x - 12480.0;
      assert d * y > 0.0;
      assert x * y == d * y + 12480.0 * y;
    }
  }

  lemma QuotientTimesInverse(w: real, h: real)
    requires w != 0.0 && h != 0.0
    ensures (w / h) * (h / w) == 1.0
  {
    var q, r := w / h, h / w;
    assert Prod(q, h) == w && Prod(r, w) == h;
    ProdAssoc(q, r, w);
    ProdCancel(Prod(q, r), 1.0, w);
  }

  lemma ProdAssoc(x: real, y: real, z: real)
    ensures Prod(Prod(x, y), z) == Prod(x, Prod(y, z))
  {
  }

  lemma ProdCancel(x: real, y: real, z: real)
    requires z != 0.0 && Prod(x, z) == Prod(y, z)
    ensures x == y
  {
    assert (x - y) * z == 0.0;
  }

  /** The other quotient of a positive one. */
  lemma InverseOver(w: Num, h: Num)
    requires Over(w, h).Fin? && Over(w, h).x > 0.0
    ensures Over(h, w).Fin? && Over(h, w).x > 0.0 && (1.0 <= 12480.0 * Over(h, w).x <==> Over(w, h).x <= 12480.0)
  {
    assert w.Fin? && h.Fin? && w.x != 0.0;
    QuotientTimesInverse(w.x, h.x);
    InverseBounds(w.x / h.x, h.x / w.x);
  }

  lemma InverseInRange(w: Num, h: Num)
    requires InRange(Over(w, h))
    ensures InRange(Over(h, w))
  {
    InverseOver(w, h);
    InverseOver(h, w);
  }

  /** A quotient, its limit and that of its inverse. */
  lemma LeadingLimits(w: Num, h: Num)
    ensures InRange(Over(w, h)) <==>
      if Greater(LimitOf(Over(w, h)), Whole(MAX_DIMENSION)) then IsSide(LimitOf(Over(h, w))) else IsSide(LimitOf(Over(w, h)))
  {
    var q := Over(w, h);
    LimitIsSideIff(q);
    LimitIsSideIff(Over(h, w));
    if Greater(LimitOf(q), Whole(MAX_DIMENSION)) {
      LimitTells(q);
      if q.Fin? {
        LargeLimit(q);
        InverseOver(w, h);
      } else {
        InfiniteOver(w, h);
      }
    } else if q.Fin? {
      SmallLimit(q);
    }
  }

  lemma InfiniteOver(w: Num, h: Num)
    requires Over(w, h) == PosInf
    ensures Over(h, w) == Fin(0.0)
  {
  }

  lemma LimitsAreSidesIff(w: Num, h: Num)
    ensures var max := GetMaxDimensions(w, h);
            IsSide(max.width) && IsSide(max.height) <==> InRange(Over(w, h))
  {
    LeadingLimits(w, h);
    LeadingLimits(h, w);
    if InRange(Over(w, h)) { InverseInRange(w, h); }
    if InRange(Over(h, w)) { InverseInRange(h, w); }
  }

  /**
   Whatever the parts of the ratio, a locked edit leaves both sides between 1 and their limits if and only if the
   quotient of the parts lies between 1 / 12480 and 12480.
   */
  lemma LockedEditsWithinIff(s: Sides, n: int, w: Num, h: Num)
    ensures SidesWithin(WidthSet(s, true, n, w, h), GetMaxDimensions(w, h)) <==> InRange(Over(w, h))
    ensures SidesWithin(HeightSet(s, true, n, w, h), GetMaxDimensions(w, h)) <==> InRange(Over(w, h))
  {
    var max := GetMaxDimensions(w, h);
    var width, height := Clamped(Whole(n), max.width), Clamped(Whole(n), max.height);
    LimitsAreSidesIff(w, h);
    ClampedWithin(Whole(n), max.width);
    ClampedWithin(Whole(n), max.height);
    ClampedWithin(Rounded(Product(width, Over(h, w))), max.height);
    ClampedWithin(Rounded(Product(height, Over(w, h))), max.width);
    if InRange(Over(w, h)) {
      InverseInRange(w, h);
      DerivedIsNumber(width, Over(h, w));
      DerivedIsNumber(height, Over(w, h));
    }
  }

  /** The ratio "16", whose missing part counts as 0, limits the height to 0, and an edit leaves it at 1. */
  lemma MissingPartLeavesRange(s: Sides)
    ensures GetMaxDimensions(Part([Fin(16.0)], 0), Part([Fin(16.0)], 1)) == Sides(Whole(MAX_DIMENSION), Whole(0))
    ensures WidthSet(s, true, 100, Part([Fin(16.0)], 0), Part([Fin(16.0)], 1)) == Sides(Whole(100), Whole(1))
  {
    assert Part([Fin(16.0)], 0) == Fin(16.0) && Part([Fin(16.0)], 1) == Fin(0.0);
    assert Over(Fin(16.0), Fin(0.0)) == PosInf && Over(Fin(0.0), Fin(16.0)) == Fin(0.0);
    RoundWhole(0);
  }

  lemma PositiveInRange(w: real, h: real)
    requires w > 0.0 && h > 0.0
    ensures InRange(Over(Fin(w), Fin(h))) <==> w <= 12480.0 * h && h <= 12480.0 * w
  {
    var q := w / h;
    assert q * h == w;
    ProdOrder(q, 12480.0, h);
    ProdOrder(1.0, 12480.0 * q, h);
    assert Prod(q, h) == w && Prod(12480.0, h) == 12480.0 * h && Prod(1.0, h) == h && Prod(12480.0 * q, h) == 12480.0 * w;
  }

  lemma WithinAsSides(s: Size, max: Size)
    ensures SidesWithin(SidesOf(s), SidesOf(max)) <==> Within(s, max)
  {
  }

  /** On positive ratios this means a ratio of at most 12480 to 1 either way. */
  lemma LimitsArePositive(w: real, h: real)
    requires w > 0.0 && h > 0.0
    ensures 1 <= MaxDimensions(w, h).width && 1 <= MaxDimensions(w, h).height <==> w <= 12480.0 * h && h <= 12480.0 * w
  {
    PositiveLimits(w, h);
    PositiveInRange(w, h);
    LimitsAreSidesIff(Fin(w), Fin(h));
  }

  lemma EditsStayWithin(s: Size, n: int, w: real, h: real)
    requires w > 0.0 && h > 0.0
    ensures Within(WidthEdited(s, true, n, w, h), MaxDimensions(w, h)) <==> w <= 12480.0 * h && h <= 12480.0 * w
    ensures Within(HeightEdited(s, true, n, w, h), MaxDimensions(w, h)) <==> w <= 12480.0 * h && h <= 12480.0 * w
  {
    PositiveEdits(s, true, n, w, h);
    PositiveLimits(w, h);
    PositiveInRange(w, h);
    LockedEditsWithinIff(SidesOf(s), n, Fin(w), Fin(h));
    WithinAsSides(WidthEdited(s, true, n, w, h), MaxDimensions(w, h));
    WithinAsSides(HeightEdited(s, true, n, w, h), MaxDimensions(w, h));
  }

  // Edits without a lock, and edits within the limits.

  /** Unlocked edits leave the other side alone, so edits of the two sides commute, and of two edits of one side the last counts. */
  lemma UnlockedEditsAreApart(s: Sides, n: int, m: int, w: Num, h: Num)
    ensures WidthSet(s, false, n, w, h).height == s.height && HeightSet(s, false, n, w, h).width == s.width
    ensures HeightSet(WidthSet(s, false, n, w, h), false, m, w, h) == WidthSet(HeightSet(s, false, m, w, h), false, n, w, h)
    ensures WidthSet(WidthSet(s, false, n, w, h), false, m, w, h) == WidthSet(s, false, m, w, h)
    ensures HeightSet(HeightSet(s, false, n, w, h), false, m, w, h) == HeightSet(s, false, m, w, h)
  {
  }

  /** Locked or not, an edited side is the number that was entered if it lies between 1 and the limit, and else the nearer of the two. */
  lemma EditedSideIsNearest(s: Sides, locked: bool, n: int, w: Num, h: Num)
    ensures var max, width := GetMaxDimensions(w, h).width, WidthSet(s, locked, n, w, h).width;
            max.Fin? && max.x >= 1.0 ==>
              width == if n < 1 then Fin(1.0) else if n as real <= max.x then Fin(n as real) else max
    ensures var max, height := GetMaxDimensions(w, h).height, HeightSet(s, locked, n, w, h).height;
            max.Fin? && max.x >= 1.0 ==>
              height == if n < 1 then Fin(1.0) else if n as real <= max.x then Fin(n as real) else max
  {
  }

  /** The sign of a quotient, also where a part is zero or infinite, and its value where neither is. */
  lemma QuotientLaws(a: Num, b: Num)
    ensures a.Fin? && b.Fin? && b.x != 0.0 ==> Over(a, b).Fin? && Over(a, b).x * b.x == a.x
    ensures (a == PosInf || a == NegInf) && b.Fin? ==> Over(a, b) == if b.x < 0.0 then Opposite(a) else a
    ensures a.Fin? && a.x != 0.0 && b == Fin(0.0) ==> Over(a, b) == if a.x > 0.0 then PosInf else NegInf
    ensures a.Fin? && (b == PosInf || b == NegInf) ==> Over(a, b) == Fin(0.0)
  {
  }

  function Opposite(a: Num): Num {
    match a
    case Fin(x) => Fin(-x)
    case PosInf => NegInf
    case NegInf => PosInf
    case NaN => NaN
  }

  /** An infinite or a vanishing ratio leaves the full length for one side and nothing for the other. */
  lemma ExtremeLimits(x: real)
    requires x > 0.0
    ensures GetMaxDimensions(PosInf, Fin(x)) == GetMaxDimensions(Fin(x), Fin(0.0)) == Sides(Whole(6240), Whole(0))
    ensures GetMaxDimensions(Fin(x), PosInf) == GetMaxDimensions(Fin(0.0), Fin(x)) == Sides(Whole(0), Whole(6240))
  {
    RoundWhole(0);
  }
}
