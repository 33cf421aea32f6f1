/** The numeric side of the Python binding: the fill value, the min/max
    rescaling of an input array, the clamped linear map, and the per-pixel
    loop of the ramp and cyclic wrappers. A double is a real number or a NaN
    with its sign bit; IEEE comparisons with a NaN are false, and arithmetic
    with a NaN gives a NaN. */
module Scaling {
  import opened Vector
  import Triangle

  datatype Double = NaN(negative: bool) | Num(r: real)

  /** The NAN macro: a quiet NaN with the sign bit clear. */
  const QuietNaN: Double := NaN(false)

  /** The ordered comparisons a > b and a < b. */
  predicate Gt(a: Double, b: Double) { a.Num? && b.Num? && a.r > b.r }
  predicate Lt(a: Double, b: Double) { a.Num? && b.Num? && a.r < b.r }

  function Add(a: Double, b: Double): Double {
    if a.Num? && b.Num? then Num(a.r + b.r) else QuietNaN
  }

  function Mul(a: Double, b: Double): Double {
    if a.Num? && b.Num? then Num(a.r * b.r) else QuietNaN
  }

  // ----- getFill -----

  /** What getFill leaves behind: whether it succeeded, the fill value and
      whether one was passed. */
  datatype FillResult = FillResult(ok: bool, fill: Double, passed: bool)

  /** The keyword's default is -NaN, so a fill is "passed" unless it is a
      NaN with the sign bit set; a passed fill outside [0, 1] is refused,
      and a missing one becomes 0. */
  function GetFill(fill: Double): (r: FillResult)
    ensures r.passed <==> fill != NaN(true)
    ensures !r.passed ==> r.ok && r.fill == Num(0.0)
    ensures r.passed ==> r.fill == fill
    ensures r.passed ==> (r.ok <==> !(fill.Num? && (fill.r < 0.0 || fill.r > 1.0)))
  {
    var passed := !(fill.NaN? && fill.negative);
    if passed then
      if Lt(fill, Num(0.0)) || Gt(fill, Num(1.0)) then FillResult(false, fill, true)
      else FillResult(true, fill, true)
    else FillResult(true, Num(0.0), false)
  }

  /** A fill getFill accepts is a number in [0, 1] or a NaN with the sign
      bit clear (which the range test lets through). */
  lemma GetFillUsable(fill: Double)
    requires GetFill(fill).ok
    ensures GetFill(fill).fill.Num? ==> 0.0 <= GetFill(fill).fill.r <= 1.0
    ensures GetFill(fill).fill.NaN? ==> GetFill(fill).fill == NaN(false)
  {
  }

  // ----- minMaxScale -----

  /** The numbers among the doubles, in order. */
  function Numbers(s: seq<Double>): seq<real> {
    if |s| == 0 then []
    else Numbers(s[..|s| - 1]) + (if s[|s| - 1].NaN? then [] else [s[|s| - 1].r])
  }

  function SeqMin(xs: seq<real>): real
    requires |xs| > 0
  {
    if |xs| == 1 then xs[0] else Min(SeqMin(xs[..|xs| - 1]), xs[|xs| - 1])
  }

  function SeqMax(xs: seq<real>): real
    requires |xs| > 0
  {
    if |xs| == 1 then xs[0] else Max(SeqMax(xs[..|xs| - 1]), xs[|xs| - 1])
  }

  /** The offset and scale of (x + delta) * scale. */
  datatype Affine = Affine(delta: Double, scale: Double)

  /** What minMaxScale is for: with the least number lo and the greatest hi
      it offsets by -lo and scales by 1 / (hi - lo), or by 1 when all
      numbers are equal; with no number at all both are NaN. */
  function MinMax(data: seq<Double>): Affine {
    var xs := Numbers(data);
    if |xs| == 0 then Affine(QuietNaN, QuietNaN)
    else
      var lo, hi := SeqMin(xs), SeqMax(xs);
      Affine(Num(-lo), Num(if hi - lo != 0.0 then 1.0 / (hi - lo) else 1.0))
  }

  /** minMaxScale: skip the leading NaNs, then scan the rest for the least
      and greatest number, seeded from the first number found. */
  method MinMaxScale(data: seq<Double>) returns (delta: Double, scale: Double)
    ensures Affine(delta, scale) == MinMax(data)
  {
    if |data| == 0 {
      return QuietNaN, QuietNaN;
    }
    var foundGood, start := FindGood(data);
    if !foundGood {
      return QuietNaN, QuietNaN;
    }
    var vMin, vMax := ScanFrom(data, start);
    delta := Num(-vMin.r);
    var range := vMax.r - vMin.r;
    scale := Num(if 0.0 != range then 1.0 / range else 1.0);
  }

  /** The search for the first number (the first loop of minMaxScale). */
  method FindGood(data: seq<Double>) returns (foundGood: bool, start: nat)
    ensures foundGood ==> start < |data| && data[start].Num? && Numbers(data[..start]) == []
    ensures !foundGood ==> Numbers(data) == []
  {
    foundGood := false;
    start := 0;
    while start < |data|
      invariant start <= |data|
      invariant Numbers(data[..start]) == []
    {
      if data[start].Num? {
        foundGood := true;
        return;
      }
      NumbersSnoc(data, start);
      start := start + 1;
    }
    assert data[..|data|] == data;
  }

  /** The scan for the least and greatest number after the first one (the
      second loop of minMaxScale): NaNs fail both comparisons and are
      skipped, and a new maximum cannot be a new minimum. */
  method ScanFrom(data: seq<Double>, start: nat) returns (vMin: Double, vMax: Double)
    requires start < |data| && data[start].Num? && Numbers(data[..start]) == []
    ensures |Numbers(data)| > 0
    ensures vMin == Num(SeqMin(Numbers(data))) && vMax == Num(SeqMax(Numbers(data)))
  {
    NumbersSnoc(data, start);
    vMin, vMax := data[start], data[start];
    for i := start + 1 to |data|
      invariant |Numbers(data[..i])| > 0
      invariant vMin == Num(SeqMin(Numbers(data[..i])))
      invariant vMax == Num(SeqMax(Numbers(data[..i])))
      invariant vMin.r <= vMax.r
    {
      NumbersSnoc(data, i);
      ghost var xs := Numbers(data[..i]);
      var v := data[i];
      if v.NaN? {
        assert Numbers(data[..i + 1]) == xs + [];
        assert xs + [] == xs;
      } else {
        assert Numbers(data[..i + 1]) == xs + [v.r];
        SeqMinMaxSnoc(xs, v.r);
      }
      if Gt(v, vMax) {
        vMax := v;
      } else if Lt(v, vMin) {
        vMin := v;
      }
    }
    assert data[..|data|] == data;
  }

  /** Numbers grows by the next element when it is a number. */
  lemma NumbersSnoc(data: seq<Double>, i: nat)
    requires i < |data|
    ensures Numbers(data[..i + 1]) == Numbers(data[..i]) + (if data[i].NaN? then [] else [data[i].r])
  {
    assert data[..i + 1][..i] == data[..i];
  }

  /** The least and greatest are bounds of every number and are themselves
      numbers of the sequence. */
  lemma {:induction false} SeqMinMax(xs: seq<real>)
    requires |xs| > 0
    ensures forall i :: 0 <= i < |xs| ==> SeqMin(xs) <= xs[i] <= SeqMax(xs)
    ensures SeqMin(xs) in xs && SeqMax(xs) in xs
  {
    if |xs| > 1 {
      var init := xs[..|xs| - 1];
      SeqMinMax(init);
      assert forall i :: 0 <= i < |init| ==> xs[i] == init[i];
      assert forall x :: x in init ==> x in xs;
    }
  }

  /** A value of the sequence is one of its numbers. */
  lemma {:induction false} NumbersHold(data: seq<Double>, i: nat)
    requires i < |data| && data[i].Num?
    ensures data[i].r in Numbers(data)
    decreases |data|
  {
    var init := data[..|data| - 1];
    if i < |data| - 1 {
      assert init[i] == data[i];
      NumbersHold(init, i);
    }
  }

  /** Appending x extends the least and greatest by x. */
  lemma SeqMinMaxSnoc(xs: seq<real>, x: real)
    requires |xs| > 0
    ensures SeqMin(xs + [x]) == Min(SeqMin(xs), x)
    ensures SeqMax(xs + [x]) == Max(SeqMax(xs), x)
  {
    assert (xs + [x])[..|xs|] == xs;
  }

  /** With a number in the array, the offset and scale are numbers. */
  lemma MinMaxNumbers(data: seq<Double>, i: nat)
    requires i < |data| && data[i].Num?
    ensures MinMax(data).delta.Num? && MinMax(data).scale.Num?
  {
    NumbersHold(data, i);
  }

  /** Every number of the array is mapped into [0, 1] by the offset and
      scale minMaxScale computes. */
  lemma MinMaxMapsIntoUnit(data: seq<Double>, i: nat)
    requires i < |data| && data[i].Num?
    ensures MinMax(data).delta.Num? && MinMax(data).scale.Num?
    ensures 0.0 <= (data[i].r + MinMax(data).delta.r) * MinMax(data).scale.r <= 1.0
  {
    NumbersHold(data, i);
    var xs := Numbers(data);
    SeqBounds(xs, data[i].r);
    var lo, hi := SeqMin(xs), SeqMax(xs);
    UnitMap(data[i].r, lo, hi);
    assert MinMax(data) == Affine(Num(-lo), Num(if hi - lo != 0.0 then 1.0 / (hi - lo) else 1.0));
  }

  /** Each number lies between the least and the greatest. */
  lemma SeqBounds(xs: seq<real>, x: real)
    requires x in xs
    ensures SeqMin(xs) <= x <= SeqMax(xs)
  {
    SeqMinMax(xs);
  }

  /** lo <= x <= hi is mapped into [0, 1] by the offset -lo and the scale
      of minMaxScale. */
  lemma UnitMap(x: real, lo: real, hi: real)
    requires lo <= x <= hi
    ensures 0.0 <= (x + -lo) * (if hi - lo != 0.0 then 1.0 / (hi - lo) else 1.0) <= 1.0
  {
    if hi - lo != 0.0 {
      UnitFraction(x - lo, hi - lo);
    }
  }

  /** The least number is mapped to 0 and, when the numbers are not all
      equal, the greatest to 1. */
  lemma MinMaxEnds(data: seq<Double>, lo: real, hi: real, delta: real, scale: real)
    requires |Numbers(data)| > 0 && lo == SeqMin(Numbers(data)) && hi == SeqMax(Numbers(data))
    requires MinMax(data) == Affine(Num(delta), Num(scale))
    ensures (lo + delta) * scale == 0.0
    ensures hi != lo ==> (hi + delta) * scale == 1.0
  {
    SeqBounds(Numbers(data), Numbers(data)[0]);
    EndsMap(lo, hi, delta, scale);
  }

  /** The offset -lo and the scale of minMaxScale send lo to 0 and a
      greater hi to 1. */
  lemma EndsMap(lo: real, hi: real, delta: real, scale: real)
    requires lo <= hi && delta == -lo
    requires scale == if hi - lo != 0.0 then 1.0 / (hi - lo) else 1.0
    ensures (lo + delta) * scale == 0.0
    ensures hi != lo ==> (hi + delta) * scale == 1.0
  {
    if hi - lo != 0.0 {
      UnitFraction(hi - lo, hi - lo);
    }
  }

  /** 0 <= a <= d gives a * (1 / d) in [0, 1], equal to 1 at a == d. */
  lemma UnitFraction(a: real, d: real)
    requires 0.0 <= a <= d && d > 0.0
    ensures 0.0 <= a * (1.0 / d) <= 1.0
    ensures a == d ==> a * (1.0 / d) == 1.0
  {
    assert a * (1.0 / d) == a / d;
    assert a / d * d == a;
  }

  /** minMaxScale as written seeds the running minimum and maximum from the
      first element rather than from the first number. */
  function MinMaxAsWritten(data: seq<Double>): Affine {
    if |data| == 0 || |Numbers(data)| == 0 then Affine(QuietNaN, QuietNaN)
    else
      var start := FirstNumber(data);
      var lohi := ScanAsWritten(data, start + 1, data[0], data[0]);
      var vMin, vMax := lohi.0, lohi.1;
      var range := Add(vMax, Negate(vMin));
      var scale :=
        if range.NaN? then QuietNaN                  // 0.0 != NaN holds: 1.0 / NaN
        else if range.r != 0.0 then Num(1.0 / range.r)
        else Num(1.0);
      Affine(Negate(vMin), scale)
  }

  /** Unary minus, which flips the sign bit of a NaN too. */
  function Negate(a: Double): Double {
    match a
    case NaN(neg) => NaN(!neg)
    case Num(x) => Num(-x)
  }

  /** The index of the first number in data. */
  function FirstNumber(data: seq<Double>): (k: nat)
    requires |Numbers(data)| > 0
    ensures k < |data| && data[k].Num?
    decreases |data|
  {
    if data[0].Num? then 0
    else
      NumbersTail(data);
      1 + FirstNumber(data[1..])
  }

  /** Only NaNs means no numbers. */
  lemma {:induction false} NumbersNaNs(data: seq<Double>)
    requires forall i :: 0 <= i < |data| ==> data[i].NaN?
    ensures Numbers(data) == []
    decreases |data|
  {
    if |data| > 0 {
      NumbersNaNs(data[..|data| - 1]);
    }
  }

  /** Dropping a leading NaN keeps the numbers. */
  lemma {:induction false} NumbersTail(data: seq<Double>)
    requires |data| > 0 && data[0].NaN?
    ensures Numbers(data[1..]) == Numbers(data)
    decreases |data|
  {
    if |data| > 1 {
      var init := data[..|data| - 1];
      NumbersTail(init);
      assert init[1..] == data[1..][..|data[1..]| - 1];
    }
  }

  /** The source's scan: if v > vMax then vMax = v, else if v < vMin then
      vMin = v, over data[i..]. */
  function ScanAsWritten(data: seq<Double>, i: nat, vMin: Double, vMax: Double): (Double, Double)
    decreases |data| - i
  {
    if i >= |data| then (vMin, vMax)
    else if Gt(data[i], vMax) then ScanAsWritten(data, i + 1, vMin, data[i])
    else if Lt(data[i], vMin) then ScanAsWritten(data, i + 1, data[i], vMax)
    else ScanAsWritten(data, i + 1, vMin, vMax)
  }

  /** minMaxScale as the wrapper calls it: the first loop finds the first
      number, but the second seeds vMin and vMax from the first element. */
  method MinMaxScaleAsWritten(data: seq<Double>) returns (delta: Double, scale: Double)
    ensures Affine(delta, scale) == MinMaxAsWritten(data)
  {
    if |data| == 0 {
      return QuietNaN, QuietNaN;
    }
    var foundGood, start := FindGood(data);
    if !foundGood {
      return QuietNaN, QuietNaN;
    }
    FirstNumberIs(data, start);
    var vMin, vMax := ScanAsWrittenFrom(data, start);
    delta := Negate(vMin);
    var range := Add(vMax, Negate(vMin));
    if range.NaN? {
      scale := QuietNaN;
    } else {
      scale := Num(if 0.0 != range.r then 1.0 / range.r else 1.0);
    }
  }

  /** The second loop of minMaxScale as written: it seeds vMin and vMax
      from the first element and scans on from just past start. */
  method ScanAsWrittenFrom(data: seq<Double>, start: nat) returns (vMin: Double, vMax: Double)
    requires start < |data|
    ensures (vMin, vMax) == ScanAsWritten(data, start + 1, data[0], data[0])
  {
    vMin, vMax := data[0], data[0];
    for i := start + 1 to |data|
      invariant ScanAsWritten(data, i, vMin, vMax) == ScanAsWritten(data, start + 1, data[0], data[0])
    {
      var v := data[i];
      if Gt(v, vMax) {
        vMax := v;
      } else if Lt(v, vMin) {
        vMin := v;
      }
    }
  }

  /** The index the first loop stops at is the first number. */
  lemma {:induction false} FirstNumberIs(data: seq<Double>, k: nat)
    requires k < |data| && data[k].Num? && Numbers(data[..k]) == []
    ensures |Numbers(data)| > 0 && FirstNumber(data) == k
    decreases k
  {
    NumbersHold(data, k);
    if k > 0 {
      assert data[0].NaN? by {
        if data[0].Num? {
          assert data[..k][0] == data[0];
          NumbersHold(data[..k], 0);
          assert false;
        }
      }
      NumbersTail(data[..k]);
      assert data[1..][..k - 1] == data[..k][1..];
      FirstNumberIs(data[1..], k - 1);
    }
  }

  /** The scan as written, once seeded with the least and greatest number
      of a prefix, ends with the least and greatest number of the array. */
  lemma {:induction false} ScanFinds(data: seq<Double>, i: nat, lo: real, hi: real)
    requires 0 < i <= |data| && |Numbers(data[..i])| > 0
    requires lo == SeqMin(Numbers(data[..i])) && hi == SeqMax(Numbers(data[..i]))
    ensures |Numbers(data)| > 0
    ensures ScanAsWritten(data, i, Num(lo), Num(hi)) == (Num(SeqMin(Numbers(data))), Num(SeqMax(Numbers(data))))
    decreases |data| - i
  {
    if i == |data| {
      assert data[..i] == data;
    } else {
      NumbersSnoc(data, i);
      var xs := Numbers(data[..i]);
      SeqMinMax(xs);
      assert lo <= hi by { assert SeqMin(xs) <= xs[0] <= SeqMax(xs); }
      var v := data[i];
      if v.NaN? {
        assert Numbers(data[..i + 1]) == xs + [];
        assert xs + [] == xs;
        ScanFinds(data, i + 1, lo, hi);
      } else {
        assert Numbers(data[..i + 1]) == xs + [v.r];
        SeqMinMaxSnoc(xs, v.r);
        if Gt(v, Num(hi)) {
          ScanFinds(data, i + 1, lo, v.r);
        } else if Lt(v, Num(lo)) {
          ScanFinds(data, i + 1, v.r, hi);
        } else {
          ScanFinds(data, i + 1, lo, hi);
        }
      }
    }
  }

  /** Seeded with NaNs, the scan as written never moves: every comparison
      with a NaN is false. */
  lemma {:induction false} ScanStaysNaN(data: seq<Double>, i: nat, vMin: Double, vMax: Double)
    requires vMin.NaN? && vMax.NaN?
    ensures ScanAsWritten(data, i, vMin, vMax) == (vMin, vMax)
    decreases |data| - i
  {
    if i < |data| {
      ScanStaysNaN(data, i + 1, vMin, vMax);
    }
  }

  /** When the first element is a number, minMaxScale as written computes
      the intended offset and scale. */
  lemma MinMaxAsWrittenAgrees(data: seq<Double>)
    requires |data| > 0 && data[0].Num?
    ensures MinMaxAsWritten(data) == MinMax(data)
  {
    NumbersSnoc(data, 0);
    assert data[..0] == [];
    assert Numbers(data[..1]) == [data[0].r];
    FirstNumberIs(data, 0);
    ScanFinds(data, 1, data[0].r, data[0].r);
    var lo, hi := SeqMin(Numbers(data)), SeqMax(Numbers(data));
    AsWrittenFromBounds(data, lo, hi);
  }

  /** The closing arithmetic of minMaxScale as written, for a scan that
      ended with the least number lo and the greatest hi. */
  lemma AsWrittenFromBounds(data: seq<Double>, lo: real, hi: real)
    requires |data| > 0 && |Numbers(data)| > 0
    requires lo == SeqMin(Numbers(data)) && hi == SeqMax(Numbers(data))
    requires ScanAsWritten(data, FirstNumber(data) + 1, data[0], data[0]) == (Num(lo), Num(hi))
    ensures MinMaxAsWritten(data) == MinMax(data)
  {
    assert Add(Num(hi), Negate(Num(lo))) == Num(hi - lo);
  }

  /** When the first element is a NaN, minMaxScale as written gives a NaN
      offset and scale, whatever numbers follow. */
  lemma MinMaxAsWrittenNaNFirst(data: seq<Double>)
    requires |data| > 0 && data[0].NaN?
    ensures MinMaxAsWritten(data).delta.NaN? && MinMaxAsWritten(data).scale.NaN?
  {
    if |Numbers(data)| > 0 {
      ScanStaysNaN(data, FirstNumber(data) + 1, data[0], data[0]);
    }
  }

  /** A NaN first element poisons the scan: no comparison with it holds,
      so the array [NaN, 0, 1] gets a NaN offset and scale as written,
      where its numbers call for offset 0 and scale 1. */
  lemma MinMaxAsWrittenLeadingNaN()
    ensures MinMaxAsWritten([NaN(false), Num(0.0), Num(1.0)]).delta.NaN?
    ensures MinMaxAsWritten([NaN(false), Num(0.0), Num(1.0)]).scale.NaN?
    ensures MinMax([NaN(false), Num(0.0), Num(1.0)]) == Affine(Num(0.0), Num(1.0))
  {
    var data := [NaN(false), Num(0.0), Num(1.0)];
    var d1, d2 := [NaN(false)], [NaN(false), Num(0.0)];
    assert d1[..0] == [];
    assert Numbers(d1) == [];
    assert d2[..1] == d1;
    assert Numbers(d2) == [0.0];
    assert data[..2] == d2;
    assert Numbers(data) == [0.0, 1.0];
    assert FirstNumber(data) == 1 by {
      assert data[1..] == [Num(0.0), Num(1.0)];
    }
    assert ScanAsWritten(data, 2, data[0], data[0]) == (NaN(false), NaN(false));
  }

  // ----- scaleClamp -----

  /** (v + delta) * scale, clamped to [0, 1]; a NaN is passed through. */
  function ScaleClamp(v: Double, delta: Double, scale: Double): (r: Double)
    ensures r.NaN? <==> v.NaN? || delta.NaN? || scale.NaN?
    ensures r.Num? ==> 0.0 <= r.r <= 1.0
  {
    var vs := Mul(Add(v, delta), scale);
    if Lt(vs, Num(0.0)) then Num(0.0) else if Gt(vs, Num(1.0)) then Num(1.0) else vs
  }

  /** A value already in [0, 1] is left as it is. */
  lemma ScaleClampKeeps(v: real, delta: real, scale: real)
    requires 0.0 <= (v + delta) * scale <= 1.0
    ensures ScaleClamp(Num(v), Num(delta), Num(scale)) == Num((v + delta) * scale)
  {
    assert Add(Num(v), Num(delta)) == Num(v + delta);
    assert Mul(Num(v + delta), Num(scale)) == Num((v + delta) * scale);
  }

  /** With the offset and scale minMaxScale computes for an array whose
      first element is a number, the clamp never bites on the array's own
      numbers and a rescaled value is NaN exactly when the input value is;
      with a NaN first element every rescaled value is NaN. */
  lemma RescaleExact(data: seq<Double>, i: nat)
    requires i < |data|
    ensures var a := MinMaxAsWritten(data);
      data[0].Num? ==> (ScaleClamp(data[i], a.delta, a.scale).NaN? <==> data[i].NaN?)
    ensures var a := MinMaxAsWritten(data); data[0].Num? && data[i].Num? ==>
      a.delta.Num? && a.scale.Num? &&
      ScaleClamp(data[i], a.delta, a.scale) == Num((data[i].r + a.delta.r) * a.scale.r)
    ensures var a := MinMaxAsWritten(data); data[0].NaN? ==> ScaleClamp(data[i], a.delta, a.scale).NaN?
  {
    var a := MinMaxAsWritten(data);
    if data[0].Num? {
      MinMaxAsWrittenAgrees(data);
      RescaleMinMax(data, i, 0);
    } else {
      MinMaxAsWrittenNaNFirst(data);
      assert ScaleClamp(data[i], a.delta, a.scale).NaN?;
    }
  }

  /** With the offset and scale of the corrected minMaxScale, the clamp
      never bites on the array's own numbers, and a rescaled value is NaN
      exactly when the input value is, when the array holds a number. */
  lemma RescaleMinMax(data: seq<Double>, i: nat, j: nat)
    requires i < |data| && j < |data| && data[j].Num?
    ensures var a := MinMax(data); ScaleClamp(data[i], a.delta, a.scale).NaN? <==> data[i].NaN?
    ensures var a := MinMax(data); data[i].Num? ==>
      a.delta.Num? && a.scale.Num? &&
      ScaleClamp(data[i], a.delta, a.scale) == Num((data[i].r + a.delta.r) * a.scale.r)
  {
    var a := MinMax(data);
    MinMaxNumbers(data, j);
    if data[i].Num? {
      MinMaxMapsIntoUnit(data, i);
      ScaleClampKeeps(data[i].r, a.delta.r, a.scale.r);
      assert data[i] == Num(data[i].r) && a.delta == Num(a.delta.r) && a.scale == Num(a.scale.r);
    }
  }

  // ----- the ramp/cyclic pixel loop -----

  /** A ramp or cyclic colour map, writing three channels. */
  type ColorFunc = real -> Triangle.Rgb

  function Channel(c: Triangle.Rgb, k: nat): real
    requires k < 3
  {
    if k == 0 then c.r else if k == 1 then c.g else c.b
  }

  /** The value coloured at a pixel: the raw input, or its rescaled clamp. */
  function PixelValue(v: Double, rescale: bool, a: Affine): Double {
    if rescale then ScaleClamp(v, a.delta, a.scale) else v
  }

  /** Out of range: a number outside [0, 1] in the raw loop. */
  predicate OutOfRange(t: Double) { t.Num? && (t.r < 0.0 || t.r > 1.0) }

  /** Channel k of a pixel whose value is t: the fill for a NaN (and, in
      the raw loop, for a value outside [0, 1]), the colour map's channel
      otherwise, and the alpha channel's 1. */
  function Slot(t: Double, rescale: bool, f: ColorFunc, fill: Double, k: nat): Double {
    if t.NaN? || (!rescale && OutOfRange(t)) then fill
    else if k < 3 then Num(Channel(f(t.r), k))
    else Num(1.0)
  }

  /** Write the colour of one pixel. */
  method ColorPixel(rgb: array2<Double>, i: nat, c: Triangle.Rgb)
    requires i < rgb.Length0 && rgb.Length1 >= 3
    modifies rgb
    ensures forall k :: 0 <= k < 3 ==> rgb[i, k] == Num(Channel(c, k))
    ensures forall j, k :: 0 <= j < rgb.Length0 && 0 <= k < rgb.Length1 && (j != i || k >= 3) ==>
      rgb[j, k] == old(rgb[j, k])
  {
    rgb[i, 0] := Num(c.r);
    rgb[i, 1] := Num(c.g);
    rgb[i, 2] := Num(c.b);
  }

  /** std::fill of one pixel's channels. */
  method FillPixel(rgb: array2<Double>, i: nat, fill: Double)
    requires i < rgb.Length0
    modifies rgb
    ensures forall k :: 0 <= k < rgb.Length1 ==> rgb[i, k] == fill
    ensures forall j, k :: 0 <= j < rgb.Length0 && 0 <= k < rgb.Length1 && j != i ==>
      rgb[j, k] == old(rgb[j, k])
  {
    for k := 0 to rgb.Length1
      invariant forall m :: 0 <= m < k ==> rgb[i, m] == fill
      invariant forall j, m :: 0 <= j < rgb.Length0 && 0 <= m < rgb.Length1 && (j != i || m >= k) ==>
        rgb[j, m] == old(rgb[j, m])
    {
      rgb[i, k] := fill;
    }
  }

  /** The element loop of the ramp and cyclic wrappers, over an output of
      one row of stride channels per input value (stride 4 with alpha,
      3 without). It reports whether a NaN was coloured with the fill and,
      in the raw loop, whether a value outside [0, 1] was. */
  method Linear(values: seq<Double>, f: ColorFunc, fill: Double, rescale: bool, alpha: bool)
    returns (rgb: array2<Double>, hasNans: bool, outOfRange: bool)
    ensures rgb.Length0 == |values| && rgb.Length1 == (if alpha then 4 else 3)
    ensures forall i, k :: 0 <= i < |values| && 0 <= k < rgb.Length1 ==>
      rgb[i, k] == Slot(PixelValue(values[i], rescale, MinMaxAsWritten(values)), rescale, f, fill, k)
    ensures hasNans <==> exists i :: 0 <= i < |values| && PixelValue(values[i], rescale, MinMaxAsWritten(values)).NaN?
    ensures outOfRange <==> !rescale && exists i :: 0 <= i < |values| && OutOfRange(values[i])
  {
    var stride := if alpha then 4 else 3;
    rgb := new Double[|values|, stride];
    if alpha {
      for i := 0 to |values|
        invariant forall j :: 0 <= j < i ==> rgb[j, 3] == Num(1.0)
      {
        rgb[i, 3] := Num(1.0);
      }
    }
    hasNans, outOfRange := false, false;
    var a := Affine(QuietNaN, QuietNaN);
    if rescale {
      var delta, scale := MinMaxScaleAsWritten(values);
      a := Affine(delta, scale);
    }
    for i := 0 to |values|
      invariant forall j, k :: 0 <= j < i && 0 <= k < stride ==>
        rgb[j, k] == Slot(PixelValue(values[j], rescale, MinMaxAsWritten(values)), rescale, f, fill, k)
      invariant alpha ==> forall j :: i <= j < |values| ==> rgb[j, 3] == Num(1.0)
      invariant hasNans <==> exists j :: 0 <= j < i && PixelValue(values[j], rescale, MinMaxAsWritten(values)).NaN?
      invariant outOfRange <==> !rescale && exists j :: 0 <= j < i && OutOfRange(values[j])
      invariant rescale ==> a == MinMaxAsWritten(values)
    {
      var t := if rescale then ScaleClamp(values[i], a.delta, a.scale) else values[i];
      assert t == PixelValue(values[i], rescale, MinMaxAsWritten(values));
      if t.NaN? {
        hasNans := true;
        FillPixel(rgb, i, fill);
      } else if !rescale && (Lt(t, Num(0.0)) || Gt(t, Num(1.0))) {
        outOfRange := true;
        FillPixel(rgb, i, fill);
      } else {
        ColorPixel(rgb, i, f(t.r));
      }
    }
  }

  /** In the rescaled loop, when the first value is a number, a pixel takes
      the fill exactly when its input is NaN and every other pixel is
      coloured at its rescaled value without clamping; when the first value
      is NaN, every pixel takes the fill. */
  lemma RescaledPixels(values: seq<Double>, f: ColorFunc, fill: Double, i: nat, k: nat)
    requires i < |values|
    ensures var a := MinMaxAsWritten(values);
      (values[i].NaN? || values[0].NaN?) ==> Slot(PixelValue(values[i], true, a), true, f, fill, k) == fill
    ensures var a := MinMaxAsWritten(values); values[0].Num? && values[i].Num? && k < 3 ==>
      a.delta.Num? && a.scale.Num? &&
      Slot(PixelValue(values[i], true, a), true, f, fill, k) == Num(Channel(f((values[i].r + a.delta.r) * a.scale.r), k))
  {
    RescaleExact(values, i);
  }
}
