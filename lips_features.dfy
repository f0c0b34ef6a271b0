/** The mouth-geometry feature extractor: a list of lip landmarks becomes the
    five-vector [mar, smileCurve, asym, spreadX, spreadY]. Float arithmetic is
    modelled over the reals; `hypot` and `sqrt` come from a `Math` value. */
module LipsFeatureExtractor {
  import opened Results
  import opened MathFns

  datatype PointF = PointF(x: real, y: real)

  datatype LipsError = EmptyLips

  /** The `1e-8f` added to the mouth width so that it is never zero. */
  const EPSILON: real := 1e-8

  /** Number of features produced, in the order mar, smileCurve, asym, spreadX, spreadY. */
  const FEATURE_COUNT: nat := 5

  // ---------------------------------------------------------------------------
  // Extreme points (minByOrNull / maxByOrNull keep the first extreme element)

  /** Index of the point `minByOrNull { it.x }` returns: the first one of minimal x. */
  function ArgMinX(ps: seq<PointF>): (i: nat)
    requires |ps| > 0
    ensures i < |ps|
    ensures forall j :: 0 <= j < |ps| ==> ps[i].x <= ps[j].x
    ensures forall j :: 0 <= j < i ==> ps[j].x > ps[i].x
  {
    ArgMinXUpTo(ps, |ps|)
  }

  /** The scan of `minByOrNull` over the first `n` points. */
  function ArgMinXUpTo(ps: seq<PointF>, n: nat): (i: nat)
    requires 0 < n <= |ps|
    ensures i < n
    ensures forall j :: 0 <= j < n ==> ps[i].x <= ps[j].x
    ensures forall j :: 0 <= j < i ==> ps[j].x > ps[i].x
  {
    if n == 1 then 0
    else
      var k := ArgMinXUpTo(ps, n - 1);
      if ps[k].x > ps[n - 1].x then n - 1 else k
  }

  /** Index of the point `maxByOrNull { it.x }` returns: the first one of maximal x. */
  function ArgMaxX(ps: seq<PointF>): (i: nat)
    requires |ps| > 0
    ensures i < |ps|
    ensures forall j :: 0 <= j < |ps| ==> ps[j].x <= ps[i].x
    ensures forall j :: 0 <= j < i ==> ps[j].x < ps[i].x
  {
    ArgMaxXUpTo(ps, |ps|)
  }

  /** The scan of `maxByOrNull` over the first `n` points. */
  function ArgMaxXUpTo(ps: seq<PointF>, n: nat): (i: nat)
    requires 0 < n <= |ps|
    ensures i < n
    ensures forall j :: 0 <= j < n ==> ps[j].x <= ps[i].x
    ensures forall j :: 0 <= j < i ==> ps[j].x < ps[i].x
  {
    if n == 1 then 0
    else
      var k := ArgMaxXUpTo(ps, n - 1);
      if ps[k].x < ps[n - 1].x then n - 1 else k
  }

  function Left(lips: seq<PointF>): PointF
    requires |lips| > 0
  {
    lips[ArgMinX(lips)]
  }

  function Right(lips: seq<PointF>): PointF
    requires |lips| > 0
  {
    lips[ArgMaxX(lips)]
  }

  lemma LeftNotRightOfRight(lips: seq<PointF>)
    requires |lips| > 0
    ensures Left(lips).x <= Right(lips).x
    ensures forall j :: 0 <= j < |lips| ==> Left(lips).x <= lips[j].x <= Right(lips).x
  {
  }

  // ---------------------------------------------------------------------------
  // Normalisation by the mouth width

  /** Distance from the left to the right corner, plus the epsilon. */
  function Width(lips: seq<PointF>, m: Math): (w: real)
    requires |lips| > 0 && m.Valid()
    ensures w >= EPSILON > 0.0
    ensures w >= Abs(Right(lips).x - Left(lips).x) + EPSILON
  {
    var l, r := Left(lips), Right(lips);
    m.hypot(r.x - l.x, r.y - l.y) + EPSILON
  }

  function NormalizePoint(p: PointF, origin: PointF, w: real): PointF
    requires w > 0.0
  {
    PointF((p.x - origin.x) / w, (p.y - origin.y) / w)
  }

  /** `lipsN`: every point made relative to the left corner and divided by the width. */
  function Normalize(lips: seq<PointF>, m: Math): (ns: seq<PointF>)
    requires |lips| > 0 && m.Valid()
    ensures |ns| == |lips|
    ensures forall i :: 0 <= i < |ns| ==> 0.0 <= ns[i].x <= ns[ArgMaxX(lips)].x
  {
    var ns := NormalizeAll(lips, Left(lips), Width(lips, m));
    NormalizedXInRange(lips, ns, Width(lips, m));
    ns
  }

  /** `map` of `NormalizePoint` over a list. */
  function NormalizeAll(ps: seq<PointF>, origin: PointF, w: real): (ns: seq<PointF>)
    requires w > 0.0
    ensures |ns| == |ps|
    ensures forall i :: 0 <= i < |ps| ==> ns[i] == NormalizePoint(ps[i], origin, w)
  {
    seq(|ps|, i requires 0 <= i < |ps| => NormalizePoint(ps[i], origin, w))
  }

  lemma NormalizedXInRange(lips: seq<PointF>, ns: seq<PointF>, w: real)
    requires |lips| > 0 && w > 0.0 && |ns| == |lips|
    requires forall i :: 0 <= i < |lips| ==> ns[i] == NormalizePoint(lips[i], Left(lips), w)
    ensures forall i :: 0 <= i < |ns| ==> 0.0 <= ns[i].x <= ns[ArgMaxX(lips)].x
  {
    var l, k := Left(lips), ArgMaxX(lips);
    forall i | 0 <= i < |ns|
      ensures 0.0 <= ns[i].x <= ns[k].x
    {
      DivMonotone(0.0, lips[i].x - l.x, w);
      DivMonotone(lips[i].x - l.x, lips[k].x - l.x, w);
    }
  }

  lemma DivMonotone(a: real, b: real, w: real)
    requires a <= b && w > 0.0
    ensures a / w <= b / w
  {
    assert b / w - a / w == (b - a) / w;
  }

  /** `rightN`: the right corner after normalisation. */
  function RightN(lips: seq<PointF>, m: Math): PointF
    requires |lips| > 0 && m.Valid()
  {
    NormalizePoint(Right(lips), Left(lips), Width(lips, m))
  }

  /** The constant `leftN = (0, 0)` is the left corner after normalisation, and
      `rightN` is the right corner after normalisation. */
  lemma NormalizedCorners(lips: seq<PointF>, m: Math)
    requires |lips| > 0 && m.Valid()
    ensures Normalize(lips, m)[ArgMinX(lips)] == PointF(0.0, 0.0)
    ensures Normalize(lips, m)[ArgMaxX(lips)] == RightN(lips, m)
  {
    var l, w := Left(lips), Width(lips, m);
    assert Normalize(lips, m)[ArgMinX(lips)] == NormalizePoint(l, l, w);
    assert (l.x - l.x) / w == 0.0 && (l.y - l.y) / w == 0.0;
  }

  /** The normalised mouth is less than one unit wide. */
  lemma RightNBounds(lips: seq<PointF>, m: Math)
    requires |lips| > 0 && m.Valid()
    ensures 0.0 <= RightN(lips, m).x < 1.0
  {
    var l, r, w := Left(lips), Right(lips), Width(lips, m);
    assert l.x <= r.x;
    DivBelowOne(r.x - l.x, w);
  }

  lemma DivBelowOne(a: real, w: real)
    requires 0.0 <= a < w
    ensures 0.0 <= a / w < 1.0
  {
    assert a / w * w == a;
  }

  // ---------------------------------------------------------------------------
  // Statistics over coordinate lists

  function Xs(ps: seq<PointF>): (xs: seq<real>)
    ensures |xs| == |ps| && forall i :: 0 <= i < |ps| ==> xs[i] == ps[i].x
  {
    seq(|ps|, i requires 0 <= i < |ps| => ps[i].x)
  }

  function Ys(ps: seq<PointF>): (ys: seq<real>)
    ensures |ys| == |ps| && forall i :: 0 <= i < |ps| ==> ys[i] == ps[i].y
  {
    seq(|ps|, i requires 0 <= i < |ps| => ps[i].y)
  }

  /** `sum()`, accumulated from the front. */
  function Sum(xs: seq<real>): real
  {
    if xs == [] then 0.0 else Sum(xs[..|xs| - 1]) + xs[|xs| - 1]
  }

  /** `average()` of a non-empty list. */
  function Mean(xs: seq<real>): real
    requires |xs| > 0
  {
    Sum(xs) / |xs| as real
  }

  /** `maxOrNull()!!` */
  function MaxOf(xs: seq<real>): (r: real)
    requires |xs| > 0
    ensures forall i :: 0 <= i < |xs| ==> xs[i] <= r
    ensures exists i :: 0 <= i < |xs| && xs[i] == r
  {
    if |xs| == 1 then xs[0]
    else
      var k := MaxOf(xs[..|xs| - 1]);
      assert exists i :: 0 <= i < |xs| - 1 && xs[i] == k;
      if k < xs[|xs| - 1] then xs[|xs| - 1] else k
  }

  /** `minOrNull()!!` */
  function MinOf(xs: seq<real>): (r: real)
    requires |xs| > 0
    ensures forall i :: 0 <= i < |xs| ==> r <= xs[i]
    ensures exists i :: 0 <= i < |xs| && xs[i] == r
  {
    if |xs| == 1 then xs[0]
    else
      var k := MinOf(xs[..|xs| - 1]);
      assert exists i :: 0 <= i < |xs| - 1 && xs[i] == k;
      if k > xs[|xs| - 1] then xs[|xs| - 1] else k
  }

  /** Sum of the squared deviations from `mu`, accumulated from the front. */
  function SumSqDev(xs: seq<real>, mu: real): (acc: real)
    ensures acc >= 0.0
  {
    if xs == [] then 0.0
    else
      var d := xs[|xs| - 1] - mu;
      SumSqDev(xs[..|xs| - 1], mu) + d * d
  }

  /** Population standard deviation, as `List<Float>.std()` defines it. */
  function PopulationStd(xs: seq<real>, m: Math): (r: real)
    ensures xs == [] ==> r == 0.0
    ensures m.Valid() ==> r >= 0.0
  {
    if xs == [] then 0.0
    else m.sqrt(SumSqDev(xs, Mean(xs)) / |xs| as real)
  }

  /** `List<Float>.std()`: the mean, then a loop accumulating squared deviations. */
  method Std(xs: seq<real>, m: Math) returns (r: real)
    ensures r == PopulationStd(xs, m)
  {
    if |xs| == 0 {
      return 0.0;
    }
    var mean := Sum(xs) / |xs| as real;
    var acc := 0.0;
    for i := 0 to |xs|
      invariant acc == SumSqDev(xs[..i], mean)
    {
      var d := xs[i] - mean;
      acc := acc + d * d;
      assert xs[..i + 1][..i] == xs[..i];
    }
    assert xs[..|xs|] == xs;
    r := m.sqrt(acc / |xs| as real);
  }

  // ---------------------------------------------------------------------------
  // The feature vector

  /** `computeFeaturesFromLips`: fails on an empty list, otherwise returns
      [mar, smileCurve, asym, spreadX, spreadY]. */
  function ComputeFeatures(lips: seq<PointF>, m: Math): (r: Result<seq<real>, LipsError>)
    requires m.Valid()
    ensures r.Err? <==> lips == []
    ensures r.Ok? ==> |r.value| == FEATURE_COUNT
    ensures r.Ok? ==> r.value[0] >= 0.0 && r.value[3] >= 0.0 && r.value[4] >= 0.0
    ensures r.Ok? ==> r.value[2] == -RightN(lips, m).y
    ensures r.Ok? ==> r.value[1] == RightN(lips, m).y / 2.0 - Mean(Ys(Normalize(lips, m)))
  {
    if lips == [] then Err(EmptyLips)
    else Ok(FeaturesOf(Normalize(lips, m), RightN(lips, m), m))
  }

  /** The five features computed from the normalised landmarks `lipsN` and the
      normalised right corner `rightN`; the left corner is `leftN = (0, 0)`. */
  function FeaturesOf(lipsN: seq<PointF>, rightN: PointF, m: Math): (f: seq<real>)
    requires |lipsN| > 0
  {
    var leftN := PointF(0.0, 0.0);
    var ys := Ys(lipsN);
    var meanY := Mean(ys);
    var mar := MaxOf(ys) - MinOf(ys);
    var smileCurve := (leftN.y + rightN.y) / 2.0 - meanY;
    var asym := leftN.y - rightN.y;
    var spreadX := PopulationStd(Xs(lipsN), m);
    var spreadY := PopulationStd(ys, m);
    [mar, smileCurve, asym, spreadX, spreadY]
  }

  // ---------------------------------------------------------------------------
  // Translation invariance

  function Translate(lips: seq<PointF>, dx: real, dy: real): (ts: seq<PointF>)
    ensures |ts| == |lips|
    ensures forall i :: 0 <= i < |lips| ==> ts[i] == PointF(lips[i].x + dx, lips[i].y + dy)
  {
    seq(|lips|, i requires 0 <= i < |lips| => PointF(lips[i].x + dx, lips[i].y + dy))
  }

  lemma {:induction false} ArgMinTranslate(lips: seq<PointF>, dx: real, dy: real, n: nat)
    requires 0 < n <= |lips|
    ensures ArgMinXUpTo(Translate(lips, dx, dy), n) == ArgMinXUpTo(lips, n)
  {
    if n > 1 {
      ArgMinTranslate(lips, dx, dy, n - 1);
    }
  }

  lemma {:induction false} ArgMaxTranslate(lips: seq<PointF>, dx: real, dy: real, n: nat)
    requires 0 < n <= |lips|
    ensures ArgMaxXUpTo(Translate(lips, dx, dy), n) == ArgMaxXUpTo(lips, n)
  {
    if n > 1 {
      ArgMaxTranslate(lips, dx, dy, n - 1);
    }
  }

  lemma CornersTranslate(lips: seq<PointF>, dx: real, dy: real)
    requires |lips| > 0
    ensures Left(Translate(lips, dx, dy)) == PointF(Left(lips).x + dx, Left(lips).y + dy)
    ensures Right(Translate(lips, dx, dy)) == PointF(Right(lips).x + dx, Right(lips).y + dy)
  {
    ArgMinTranslate(lips, dx, dy, |lips|);
    ArgMaxTranslate(lips, dx, dy, |lips|);
  }

  lemma WidthTranslate(lips: seq<PointF>, dx: real, dy: real, m: Math)
    requires |lips| > 0 && m.Valid()
    ensures Width(Translate(lips, dx, dy), m) == Width(lips, m)
  {
    var ts := Translate(lips, dx, dy);
    CornersTranslate(lips, dx, dy);
    var l, r := Left(lips), Right(lips);
    assert Right(ts).x - Left(ts).x == r.x - l.x;
    assert Right(ts).y - Left(ts).y == r.y - l.y;
  }

  lemma NormalizePointShift(p: PointF, o: PointF, w: real, dx: real, dy: real)
    requires w > 0.0
    ensures NormalizePoint(PointF(p.x + dx, p.y + dy), PointF(o.x + dx, o.y + dy), w) == NormalizePoint(p, o, w)
  {
    assert (p.x + dx) - (o.x + dx) == p.x - o.x;
    assert (p.y + dy) - (o.y + dy) == p.y - o.y;
  }

  lemma NormalizeAllShift(ps: seq<PointF>, o: PointF, w: real, dx: real, dy: real)
    requires w > 0.0
    ensures NormalizeAll(Translate(ps, dx, dy), PointF(o.x + dx, o.y + dy), w) == NormalizeAll(ps, o, w)
  {
    var a, b := NormalizeAll(Translate(ps, dx, dy), PointF(o.x + dx, o.y + dy), w), NormalizeAll(ps, o, w);
    forall i | 0 <= i < |ps| ensures a[i] == b[i] {
      NormalizePointShift(ps[i], o, w, dx, dy);
    }
  }

  lemma NormalizeIsNormalizeAll(lips: seq<PointF>, m: Math)
    requires |lips| > 0 && m.Valid()
    ensures Width(lips, m) > 0.0
    ensures Normalize(lips, m) == NormalizeAll(lips, Left(lips), Width(lips, m))
  {
  }

  lemma NormalizeTranslate(lips: seq<PointF>, dx: real, dy: real, m: Math)
    requires |lips| > 0 && m.Valid()
    ensures Normalize(Translate(lips, dx, dy), m) == Normalize(lips, m)
  {
    var ts, l, w := Translate(lips, dx, dy), Left(lips), Width(lips, m);
    CornersTranslate(lips, dx, dy);
    WidthTranslate(lips, dx, dy, m);
    NormalizeIsNormalizeAll(ts, m);
    NormalizeIsNormalizeAll(lips, m);
    NormalizeAllShift(lips, l, w, dx, dy);
  }

  lemma RightNTranslate(lips: seq<PointF>, dx: real, dy: real, m: Math)
    requires |lips| > 0 && m.Valid()
    ensures RightN(Translate(lips, dx, dy), m) == RightN(lips, m)
  {
    var ts, l, r, w := Translate(lips, dx, dy), Left(lips), Right(lips), Width(lips, m);
    CornersTranslate(lips, dx, dy);
    WidthTranslate(lips, dx, dy, m);
    assert RightN(ts, m) == NormalizePoint(PointF(r.x + dx, r.y + dy), PointF(l.x + dx, l.y + dy), w);
    NormalizePointShift(r, l, w, dx, dy);
  }

  /** Shifting every landmark by one offset changes none of the five features. */
  lemma TranslationInvariant(lips: seq<PointF>, dx: real, dy: real, m: Math)
    requires m.Valid()
    ensures ComputeFeatures(Translate(lips, dx, dy), m) == ComputeFeatures(lips, m)
  {
    if lips != [] {
      NormalizeTranslate(lips, dx, dy, m);
      RightNTranslate(lips, dx, dy, m);
    }
  }

  // ---------------------------------------------------------------------------
  // A degenerate mouth (all landmarks at one point)

  lemma {:induction false} ConstantStats(xs: seq<real>, c: real)
    requires forall i :: 0 <= i < |xs| ==> xs[i] == c
    ensures Sum(xs) == |xs| as real * c
    ensures SumSqDev(xs, c) == 0.0
  {
    if xs != [] {
      ConstantStats(xs[..|xs| - 1], c);
    }
  }

  /** A mouth whose landmarks all coincide normalises to the origin everywhere. */
  lemma DegenerateNormalized(lips: seq<PointF>, m: Math)
    requires m.Valid() && |lips| > 0
    requires forall i :: 0 <= i < |lips| ==> lips[i] == lips[0]
    ensures forall i :: 0 <= i < |lips| ==> Normalize(lips, m)[i] == PointF(0.0, 0.0)
    ensures RightN(lips, m) == PointF(0.0, 0.0)
  {
    var l, r, w := Left(lips), Right(lips), Width(lips, m);
    NormalizeIsNormalizeAll(lips, m);
    assert l == lips[0] && r == lips[0];
    forall i | 0 <= i < |lips| ensures Normalize(lips, m)[i] == PointF(0.0, 0.0) {
      assert (lips[i].x - l.x) / w == 0.0 && (lips[i].y - l.y) / w == 0.0;
    }
    assert (r.x - l.x) / w == 0.0 && (r.y - l.y) / w == 0.0;
  }

  /** All five features of a mouth collapsed to the origin are 0. */
  lemma OriginFeatures(lipsN: seq<PointF>, m: Math)
    requires m.Valid() && |lipsN| > 0
    requires forall i :: 0 <= i < |lipsN| ==> lipsN[i] == PointF(0.0, 0.0)
    ensures FeaturesOf(lipsN, PointF(0.0, 0.0), m) == [0.0, 0.0, 0.0, 0.0, 0.0]
  {
    var xs, ys := Xs(lipsN), Ys(lipsN);
    ConstantStats(xs, 0.0);
    ConstantStats(ys, 0.0);
    assert Mean(xs) == 0.0 && Mean(ys) == 0.0;
    assert 0.0 / |xs| as real == 0.0;
    assert PopulationStd(xs, m) == 0.0 && PopulationStd(ys, m) == 0.0;
    assert MaxOf(ys) == 0.0 && MinOf(ys) == 0.0;
  }

  /** When every landmark is the same point the width is only the epsilon,
      nothing divides by zero, and all five features are 0. */
  lemma DegenerateMouth(lips: seq<PointF>, m: Math)
    requires m.Valid() && |lips| > 0
    requires forall i :: 0 <= i < |lips| ==> lips[i] == lips[0]
    ensures ComputeFeatures(lips, m) == Ok([0.0, 0.0, 0.0, 0.0, 0.0])
  {
    DegenerateNormalized(lips, m);
    OriginFeatures(Normalize(lips, m), m);
  }
}
