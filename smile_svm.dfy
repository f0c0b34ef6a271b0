/** The RBF-kernel SVM decision function over a trained `SvmModel`:
    standardise the features, sum the weighted kernel values of the support
    vectors, add the intercept, and read the sign. */
module SmileSvm {
  import opened Results
  import opened MathFns

  /** The trained parameters, as loaded once from the model file. */
  datatype SvmModel = SvmModel(
    mean: seq<real>,
    scale: seq<real>,
    supportVectors: seq<seq<real>>,
    dualCoef: seq<real>,
    intercept: real,
    gamma: real,
    classes: seq<string>)

  datatype SvmError = ShapeMismatch(got: nat, expected: nat)

  /** What the decision function indexes without checking: a scale entry per
      feature (non-zero, because the reals have no infinities), a support
      vector row at least as long as the features, and a dual coefficient per
      support vector. The loader checks none of this. */
  ghost predicate WellFormed(model: SvmModel) {
    && |model.scale| >= |model.mean|
    && (forall i :: 0 <= i < |model.mean| ==> model.scale[i] != 0.0)
    && (forall j :: 0 <= j < |model.supportVectors| ==> |model.supportVectors[j]| >= |model.mean|)
    && |model.dualCoef| >= |model.supportVectors|
  }

  /** The StandardScaler step: `x[i] = (features[i] - mean[i]) / scale[i]`. */
  function Standardize(features: seq<real>, model: SvmModel): (x: seq<real>)
    requires WellFormed(model) && |features| == |model.mean|
    ensures |x| == |features|
  {
    seq(|features|, i requires 0 <= i < |features| => (features[i] - model.mean[i]) / model.scale[i])
  }

  /** Standardising is undone by `scale` and `mean`: each feature is
      `mean[i] + x[i] * scale[i]`, so features equal to the mean standardise
      to all zeros. */
  lemma StandardizeInverse(features: seq<real>, model: SvmModel)
    requires WellFormed(model) && |features| == |model.mean|
    ensures var x := Standardize(features, model);
      && (forall i :: 0 <= i < |x| ==> features[i] == model.mean[i] + x[i] * model.scale[i])
      && (features == model.mean ==> forall i :: 0 <= i < |x| ==> x[i] == 0.0)
  {
    var x := Standardize(features, model);
    forall i | 0 <= i < |x|
      ensures features[i] == model.mean[i] + x[i] * model.scale[i]
    {
      assert x[i] == (features[i] - model.mean[i]) / model.scale[i];
      assert x[i] * model.scale[i] == features[i] - model.mean[i];
    }
  }

  /** Squared distance over the first `n` coordinates of `x` and `sv`. */
  function Dist2(x: seq<real>, sv: seq<real>, n: nat): (d: real)
    requires n <= |x| && n <= |sv|
    ensures d >= 0.0
  {
    if n == 0 then 0.0
    else
      var diff := x[n - 1] - sv[n - 1];
      Dist2(x, sv, n - 1) + diff * diff
  }

  /** The RBF kernel value `exp(-gamma * dist2)`. */
  function Rbf(m: Math, gamma: real, dist2: real): real
  {
    m.exp(-gamma * dist2)
  }

  /** The kernel value of support vector `j`. */
  function Kernel(x: seq<real>, model: SvmModel, m: Math, j: nat): real
    requires j < |model.supportVectors| && |model.supportVectors[j]| >= |x|
  {
    Rbf(m, model.gamma, Dist2(x, model.supportVectors[j], |x|))
  }

  /** `Σ_{j < n} dualCoef[j] * kernel_j`, accumulated from the front. */
  function KernelSum(x: seq<real>, model: SvmModel, m: Math, n: nat): real
    requires n <= |model.supportVectors| && |model.dualCoef| >= |model.supportVectors|
    requires forall j :: 0 <= j < |model.supportVectors| ==> |model.supportVectors[j]| >= |x|
  {
    if n == 0 then 0.0
    else KernelSum(x, model, m, n - 1) + model.dualCoef[n - 1] * Kernel(x, model, m, n - 1)
  }

  /** The decision value of a standardised vector. */
  function Score(x: seq<real>, model: SvmModel, m: Math): real
    requires |model.dualCoef| >= |model.supportVectors|
    requires forall j :: 0 <= j < |model.supportVectors| ==> |model.supportVectors[j]| >= |x|
  {
    KernelSum(x, model, m, |model.supportVectors|) + model.intercept
  }

  /** The decision value of a raw feature vector (of the right length). */
  function Decision(features: seq<real>, model: SvmModel, m: Math): real
    requires WellFormed(model) && |features| == |model.mean|
  {
    Score(Standardize(features, model), model, m)
  }

  /** `decisionScore`: rejects a feature vector of the wrong length, otherwise
      runs the two nested loops of the kernel sum. */
  method DecisionScore(features: seq<real>, model: SvmModel, m: Math) returns (r: Result<real, SvmError>)
    requires WellFormed(model)
    ensures r.Err? <==> |features| != |model.mean|
    ensures r.Err? ==> r.error == ShapeMismatch(|features|, |model.mean|)
    ensures r.Ok? ==> r.value == Decision(features, model, m)
  {
    if |features| != |model.mean| {
      return Err(ShapeMismatch(|features|, |model.mean|));
    }
    var x := Standardize(features, model);
    var sum := 0.0;
    var i := 0;
    while i < |model.supportVectors|
      invariant 0 <= i <= |model.supportVectors|
      invariant sum == KernelSum(x, model, m, i)
    {
      var sv := model.supportVectors[i];
      var dist2 := 0.0;
      var d := 0;
      while d < |x|
        invariant 0 <= d <= |x|
        invariant dist2 == Dist2(x, sv, d)
      {
        var diff := x[d] - sv[d];
        dist2 := dist2 + diff * diff;
        d := d + 1;
      }
      var k := Rbf(m, model.gamma, dist2);
      sum := sum + model.dualCoef[i] * k;
      i := i + 1;
    }
    var f := sum + model.intercept;
    return Ok(f);
  }

  /** The label rule: a score of 0 or more gives `classes[1]`, a negative one `classes[0]`. */
  function LabelFor(score: real, model: SvmModel): string
    requires |model.classes| >= 2
  {
    if score >= 0.0 then model.classes[1] else model.classes[0]
  }

  /** `predictLabel` */
  method PredictLabel(features: seq<real>, model: SvmModel, m: Math) returns (r: Result<string, SvmError>)
    requires WellFormed(model) && |model.classes| >= 2
    ensures r.Err? <==> |features| != |model.mean|
    ensures r.Ok? ==> r.value == LabelFor(Decision(features, model, m), model)
    ensures r.Ok? ==> Decision(features, model, m) >= 0.0 ==> r.value == model.classes[1]
    ensures r.Ok? ==> Decision(features, model, m) < 0.0 ==> r.value == model.classes[0]
  {
    var f := DecisionScore(features, model, m);
    if f.Err? {
      return Err(f.error);
    }
    return Ok(LabelFor(f.value, model));
  }

  /** `isSmiling`: the sign of the score against the fixed 0.0. */
  method IsSmiling(features: seq<real>, model: SvmModel, m: Math) returns (r: Result<bool, SvmError>)
    requires WellFormed(model)
    ensures r.Err? <==> |features| != |model.mean|
    ensures r.Ok? ==> (r.value <==> Decision(features, model, m) >= 0.0)
  {
    var f := DecisionScore(features, model, m);
    if f.Err? {
      return Err(f.error);
    }
    var smiling := f.value >= 0.0;
    return Ok(smiling);
  }

  // ---------------------------------------------------------------------------
  // Properties of the decision function

  /** Every kernel value is positive, so each support vector pulls the score
      towards the sign of its dual coefficient. */
  lemma KernelPositive(x: seq<real>, model: SvmModel, m: Math, j: nat)
    requires m.Valid()
    requires j < |model.supportVectors| && |model.supportVectors[j]| >= |x|
    ensures Kernel(x, model, m, j) > 0.0
  {
  }

  /** A support vector equal to the standardised input contributes its full
      dual coefficient: its kernel value is `exp(0) = 1`. */
  lemma {:induction false} KernelAtSupportVector(x: seq<real>, model: SvmModel, m: Math, j: nat)
    requires m.Valid()
    requires j < |model.supportVectors| && model.supportVectors[j] == x
    ensures Kernel(x, model, m, j) == 1.0
  {
    Dist2Self(x, |x|);
    assert -model.gamma * 0.0 == 0.0;
  }

  lemma {:induction false} Dist2Self(x: seq<real>, n: nat)
    requires n <= |x|
    ensures Dist2(x, x, n) == 0.0
  {
    if n > 0 {
      Dist2Self(x, n - 1);
    }
  }

  /** With no support vectors the score is the intercept. */
  lemma NoSupportVectors(x: seq<real>, model: SvmModel, m: Math)
    requires |model.supportVectors| == 0
    ensures Score(x, model, m) == model.intercept
  {
  }

  /** With every dual coefficient non-negative the score never falls below the intercept. */
  lemma {:induction false} NonNegativeCoefficients(x: seq<real>, model: SvmModel, m: Math, n: nat)
    requires m.Valid()
    requires n <= |model.supportVectors| && |model.dualCoef| >= |model.supportVectors|
    requires forall j :: 0 <= j < |model.supportVectors| ==> |model.supportVectors[j]| >= |x|
    requires forall j :: 0 <= j < |model.supportVectors| ==> model.dualCoef[j] >= 0.0
    ensures KernelSum(x, model, m, n) >= 0.0
  {
    if n > 0 {
      NonNegativeCoefficients(x, model, m, n - 1);
      KernelPositive(x, model, m, n - 1);
    }
  }

  /** The sign rule of `isSmiling` and the label rule of `predictLabel` agree
      whenever the two class names differ; a tie at 0 is a smile. */
  lemma SmilingAgreesWithLabel(score: real, model: SvmModel)
    requires |model.classes| >= 2 && model.classes[0] != model.classes[1]
    ensures score >= 0.0 <==> LabelFor(score, model) == model.classes[1]
    ensures LabelFor(0.0, model) == model.classes[1]
  {
  }

  /** A two-feature model with one support vector at the origin, dual
      coefficient 1, intercept -0.5 and gamma 1. */
  function ExampleModel(): SvmModel {
    SvmModel([0.0, 0.0], [1.0, 1.0], [[0.0, 0.0]], [1.0], -0.5, 1.0, ["no", "yes"])
  }

  /** On that model the origin scores 1 * exp(0) - 0.5 = 0.5 and is labelled "yes". */
  lemma ExampleOriginSmiles(m: Math)
    requires m.Valid()
    ensures WellFormed(ExampleModel())
    ensures Decision([0.0, 0.0], ExampleModel(), m) == 0.5
    ensures LabelFor(Decision([0.0, 0.0], ExampleModel(), m), ExampleModel()) == "yes"
  {
    var model := ExampleModel();
    var x := Standardize([0.0, 0.0], model);
    assert x == [0.0, 0.0];
    KernelAtSupportVector(x, model, m, 0);
    assert KernelSum(x, model, m, 1) == 1.0;
  }
}
