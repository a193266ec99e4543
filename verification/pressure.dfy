/**
  The pressure model: `isa_pressure`, `isa_isothermal_pressure` and
  `isa_gradient_pressure` (isa.cpp:100-191), modelled structurally: each
  law returns the `PowerTerm` it would hand to `pow`, so the proofs are about
  which constants are selected and how the exponent is formed.

  Isothermal layers: `p1 * e^(-(g0 / (R T)) * (h - h1))`, anchored at the
  end height of the gradient layer below. Gradient layers:
  `p1 * (T / T1)^(-g0 / (a R))`, with `T` obtained by calling the
  temperature model at the same geometric height.
 */
module Pressure {
  import Earth
  import Air
  import opened Layers
  import opened Errors
  import opened LayerTable
  import opened Geopotential
  import opened Classifier
  import opened Temperature
  import opened PowerLaw

  /** The height an isothermal layer's law is anchored at: the end height of
      the gradient layer below it, where its start pressure and density were
      evaluated. It is also the start height of the layer's record. */
  function AnchorHeight(layer: Layer): (h1: int)
    requires layer.IsIsothermal()
    ensures LayerAt(Order(layer) - 1).IsGradient()
    ensures h1 == Record(layer).startHeight
  {
    StartIsPreviousEnd(layer);
    RecordAt(Order(layer) - 1).endHeight
  }

  /** The exponent of the isothermal law, `-(g0 / (R T)) * (h - h1)`. */
  function IsothermalExponent(t: real, h: real, h1: int): real
    requires t > 0.0
  {
    (-Earth.SurfaceGAccel / (Air.PerfectGasConstant * t)) * (h - h1 as real)
  }

  /** The isothermal exponent is zero exactly at the anchor and negative
      above it, so the law decays upwards from its start value. */
  lemma IsothermalExponentSign(t: real, h: real, h1: int)
    requires t > 0.0
    ensures IsothermalExponent(t, h, h1) == 0.0 <==> h == h1 as real
    ensures h > h1 as real ==> IsothermalExponent(t, h, h1) < 0.0
  {
    var k := Earth.SurfaceGAccel / (Air.PerfectGasConstant * t);
    assert k > 0.0;
    assert IsothermalExponent(t, h, h1) == -(k * (h - h1 as real));
    if h > h1 as real {
      PositiveProduct(k, h - h1 as real);
    } else if h < h1 as real {
      PositiveProduct(k, h1 as real - h);
    }
  }

  /** `isa_isothermal_pressure`: scale is the layer's start pressure, base is
      the header's e, and the exponent vanishes exactly at the anchor height
      (the end of the gradient layer below) and is negative above it. */
  function IsothermalPressure(z: real, layer: Layer): (r: PowerTerm)
    requires AboveCentre(z)
    requires layer.IsIsothermal()
    ensures r.scale == Record(layer).startPressure
    ensures r.base == Air.EulerNumber
    ensures r.exponent == IsothermalExponent(IsothermalTemperature(layer), GeopotentialHeight(z), AnchorHeight(layer))
    ensures r.exponent == 0.0 <==> GeopotentialHeight(z) == AnchorHeight(layer) as real
    ensures GeopotentialHeight(z) > AnchorHeight(layer) as real ==> r.exponent < 0.0
  {
    var h := GeopotentialHeight(z);
    var (t, h1, p1) :=
      if layer == IsothermalOne then
        (Air.IsothermalLayerOneTemperature, Air.LayerOneEndHeight, Air.IsothermalOneStartPressure)
      else if layer == IsothermalTwo then
        (Air.IsothermalLayerTwoTemperature, Air.LayerTwoEndHeight, Air.IsothermalTwoStartPressure)
      else
        (Air.IsothermalLayerThreeTemperature, Air.LayerThreeEndHeight, Air.IsothermalThreeStartPressure);
    IsothermalExponentSign(t, h, h1);
    PowerTerm(p1, Air.EulerNumber, IsothermalExponent(t, h, h1))
  }

  /** `isa_gradient_pressure`: fails exactly when the temperature model fails
      at `z`; otherwise scale is the layer's start pressure, base is the
      temperature at `z` over the layer's start temperature, and the exponent
      `x` solves `x * a * R == -g0` for the layer's lapse rate `a`. */
  function GradientPressure(z: real, layer: Layer): (r: Result<PowerTerm>)
    requires AboveCentre(z)
    requires layer.IsGradient()
    ensures r.Failure? <==> IsaTemperature(z).Failure?
    ensures r.Failure? ==> r.error == IsaTemperature(z).error
    ensures r.Success? ==> r.value.scale == Record(layer).startPressure
    ensures r.Success? ==> r.value.base * Record(layer).startTemperature == IsaTemperature(z).value
    ensures r.Success? ==>
              r.value.exponent * Record(layer).lapseRate * Air.PerfectGasConstant == -Earth.SurfaceGAccel
  {
    var (t1, a, p1) :=
      if layer == GradientOne then
        (Air.SeaLevelTemperature, Air.LapseRateLayerOne, Air.GradOneStartPressure)
      else if layer == GradientTwo then
        (Air.LayerTwoStartTemperature, Air.LapseRateLayerTwo, Air.GradTwoStartPressure)
      else if layer == GradientThree then
        (Air.LayerThreeStartTemperature, Air.LapseRateLayerThree, Air.GradThreeStartPressure)
      else
        (Air.LayerFourStartTemperature, Air.LapseRateLayerFour, Air.GradFourStartPressure);
    var t :- IsaTemperature(z);
    Success(PowerTerm(p1, t / t1, -Earth.SurfaceGAccel / (a * Air.PerfectGasConstant)))
  }

  /** `isa_pressure`: fails exactly when the classifier fails, with the same
      error; otherwise the term is the classified layer's own law. Its scale
      is that layer's start pressure and its base is positive, so `pow` is
      always given a positive base. In a gradient layer the base is the
      temperature over the layer's start temperature and the exponent is
      `-g0 / (a R)` for the layer's lapse rate; in an isothermal layer the
      base is e and the exponent is the layer's anchored, negative exponent. */
  function IsaPressure(z: real): (r: Result<PowerTerm>)
    requires AboveCentre(z)
    ensures r.Failure? <==> GetLayer(z).Failure?
    ensures r.Failure? ==> r.error == GetLayer(z).error
    ensures r.Success? ==> r.value.scale == Record(GetLayer(z).value).startPressure
    ensures r.Success? ==> r.value.base > 0.0
    ensures r.Success? && GetLayer(z).value.IsGradient() ==>
              r.value.base * Record(GetLayer(z).value).startTemperature == IsaTemperature(z).value
    ensures r.Success? && GetLayer(z).value.IsGradient() ==>
              r.value.exponent * Record(GetLayer(z).value).lapseRate * Air.PerfectGasConstant == -Earth.SurfaceGAccel
    ensures r.Success? && GetLayer(z).value.IsIsothermal() ==>
              && r.value.base == Air.EulerNumber
              && r.value.exponent == IsothermalExponent(Record(GetLayer(z).value).startTemperature,
                                                        GeopotentialHeight(z), AnchorHeight(GetLayer(z).value))
              && r.value.exponent < 0.0
  {
    match GetLayer(z)
    case Failure(e) => Failure(e)
    case Success(layer) =>
      if layer.IsIsothermal() then
        ClassifyMatchesBands(GeopotentialHeight(z), layer);
        Success(IsothermalPressure(z, layer))
      else
        GradientPressure(z, layer)
  }

  /** At sea level the pressure law is the sea-level pressure times a power
      of 1, so under any `pow` with `pow(1, y) == 1` it is 101325 Pa. */
  lemma PressureAtSeaLevel(pow: (real, real) -> real)
    requires forall y :: pow(1.0, y) == 1.0
    ensures IsaPressure(0.0).Success?
    ensures IsaPressure(0.0).value.scale == Air.SeaLevelPressure
    ensures IsaPressure(0.0).value.base == 1.0
    ensures Evaluate(IsaPressure(0.0).value, pow) == Air.SeaLevelPressure
  {
    UnitBaseEvaluatesToScale(IsaPressure(0.0).value, pow);
  }

  /** At its anchor height an isothermal law's exponent is 0, so under any
      `pow` with `pow(x, 0) == 1` the pressure there is the layer's start
      pressure: the law continues from the value the header records. */
  lemma IsothermalPressureAtAnchor(z: real, layer: Layer, pow: (real, real) -> real)
    requires AboveCentre(z)
    requires layer.IsIsothermal()
    requires GeopotentialHeight(z) == AnchorHeight(layer) as real
    requires forall x :: pow(x, 0.0) == 1.0
    ensures Evaluate(IsothermalPressure(z, layer), pow) == Record(layer).startPressure
  {
    ZeroExponentEvaluatesToScale(IsothermalPressure(z, layer), pow);
  }
}
