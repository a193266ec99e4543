/**
  The density model: `isa_density`, `isa_isothermal_density` and
  `isa_gradient_density` (isa.cpp:232-319), modelled structurally like the
  pressure model, which it mirrors.

  Isothermal layers: `rho1 * e^(-(g0 / (R T)) * (h - h1))`, with the same
  temperature and anchor as pressure. Gradient layers:
  `rho1 * (T / T1)^(-((g0 / (a R)) + 1))`: by the ideal gas law the
  exponent is the pressure exponent minus one.
 */
module Density {
  import Earth
  import Air
  import opened Layers
  import opened Errors
  import opened LayerTable
  import opened Geopotential
  import opened Classifier
  import opened Temperature
  import opened PowerLaw
  import opened Pressure

  /** `isa_isothermal_density`: scale is the layer's start density, base is
      the header's e, and the exponent vanishes exactly at the anchor height
      (the end of the gradient layer below) and is negative above it. */
  function IsothermalDensity(z: real, layer: Layer): (r: PowerTerm)
    requires AboveCentre(z)
    requires layer.IsIsothermal()
    ensures r.scale == Record(layer).startDensity
    ensures r.base == Air.EulerNumber
    ensures r.exponent == IsothermalExponent(IsothermalTemperature(layer), GeopotentialHeight(z), AnchorHeight(layer))
    ensures r.exponent == 0.0 <==> GeopotentialHeight(z) == AnchorHeight(layer) as real
    ensures GeopotentialHeight(z) > AnchorHeight(layer) as real ==> r.exponent < 0.0
  {
    var h := GeopotentialHeight(z);
    var (t, h1, rho1) :=
      if layer == IsothermalOne then
        (Air.IsothermalLayerOneTemperature, Air.LayerOneEndHeight, Air.IsothermalOneStartDensity)
      else if layer == IsothermalTwo then
        (Air.IsothermalLayerTwoTemperature, Air.LayerTwoEndHeight, Air.IsothermalTwoStartDensity)
      else
        (Air.IsothermalLayerThreeTemperature, Air.LayerThreeEndHeight, Air.IsothermalThreeStartDensity);
    IsothermalExponentSign(t, h, h1);
    PowerTerm(rho1, Air.EulerNumber, IsothermalExponent(t, h, h1))
  }

  /** `isa_gradient_density`: fails exactly when the temperature model fails
      at `z`; otherwise scale is the layer's start density, base is the
      temperature at `z` over the layer's start temperature, and the exponent
      `x` solves `(x + 1) * a * R == -g0` for the layer's lapse rate `a`. */
  function GradientDensity(z: real, layer: Layer): (r: Result<PowerTerm>)
    requires AboveCentre(z)
    requires layer.IsGradient()
    ensures r.Failure? <==> IsaTemperature(z).Failure?
    ensures r.Failure? ==> r.error == IsaTemperature(z).error
    ensures r.Success? ==> r.value.scale == Record(layer).startDensity
    ensures r.Success? ==> r.value.base * Record(layer).startTemperature == IsaTemperature(z).value
    ensures r.Success? ==>
              (r.value.exponent + 1.0) * Record(layer).lapseRate * Air.PerfectGasConstant == -Earth.SurfaceGAccel
  {
    var t :- IsaTemperature(z);
    var (t1, rho1, a) :=
      if layer == GradientOne then
        (Air.LayerOneStartTemperature, Air.GradOneStartDensity, Air.LapseRateLayerOne)
      else if layer == GradientTwo then
        (Air.LayerTwoStartTemperature, Air.GradTwoStartDensity, Air.LapseRateLayerTwo)
      else if layer == GradientThree then
        (Air.LayerThreeStartTemperature, Air.GradThreeStartDensity, Air.LapseRateLayerThree)
      else
        (Air.LayerFourStartTemperature, Air.GradFourStartDensity, Air.LapseRateLayerFour);
    Success(PowerTerm(rho1, t / t1, -((Earth.SurfaceGAccel / (a * Air.PerfectGasConstant)) + 1.0)))
  }

  /** `isa_density`: fails exactly when the classifier fails, with the same
      error; otherwise the term is the classified layer's own law. Its scale
      is that layer's start density and its base is positive. In a gradient
      layer the base is the temperature over the layer's start temperature
      and the exponent is `-(g0 / (a R) + 1)` for the layer's lapse rate; in
      an isothermal layer the base is e and the exponent is the layer's
      anchored, negative exponent. */
  function IsaDensity(z: real): (r: Result<PowerTerm>)
    requires AboveCentre(z)
    ensures r.Failure? <==> GetLayer(z).Failure?
    ensures r.Failure? ==> r.error == GetLayer(z).error
    ensures r.Success? ==> r.value.scale == Record(GetLayer(z).value).startDensity
    ensures r.Success? ==> r.value.base > 0.0
    ensures r.Success? && GetLayer(z).value.IsGradient() ==>
              r.value.base * Record(GetLayer(z).value).startTemperature == IsaTemperature(z).value
    ensures r.Success? && GetLayer(z).value.IsGradient() ==>
              (r.value.exponent + 1.0) * Record(GetLayer(z).value).lapseRate * Air.PerfectGasConstant
              == -Earth.SurfaceGAccel
    ensures r.Success? && GetLayer(z).value.IsIsothermal() ==>
              && r.value.base == Air.EulerNumber
              && r.value.exponent == IsothermalExponent(Record(GetLayer(z).value).startTemperature,
                                                        GeopotentialHeight(z), AnchorHeight(GetLayer(z).value))
              && r.value.exponent < 0.0
  {
    match GetLayer(z)
    case Failure(e) => Failure(e)
    case Success(layer) =>
      if layer.IsIsothermal() then
        ClassifyMatchesBands(GeopotentialHeight(z), layer);
        Success(IsothermalDensity(z, layer))
      else
        GradientDensity(z, layer)
  }

  /** In a gradient layer density and pressure select the same start
      temperature and lapse rate: they fail together, share the base
      `T / T1`, and the density exponent is the pressure exponent minus 1. */
  lemma GradientDensityMatchesPressure(z: real, layer: Layer)
    requires AboveCentre(z)
    requires layer.IsGradient()
    ensures GradientDensity(z, layer).Success? <==> GradientPressure(z, layer).Success?
    ensures GradientDensity(z, layer).Success? ==>
              && GradientDensity(z, layer).value.base == GradientPressure(z, layer).value.base
              && GradientDensity(z, layer).value.exponent == GradientPressure(z, layer).value.exponent - 1.0
  {
  }

  /** In an isothermal layer density and pressure use the same temperature
      and the same anchor height: only the scale differs. */
  lemma IsothermalDensityMatchesPressure(z: real, layer: Layer)
    requires AboveCentre(z)
    requires layer.IsIsothermal()
    ensures IsothermalDensity(z, layer).base == IsothermalPressure(z, layer).base
    ensures IsothermalDensity(z, layer).exponent == IsothermalPressure(z, layer).exponent
  {
  }

  /** The two dispatchers agree everywhere: they fail together, share base,
      and their exponents are equal in isothermal layers and differ by
      exactly 1 in gradient layers. */
  lemma DensityMirrorsPressure(z: real)
    requires AboveCentre(z)
    ensures IsaDensity(z).Success? <==> IsaPressure(z).Success?
    ensures IsaDensity(z).Success? ==> IsaDensity(z).value.base == IsaPressure(z).value.base
    ensures IsaDensity(z).Success? && GetLayer(z).value.IsIsothermal() ==>
              IsaDensity(z).value.exponent == IsaPressure(z).value.exponent
    ensures IsaDensity(z).Success? && GetLayer(z).value.IsGradient() ==>
              IsaDensity(z).value.exponent == IsaPressure(z).value.exponent - 1.0
  {
    if GetLayer(z).Success? && GetLayer(z).value.IsGradient() {
      GradientDensityMatchesPressure(z, GetLayer(z).value);
    }
  }

  /** At sea level the density law is the sea-level density times a power
      of 1, so under any `pow` with `pow(1, y) == 1` it is 1.225 kg/m^3. */
  lemma DensityAtSeaLevel(pow: (real, real) -> real)
    requires forall y :: pow(1.0, y) == 1.0
    ensures IsaDensity(0.0).Success?
    ensures IsaDensity(0.0).value.scale == Air.SeaLevelDensity
    ensures IsaDensity(0.0).value.base == 1.0
    ensures Evaluate(IsaDensity(0.0).value, pow) == Air.SeaLevelDensity
  {
    UnitBaseEvaluatesToScale(IsaDensity(0.0).value, pow);
  }

  /** At its anchor height an isothermal law's exponent is 0, so under any
      `pow` with `pow(x, 0) == 1` the density there is the layer's start
      density: the law continues from the value the header records. */
  lemma IsothermalDensityAtAnchor(z: real, layer: Layer, pow: (real, real) -> real)
    requires AboveCentre(z)
    requires layer.IsIsothermal()
    requires GeopotentialHeight(z) == AnchorHeight(layer) as real
    requires forall x :: pow(x, 0.0) == 1.0
    ensures Evaluate(IsothermalDensity(z, layer), pow) == Record(layer).startDensity
  {
    ZeroExponentEvaluatesToScale(IsothermalDensity(z, layer), pow);
  }
}
