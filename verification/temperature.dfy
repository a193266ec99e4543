/**
  The temperature model: `isa_temperature`, `isa_isothermal_temperature`
  and `isa_gradient_temperature` (isa.cpp:24-98).

  The dispatcher classifies the height and hands isothermal layers to the
  constant law and gradient layers to the linear law. Each law selects its
  constants by a switch over the layer; the source's `default` branches,
  reached only with a layer of the other kind, return 0 or read
  uninitialised locals, and are excluded here by the laws' preconditions.
 */
module Temperature {
  import Air
  import opened Layers
  import opened Errors
  import opened LayerTable
  import opened Geopotential
  import opened Classifier

  /** `isa_isothermal_temperature`: the constant temperature of an
      isothermal layer, which is the layer record's temperature. */
  function IsothermalTemperature(layer: Layer): (t: real)
    requires layer.IsIsothermal()
    ensures t == Record(layer).startTemperature
    ensures t > 0.0
  {
    if layer == IsothermalOne then Air.IsothermalLayerOneTemperature
    else if layer == IsothermalTwo then Air.IsothermalLayerTwoTemperature
    else Air.IsothermalLayerThreeTemperature
  }

  /** `isa_gradient_temperature`: the linear law `T1 + a * (h - h1)` with the
      start temperature, lapse rate and start height of the given gradient
      layer, at the geopotential height of `z`. It is the layer record's
      temperature law, so it gives the start temperature at the start height. */
  function GradientTemperature(z: real, layer: Layer): (t: real)
    requires AboveCentre(z)
    requires layer.IsGradient()
    ensures t == Record(layer).TemperatureAt(GeopotentialHeight(z))
    ensures GeopotentialHeight(z) == Record(layer).startHeight as real ==> t == Record(layer).startTemperature
  {
    var h := GeopotentialHeight(z);
    var (a, t1, h1) :=
      if layer == GradientOne then
        (Air.LapseRateLayerOne, Air.LayerOneStartTemperature, Air.LayerOneStartHeight)
      else if layer == GradientTwo then
        (Air.LapseRateLayerTwo, Air.LayerTwoStartTemperature, Air.LayerTwoStartHeight)
      else if layer == GradientThree then
        (Air.LapseRateLayerThree, Air.LayerThreeStartTemperature, Air.LayerThreeStartHeight)
      else
        (Air.LapseRateLayerFour, Air.LayerFourStartTemperature, Air.LayerFourStartHeight);
    t1 + a * (h - h1 as real)
  }

  /** `isa_temperature`: it fails exactly when the classifier fails, with the
      same error; otherwise it is the temperature law of the classified
      layer's record at the geopotential height, and it is strictly positive. */
  function IsaTemperature(z: real): (r: Result<real>)
    requires AboveCentre(z)
    ensures r.Failure? <==> GetLayer(z).Failure?
    ensures r.Failure? ==> r.error == GetLayer(z).error
    ensures r.Success? ==> r.value == Record(GetLayer(z).value).TemperatureAt(GeopotentialHeight(z))
    ensures r.Success? ==> r.value > 0.0
  {
    match GetLayer(z)
    case Failure(e) => Failure(e)
    case Success(layer) =>
      if layer.IsIsothermal() then Success(IsothermalTemperature(layer))
      else Success(GradientTemperature(z, layer))
  }

  /** Inside an isothermal layer the temperature does not depend on height. */
  lemma IsothermalTemperatureIndependentOfHeight(z1: real, z2: real, layer: Layer)
    requires AboveCentre(z1) && AboveCentre(z2)
    requires layer.IsIsothermal()
    requires GetLayer(z1) == Success(layer) && GetLayer(z2) == Success(layer)
    ensures IsaTemperature(z1) == IsaTemperature(z2) == Success(IsothermalTemperature(layer))
  {
  }

  /** Temperature at sea level is the sea-level temperature, 288.16 K. */
  lemma TemperatureAtSeaLevel()
    ensures IsaTemperature(0.0) == Success(Air.SeaLevelTemperature)
  {
  }

  /** A gradient layer's linear law, evaluated at the layer's nominal end,
      gives the constant temperature of the isothermal layer above it. */
  lemma GradientEndMeetsIsothermal(z: real, layer: Layer)
    requires AboveCentre(z)
    requires layer.IsGradient() && Order(layer) < 6
    requires GeopotentialHeight(z) == Record(layer).endHeight as real
    ensures GradientTemperature(z, layer) == IsothermalTemperature(LayerAt(Order(layer) + 1))
  {
    TableConsistent();
    assert Joins(Order(layer));
  }

  /** An isothermal layer's constant temperature is the start temperature of
      the gradient layer above it, which its linear law gives at its start. */
  lemma IsothermalMeetsNextGradient(z: real, layer: Layer)
    requires AboveCentre(z)
    requires layer.IsIsothermal()
    requires GeopotentialHeight(z) == Record(LayerAt(Order(layer) + 1)).startHeight as real
    ensures GradientTemperature(z, LayerAt(Order(layer) + 1)) == IsothermalTemperature(layer)
  {
    TableConsistent();
    assert Joins(Order(layer));
  }

  /** Because the first band reaches 20 m past the tropopause, heights just
      above 11000 m still get the first gradient law, which there falls below
      the 216.66 K of the isothermal layer that takes over at 11020 m. */
  lemma TropopauseOverlapColder(z: real)
    requires AboveCentre(z)
    requires Air.LayerOneEndHeight as real < GeopotentialHeight(z) < UpperBound(GradientOne)
    ensures IsaTemperature(z).Success?
    ensures IsaTemperature(z).value < IsothermalTemperature(IsothermalOne)
  {
  }

  /** A geometric height of 20000 m lies in the first isothermal layer, so
      its temperature is 216.66 K. */
  lemma TwentyKilometres()
    ensures IsaTemperature(20000.0) == Success(216.66)
  {
    assert 19937.0 < GeopotentialHeight(20000.0) < 19938.0;
  }
}
