/**
  One boundary record per layer, gathered from the constants table
  (isa.hpp:22-69). The dispatchers of the temperature, pressure and density
  models each pick their constants by a switch of their own; this table is
  the single reference those choices are proved against.

  An isothermal layer's record starts where the gradient layer below it
  ends (the height its precomputed pressure and density belong to) and ends
  where the gradient layer above it starts; its lapse rate is zero.
 */
module LayerTable {
  import Air
  import opened Layers

  datatype LayerRecord = LayerRecord(
    startHeight: int,
    endHeight: int,
    startTemperature: real,
    lapseRate: real,
    startPressure: real,
    startDensity: real)
  {
    /** The temperature the layer's law gives at geopotential height `h`. */
    function TemperatureAt(h: real): real {
      startTemperature + lapseRate * (h - startHeight as real)
    }

    /** The temperature the layer's law gives at its own end height. */
    function EndTemperature(): real {
      TemperatureAt(endHeight as real)
    }
  }

  function Record(l: Layer): (r: LayerRecord)
    ensures r.lapseRate == 0.0 <==> l.IsIsothermal()
  {
    match l
    case GradientOne =>
      LayerRecord(Air.LayerOneStartHeight, Air.LayerOneEndHeight, Air.LayerOneStartTemperature,
                  Air.LapseRateLayerOne, Air.GradOneStartPressure, Air.GradOneStartDensity)
    case IsothermalOne =>
      LayerRecord(Air.LayerOneEndHeight, Air.LayerTwoStartHeight, Air.IsothermalLayerOneTemperature,
                  0.0, Air.IsothermalOneStartPressure, Air.IsothermalOneStartDensity)
    case GradientTwo =>
      LayerRecord(Air.LayerTwoStartHeight, Air.LayerTwoEndHeight, Air.LayerTwoStartTemperature,
                  Air.LapseRateLayerTwo, Air.GradTwoStartPressure, Air.GradTwoStartDensity)
    case IsothermalTwo =>
      LayerRecord(Air.LayerTwoEndHeight, Air.LayerThreeStartHeight, Air.IsothermalLayerTwoTemperature,
                  0.0, Air.IsothermalTwoStartPressure, Air.IsothermalTwoStartDensity)
    case GradientThree =>
      LayerRecord(Air.LayerThreeStartHeight, Air.LayerThreeEndHeight, Air.LayerThreeStartTemperature,
                  Air.LapseRateLayerThree, Air.GradThreeStartPressure, Air.GradThreeStartDensity)
    case IsothermalThree =>
      LayerRecord(Air.LayerThreeEndHeight, Air.LayerFourStartHeight, Air.IsothermalLayerThreeTemperature,
                  0.0, Air.IsothermalThreeStartPressure, Air.IsothermalThreeStartDensity)
    case GradientFour =>
      LayerRecord(Air.LayerFourStartHeight, Air.LayerFourEndHeight, Air.LayerFourStartTemperature,
                  Air.LapseRateLayerFour, Air.GradFourStartPressure, Air.GradFourStartDensity)
  }

  /** The record of the layer at position `i` counted from sea level. */
  function RecordAt(i: nat): LayerRecord
    requires i < 7
  {
    Record(LayerAt(i))
  }

  /** Layer `i` ends exactly where layer `i + 1` starts, and the temperature
      law of layer `i` reaches the start temperature of layer `i + 1` there. */
  ghost predicate Joins(i: nat)
    requires i < 6
  {
    && RecordAt(i).startHeight < RecordAt(i).endHeight
    && RecordAt(i).endHeight == RecordAt(i + 1).startHeight
    && RecordAt(i).EndTemperature() == RecordAt(i + 1).startTemperature
  }

  /** The records partition the geopotential heights from 0 to 105000 m
      into seven non-empty bands with no gap, temperature is continuous at
      every one of the six inner boundaries, gradient layers have non-zero
      lapse rates and every boundary value is strictly positive. */
  lemma TableConsistent()
    ensures RecordAt(0).startHeight == 0 && RecordAt(6).endHeight == 105000
    ensures RecordAt(6).startHeight < RecordAt(6).endHeight
    ensures forall i: nat | i < 6 :: Joins(i)
    ensures forall l: Layer :: l.IsGradient() ==> Record(l).lapseRate != 0.0
    ensures forall l: Layer :: Record(l).startTemperature > 0.0
    ensures forall l: Layer :: Record(l).startPressure > 0.0 && Record(l).startDensity > 0.0
    ensures RecordAt(6).EndTemperature() > 0.0
  {
  }

  /** The start temperature of every layer above the first is the end
      temperature of the layer below it; for the isothermal layers that is
      their constant temperature. */
  lemma StartIsPreviousEnd(l: Layer)
    requires Order(l) > 0
    ensures Record(l).startTemperature == RecordAt(Order(l) - 1).EndTemperature()
    ensures Record(l).startHeight == RecordAt(Order(l) - 1).endHeight
  {
    TableConsistent();
    assert Joins(Order(l) - 1);
  }
}
