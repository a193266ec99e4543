/**
  The constants table of the standard-atmosphere model (isa.hpp:11-70).

  Every value is written exactly as the header gives it, read as an exact
  rational number instead of an IEEE-754 double. The boundary heights are
  `int` in the header and stay `int` here; they are converted with `as real`
  wherever they meet a real altitude.
 */
module Earth {
  /** Mean radius of the Earth in metres. */
  const Radius: real := 6371000.0
  /** Standard gravitational acceleration at the surface, g0, in m/s^2. */
  const SurfaceGAccel: real := 9.80665
}

module Air {
  const SeaLevelPressure: real := 101325.0      // N/m^2
  const SeaLevelDensity: real := 1.225          // kg/m^3
  const SeaLevelTemperature: real := 288.16     // K
  const PerfectGasConstant: real := 287.053     // J/(kg K)
  /** The double approximation of e that the header passes to `pow`. */
  const EulerNumber: real := 2.718281828459045

  // Lapse rates of the four temperature-gradient layers, in K/m.
  const LapseRateLayerOne: real := -0.0065
  const LapseRateLayerTwo: real := 0.003
  const LapseRateLayerThree: real := -0.0045
  const LapseRateLayerFour: real := 0.004

  // Start and end geopotential heights of the gradient layers, in metres.
  const LayerOneStartHeight: int := 0
  const LayerOneEndHeight: int := 11000
  const LayerTwoStartHeight: int := 25000
  const LayerTwoEndHeight: int := 47000
  const LayerThreeStartHeight: int := 53000
  const LayerThreeEndHeight: int := 79000
  const LayerFourStartHeight: int := 90000
  const LayerFourEndHeight: int := 105000

  // Temperatures at the start and end of the gradient layers, in K. Each
  // start temperature after the first is defined as the previous end one.
  const LayerOneStartTemperature: real := 288.16
  const LayerOneEndTemperature: real := 216.66
  const LayerTwoStartTemperature: real := LayerOneEndTemperature
  const LayerTwoEndTemperature: real := 282.66
  const LayerThreeStartTemperature: real := LayerTwoEndTemperature
  const LayerThreeEndTemperature: real := 165.66
  const LayerFourStartTemperature: real := LayerThreeEndTemperature
  const LayerFourEndTemperature: real := 225.66

  // Temperatures of the three constant-temperature layers, in K.
  const IsothermalLayerOneTemperature: real := 216.66
  const IsothermalLayerTwoTemperature: real := 282.66
  const IsothermalLayerThreeTemperature: real := 165.66

  // Precomputed pressures at the start of each layer, in N/m^2.
  const GradOneStartPressure: real := SeaLevelPressure
  const IsothermalOneStartPressure: real := 22633.4
  const GradTwoStartPressure: real := 2489.02
  const IsothermalTwoStartPressure: real := 120.478
  const GradThreeStartPressure: real := 58.3372
  const IsothermalThreeStartPressure: real := 1.00992
  const GradFourStartPressure: real := 0.104488

  // Precomputed densities at the start of each layer, in kg/m^3.
  const GradOneStartDensity: real := SeaLevelDensity
  const GradTwoStartDensity: real := 0.0400225
  const GradThreeStartDensity: real := 0.000719015
  const GradFourStartDensity: real := 0.00000219739
  const IsothermalOneStartDensity: real := 0.363937
  const IsothermalTwoStartDensity: real := 0.00148491
  const IsothermalThreeStartDensity: real := 0.0000212387

  /** The gradient-layer boundary heights strictly increase with altitude. */
  lemma GradientHeightsIncreasing()
    ensures LayerOneStartHeight < LayerOneEndHeight < LayerTwoStartHeight < LayerTwoEndHeight
    ensures LayerTwoEndHeight < LayerThreeStartHeight < LayerThreeEndHeight
    ensures LayerThreeEndHeight < LayerFourStartHeight < LayerFourEndHeight
  {
  }

  /** Each gradient layer's end temperature is what its lapse rate gives
      over the layer's height span, exactly. */
  lemma GradientEndTemperatures()
    ensures LayerOneEndTemperature == LayerOneStartTemperature
              + LapseRateLayerOne * (LayerOneEndHeight - LayerOneStartHeight) as real
    ensures LayerTwoEndTemperature == LayerTwoStartTemperature
              + LapseRateLayerTwo * (LayerTwoEndHeight - LayerTwoStartHeight) as real
    ensures LayerThreeEndTemperature == LayerThreeStartTemperature
              + LapseRateLayerThree * (LayerThreeEndHeight - LayerThreeStartHeight) as real
    ensures LayerFourEndTemperature == LayerFourStartTemperature
              + LapseRateLayerFour * (LayerFourEndHeight - LayerFourStartHeight) as real
  {
  }

  /** The isothermal temperatures are the temperatures shared by the
      gradient layers around them. */
  lemma TemperatureChain()
    ensures IsothermalLayerOneTemperature == LayerOneEndTemperature == LayerTwoStartTemperature
    ensures IsothermalLayerTwoTemperature == LayerTwoEndTemperature == LayerThreeStartTemperature
    ensures IsothermalLayerThreeTemperature == LayerThreeEndTemperature == LayerFourStartTemperature
  {
  }

  /** The lapse rates alternate in sign, so none of them is zero and the
      exponents of the gradient pressure and density laws are defined. */
  lemma LapseRateSigns()
    ensures LapseRateLayerOne < 0.0 && LapseRateLayerTwo > 0.0
    ensures LapseRateLayerThree < 0.0 && LapseRateLayerFour > 0.0
  {
  }

  /** The first gradient layer starts at sea level. */
  lemma FirstLayerAtSeaLevel()
    ensures LayerOneStartHeight == 0
    ensures LayerOneStartTemperature == SeaLevelTemperature
    ensures GradOneStartPressure == SeaLevelPressure
    ensures GradOneStartDensity == SeaLevelDensity
  {
  }

  /** Every boundary temperature, start pressure and start density is
      strictly positive. */
  lemma BoundaryValuesPositive()
    ensures LayerOneStartTemperature > 0.0 && LayerTwoStartTemperature > 0.0
    ensures LayerThreeStartTemperature > 0.0 && LayerFourStartTemperature > 0.0
    ensures LayerFourEndTemperature > 0.0
    ensures IsothermalLayerOneTemperature > 0.0 && IsothermalLayerTwoTemperature > 0.0
    ensures IsothermalLayerThreeTemperature > 0.0
    ensures GradOneStartPressure > 0.0 && GradTwoStartPressure > 0.0
    ensures GradThreeStartPressure > 0.0 && GradFourStartPressure > 0.0
    ensures IsothermalOneStartPressure > 0.0 && IsothermalTwoStartPressure > 0.0
    ensures IsothermalThreeStartPressure > 0.0
    ensures GradOneStartDensity > 0.0 && GradTwoStartDensity > 0.0
    ensures GradThreeStartDensity > 0.0 && GradFourStartDensity > 0.0
    ensures IsothermalOneStartDensity > 0.0 && IsothermalTwoStartDensity > 0.0
    ensures IsothermalThreeStartDensity > 0.0
  {
  }
}
