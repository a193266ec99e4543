# International Standard Atmosphere: a Dafny model

This project models the core of a small C++ implementation of the International Standard Atmosphere up to 105 km of geopotential altitude. The core has four parts:

- the constants table of the Earth and of the air column;
- the conversion of geometric altitude into geopotential altitude;
- the classifier that places a geopotential altitude into one of seven layers, four gradient layers and three isothermal layers;
- the per-layer laws for temperature, pressure and density.

Doubles are modelled as exact `real` numbers. The constants are the header's literal values, so the boundary identities hold exactly. For example, 288.16 − 0.0065 · 11000 = 216.66.

Layout, one module per component:

- `constants.dfy`: modules `Earth` and `Air`, the header's constants and their invariants.
- `layers.dfy`: module `Layers` (the seven-tag enum and its altitude order) and module `Errors` (the `OutOfRange(h)` failure and `Result`).
- `layer_table.dfy`: module `LayerTable`, one boundary record per layer. It is the reference the dispatchers' own switch statements are proved against.
- `geopotential.dfy`: module `Geopotential`, the conversion, its inverse and gravity.
- `classifier.dfy`: module `Classifier`, `get_layer`.
- `temperature.dfy`, `pressure.dfy`, `density.dfy`, `power_law.dfy`: the three models. Pressure and density laws return a `PowerTerm(scale, base, exponent)` that stands for `scale * base^exponent`. The power function is a parameter, never a definition.

Three facts about the classifier, `get_layer` (isa.cpp:193-229), that the model keeps as the code has them:

- It has no lower bound: the first interval is only `h < 11020`, so every negative geopotential height lands in the first gradient layer (`Classifier.ClassifyGeopotential`, third ensures).
- The first interval is widened by 20 m past its nominal end, and the other six by `diff = 10`. Classification therefore fails exactly from 105010 m geopotential.
- It takes a geometric height. 106000 m geometric is about 104266 m geopotential, so it is still classified, into the fourth gradient layer (`Classifier.GeometricHeightAboveNominalEnd`). The geometric ceiling is `GeometricHeight(105010)`, about 106770 m.

## Model

| member | source | states |
|---|---|---|
| Air.GradientHeightsIncreasing | isa.hpp:28-36 | the eight gradient-layer boundary heights strictly increase: 0 < 11000 < 25000 < 47000 < 53000 < 79000 < 90000 < 105000 |
| Air.GradientEndTemperatures | isa.hpp:22-46 | each gradient layer's end temperature is exactly its start temperature plus lapse rate times height span |
| Air.TemperatureChain | isa.hpp:38-51 | the three isothermal temperatures equal the end temperature of the gradient layer below and the start temperature of the one above (216.66, 282.66, 165.66) |
| Air.LapseRateSigns | isa.hpp:22-26 | the lapse rates are negative, positive, negative, positive, hence non-zero |
| Air.FirstLayerAtSeaLevel | isa.hpp:16-63 | the first gradient layer starts at height 0 with the sea-level temperature, pressure and density |
| Air.BoundaryValuesPositive | isa.hpp:38-69 | every boundary temperature, start pressure and start density is strictly positive |
| Layers.Order | isa.cpp:198-225 | positions 0..6 by altitude; the even positions are exactly the gradient layers, so the kinds alternate |
| Layers.LayerAt | isa.cpp:198-225 | the layer at each altitude position, inverse to `Order` |
| Layers.OrderRoundTrip | isa.cpp:198-225 | `LayerAt(Order(l)) == l`: the altitude order lists each tag exactly once |
| Layers.GradientOrIsothermal | isa.hpp:72-80 | every tag is of exactly one kind |
| Layers.LayerEnumClosed | isa.hpp:72-80 | the enum has exactly seven tags: four gradient and three isothermal, disjoint |
| LayerTable.Record | isa.hpp:22-69 | per-layer record; its lapse rate is zero exactly for the isothermal layers |
| LayerTable.TableConsistent | isa.hpp:28-69 | the records partition 0..105000 m into seven non-empty contiguous bands; temperature is continuous at all six inner boundaries; gradient lapse rates are non-zero; all start values are positive |
| LayerTable.StartIsPreviousEnd | isa.hpp:38-51 | each layer above the first starts at the height and temperature where the layer below ends |
| Geopotential.GravitationalAccel | isa.cpp:15-18 | gravity is positive, equals g0 at sea level, is below g0 above sea level and above g0 below it |
| Geopotential.GeopotentialHeight | isa.cpp:20-22 | 0 at sea level; for positive input lies strictly between 0 and the input; for negative input lies below the input; always below the Earth's radius |
| Geopotential.ScaledTowardsZero | isa.cpp:20-22 | the conversion equals `R - R * R / (R + z)`, which is below `R`, and moves its input towards 0 without crossing it |
| Geopotential.GeometricHeight | isa.cpp:20-22 | for every height below the radius, a geometric height whose geopotential height is that height |
| Geopotential.GeometricOfGeopotential | isa.cpp:20-22 | converting to geopotential and back returns the input |
| Geopotential.GeopotentialStrictlyIncreasing | isa.cpp:20-22 | the conversion is strictly increasing over all heights above the Earth's centre |
| Geopotential.GeopotentialOrder | isa.cpp:20-22 | the conversion preserves and reflects `<` and `==` |
| Geopotential.GeopotentialInjective | isa.cpp:20-22 | distinct geometric heights have distinct geopotential heights |
| Geopotential.GravityMatchesGeopotential | isa.cpp:15-22 | `g(z) * z^2 == g0 * h(z)^2`: gravity and geopotential height use the same radius ratio |
| Classifier.ClassifyGeopotential | isa.cpp:193-228 | fails iff h >= 105010, and the failure carries h; every negative h goes to the first gradient layer |
| Classifier.GetLayer | isa.cpp:193-228 | fails iff the geometric height reaches `GeometricHeight(105010)`, with the geopotential height as payload; heights at or below sea level go to the first gradient layer |
| Classifier.ClassifyMatchesBands | isa.cpp:196-225 | h is classified into l iff it lies in l's effective band: from the widened upper bound of the layer below to l's own; that band satisfies l's branch condition |
| Classifier.OverlapGoesToLowerLayer | isa.cpp:196-225 | a height between a layer's nominal end and its widened bound also satisfies the next layer's condition, yet is classified into the lower layer (first match wins) |
| Classifier.ClassifyMonotone | isa.cpp:198-225 | if a height is classified, every lower height is too, into a layer no later in altitude order |
| Classifier.GetLayerMonotone | isa.cpp:193-225 | the same monotonicity for geometric heights |
| Classifier.NominalBoundsClassified | isa.cpp:198-225 | a nominal boundary height belongs to the layer below it: each layer's end is classified into it, each start above sea level into the layer before |
| Classifier.NominalRangeClassified | isa.cpp:198-225 | every geopotential height from 0 to 105000 m is classified |
| Classifier.GeometricHeightAboveNominalEnd | isa.cpp:193-225 | geometric 106000 m is classified into the fourth gradient layer |
| Temperature.IsothermalTemperature | isa.cpp:49-63 | each isothermal layer's constant is its record's temperature, and it is positive |
| Temperature.GradientTemperature | isa.cpp:65-98 | the linear law uses the layer record's start temperature, lapse rate and start height, so it equals T1 at the layer start |
| Temperature.IsaTemperature | isa.cpp:24-47 | fails iff classification fails, with the same error; otherwise it is the classified layer's record law at h and is strictly positive |
| Temperature.IsothermalTemperatureIndependentOfHeight | isa.cpp:29-34 | two heights in the same isothermal layer get the same temperature, that layer's constant |
| Temperature.TemperatureAtSeaLevel | isa.cpp:24-98 | temperature at geometric height 0 is 288.16 K |
| Temperature.GradientEndMeetsIsothermal | isa.cpp:65-97 | each gradient law at its layer's end height equals the constant of the isothermal layer above |
| Temperature.IsothermalMeetsNextGradient | isa.cpp:49-97 | each isothermal constant equals the next gradient layer's law at its start height |
| Temperature.TropopauseOverlapColder | isa.cpp:198-204 | between 11000 and 11020 m the first gradient law still applies and gives less than 216.66 K |
| Temperature.TwentyKilometres | isa.cpp:24-34 | geometric 20000 m gives 216.66 K |
| PowerLaw.UnitBaseEvaluatesToScale | isa.cpp:190 | under any `pow` with `pow(1, y) == 1`, a base-1 term evaluates to its scale |
| PowerLaw.ZeroExponentEvaluatesToScale | isa.cpp:151 | under any `pow` with `pow(x, 0) == 1`, an exponent-0 term evaluates to its scale |
| Pressure.AnchorHeight | isa.cpp:131-147 | the isothermal anchor is the end height of the gradient layer below, which is the layer record's start height |
| Pressure.IsothermalExponentSign | isa.cpp:151 | the isothermal exponent is zero iff h equals the anchor, and negative above it |
| Pressure.IsothermalPressure | isa.cpp:124-152 | scale is the layer's start pressure, base is e, and the exponent is zero exactly at the anchor and negative above it |
| Pressure.GradientPressure | isa.cpp:154-191 | fails iff the temperature model fails; scale is the start pressure; base times the record's T1 is the temperature (for the first layer the code reads `sea_level_temperature`, which equals it); exponent times a times R is -g0 |
| Pressure.IsaPressure | isa.cpp:100-122 | fails iff classification fails; otherwise the classified layer's own law: scale is its start pressure and the base is positive; in a gradient layer base times its T1 is the temperature and exponent times its a times R is -g0; in an isothermal layer base is e and the exponent is its anchored exponent, which is negative |
| Pressure.IsothermalPressureAtAnchor | isa.cpp:133-151 | at the anchor height, under any `pow` with `pow(x, 0) == 1`, isothermal pressure is the layer's start pressure |
| Pressure.PressureAtSeaLevel | isa.cpp:160-190 | at sea level scale is 101325 and base is 1, so under `pow(1, y) == 1` pressure is 101325 Pa |
| Density.IsothermalDensity | isa.cpp:291-319 | scale is the layer's start density, base is e, and the exponent is zero exactly at the anchor and negative above it |
| Density.GradientDensity | isa.cpp:256-289 | fails iff the temperature model fails; scale is the start density; base times T1 is the temperature; (exponent + 1) times a times R is -g0 |
| Density.IsaDensity | isa.cpp:232-254 | fails iff classification fails; otherwise the classified layer's own law: scale is its start density and the base is positive; in a gradient layer base times its T1 is the temperature and (exponent + 1) times its a times R is -g0; in an isothermal layer base is e and the exponent is its anchored exponent, which is negative |
| Density.GradientDensityMatchesPressure | isa.cpp:262-288 | in a gradient layer density and pressure fail together, share the base, and the density exponent is the pressure exponent minus 1 |
| Density.IsothermalDensityMatchesPressure | isa.cpp:297-318 | in an isothermal layer density and pressure share base and exponent (same temperature, same anchor) |
| Density.DensityMirrorsPressure | isa.cpp:232-254 | the dispatchers fail together and share the base; exponents are equal in isothermal layers and differ by 1 in gradient layers |
| Density.IsothermalDensityAtAnchor | isa.cpp:299-318 | at the anchor height, under any `pow` with `pow(x, 0) == 1`, isothermal density is the layer's start density |
| Density.DensityAtSeaLevel | isa.cpp:262-288 | at sea level scale is 1.225 and base is 1, so under `pow(1, y) == 1` density is 1.225 kg/m^3 |

## Left out

- The interactive loop in `main.cpp`: it reads altitudes from standard input and prints them. It is pure I/O.
- The `error` helpers and the text of the thrown message (isa.cpp:7-13, 227). The failure is the value `OutOfRange(h)` instead.
- The values of `pow` and of e to a power. They are transcendental, so the laws return the operands as a `PowerTerm`. Lemmas that evaluate a term take the power function as a parameter and assume only `pow(1, y) == 1` or `pow(x, 0) == 1`.
- Whether the precomputed start pressures and densities (isa.hpp:53-69) agree with the laws, and continuity of pressure and density across boundaries. Both need real exponentials.
- IEEE-754 rounding. The tolerance bands are modelled at their literal widths.
- The unreachable `default` branches, the `return 0` fallbacks and the uninitialised locals. The laws require a layer of their own kind, and the dispatchers only ever pass one.
- Geopotential.GeopotentialHeight: the division by zero at `z = -R` and heights below the Earth's centre are not modelled. Every member that converts a height requires `R + z > 0`.
