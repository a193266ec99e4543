/**
  The layer classifier `get_layer` (isa.cpp:193-229).

  The classifier converts a geometric height to geopotential height `h` and
  tests seven intervals in ascending order; the first that holds wins. The
  first interval has no lower bound and ends 20 m above the nominal end of
  the first gradient layer; every later interval is open at its nominal
  start and ends 10 m above its nominal end. When none holds the source
  throws, with `h` in the message; here that is `Failure(OutOfRange(h))`.
 */
module Classifier {
  import Air
  import opened Layers
  import opened Errors
  import opened LayerTable
  import opened Geopotential

  /** Widening of the first interval's upper bound, in metres. */
  const FirstBandTolerance: int := 20
  /** Widening of every other interval's upper bound (`diff`), in metres. */
  const BandTolerance: int := 10

  /** Lowest geopotential height that is rejected: 105010 m. */
  const CeilingHeight: real := (Air.LayerFourEndHeight + BandTolerance) as real

  /** The classifier on geopotential height: the source's if-chain. */
  function ClassifyGeopotential(h: real): (r: Result<Layer>)
    ensures r.Failure? <==> h >= CeilingHeight
    ensures r.Failure? ==> r.error == OutOfRange(h)
    ensures h < 0.0 ==> r == Success(GradientOne)
  {
    if h < (Air.LayerOneEndHeight + FirstBandTolerance) as real then
      Success(GradientOne)
    else if h > Air.LayerOneEndHeight as real && h < (Air.LayerTwoStartHeight + BandTolerance) as real then
      Success(IsothermalOne)
    else if h > Air.LayerTwoStartHeight as real && h < (Air.LayerTwoEndHeight + BandTolerance) as real then
      Success(GradientTwo)
    else if h > Air.LayerTwoEndHeight as real && h < (Air.LayerThreeStartHeight + BandTolerance) as real then
      Success(IsothermalTwo)
    else if h > Air.LayerThreeStartHeight as real && h < (Air.LayerThreeEndHeight + BandTolerance) as real then
      Success(GradientThree)
    else if h > Air.LayerThreeEndHeight as real && h < (Air.LayerFourStartHeight + BandTolerance) as real then
      Success(IsothermalThree)
    else if h > Air.LayerFourStartHeight as real && h < (Air.LayerFourEndHeight + BandTolerance) as real then
      Success(GradientFour)
    else
      Failure(OutOfRange(h))
  }

  /** `get_layer`: classify a geometric height by its geopotential height.
      It fails exactly at and above the geometric height whose geopotential
      height is the ceiling, and the failure carries the geopotential height. */
  function GetLayer(z: real): (r: Result<Layer>)
    requires AboveCentre(z)
    ensures r.Failure? <==> z >= GeometricHeight(CeilingHeight)
    ensures r.Failure? ==> r.error == OutOfRange(GeopotentialHeight(z))
    ensures z <= 0.0 ==> r == Success(GradientOne)
  {
    var h := GeopotentialHeight(z);
    GeopotentialOrder(z, GeometricHeight(CeilingHeight));
    ClassifyGeopotential(h)
  }

  /** The upper bound of the interval the source tests for layer `l`: its
      record's end height widened by the tolerance. */
  function UpperBound(l: Layer): real {
    (Record(l).endHeight + (if l == GradientOne then FirstBandTolerance else BandTolerance)) as real
  }

  /** The interval condition the source writes for layer `l`, on its own:
      below the widened upper bound and, except for the first layer,
      strictly above the record's start height. */
  predicate BranchCondition(l: Layer, h: real) {
    (l == GradientOne || h > Record(l).startHeight as real) && h < UpperBound(l)
  }

  /** The heights classified into `l` once earlier branches have taken
      theirs: from the widened upper bound of the layer below (unbounded for
      the first layer) up to `l`'s own widened upper bound. */
  predicate InEffectiveBand(l: Layer, h: real) {
    (Order(l) == 0 || h >= UpperBound(LayerAt(Order(l) - 1))) && h < UpperBound(l)
  }

  /** The classifier is the first-match scan over the table's intervals:
      a height lands in `l` exactly when it lies in `l`'s effective band,
      and the effective band of `l` holds `l`'s branch condition. */
  lemma ClassifyMatchesBands(h: real, l: Layer)
    ensures ClassifyGeopotential(h) == Success(l) <==> InEffectiveBand(l, h)
    ensures InEffectiveBand(l, h) ==> BranchCondition(l, h)
  {
  }

  /** Tie-break: a height in the overlap just above a layer's nominal end
      satisfies the next layer's branch condition too, yet is classified
      into the lower layer because its branch comes first. */
  lemma OverlapGoesToLowerLayer(h: real, l: Layer)
    requires Order(l) < 6
    requires Record(l).endHeight as real < h < UpperBound(l)
    ensures BranchCondition(LayerAt(Order(l) + 1), h)
    ensures ClassifyGeopotential(h) == Success(l)
  {
    TableConsistent();
    assert Joins(Order(l));
  }

  /** Classification is monotone in height: a higher geopotential height
      never lands in a layer that comes earlier in altitude order. */
  lemma ClassifyMonotone(h1: real, h2: real)
    requires h1 <= h2
    requires ClassifyGeopotential(h2).Success?
    ensures ClassifyGeopotential(h1).Success?
    ensures Order(ClassifyGeopotential(h1).value) <= Order(ClassifyGeopotential(h2).value)
  {
  }

  /** The same monotonicity for the classifier on geometric heights. */
  lemma GetLayerMonotone(z1: real, z2: real)
    requires AboveCentre(z1) && z1 <= z2
    requires GetLayer(z2).Success?
    ensures GetLayer(z1).Success?
    ensures Order(GetLayer(z1).value) <= Order(GetLayer(z2).value)
  {
    GeopotentialOrder(z1, z2);
    ClassifyMonotone(GeopotentialHeight(z1), GeopotentialHeight(z2));
  }

  /** A height exactly at a nominal boundary belongs to the layer below it:
      every layer's nominal end is classified into that layer, and every
      nominal start above sea level into the layer before it. */
  lemma NominalBoundsClassified(l: Layer)
    ensures ClassifyGeopotential(Record(l).endHeight as real) == Success(l)
    ensures Order(l) > 0 ==>
              ClassifyGeopotential(Record(l).startHeight as real) == Success(LayerAt(Order(l) - 1))
  {
  }

  /** The whole nominal range from sea level to 105000 m is classified. */
  lemma NominalRangeClassified(h: real)
    requires 0.0 <= h <= Air.LayerFourEndHeight as real
    ensures ClassifyGeopotential(h).Success?
  {
  }

  /** A geometric height of 106000 m is still inside the model: its
      geopotential height is below 105010 m, so it classifies into the
      fourth gradient layer. */
  lemma GeometricHeightAboveNominalEnd()
    ensures GetLayer(106000.0) == Success(GradientFour)
  {
    assert 104265.0 < GeopotentialHeight(106000.0) < 104266.0;
  }
}
