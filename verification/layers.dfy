/**
  The seven atmospheric layers (isa.hpp:72-80) and their order by altitude.
 */
module Layers {

  /** The closed set of layer tags, declared in the header's order. */
  datatype Layer =
    | IsothermalOne
    | IsothermalTwo
    | IsothermalThree
    | GradientOne
    | GradientTwo
    | GradientThree
    | GradientFour
  {
    /** A layer whose temperature varies linearly with height. */
    predicate IsGradient() {
      GradientOne? || GradientTwo? || GradientThree? || GradientFour?
    }

    /** A layer of constant temperature. */
    predicate IsIsothermal() {
      IsothermalOne? || IsothermalTwo? || IsothermalThree?
    }
  }

  const GradientLayers: set<Layer> := {GradientOne, GradientTwo, GradientThree, GradientFour}
  const IsothermalLayers: set<Layer> := {IsothermalOne, IsothermalTwo, IsothermalThree}
  const AllLayers: set<Layer> := GradientLayers + IsothermalLayers

  /** Position of a layer counted upwards from sea level, which is the order
      in which `get_layer` tests the layers (isa.cpp:198-225), not the order
      of the declaration: gradient and isothermal layers alternate, starting
      and ending with a gradient one. */
  function Order(l: Layer): (i: nat)
    ensures i < 7
    ensures i % 2 == 0 <==> l.IsGradient()
  {
    match l
    case GradientOne => 0
    case IsothermalOne => 1
    case GradientTwo => 2
    case IsothermalTwo => 3
    case GradientThree => 4
    case IsothermalThree => 5
    case GradientFour => 6
  }

  /** The layer at a given position counted upwards from sea level. */
  function LayerAt(i: nat): (l: Layer)
    requires i < 7
    ensures Order(l) == i
  {
    if i == 0 then GradientOne
    else if i == 1 then IsothermalOne
    else if i == 2 then GradientTwo
    else if i == 3 then IsothermalTwo
    else if i == 4 then GradientThree
    else if i == 5 then IsothermalThree
    else GradientFour
  }

  /** `Order` and `LayerAt` are inverse to each other, so the altitude order
      lists every layer exactly once. */
  lemma OrderRoundTrip(l: Layer)
    ensures LayerAt(Order(l)) == l
  {
  }

  /** Every layer is either a gradient or an isothermal one, never both. */
  lemma GradientOrIsothermal(l: Layer)
    ensures l.IsGradient() != l.IsIsothermal()
  {
  }

  /** The enum is closed: exactly seven tags, four of them gradient layers
      and three isothermal layers. */
  lemma LayerEnumClosed()
    ensures forall l: Layer :: l in AllLayers
    ensures forall l :: l in GradientLayers <==> l.IsGradient()
    ensures forall l :: l in IsothermalLayers <==> l.IsIsothermal()
    ensures GradientLayers !! IsothermalLayers
    ensures |GradientLayers| == 4 && |IsothermalLayers| == 3 && |AllLayers| == 7
  {
    forall l: Layer ensures l in AllLayers {
      GradientOrIsothermal(l);
    }
  }
}

/**
  The failure of the layer classifier. The source throws a runtime error
  whose message ends with the offending geopotential height; here the
  height itself is the payload.
 */
module Errors {

  datatype AtmosphereError = OutOfRange(height: real)

  datatype Result<+T> = Success(value: T) | Failure(error: AtmosphereError) {

    predicate IsFailure() {
      Failure?
    }

    function PropagateFailure<U>(): Result<U>
      requires Failure?
    {
      Failure(error)
    }

    function Extract(): T
      requires Success?
    {
      value
    }
  }
}
