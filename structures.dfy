// The structure entities of src/structures/*.cpp as values: the shared
// `PixelShapedStructure` data, the input capacitor, each kind's own state,
// the constructors that reject a shape with the wrong number of POIs, and
// `priority`. Their world behaviour is in the per-file modules that follow.
module Structures {
  import opened Base
  import opened Pixels
  import opened Assets
  import opened Shapes

  /** `power_capacity`: the ticks an input structure stays powered after its last charge. */
  const PowerCapacity: int := 12

  /** The kind of a structure and the state that kind keeps. */
  datatype Kind =
    | GateKind(dir: FacingDirection, openState: int)
    | NPN(npnDir: FacingDirection, conducting: bool)
    | PNP(pnpDir: FacingDirection, insulating: bool)
    | Emitter(emitterDir: FacingDirection)
    | Receiver
    | Plate
    | HeavyPlate
    | PowerSource
    | Heater
    | WaterTap
    | OilTap

  /**
    A structure: its shape data, the `_power_cap` of an input structure (0 and
    unused for output structures) and its kind.
   */
  datatype Structure = Structure(base: ShapeBase, powerCap: int, kind: Kind)
  {
    predicate Valid() { base.Valid() }

    /** Input structures (`InputElectricalStructure`) read power; the others emit it. */
    predicate IsInput()
    {
      kind.GateKind? || kind.NPN? || kind.PNP? || kind.Emitter? || kind.Heater? || kind.WaterTap? || kind.OilTap?
    }

    /** `isPowered`. */
    predicate IsPowered() { powerCap > 0 }

    /** Every cell of the footprint lies in a `width` x `height` world. */
    predicate Fits(width: int, height: int)
    {
      0 <= base.x && base.x + base.Width() <= width && 0 <= base.y && base.y + base.Height() <= height
    }
  }

  /** `priority`: smaller runs earlier in a world step. */
  function Priority(s: Structure): (p: int)
    ensures p in {5, 10, 50, 100}
  {
    match s.kind
    case GateKind(_, _) => 5
    case NPN(_, _) => 5
    case PNP(_, _) => 5
    case Emitter(_) => 50
    case Receiver => 100
    case Plate => 10
    case HeavyPlate => 10
    case PowerSource => 10
    case Heater => 10
    case WaterTap => 5
    case OilTap => 5
  }

  /**
    The ordering the priorities were chosen for: gates, transistors and taps run
    before plates, heaters and power sources, which run before laser emitters,
    which run before laser receivers.
   */
  lemma PriorityOrder(a: Structure, b: Structure)
    ensures Priority(a) == 5 <==> a.kind.GateKind? || a.kind.NPN? || a.kind.PNP? || a.kind.WaterTap? || a.kind.OilTap?
    ensures Priority(a) == 5 && Priority(b) != 5 ==> Priority(a) < Priority(b)
    ensures a.kind.Emitter? && b.kind.Receiver? ==> Priority(a) < Priority(b)
    ensures (a.kind.Plate? || a.kind.HeavyPlate?) && b.kind.Emitter? ==> Priority(a) < Priority(b)
  {
  }

  /** Why a constructor refused its shape. */
  datatype StructureError =
    | MissingPOI(structure: string)
    | WrongPOICount(structure: string, count: nat)

  /** The shared part of every constructor: a fresh `PixelShapedStructure` with no power. */
  function Build(x: int, y: int, shape: PixelShape, cls: Classifier, kind: Kind): (s: Structure)
    requires shape.Valid()
    ensures s.Valid() && s.powerCap == 0 && s.kind == kind && s.base == ShapeBaseOf(x, y, shape, cls)
  {
    Structure(ShapeBaseOf(x, y, shape, cls), 0, kind)
  }

  /** The `Gate` constructor: closed, and at least one POI is required. */
  function NewGate(x: int, y: int, dir: FacingDirection, shape: PixelShape, cls: Classifier)
    : (r: Result<Structure, StructureError>)
    requires shape.Valid()
    ensures r.Ok? <==> |POIsOf(shape, cls)| > 0
    ensures r.Ok? ==> r.value == Build(x, y, shape, cls, GateKind(dir, 0))
    ensures r.Err? ==> r.error == MissingPOI("Gate")
  {
    if |POIsOf(shape, cls)| == 0 then Err(MissingPOI("Gate"))
    else Ok(Build(x, y, shape, cls, GateKind(dir, 0)))
  }

  /** The NPN transistor starts not conducting. */
  function NewNPN(x: int, y: int, dir: FacingDirection, shape: PixelShape, cls: Classifier): (s: Structure)
    requires shape.Valid()
    ensures s == Build(x, y, shape, cls, NPN(dir, false)) && !s.kind.conducting
  {
    Build(x, y, shape, cls, NPN(dir, false))
  }

  /** The PNP transistor starts insulating. */
  function NewPNP(x: int, y: int, dir: FacingDirection, shape: PixelShape, cls: Classifier): (s: Structure)
    requires shape.Valid()
    ensures s == Build(x, y, shape, cls, PNP(dir, true)) && s.kind.insulating
  {
    Build(x, y, shape, cls, PNP(dir, true))
  }

  /** The `LaserEmitter` constructor: exactly one POI is required. */
  function NewEmitter(x: int, y: int, dir: FacingDirection, shape: PixelShape, cls: Classifier)
    : (r: Result<Structure, StructureError>)
    requires shape.Valid()
    ensures r.Ok? <==> |POIsOf(shape, cls)| == 1
    ensures r.Ok? ==> r.value == Build(x, y, shape, cls, Emitter(dir))
    ensures r.Err? ==> r.error == WrongPOICount("LaserEmitter", |POIsOf(shape, cls)|)
  {
    var n := |POIsOf(shape, cls)|;
    if n != 1 then Err(WrongPOICount("LaserEmitter", n)) else Ok(Build(x, y, shape, cls, Emitter(dir)))
  }

  /** The `LaserReceiver` constructor: exactly one POI is required. */
  function NewReceiver(x: int, y: int, shape: PixelShape, cls: Classifier)
    : (r: Result<Structure, StructureError>)
    requires shape.Valid()
    ensures r.Ok? <==> |POIsOf(shape, cls)| == 1
    ensures r.Ok? ==> r.value == Build(x, y, shape, cls, Receiver)
    ensures r.Err? ==> r.error == WrongPOICount("LaserReceiver", |POIsOf(shape, cls)|)
  {
    var n := |POIsOf(shape, cls)|;
    if n != 1 then Err(WrongPOICount("LaserReceiver", n)) else Ok(Build(x, y, shape, cls, Receiver))
  }

  /** The `Heater` constructor: at least one POI is required. */
  function NewHeater(x: int, y: int, shape: PixelShape, cls: Classifier)
    : (r: Result<Structure, StructureError>)
    requires shape.Valid()
    ensures r.Ok? <==> |POIsOf(shape, cls)| > 0
    ensures r.Ok? ==> r.value == Build(x, y, shape, cls, Heater)
    ensures r.Err? ==> r.error == MissingPOI("Heater")
  {
    if |POIsOf(shape, cls)| == 0 then Err(MissingPOI("Heater")) else Ok(Build(x, y, shape, cls, Heater))
  }
}
