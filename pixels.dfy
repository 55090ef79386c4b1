// The per-cell data of the falling-sand world (src/fallsand/*.cpp,
// src/elements/*.cpp): pixel types and classes, the tag every cell carries,
// the static tag, the element objects and the tags a new element starts
// with, and the type-to-element factory of src/fallsand/element.cpp.
// Random draws (the tag colour roll, the binomial burn-time draw) are
// parameters.
module Pixels {
  import opened Base
  import opened ColorPalette

  /**
    `PixelType`. The enum's header lists Air, Stone, Sand and Water in that
    order; the other members follow in the order given here (see the README).
    The model relies only on the order being a strict total order.
   */
  datatype PixelType =
    | Air | Stone | Sand | Water | Oil | Wood | Copper | Steam | Smoke | Decoration | WaterParticle

  /** The enum's underlying integer. */
  function Rank(t: PixelType): nat
  {
    match t
    case Air => 0
    case Stone => 1
    case Sand => 2
    case Water => 3
    case Oil => 4
    case Wood => 5
    case Copper => 6
    case Steam => 7
    case Smoke => 8
    case Decoration => 9
    case WaterParticle => 10
  }

  lemma RankInjective(a: PixelType, b: PixelType)
    ensures Rank(a) == Rank(b) <==> a == b
  {
  }

  /** `isDenser`: the enum value of `a` is strictly greater. */
  predicate IsDenser(a: PixelType, b: PixelType) { Rank(a) > Rank(b) }

  /** `isDenserOrEqual`. */
  predicate IsDenserOrEqual(a: PixelType, b: PixelType) { Rank(a) >= Rank(b) }

  /** `isDenser` is a strict total order and `isDenserOrEqual` is its reflexive closure. */
  lemma DensityOrder(a: PixelType, b: PixelType, c: PixelType)
    ensures !IsDenser(a, a)
    ensures IsDenser(a, b) ==> !IsDenser(b, a)
    ensures IsDenser(a, b) && IsDenser(b, c) ==> IsDenser(a, c)
    ensures a != b ==> IsDenser(a, b) || IsDenser(b, a)
    ensures IsDenserOrEqual(a, b) <==> IsDenser(a, b) || a == b
  {
    RankInjective(a, b);
  }

  /** `PixelClass`. */
  datatype PixelClass = Solid | Fluid | Gas | Particle

  /**
    `PixelTag`, with the fields the element and structure sources read and
    write. Fields a tag initialiser does not name start at zero or false.
   */
  datatype Tag = Tag(
    kind: PixelType,
    pclass: PixelClass,
    colorIndex: byte,
    dirty: bool,
    isFreeFalling: bool,
    fluidDir: int,
    heat: int,
    electricPower: int,
    ignited: bool,
    thermalConductivity: int)

  /** A tag with only type, class, colour, free fall and conductivity set. */
  function PlainTag(kind: PixelType, pclass: PixelClass, colorIndex: byte, falling: bool, conductivity: int): (t: Tag)
    ensures t.kind == kind && t.pclass == pclass && t.colorIndex == colorIndex
    ensures t.isFreeFalling == falling && t.thermalConductivity == conductivity
    ensures !t.dirty && !t.ignited && t.fluidDir == 0 && t.heat == 0 && t.electricPower == 0
  {
    Tag(kind, pclass, colorIndex, false, falling, 0, 0, 0, false, conductivity)
  }

  /** `StaticPixelTag`: per-cell flags that swaps leave in place. */
  datatype StaticTag = StaticTag(laserActive: bool, externalEntityPresent: bool)

  const ClearStatic: StaticTag := StaticTag(false, false)

  /**
    The element object of a cell. Oil and Wood carry their remaining burn
    time; the water particle's float velocity is not modelled.
   */
  datatype Element =
    | AirElement
    | StoneElement
    | SandElement
    | DecorationElement
    | WaterElement
    | WaterParticleElement
    | CopperElement
    | OilElement(burnTimeLeft: int)
    | WoodElement(burnTimeLeft: int)
    | SteamElement
    | SmokeElement

  /** The `Oil` constructor: 48 - 12 plus a Binomial(24, 1/2) draw. */
  function NewOil(draw: nat): (e: Element)
    requires draw <= 24
    ensures e.OilElement? && 36 <= e.burnTimeLeft <= 60
  {
    OilElement(48 - 12 + draw)
  }

  /** The `Wood` constructor: 96 - 24 plus a Binomial(48, 1/2) draw. */
  function NewWood(draw: nat): (e: Element)
    requires draw <= 48
    ensures e.WoodElement? && 72 <= e.burnTimeLeft <= 120
  {
    WoodElement(96 - 24 + draw)
  }

  /**
    The compile-time parameters of a build: the palette and the two tag
    maxima. `Valid` bounds the maxima; which palettes the game builds against
    at all is `Built`, assumed only by the statements about colour names.
   */
  datatype Config = Config(palette: seq<Entry>, heatMax: int, powerMax: int)
  {
    predicate Valid() { powerMax >= 1 && heatMax >= 0 }

    predicate Built() { GamePalette(palette) }

    /** `colorIndexOf(name)` stored in an 8-bit colour field. */
    function Index(name: string): byte
    {
      (IndexOf(palette, name) % 256) as byte
    }
  }

  /** In a buildable palette, the stored index is the entry that carries the name. */
  lemma IndexNamed(cfg: Config, name: string)
    requires cfg.Built() && name in GameNames
    ensures cfg.Index(name) == NameIndex(cfg.palette, name)
    ensures (cfg.Index(name) as int) < |cfg.palette| && cfg.palette[cfg.Index(name)].name == name
  {
    var i := NameIndex(cfg.palette, name);
  }

  /**
    `newTag()` of each element. `roll` is the generator output that Wood,
    Steam and Smoke reduce modulo 3 to pick one of two colours.
   */
  function NewTag(e: Element, cfg: Config, roll: nat): (t: Tag)
  {
    match e
    case AirElement => PlainTag(Air, Gas, cfg.Index("Air"), false, 5)
    case StoneElement => PlainTag(Stone, Solid, cfg.Index("Stone1"), false, 10)
    case SandElement => PlainTag(Sand, Solid, cfg.Index("Sand"), true, 2)
    case DecorationElement => PlainTag(Decoration, Solid, cfg.Index("Ruin"), false, 25)
    case WaterElement => PlainTag(Water, Fluid, cfg.Index("Water"), false, 0)
    case WaterParticleElement => PlainTag(WaterParticle, Particle, cfg.Index("Water"), false, 0)
    case CopperElement => PlainTag(Copper, Solid, cfg.Index("Copper1"), false, 60)
    case OilElement(_) => PlainTag(Oil, Fluid, cfg.Index("Oil"), false, 28)
    case WoodElement(_) =>
      PlainTag(Wood, Solid, if roll % 3 != 0 then cfg.Index("Wood1") else cfg.Index("Wood2"), false, 20)
    case SteamElement =>
      PlainTag(Steam, Gas, if roll % 3 != 0 then cfg.Index("Steam1") else cfg.Index("Steam2"), true, 4)
    case SmokeElement =>
      PlainTag(Smoke, Gas, if roll % 3 != 0 then cfg.Index("Smoke1") else cfg.Index("Smoke2"), true, 5)
  }

  /** The pixel type an element's tag announces. */
  function KindOf(e: Element): PixelType
  {
    match e
    case AirElement => Air
    case StoneElement => Stone
    case SandElement => Sand
    case DecorationElement => Decoration
    case WaterElement => Water
    case WaterParticleElement => WaterParticle
    case CopperElement => Copper
    case OilElement(_) => Oil
    case WoodElement(_) => Wood
    case SteamElement => Steam
    case SmokeElement => Smoke
  }

  /** The class an element's tag announces. */
  function ClassOf(e: Element): PixelClass
  {
    match e
    case AirElement => Gas
    case SteamElement => Gas
    case SmokeElement => Gas
    case WaterElement => Fluid
    case OilElement(_) => Fluid
    case WaterParticleElement => Particle
    case _ => Solid
  }

  /**
    A new tag describes its element: the element's type and class, a clean
    state (no heat, power, direction or fire), and the colour of the name the
    source gives, looked up in the palette.
   */
  lemma NewTagDescribesElement(e: Element, cfg: Config, roll: nat)
    requires cfg.Built()
    ensures var t := NewTag(e, cfg, roll);
            && t.kind == KindOf(e) && t.pclass == ClassOf(e)
            && !t.dirty && !t.ignited && t.fluidDir == 0 && t.heat == 0 && t.electricPower == 0
            && (t.colorIndex as int) < |cfg.palette|
            && t.isFreeFalling == (e.SandElement? || e.SteamElement? || e.SmokeElement?)
  {
    match e
    case AirElement => IndexNamed(cfg, "Air");
    case StoneElement => IndexNamed(cfg, "Stone1");
    case SandElement => IndexNamed(cfg, "Sand");
    case DecorationElement => IndexNamed(cfg, "Ruin");
    case WaterElement => IndexNamed(cfg, "Water");
    case WaterParticleElement => IndexNamed(cfg, "Water");
    case CopperElement => IndexNamed(cfg, "Copper1");
    case OilElement(_) => IndexNamed(cfg, "Oil");
    case WoodElement(_) => IndexNamed(cfg, "Wood1"); IndexNamed(cfg, "Wood2");
    case SteamElement => IndexNamed(cfg, "Steam1"); IndexNamed(cfg, "Steam2");
    case SmokeElement => IndexNamed(cfg, "Smoke1"); IndexNamed(cfg, "Smoke2");
  }

  /** Steam starts free-falling and picks colour "Steam1" unless the roll is a multiple of 3. */
  lemma SteamTag(cfg: Config, roll: nat)
    requires cfg.Built()
    ensures var t := NewTag(SteamElement, cfg, roll);
            t.kind == Steam && t.pclass == Gas && t.isFreeFalling && t.thermalConductivity == 4
            && (t.colorIndex as int) < |cfg.palette| && cfg.palette[t.colorIndex].name == (if roll % 3 != 0 then "Steam1" else "Steam2")
  {
    if roll % 3 != 0 { IndexNamed(cfg, "Steam1"); } else { IndexNamed(cfg, "Steam2"); }
  }

  /** Smoke starts free-falling and picks colour "Smoke1" unless the roll is a multiple of 3. */
  lemma SmokeTag(cfg: Config, roll: nat)
    requires cfg.Built()
    ensures var t := NewTag(SmokeElement, cfg, roll);
            t.kind == Smoke && t.pclass == Gas && t.isFreeFalling && t.thermalConductivity == 5
            && (t.colorIndex as int) < |cfg.palette| && cfg.palette[t.colorIndex].name == (if roll % 3 != 0 then "Smoke1" else "Smoke2")
  {
    if roll % 3 != 0 { IndexNamed(cfg, "Smoke1"); } else { IndexNamed(cfg, "Smoke2"); }
  }

  /** Wood picks colour "Wood1" unless the roll is a multiple of 3. */
  lemma WoodTag(cfg: Config, roll: nat, burn: int)
    requires cfg.Built()
    ensures var t := NewTag(WoodElement(burn), cfg, roll);
            t.kind == Wood && t.pclass == Solid && t.thermalConductivity == 20
            && (t.colorIndex as int) < |cfg.palette| && cfg.palette[t.colorIndex].name == (if roll % 3 != 0 then "Wood1" else "Wood2")
  {
    if roll % 3 != 0 { IndexNamed(cfg, "Wood1"); } else { IndexNamed(cfg, "Wood2"); }
  }

  /** Copper is the best conductor of heat and is coloured "Copper1". */
  lemma CopperTag(cfg: Config, roll: nat)
    requires cfg.Built()
    ensures var t := NewTag(CopperElement, cfg, roll);
            t.kind == Copper && t.pclass == Solid && t.thermalConductivity == 60
            && (t.colorIndex as int) < |cfg.palette| && cfg.palette[t.colorIndex].name == "Copper1"
  {
    IndexNamed(cfg, "Copper1");
  }

  /** Oil is a fluid coloured "Oil", whatever its burn time. */
  lemma OilTag(cfg: Config, roll: nat, burn: int)
    requires cfg.Built()
    ensures var t := NewTag(OilElement(burn), cfg, roll);
            t.kind == Oil && t.pclass == Fluid && t.thermalConductivity == 28
            && (t.colorIndex as int) < |cfg.palette| && cfg.palette[t.colorIndex].name == "Oil"
  {
    IndexNamed(cfg, "Oil");
  }

  /**
    `constructElementByType`. The Oil and Wood constructors consume a
    binomial draw, passed in as `oilDraw` and `woodDraw`.
   */
  function ConstructElementByType(t: PixelType, oilDraw: nat, woodDraw: nat): (e: Element)
    requires oilDraw <= 24 && woodDraw <= 48
  {
    match t
    case Air => AirElement
    case Decoration => DecorationElement
    case Stone => StoneElement
    case Wood => NewWood(woodDraw)
    case Copper => CopperElement
    case Sand => SandElement
    case Water => WaterElement
    case Oil => NewOil(oilDraw)
    case _ => DecorationElement
  }

  /**
    The factory is total; the eight listed types give an element of their own
    type and every other type gives Decoration.
   */
  lemma ConstructElementByTypeKinds(t: PixelType, oilDraw: nat, woodDraw: nat)
    requires oilDraw <= 24 && woodDraw <= 48
    ensures var e := ConstructElementByType(t, oilDraw, woodDraw);
            && (t in {Air, Decoration, Stone, Wood, Copper, Sand, Water, Oil} ==> KindOf(e) == t)
            && (t !in {Air, Decoration, Stone, Wood, Copper, Sand, Water, Oil} ==> e == DecorationElement)
            && (t == Oil ==> 36 <= e.burnTimeLeft <= 60)
            && (t == Wood ==> 72 <= e.burnTimeLeft <= 120)
  {
  }

  /** `FacingDirection`, in the order of its underlying values. */
  datatype FacingDirection = North | East | South | West

  /** `xDeltaOf`: the unit step of a direction along x (North is up, y grows downward). */
  function XDeltaOf(d: FacingDirection): int
  {
    match d
    case North => 0
    case East => 1
    case South => 0
    case West => -1
  }

  function YDeltaOf(d: FacingDirection): int
  {
    match d
    case North => -1
    case East => 0
    case South => 1
    case West => 0
  }

  /** Every direction is one unit step along exactly one axis. */
  lemma DeltaIsUnitStep(d: FacingDirection)
    ensures Abs(XDeltaOf(d)) + Abs(YDeltaOf(d)) == 1
  {
  }

  /** The point `i` unit steps from `p` in direction `d`. */
  function Along(p: Point, d: FacingDirection, i: int): Point
  {
    match d
    case North => Point(p.x, p.y - i)
    case East => Point(p.x + i, p.y)
    case South => Point(p.x, p.y + i)
    case West => Point(p.x - i, p.y)
  }

  /** `Along` is the source's `p + i * (xDeltaOf(d), yDeltaOf(d))`. */
  lemma AlongIsScaledStep(p: Point, d: FacingDirection, i: int)
    ensures Along(p, d, i) == Point(p.x + i * XDeltaOf(d), p.y + i * YDeltaOf(d))
  {
  }
}
