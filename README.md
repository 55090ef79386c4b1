# Waveforge, modelled in Dafny

Waveforge is a falling-sand puzzle game. A level is a grid of cells, and every cell holds an element: air, stone, sand, water, oil, steam, smoke, copper, wood and more. Each tick, every element follows its own rule. Structures cut out of the level map act as small machines on their cells of interest (POIs): gates, transistors, lasers, pressure plates, heaters, taps and power sources. The player steers a duck to a checkpoint and a goal, using brushes that paint oil, water, copper and fire. Menus and transition scenes surround the levels. A separate script, `convert_video.py`, turns dumps of raw frames into a video.

This project models the integer core of the game and of the script, and proves properties about it:

- the cell store and its swap and replace operations, as a value (`Grids`) and as the arrays of `PixelWorld` (`World`);
- the element rules for water, gas, steam, smoke, copper, oil and wood;
- the fluid analysis of each tick, in both of the source's versions: the component labelling, `fluid_dir` row passes and surface levelling, and the flow-network version with Dinic's maximum flow, each with its density pass;
- the structures, with their passes over their POIs and the world step that runs them in priority order;
- rendering the world into an RGBA buffer;
- the level loader's scan of a map image;
- the geometric predicates of the duck, and the checkpoint and goal counters;
- the four brushes;
- the font, the sprite-sheet slicing, the image utilities and the asset caches;
- every scene's state machine;
- the video script's arithmetic, its argument list and its exit statuses.

Random draws and the player's input are parameters. The model works on unbounded integers. Where the source relies on an `int` limit or an unsigned comparison, the model writes that limit or comparison out.

Code that changes state in place is modelled with classes, arrays and loops. Each such method is specified by a function on values, and the lemmas are proved about those functions. Code that only computes is modelled with functions.

Modules, in dependency order:

- `Base`: options, results, bytes and integer helpers.
- `ColorPalette`: the colour table.
- `Pixels`: types, tags and elements.
- `Assets`: images, pixel shapes and caches.
- `Raster2D`: `src/2d.cpp`.
- `VideoConvert`: `convert_video.py`.
- `Shapes` and `Structures`: structure data.
- `Grids` and `World`: the cell store.
- `Water`, `Gas` and `Elements`: the element rules.
- `FluidLabels`, `FluidRows`, `FluidPass`, `FluidLevel`, `DensityRows`, `FluidDensity` and `FluidAnalysis`: the fluid levelling of `src/fallsand/fluid.cpp` (component labelling, the `fluid_dir` row passes, surface levelling) and its density pass.
- `FlowNetwork`, `FlowRegions`, `FlowBuild`, `FlowComponents`, `FlowPrepare`, `FlowDinic`, `FlowApply` and `FlowAnalysis`: the flow network of `src/fallsand/fluidflow.cpp` (regions, edges, components, source and sink, Dinic's maximum flow and the flow bookkeeping).
- `ShapeWorld`, `Electric`, `Rewrites`, `Gates`, `GateFinding`, `Transistors`, `Lasers`, `PressurePlates`, `Heaters`, `Taps` and `PowerSources`: the structures.
- `Simulation` and `Rendering`: the world step and rendering.
- `Renderers`: `src/render.cpp`.
- `Items`: the brushes.
- `Fonts` and `Animations`.
- `Ducks`, `Checkpoints` and `Goals`.
- `Loader` and `LevelBuild`: `Level::loadFromAsset`, its scan of the map and the world it builds from the scan.
- `Scenes`, `Settings`, `MainMenus`, `LevelMenus`, `LevelScenes`, `LevelSwitch` and `DuckDeaths`: the scenes.

## Model

| member | source | states |
|---|---|---|
| ColorPalette.NamesMatchIsEquality | include/wforge/colorpalette.h:52-57 | the character-walking loop accepts exactly when the two C strings are equal; a proper prefix is not a match |
| ColorPalette.IndexOfSpec | include/wforge/colorpalette.h:47-61 | the lookup returns the first index whose name equals the argument, and the "not found" value (-1 as unsigned) exactly when no entry carries that name |
| ColorPalette.IndexOfOwnName | include/wforge/colorpalette.h:47-61 | in a table of distinct names, looking up an entry's own name gives back its index |
| ColorPalette.ColorOfIndex | include/wforge/colorpalette.h:63-65 | only an index below the palette size may be asked for; the answer is the colour stored at that index |
| ColorPalette.ColorsDistinct | include/wforge/colorpalette.h:15-42 | the table has `_color_palette_size` = 6 entries and their names are pairwise distinct |
| ColorPalette.ColorIndexRoundTrip | include/wforge/colorpalette.h:15-65 | every palette entry is found at its own index, and the colour of that index is the entry's colour |
| ColorPalette.ColorIndexMissing | include/wforge/colorpalette.h:60 | a name no entry carries yields the "not found" value |
| ColorPalette.Wood1NotInPalette | src/elements/wood.cpp:24 | "Wood1", which the wood tag looks up, is absent from the header's table, so the lookup gives "not found" |
| ColorPalette.NameIndex | include/wforge/colorpalette.h:47-58 | for a table the game builds against, the stored 8-bit index is the first entry carrying the name, and equals the lookup's result |
| ColorPalette.ColorOfName | src/assets.cpp:119 | the colour of a name the game uses is the colour of an entry carrying that name |
| Pixels.RankInjective | include/wforge/fallsand.h:38-43 | distinct pixel types have distinct underlying values |
| Pixels.DensityOrder | src/fallsand/world.cpp:21-27 | `isDenser` is a strict total order (irreflexive, asymmetric, transitive, total on distinct types) and `isDenserOrEqual` is its reflexive closure |
| Pixels.PlainTag | include/wforge/fallsand.h:52-58 | a tag initialiser sets type, class, colour, free fall and conductivity; every other field starts clear |
| Pixels.NewOil | src/elements/oil.cpp:10-17 | the oil burn time is 36 plus a Binomial(24, 1/2) draw, so it lies in [36, 60] |
| Pixels.NewWood | src/elements/wood.cpp:10-17 | the wood burn time is 72 plus a Binomial(48, 1/2) draw, so it lies in [72, 120] |
| Pixels.IndexNamed | include/wforge/colorpalette.h:47-58 | in a buildable palette, the colour index an element stores is the entry carrying the name it looks up |
| Pixels.NewTagDescribesElement | src/fallsand/water.cpp:15-21 | a new tag announces its element's type and class, starts with no heat, power, fire or direction, and carries the colour of the name its element looks up |
| Pixels.SteamTag | src/fallsand/steam.cpp:8-17 | a steam tag is Steam/Gas, free-falling, conductivity 4, coloured Steam1 unless the roll is a multiple of 3 (then Steam2) |
| Pixels.SmokeTag | src/fallsand/smoke.cpp:8-17 | a smoke tag is Smoke/Gas, free-falling, conductivity 5, coloured Smoke1 unless the roll is a multiple of 3 (then Smoke2) |
| Pixels.WoodTag | src/elements/wood.cpp:19-27 | a wood tag is Wood/Solid, conductivity 20, coloured Wood1 when the roll modulo 3 is non-zero, else Wood2 |
| Pixels.CopperTag | src/elements/copper.cpp:9-16 | a copper tag is Copper/Solid, conductivity 60, coloured Copper1 |
| Pixels.OilTag | src/elements/oil.cpp:19-26 | an oil tag is Oil/Fluid coloured "Oil", whatever its burn time |
| Pixels.ConstructElementByTypeKinds | src/fallsand/element.cpp:5-34 | the factory is total: Air, Decoration, Stone, Wood, Copper, Sand, Water and Oil each give an element of their own type, and every other type gives Decoration |
| Assets.MatchCase | src/assets.cpp:31-76 | a colour equal to the key of case `k`, and to no earlier key, gives that case's result |
| Assets.MatchNone | src/assets.cpp:77-78 | a colour equal to no key gives `{Decoration, 255}` |
| Assets.ClassifyShared | src/assets.cpp:32-75 | Air and the POI marker both classify as Air with Air's index; the plain and opaque variants of Water, and of Oil, classify alike |
| Assets.ClassifyLabel | src/assets.cpp:31-76 | in a palette the switch compiles against, each case's colour classifies as that case's type and named colour index |
| Assets.ClassifyUnknown | src/assets.cpp:77-78 | any colour no case names classifies as `{Decoration, 255}` |
| Assets.Bytes | src/assets.cpp:82-86 | an image's byte view holds four bytes per pixel |
| Assets.BytesAt | src/assets.cpp:109-114 | bytes 4i..4i+3 are pixel i's red, green, blue and alpha |
| Assets.ShapeOf | src/assets.cpp:82-86 | a shape has its image's width and height and a byte view of the right length |
| Assets.ShapeColorOf | src/assets.cpp:82-115 | a shape reads back exactly the colours of the image it views |
| Assets.HasPixelMeaning | src/assets.cpp:89-120 | `hasPixel` holds iff the pixel's alpha is non-zero and it is not the POI marker colour |
| Assets.Crop | src/assets.cpp:150-157 | the window of an image at a corner has the requested size |
| Assets.CropAt | src/assets.cpp:150-157 | pixel (i, j) of the window is pixel (x0 + i, y0 + j) of the image |
| Assets.BoundingBoxUnique | src/assets.cpp:122-158 | the minimal bounding box of the non-transparent pixels is unique |
| Assets.ScanComplete | src/assets.cpp:124-139 | after all rows the running extremes are empty exactly when every pixel is transparent, and otherwise are the bounding box |
| Assets.ScanImageRow | src/assets.cpp:126-138 | the inner scan over a row keeps the extremes equal to those of every non-transparent pixel seen so far |
| Assets.ScanImage | src/assets.cpp:124-139 | the two scan loops leave the extremes of every non-transparent pixel |
| Assets.TrimImage | src/assets.cpp:122-158 | the result is the empty image exactly when every alpha is 0; otherwise it is the window over the minimal bounding box, with trimmed(i, j) = img(xmin + i, ymin + j) |
| Assets.TargetInRange | src/assets.cpp:175-203 | every source pixel lands inside the rotated image, and the source-of map inverts it |
| Assets.SourceInRange | src/assets.cpp:175-203 | every target pixel comes from a pixel inside the source image |
| Assets.TargetInjective | src/assets.cpp:175-203 | distinct source pixels land on distinct target pixels |
| Assets.Rotated | src/assets.cpp:166-172 | the rotated image keeps the dimensions for North and South and swaps them for East and West |
| Assets.RotatedAt | src/assets.cpp:175-203 | each source pixel appears at its target position |
| Assets.RotateNorthIdentity | src/assets.cpp:175-180 | rotating to North gives back the image unchanged |
| Assets.RotateRow | src/assets.cpp:175-202 | copying one source row writes exactly that row's target cells and leaves the others as they were |
| Assets.RotateImageTo | src/assets.cpp:161-204 | `rotateImageTo` produces exactly the pixel-by-pixel rotated image |
| Assets.GetRandomMusic | src/assets.cpp:206-220 | no track exactly for an empty collection; the only track of a one-track collection; otherwise a track of the collection |
| Assets.AssetsManager.GetAssetRaw | src/assets.cpp:227-236 | an absent id is an error; a present id gives the cached asset; the cache is unchanged |
| Assets.AssetsManager.CacheAssetRaw | src/assets.cpp:238-245 | a duplicate id is an error and changes nothing; a new id is stored and nothing else changes |
| Assets.AssetsManager.GetMusicCollection | src/assets.cpp:247-254 | the first request for an id creates an empty collection; later requests return the same entry and change nothing |
| Assets.CacheThenGet | src/assets.cpp:227-245 | only the first store of an id succeeds, and a lookup after it returns the stored asset |
| Raster2D.RoundRatioNearest | src/2d.cpp:22-27 | the exact rational rounding of the slope step, `round(i * s / l)`, is the nearest integer, halves away from zero |
| Raster2D.RoundRatioStep | src/2d.cpp:26-27 | one more step along the longer axis raises the shorter-axis offset by at most one |
| Raster2D.ShorterOffsetBounds | src/2d.cpp:22-27 | the shorter-axis offset lies in [0, s], equals s at the last step and never decreases, because the slope is at most 1 |
| Raster2D.TilesOnSegment | src/2d.cpp:6-41 | `tilesOnSegment` yields max(\|dx\|, \|dy\|) + 1 tiles, `start` first, and only `start` when start == end |
| Raster2D.TileAtGeometry | src/2d.cpp:16-38 | tile i is i steps from `start` along the dominant axis in the sign of travel, its other coordinate is the rounded slope offset, and the last tile is `end` |
| Raster2D.TileAtStep | src/2d.cpp:26-39 | consecutive tiles are distinct and differ by at most one on each axis |
| Raster2D.TilesOnSegmentGeometry | src/2d.cpp:16-39 | the i-th yielded tile is offset by i along the dominant axis in the sign of travel, stays within the segment's box on the other axis, the last tile is `end`, and consecutive tiles are 8-adjacent |
| Raster2D.KeepInBounds | src/2d.cpp:51-52 | the kept points are exactly the in-bounds candidates |
| Raster2D.NeighborsOf | src/2d.cpp:43-55 | `neighborsOf` yields exactly the in-bounds points at Manhattan distance 1 |
| Raster2D.NeighborsCount | src/2d.cpp:46-53 | an interior centre yields all four neighbours in the order left, right, up, down; a centre on the border yields fewer |
| Raster2D.Neighbors8 | src/elements/copper.cpp:33 | the 8-neighbourhood lists at most eight cells |
| Raster2D.Neighbors8Spec | src/elements/copper.cpp:33 | the 8-neighbourhood holds exactly the in-bounds cells of the 3x3 block other than the centre |
| Raster2D.NeighborsDistinct | src/2d.cpp:48-54 | both neighbourhoods list each cell once, so a loop over them visits each neighbour once |
| VideoConvert.FrameSize | convert_video.py:44 | a frame of positive width and height holds width * height * 4 bytes, a positive number |
| VideoConvert.FrameGeometry | convert_video.py:43-47 | the frame count is fileSize div frameSize and the remainder fileSize mod frameSize, the remainder below the frame size |
| VideoConvert.Filters | convert_video.py:83-86 | the filter list is "vflip", followed by the nearest-neighbour scale stage at the output size iff scale > 1 |
| VideoConvert.FirstIndex | convert_video.py:87 | the first occurrence of a separator, or the end when there is none |
| VideoConvert.SplitJoin | convert_video.py:87 | joining parts free of the separator splits back into the same parts |
| VideoConvert.FilterChainShape | convert_video.py:83-87 | scale <= 1 gives exactly "vflip"; scale > 1 gives "vflip,scale=W:H:flags=neighbor" with W, H the scaled size |
| VideoConvert.FilterChainRoundTrip | convert_video.py:83-87 | the `-vf` argument splits at commas back into exactly the filter list |
| VideoConvert.SizeTextRoundTrip | convert_video.py:93 | the `-video_size` text reads back as the original width and height |
| VideoConvert.Command | convert_video.py:89-103 | the encoder argument vector has 23 entries |
| VideoConvert.CommandFlags | convert_video.py:89-103 | each option flag sits at its fixed place in the argument vector, in the script's order |
| VideoConvert.CommandValues | convert_video.py:89-103 | each option's value follows its flag: rawvideo, rgba, the declared size, fps, the input, the filter chain, libx264, fast, yuv420p and crf 18 |
| VideoConvert.CommandLayout | convert_video.py:89-103 | the declared size reads back as the original width x height, the rate is fps, the filter argument splits into the filter list, and `-y` comes just before the output path, which is last |
| VideoConvert.ConvertDatToVideo | convert_video.py:36-120 | a missing input is the only way to stop before the size is read; otherwise the frame size is w*h*4, the frame count fileSize div frameSize, a warning carries the remainder iff it is non-zero and conversion continues either way, the output is (w*scale, h*scale) |
| VideoConvert.EncoderOutcome | convert_video.py:109-120 | success returns normally, a non-zero encoder exit and a missing tool both exit with 1, and install guidance for three OS families is given only when the tool is missing |
| VideoConvert.MissingInputIgnoresSize | convert_video.py:38-40 | a missing input exits with 1 whatever the file size |
| VideoConvert.RunCli | convert_video.py:176-195 | non-positive width or height, fps or scale is rejected with its own message, in that order, before any conversion; valid arguments are converted |
| VideoConvert.DefaultsAccepted | convert_video.py:145-171 | the defaults 256x192, 24 fps, scale 8 pass validation and ask for a 2048x1536 output |
| Shapes.TypesOf | src/structures/shape.cpp:20-27 | `_pixel_types` has one entry per shape cell |
| Shapes.POIsBefore | src/structures/shape.cpp:28-30 | every recorded POI is a cell of the shape |
| Shapes.ShapeBaseOf | src/structures/shape.cpp:15-33 | a freshly built structure's shape data is consistent: one type per cell and POIs inside the shape |
| Shapes.POIsBeforeSpec | src/structures/shape.cpp:23-31 | the first n cells in row-major order contribute exactly their POI cells, each once, in strictly increasing row-major order |
| Shapes.POIsOfSpec | src/structures/shape.cpp:28-30 | `poi` lists exactly the POI-coloured cells of the shape, in row-major order, without repeats |
| Shapes.TypesBeforeAt | src/structures/shape.cpp:25-27 | entry k of the partial classification is the classified colour of the k-th cell in row-major order |
| Shapes.TypesOfAt | src/structures/shape.cpp:25-67 | `_pixel_types[sy*w + sx]` is `pixelTypeFromColor` of the shape pixel at (sx, sy), wherever the structure sits |
| Shapes.VisitCell | src/structures/shape.cpp:24-30 | visiting cell (sx, sy) adds its classified colour at index sy*w + sx and appends it to `poi` iff it is a POI pixel |
| Shapes.ClassifyCell | src/structures/shape.cpp:25-30 | one cell of the constructor's pass writes exactly its own `_pixel_types` entry and appends it to `poi` iff it is a POI |
| Shapes.ClassifyRow | src/structures/shape.cpp:24-31 | one row of the pass leaves `_pixel_types` and `poi` equal to the classification and POI list of every cell so far |
| Shapes.NewShapeBase | src/structures/shape.cpp:15-33 | the constructor's row-major pass builds exactly the shape data specified by `ShapeBaseOf` |
| Structures.Priority | src/structures/gate.cpp:96-98 | every structure's priority is one of 5, 10, 50, 100 |
| Structures.PriorityOrder | src/structures/gate.cpp:96-98 | gates, transistors and taps have priority 5 and run first; plates and heaters (10) run before the laser emitter (50), which runs before the receiver (100) |
| Structures.Build | src/structures/shape.cpp:15-33 | every constructor starts from a fresh shape structure with no power |
| Structures.NewGate | src/structures/gate.cpp:28-30 | the gate constructor refuses a shape without a POI, and otherwise starts closed |
| Structures.NewNPN | src/structures/transistor.cpp:21-24 | the NPN transistor starts not conducting |
| Structures.NewPNP | src/structures/transistor.cpp:57-60 | the PNP transistor starts insulating |
| Structures.NewEmitter | src/structures/laser.cpp:36-42 | the laser emitter requires exactly one POI and reports the count otherwise |
| Structures.NewReceiver | src/structures/laser.cpp:91-97 | the laser receiver requires exactly one POI and reports the count otherwise |
| Structures.NewHeater | src/structures/heater.cpp:24-26 | the heater constructor refuses a shape without POIs |
| Grids.UpdateCell | src/fallsand/world.cpp:56-71 | writing one cell of a row-major array at index y*w + x changes that cell and no other |
| Grids.Grid.Swap | src/fallsand/world.cpp:120-124 | a swap keeps the size and every static tag |
| Grids.Grid.SwapFluids | src/fallsand/world.cpp:126-137 | a fluid swap keeps the size and every static tag |
| Grids.Grid.Replace | src/fallsand/world.cpp:144-149 | a replacement keeps the size and every static tag |
| Grids.Grid.ReplaceNew | src/fallsand/world.cpp:139-142 | replacing with an element's own new tag keeps the size and every static tag |
| Grids.Grid.Charge | src/fallsand/world.cpp:155-157 | `chargeElement` touches tags only, never elements or static tags |
| Grids.WithTagCells | src/fallsand/world.cpp:59-72 | a write through the tag reference changes that cell's tag only |
| Grids.WithTagTwice | src/fallsand/world.cpp:59-72 | of two tag writes to one cell the second wins, and writing a cell's own tag back changes nothing |
| Grids.WithElemCells | src/fallsand/world.cpp:74-88 | a write to an element changes that cell's element only |
| Grids.WithStaticCells | src/fallsand/world.cpp:105-118 | a write to a static tag changes that cell's static tag only |
| Grids.SwapCells | src/fallsand/world.cpp:120-124 | `swapPixels` exchanges tag and element of exactly the two cells; static tags and every other cell stay |
| Grids.SwapFluidsCells | src/fallsand/world.cpp:126-137 | `swapFluids` exchanges everything except `fluid_dir`, which stays with the position |
| Grids.ReplaceCells | src/fallsand/world.cpp:144-149 | a replaced cell gets the given element and tag; no other cell changes |
| Grids.NewGrid | src/fallsand/world.cpp:31-42 | a new world has the requested size |
| Grids.NewGridCells | src/fallsand/world.cpp:31-42 | every one of the w*h cells of a new world holds the Air tag and element, with clear static flags |
| Grids.ClearDirty | src/fallsand/world.cpp:167-171 | `resetDirtyFlags` clears every dirty flag and changes nothing else |
| Grids.DecayTag | src/fallsand/world.cpp:176-178 | a positive `electric_power` drops by 1; 0 stays 0; nothing else in the tag changes |
| Grids.Decayed | src/fallsand/world.cpp:174-179 | the step prologue clears every `laser_active` flag and decays every tag's power, and changes nothing else |
| Grids.DecayTimesLevel | src/fallsand/world.cpp:174-179 | after k ticks without recharge a non-negative power p becomes max(0, p - k) |
| Grids.PowerStaysBounded | src/fallsand/world.cpp:174-179 | decay and charging keep every power level within [0, max] |
| Grids.SwapTwice | src/fallsand/world.cpp:120-124 | swapping the same two cells twice restores the grid |
| Grids.SwapSymmetric | src/fallsand/world.cpp:120-124 | the order of the two cells does not matter for a swap |
| Grids.SwapSelf | src/fallsand/world.cpp:120-124 | swapping a cell with itself changes nothing |
| Grids.SwapFluidsTwice | src/fallsand/world.cpp:126-137 | a fluid swap applied twice restores the grid |
| Grids.ReplaceTwice | src/fallsand/world.cpp:144-149 | the second of two replacements of a cell wins outright |
| Grids.ChargeMeaning | src/elements/copper.cpp:22-27 | charging is idempotent, and gives a copper cell the maximum power only when its power was 0; no other cell or field changes |
| Grids.SameCells | src/fallsand/world.cpp:56 | two worlds of one size that agree on every cell are equal |
| World.AirCells | src/fallsand/world.cpp:37-41 | the constructor's loop fills all n cells with the Air tag and the Air element |
| World.PixelWorld.constructor | src/fallsand/world.cpp:31-42 | a new world has every cell Air with clear static flags and no structures |
| World.PixelWorld.TagOf | src/fallsand/world.cpp:44-57 | `tagOf(x, y)` is the tag stored at index y*w + x |
| World.PixelWorld.ElementOf | src/fallsand/world.cpp:74-88 | `elementOf(x, y)` is the element stored at index y*w + x |
| World.PixelWorld.StaticTagOf | src/fallsand/world.cpp:90-103 | `staticTagOf(x, y)` is the static tag stored at index y*w + x |
| World.PixelWorld.TypeOfIs | src/fallsand/world.cpp:159-161 | holds iff the cell's tag has that type |
| World.PixelWorld.ClassOfIs | src/fallsand/world.cpp:163-165 | holds iff the cell's tag has that class |
| World.PixelWorld.SetTag | src/fallsand/world.cpp:59-72 | a write through the tag reference is the grid's single-tag write |
| World.PixelWorld.SetStatic | src/fallsand/world.cpp:105-118 | a write through the static-tag reference is the grid's single static write |
| World.PixelWorld.SwapPixels | src/fallsand/world.cpp:120-124 | the new cells are the old cells with the two cells swapped |
| World.PixelWorld.SwapFluids | src/fallsand/world.cpp:126-137 | the new cells are the old cells fluid-swapped: each position keeps its own `fluid_dir` |
| World.PixelWorld.ReplacePixel | src/fallsand/world.cpp:139-142 | the cell gets the new element and that element's own new tag |
| World.PixelWorld.ReplacePixelWithTag | src/fallsand/world.cpp:144-149 | the cell gets the given element and tag |
| World.PixelWorld.ReplacePixelWithAir | src/fallsand/world.cpp:151-153 | the cell becomes Air with Air's tag |
| World.PixelWorld.ChargeElement | src/fallsand/world.cpp:155-157 | the cells after `chargeElement` are the grid's charge of that cell |
| World.PixelWorld.ResetDirtyFlags | src/fallsand/world.cpp:167-171 | every dirty flag is cleared and nothing else changes |
| World.PixelWorld.DecayPower | src/fallsand/world.cpp:174-179 | every `laser_active` is cleared and every positive power drops by 1 |
| World.PixelWorld.SetElement | src/elements/oil.cpp:44-48 | a write to the fields of the element object at (x, y) changes that element only |
| World.PixelWorld.ActivateLaserAt | src/structures/laser.cpp:80 | `activateLaserAt` sets that cell's `laser_active` flag and changes nothing else |
| World.PixelWorld.ReplaceKeepHeat | src/structures/gate.cpp:113-116 | the cell is replaced by the element with its own new tag, with the old heat written back |
| Water.PickDir | src/fallsand/water.cpp:49-51 | a water cell with no direction picks +1 on an even draw and -1 on an odd one |
| Water.Grounded | src/fallsand/water.cpp:47-51 | on the ground `is_free_falling` is cleared, a non-zero `fluid_dir` is kept and a 0 one is replaced by +1 or -1 |
| Water.GroundedStep | src/fallsand/water.cpp:47-82 | water that does not fall runs the sideways loop over d = `fluid_dir` and then -d |
| Water.BottomRowRemoved | src/fallsand/water.cpp:24-27 | water on the bottom row becomes Air and nothing else changes |
| Water.FallsThroughGas | src/fallsand/water.cpp:32-46 | with gas below, the water swaps downward; already falling water first becomes a water particle, otherwise it is marked free-falling |
| Water.MoveLocal | src/fallsand/water.cpp:63-73 | marking the water and swapping it with a neighbouring cell changes only cells next to it |
| Water.TrySideLocal | src/fallsand/water.cpp:55-80 | one pass of the sideways loop changes only the water cell and the side or diagonal cell of that pass |
| Water.SettleLocal | src/fallsand/water.cpp:54-82 | the sideways loop and the reset after it change at most the water cell and one side or diagonal cell |
| Water.WaterStepLocal | src/fallsand/water.cpp:23-83 | a water step changes only cells next to the water: at most one swap happens per call |
| Water.StaysPut | src/fallsand/water.cpp:47-82 | water on the ground with no gas beside or below it, away from the edges and with no flow to adopt, does not move: `fluid_dir` is reset to 0 and free fall cleared, nothing else changes |
| Water.AdoptsFlow | src/fallsand/water.cpp:53-80 | on solid ground, water next to a fluid with a non-zero `fluid_dir` adopts that direction and stops; nothing else changes |
| Water.SideMoveResetsDisplaced | src/fallsand/water.cpp:69-82 | a sideways move into gas carries the water to the side cell with the direction it moved in, and the final `fluid_dir = 0` lands on the displaced gas now at (x, y) |
| Water.SwapResetCells | src/fallsand/water.cpp:72-82 | a swap followed by the reset of slot (x, y): each cell's resulting tag |
| Water.SideMoveStep | src/fallsand/water.cpp:63-82 | the sideways move is marking the direction, swapping, then resetting slot (x, y) |
| Water.TrySideAt | src/fallsand/water.cpp:55-80 | one pass of the sideways loop on the world performs exactly the pass on the grid value and reports how the loop goes on |
| Water.SpreadAt | src/fallsand/water.cpp:54-82 | the sideways loop on the world over d and then -d, followed by the reset, performs the grid rule |
| Water.WaterStepAt | src/fallsand/water.cpp:23-83 | `Water::step` on the world performs exactly the grid rule `WaterStep` |
| Gas.CanSwapTagMeaning | src/fallsand/gas.cpp:12-16 | gas may move only into fluid or gas; into gas only when strictly denser than itself, so never into gas of its own type, and two gases can never both move into each other |
| Gas.GasDir | src/fallsand/gas.cpp:30 | `(roll % 2) * 2 - 1` is +1 for an odd draw and -1 for an even one |
| Gas.Dx | src/fallsand/gas.cpp:50 | the i-th searched column is i cells away |
| Gas.Columns | src/fallsand/gas.cpp:49-68 | the search looks at exactly `gas_dispersion_rate` = 4 columns, at distance 1 to 4 |
| Gas.ScanSpec | src/fallsand/gas.cpp:49-68 | the search ends at the first swappable diagonal if it comes before the edge, at the edge if it comes first, and otherwise at the farthest swappable side cell, or with nothing |
| Gas.ScanFound | src/fallsand/gas.cpp:49-68 | a found diagonal or side column is swappable and every earlier column is inside the world |
| Gas.SearchSpec | src/fallsand/gas.cpp:48-73 | the search proposes only swappable cells within reach, and removes the cell only when a searched column lies beyond the world's edge |
| Gas.SearchOffEdge | src/fallsand/gas.cpp:51-54 | a search that stops at the edge has its last column outside the world |
| Gas.SearchDiagonal | src/fallsand/gas.cpp:56-61 | a search that stops at a diagonal proposes a legal move |
| Gas.SearchSide | src/fallsand/gas.cpp:63-67 | a search that ends on a side candidate proposes a legal move |
| Gas.ColumnMove | src/fallsand/gas.cpp:56-67 | a swappable cell in a searched column is a legal move |
| Gas.GasDecisionSpec | src/fallsand/gas.cpp:20-74 | every proposed move goes into a swappable cell one row up or beside the gas, at most 4 columns away; below the top row removal happens only when the search reaches past the edge |
| Gas.GasRises | src/fallsand/gas.cpp:32-46 | the diagonal is tried only when in bounds and the chance roll is below 50; otherwise straight up is taken whenever that cell is swappable |
| Gas.ApplyGas | src/fallsand/gas.cpp:70-73 | applying the decision keeps the world's size |
| Gas.GasTopRowRemoved | src/fallsand/gas.cpp:21-24 | gas on the top row becomes Air |
| Gas.GasStepLocal | src/fallsand/gas.cpp:20-74 | a gas step changes at most the gas cell and the one cell it trades with, and no static tag: at most one swap per call |
| Gas.ColumnOf | src/fallsand/gas.cpp:51-67 | reading one searched column from the world gives the column the grid rule sees |
| Gas.SearchAt | src/fallsand/gas.cpp:48-68 | the search loop updating `to_x`, `to_y` proposes exactly the move of the grid rule |
| Gas.GasDecisionAt | src/fallsand/gas.cpp:26-68 | the decision read from the world is the grid rule's decision and is a legal move |
| Gas.GasStepAt | src/fallsand/gas.cpp:20-74 | `GasElement::step` on the world performs exactly the grid rule |
| Gas.SteamCondenses | src/fallsand/steam.cpp:19-30 | steam with heat <= 10 becomes Water keeping its heat and nothing else changes; hotter steam follows the gas rule |
| Gas.SmokeDisappears | src/fallsand/smoke.cpp:19-29 | smoke with heat <= 12 becomes Air keeping its heat and nothing else changes; hotter smoke follows the gas rule |
| Gas.SteamStepAt | src/fallsand/steam.cpp:19-30 | `Steam::step` on the world performs the grid rule `SteamStep` |
| Gas.SmokeStepAt | src/fallsand/smoke.cpp:19-29 | `Smoke::step` on the world performs the grid rule `SmokeStep` |
| Elements.PointsIn | src/elements/copper.cpp:33 | every yielded neighbour is a cell of the world |
| Elements.ChargeEach | src/elements/copper.cpp:33-35 | charging a list of cells touches tags only |
| Elements.ChargeEachCells | src/elements/copper.cpp:22-35 | charging a list of cells charges exactly the uncharged copper cells in it, whatever the order and however often a cell occurs |
| Elements.CopperStep | src/elements/copper.cpp:29-39 | a copper step keeps the world's size |
| Elements.CopperStepSpec | src/elements/copper.cpp:29-39 | at power max - 1, copper charges exactly the uncharged copper cells among its in-bounds 8-neighbours; at any other power nothing changes; its own tag, every element and every static tag stay |
| Elements.AroundIn | src/elements/copper.cpp:33 | a cell is in the 8-neighbourhood iff it is within one step on both axes and is not the centre |
| Elements.NextTo | src/elements/wood.cpp:57 | a cell is in the 4-neighbourhood iff it is at Manhattan distance 1 |
| Elements.ChargeAllAt | src/elements/copper.cpp:33-35 | the neighbour loop on the world performs the grid's `ChargeEach` |
| Elements.CopperStepAt | src/elements/copper.cpp:29-39 | `Copper::step` on the world performs the grid rule `CopperStep` |
| Elements.BurnOut | src/elements/wood.cpp:65-72 | burn-out keeps the world's size and its static tags |
| Elements.SpawnSmoke | src/elements/wood.cpp:74-84 | spawning smoke keeps the world's size and its static tags |
| Elements.BurnOutCells | src/elements/wood.cpp:65-72 | burn-out turns only the burning cell into a fresh Smoke cell (draw under 25) or Air |
| Elements.SpawnSmokeCells | src/elements/oil.cpp:62-72 | below the top row, under an Air cell and a draw under the chance, the cell above becomes Smoke of the given heat; nothing else changes |
| Elements.SpawnSmokeAt | src/elements/oil.cpp:62-72 | spawning on the world performs the grid rule |
| Elements.BurnOutAt | src/elements/oil.cpp:51-56 | burn-out on the world performs the grid rule |
| Elements.OilStep | src/elements/oil.cpp:28-75 | the oil rules keep the world's size and its static tags |
| Elements.BurnOutHot | src/elements/oil.cpp:51-58 | oil's burn-out keeps the world's size and its static tags |
| Elements.BurnOutHotAt | src/elements/oil.cpp:51-58 | oil's burn-out on the world performs the grid rule |
| Elements.OilCold | src/elements/oil.cpp:36-74 | oil below heat 40 only has `ignited` cleared and goes on to the fluid step |
| Elements.OilBurns | src/elements/oil.cpp:44-74 | hot oil with burn time left is ignited, its burn time drops by 1, its heat becomes min(heat_max, heat + 50), it may spawn Smoke of heat 50 above itself (roll < 3, Air above), no other cell changes, and the fluid step follows |
| Elements.OilBurnsOut | src/elements/oil.cpp:51-59 | on its last unit of burn time oil becomes Smoke (roll < 25) or Air, the new cell keeps the raised heat, nothing else changes and the fluid step is skipped |
| Elements.OilIgnition | src/elements/oil.cpp:36-59 | after the threshold checks oil is ignited iff heat >= 40, and skips the fluid step iff it burnt out |
| Elements.OilStepAt | src/elements/oil.cpp:28-74 | `Oil::step` on the world, up to the fluid step, performs the grid rule and reports whether the fluid step runs |
| Elements.WarmEach | src/elements/wood.cpp:56-63 | warming a list of cells touches tags only |
| Elements.WarmEachCells | src/elements/wood.cpp:56-63 | warming distinct cells raises each one's heat once, up to `heat_max`, and changes nothing else |
| Elements.WoodStep | src/elements/wood.cpp:33-88 | a wood step keeps the world's size and its static tags |
| Elements.WoodWarm | src/elements/wood.cpp:52-63 | the heat burning wood gives off touches tags only |
| Elements.WoodHeats | src/elements/wood.cpp:52-63 | burning wood heats itself by 40 and each 4-neighbour by 2, both up to `heat_max`, and no other cell |
| Elements.WoodIgnition | src/elements/wood.cpp:44-50 | wood ignites only when not ignited, heat >= 60 and roll < 10; wood that does not burn changes nothing; burning wood stays ignited until it burns out |
| Elements.WoodBurnsCells | src/elements/wood.cpp:50-84 | burning wood with time left gets heat + 40, its neighbours + 2, its burn time drops by 1, and the Air cell above may become Smoke of heat 40 (roll < 2); nothing else changes |
| Elements.WoodBurnsOut | src/elements/wood.cpp:65-72 | at burn-out wood becomes a fresh Smoke (roll < 25) or Air cell, its neighbours still got their 2 degrees, and nothing else changes |
| Elements.WarmAt | src/elements/wood.cpp:56-63 | the neighbour loop on the world performs the grid's `WarmEach` |
| Elements.WoodWarmAt | src/elements/wood.cpp:52-63 | the heating on the world performs the grid rule |
| Elements.WoodStepAt | src/elements/wood.cpp:33-88 | `Wood::step` on the world performs the grid rule `WoodStep` |
| ShapeWorld.UnderCell | src/structures/shape.cpp:36-39 | shape cell k in row-major order lies over world cell (x + sx, y + sy) |
| ShapeWorld.SetupCell | src/structures/shape.cpp:38-48 | stamping one shape cell keeps the world's size and its static tags |
| ShapeWorld.SetupBefore | src/structures/shape.cpp:36-50 | the first n cells of `setup` keep the world's size and static tags |
| ShapeWorld.Setup | src/structures/shape.cpp:35-51 | `setup` keeps the world's size and static tags |
| ShapeWorld.SetupCellCell | src/structures/shape.cpp:38-48 | visiting shape cell k stamps the world cell under it, unless the cell is Air, and touches no other cell |
| ShapeWorld.SetupBeforeCells | src/structures/shape.cpp:36-50 | after the first n shape cells, each world cell under a non-Air one holds its type's element and tag; every other cell is as it was |
| ShapeWorld.SetupSpec | src/structures/shape.cpp:35-51 | `setup` writes only non-Air cells at (x + sx, y + sy): each gets `constructElementByType` of its type, its colour overridden unless it is 255; every other cell is unchanged |
| ShapeWorld.SetupCellAt | src/structures/shape.cpp:38-48 | one cell of `setup` on the world performs the grid rule |
| ShapeWorld.SetupRowAt | src/structures/shape.cpp:37-49 | one row of `setup` on the world performs the first cells of the grid rule |
| ShapeWorld.SetupAt | src/structures/shape.cpp:35-51 | `setup` on the world performs the grid rule `Setup` |
| ShapeWorld.SetupIntact | src/structures/shape.cpp:35-109 | a structure just stamped by `setup` passes its own shape check |
| ShapeWorld.IntactRowAt | src/structures/shape.cpp:93-105 | one row of the check succeeds iff every non-Air shape cell of the row lies on a world cell of its expected type |
| ShapeWorld.IntactAt | src/structures/shape.cpp:91-109 | shape `step` returns true iff every non-Air footprint cell has its expected type in the world |
| ShapeWorld.ByteIndex | src/structures/shape.cpp:81 | byte ((y + sy) * W + x + sx) * 4 + ch lies in the w*h*4 buffer |
| ShapeWorld.ByteIndexInjective | src/structures/shape.cpp:81-86 | distinct (cell, channel) pairs map to distinct buffer bytes |
| ShapeWorld.RenderCell | src/structures/shape.cpp:75-86 | drawing one shape cell keeps the buffer's length |
| ShapeWorld.RenderBefore | src/structures/shape.cpp:73-88 | drawing the first n shape cells keeps the buffer's length |
| ShapeWorld.RenderCellByte | src/structures/shape.cpp:75-86 | drawing shape cell k writes only the four bytes of the world cell under it, and only for a Decoration cell |
| ShapeWorld.RenderBeforeBytes | src/structures/shape.cpp:73-88 | after the first n shape cells each Decoration cell's colour sits in its world cell's bytes in the order r, g, b, a; every other byte is unchanged |
| ShapeWorld.RenderSpec | src/structures/shape.cpp:70-89 | `customRender` overwrites only Decoration cells, at bytes ((y + sy) * W + x + sx) * 4, with their shape colour |
| ShapeWorld.RenderSpecAt | src/structures/shape.cpp:70-89 | what `customRender` leaves in one byte of the buffer |
| ShapeWorld.RenderCellAt | src/structures/shape.cpp:75-86 | one cell of `customRender` on the buffer performs the sequence rule |
| ShapeWorld.RenderRowAt | src/structures/shape.cpp:74-87 | one row of `customRender` on the buffer performs the first cells of the sequence rule |
| ShapeWorld.CustomRenderAt | src/structures/shape.cpp:70-89 | `customRender` on the buffer performs the sequence rule `RenderBefore` over every shape cell |
| Electric.StepCapBounds | src/structures/electric.cpp:15-30 | a step keeps the cap in [0, 12]; it is 12 after a charge and max(0, cap - 1) otherwise |
| Electric.UnchargedDecay | src/structures/electric.cpp:16-30 | after k consecutive unpowered steps from cap c the cap is max(0, c - k) |
| Electric.CapWindow | src/structures/electric.cpp:15-30 | from an empty cap, the cap is 12 minus the steps since the last charge within the last 12, else 0 |
| Electric.PoweredIffRecentCharge | src/structures/electric.cpp:11-30 | from an empty cap, a structure is powered (`_power_cap` > 0) exactly when one of its last 12 steps found power in its box |
| Electric.ChargedRowAt | src/structures/electric.cpp:21-29 | the scan of one row finds power iff some cell of the row carries power |
| Electric.ChargedAt | src/structures/electric.cpp:20-30 | the scan, which stops at the first powered cell, finds power iff some cell of the bounding box carries power |
| Electric.InputStepAt | src/structures/electric.cpp:15-33 | the input step lowers a positive cap by one, resets it to 12 when the box carries power, and keeps it in [0, 12] |
| Electric.FootprintBefore | src/structures/electric.cpp:41-51 | every footprint cell lies under a cell of the shape |
| Electric.FootprintBeforeSpec | src/structures/electric.cpp:41-51 | the footprint lists a world cell exactly when a non-Air shape cell lies over it |
| Electric.FootprintIn | src/structures/electric.cpp:47-49 | every footprint cell of a structure inside the world is a world cell |
| Electric.ChargeFootprint | src/structures/electric.cpp:41-51 | charging the footprint touches tags only |
| Electric.OutputStep | src/structures/electric.cpp:40-54 | the output step touches tags only |
| Electric.OutputStepSpec | src/structures/electric.cpp:40-54 | the output step calls `chargeElement` on every non-Air footprint cell: it charges exactly the uncharged copper cells under the shape and changes nothing else |
| Electric.ChargeFootprintStep | src/structures/electric.cpp:43-49 | visiting shape cell (sx, sy) charges the cell under it when it is not Air |
| Electric.OutputCellAt | src/structures/electric.cpp:43-49 | one cell of the output step on the world performs the grid rule |
| Electric.OutputRowAt | src/structures/electric.cpp:42-50 | one row of the output step on the world performs the grid rule's first cells |
| Electric.OutputStepAt | src/structures/electric.cpp:40-54 | `OutputElectricalStructure::step` on the world performs the grid rule `OutputStep` |
| Rewrites.RewriteOne | src/structures/transistor.cpp:37-48 | rewriting one cell keeps the world's size and static tags |
| Rewrites.RewriteEach | src/structures/transistor.cpp:37-48 | a pass keeps the world's size and static tags |
| Rewrites.Targets | src/structures/transistor.cpp:37-39 | the cells a pass visits, one per job, in order |
| Rewrites.RewriteOneCell | src/structures/transistor.cpp:40-47 | one job rewrites only its own in-bounds cell: replace-with-heat-kept, heat raise, or gas-only replacement |
| Rewrites.RewriteEachOutside | src/structures/transistor.cpp:37-48 | a cell no job visits keeps its contents |
| Rewrites.TwoPassesSkip | src/structures/gate.cpp:106-131 | two successive passes leave a cell neither visits alone |
| Rewrites.RewriteEachCells | src/structures/transistor.cpp:37-48 | a pass over distinct cells rewrites each in-bounds job cell once, from its original contents, and leaves every other cell as it was |
| Rewrites.POIJobs | src/structures/transistor.cpp:37-48 | a POI pass visits the world position of each POI, in `poi` order |
| Rewrites.POIInBounds | src/structures/shape.cpp:28-30 | the POIs of a shape lying in the world are world cells |
| Rewrites.ShapePOIsDistinct | src/structures/shape.cpp:23-31 | a shape's POIs are pairwise distinct |
| Rewrites.POIJobsDistinct | src/structures/shape.cpp:23-31 | distinct POIs are distinct world cells |
| Rewrites.POIPassCells | src/structures/transistor.cpp:37-48 | a pass over the POIs rewrites every POI as the rewrite says and leaves every other cell as it was |
| Rewrites.NotPOINotTarget | src/structures/transistor.cpp:37-39 | a cell that is not a POI is not visited by a POI pass |
| Rewrites.RewriteOneAt | src/structures/transistor.cpp:40-47 | one job on the world performs the grid rule |
| Rewrites.RewriteEachAt | src/structures/transistor.cpp:37-48 | a pass on the world performs the grid rule `RewriteEach` |
| Gates.PathJobs | src/structures/gate.cpp:106-117 | one loop over `poi` at offset `i` visits, per POI and in POI order, the cell `i` steps along the gate's direction |
| Gates.OpenFurther | src/structures/gate.cpp:100-132 | opening keeps the world's size and static tags |
| Gates.CloseFurther | src/structures/gate.cpp:134-166 | closing keeps the world's size and static tags |
| Gates.MoveBar | src/structures/gate.cpp:87-92 | moving the bar keeps the world's size and static tags |
| Gates.GateStepWith | src/structures/gate.cpp:67-94 | a broken shape removes the gate and changes nothing; otherwise the capacitor is the input step's, the state rises by at most one while powered and falls by at most one otherwise, and the progress stays in 0..19 |
| Gates.GateStepParts | src/structures/gate.cpp:72-92 | an intact gate's step is the capacitor update, then the state move, then the bar move at the new progress |
| Gates.NextStateMoves | src/structures/gate.cpp:168-199 | the progress moves by at most one cell per step; it rises only when powered and every cell behind the back is free, and falls only when unpowered and every checked cell is free |
| Gates.OpenNeverCrushes | src/structures/gate.cpp:100-132 | opening by one cell into free cells leaves every cell off the old bar and the freed back cells as it was |
| Gates.CloseNeverCrushes | src/structures/gate.cpp:134-166 | closing by one cell into free cells leaves every cell off the old bar and the filled front cells as it was |
| Gates.MoveBarNeverCrushes | src/structures/gate.cpp:87-92 | moving the bar by at most one cell into free cells leaves every other off-bar cell as it was |
| Gates.StepMoveNeverCrushes | src/structures/gate.cpp:76-92 | the move part of a step with the corrected check never overwrites a cell off the old bar |
| Gates.GateNeverCrushes | src/structures/gate.cpp:67-94 | with the corrected closing check, a gate step changes no cell that is not on the bar and not found free by the check |
| Gates.AlongInjective | src/structures/gate.cpp:38-41 | with POIs in distinct lanes, a bar cell determines its POI and its offset |
| Gates.PathDistinct | src/structures/gate.cpp:106-117 | with POIs in distinct lanes, one loop over `poi` visits distinct cells |
| Gates.LaneMiss | src/structures/gate.cpp:106-117 | a loop at one offset visits no lane cell at another offset |
| Gates.PassFills | src/structures/gate.cpp:120-131 | a Stone pass leaves Stone (or nothing, out of bounds) on each lane cell it visits |
| Gates.OpenFillsBack | src/structures/gate.cpp:119-131 | opening fills the cell behind the back of every lane with Stone |
| Gates.OpenKeepsRest | src/structures/gate.cpp:100-132 | opening touches no cell of the new bar other than the filled back cells |
| Gates.OpenKeepsBar | src/structures/gate.cpp:100-132 | opening moves a whole Stone bar back by one cell and keeps it whole |
| Gates.CloseFillsFront | src/structures/gate.cpp:139-151 | closing fills the cell past the front of every lane with Stone |
| Gates.CloseKeepsRest | src/structures/gate.cpp:134-166 | closing touches no cell of the new bar other than the filled front cells |
| Gates.CloseKeepsBar | src/structures/gate.cpp:134-166 | closing moves a whole Stone bar forward by one cell and keeps it whole |
| Gates.MoveBarKeepsBar | src/structures/gate.cpp:87-92 | moving the bar by at most one cell keeps it whole Stone at the new progress |
| Gates.GateKeepsBar | src/structures/gate.cpp:67-94 | the gate's invariant: a whole Stone bar at the current progress is whole Stone at the progress after the step |
| Gates.SetupJobs | src/structures/gate.cpp:38-41 | the setup loop visits `|poi| * 20` cells |
| Gates.SetupJobsAt | src/structures/gate.cpp:38-41 | iteration (i, k) of the setup loop visits POI `k`'s lane cell `i` |
| Gates.SetupDistinct | src/structures/gate.cpp:38-41 | with lanes apart the setup loop visits every cell once |
| Gates.BarSetupBefore | src/structures/gate.cpp:38-60 | the first `n` setup iterations keep the world's size |
| Gates.BarSetupBeforeOk | src/structures/gate.cpp:46-58 | until it throws, the setup loop is a Stone pass keeping heat over the cells visited so far |
| Gates.BarSetupBeforeSpec | src/structures/gate.cpp:38-60 | over distinct cells, the setup loop throws exactly when a visited cell was Solid, and then names the first such cell |
| Gates.SetupJobsOnBar | src/structures/gate.cpp:38-41 | every cell the setup loop visits is on the closed bar |
| Gates.GateBarSetupOk | src/structures/gate.cpp:33-61 | the bar setup succeeds when no in-bounds cell of the closed bar is Solid |
| Gates.GateBarSetupErr | src/structures/gate.cpp:47-53 | a failed bar setup names a Solid cell of the closed bar |
| Gates.GateBarSetupStone | src/structures/gate.cpp:56-58 | a successful bar setup lays a whole Stone bar at progress 0 |
| Gates.GateBarSetupElsewhere | src/structures/gate.cpp:38-60 | a successful bar setup changes no cell off the closed bar |
| Gates.SetupStaysErr | src/structures/gate.cpp:47-53 | once the setup loop has thrown, later iterations change nothing |
| Gates.CanMoveFurtherAt | src/structures/gate.cpp:168-199 | the loop over `poi` answers `_canMoveFurther` with the closing check it is given; `AsWritten` is the source's check, `Corrected` the fix |
| Gates.OpenFurtherAt | src/structures/gate.cpp:100-132 | `_openFurther` on the world performs `OpenFurther` |
| Gates.CloseFurtherAt | src/structures/gate.cpp:134-166 | `_closeFurther` on the world performs `CloseFurther` |
| Gates.NextStateAt | src/structures/gate.cpp:76-85 | the middle of `Gate::step` computes `NextState` with the closing check it is given; `AsWritten` is the source's check |
| Gates.MoveBarAt | src/structures/gate.cpp:87-92 | the end of `Gate::step` performs `MoveBar` |
| Gates.GateStepAt | src/structures/gate.cpp:67-94 | `Gate::step` on the world performs `GateStepWith` with the closing check it is given; the world loop threads its own `chk` through, and `AsWritten` is the source's check |
| Gates.SetupStepAt | src/structures/gate.cpp:42-58 | one setup iteration throws on a Solid cell or writes Stone keeping its heat |
| Gates.SetupRowAt | src/structures/gate.cpp:39-59 | one pass of the outer setup loop performs its row of iterations, or reports the throw |
| Gates.SetupJobsStone | src/structures/gate.cpp:57 | every setup iteration writes Stone |
| Gates.SetupRowsAt | src/structures/gate.cpp:38-60 | the outer setup loop performs all iterations, or reports the first throw |
| Gates.GateBarSetupAt | src/structures/gate.cpp:36-60 | the bar loop on the world succeeds exactly when `GateBarSetup` does, with its cells, or reports its blocking cell |
| Gates.GateSetupAt | src/structures/gate.cpp:33-61 | `Gate::setup` on the world stamps the shape and lays the bar, or reports the blocking cell it threw on |
| GateFinding.SampleTag | src/structures/gate.cpp:168-199 | the sample column holds Solid on rows 0 to 19 and Gas below |
| GateFinding.SampleColumn | src/structures/gate.cpp:168-199 | the sample column is a valid world |
| GateFinding.SampleColumnFacts | src/structures/gate.cpp:67-74 | the sample gate is intact and unpowered |
| GateFinding.SampleCloseFills | src/structures/gate.cpp:139-151 | closing the sample gate to progress 0 writes Stone on row 19 |
| GateFinding.SampleNextState | src/structures/gate.cpp:82-184 | unpowered, the sample gate's state drops as written and stays with the corrected check |
| GateFinding.SampleAsWrittenCloses | src/structures/gate.cpp:87-92 | as written, the unpowered sample gate closes its last cell |
| GateFinding.SampleCorrectedStays | src/structures/gate.cpp:67-94 | corrected, the unpowered sample gate leaves the world unchanged |
| GateFinding.AsWrittenCheckCrushes | src/structures/gate.cpp:134-184 | the closing check as written examines the cell one beyond the one the bar fills, so the bar overwrites the Sand on row 19; the corrected check keeps it |
| Transistors.WithFlag | src/structures/transistor.cpp:36-73 | setting the switch flag keeps the transistor's kind and direction |
| Transistors.SwitchComplement | src/structures/transistor.cpp:42-83 | an NPN holds Copper exactly when powered, a PNP exactly when unpowered, so they always disagree |
| Transistors.TransistorStep | src/structures/transistor.cpp:26-88 | a broken shape removes the transistor and changes nothing; otherwise the capacitor is updated, the flag follows the power, and a step that leaves the flag as it was changes no cell |
| Transistors.TransistorStepCells | src/structures/transistor.cpp:35-86 | when the flag flips, each POI holds the new state's element with its old heat kept; nothing else changes |
| Transistors.TransistorSettles | src/structures/transistor.cpp:35-86 | the POIs agree with the switch after a flipping step, and stay in agreement over a non-flipping one |
| Transistors.TransistorStepAt | src/structures/transistor.cpp:26-88 | the steps on the world perform `TransistorStep` |
| Lasers.Beam | src/structures/laser.cpp:64-81 | the beam keeps the world's size and its elements |
| Lasers.BeamLengthSpec | src/structures/laser.cpp:64-77 | the beam lights the in-bounds unblocked cells up to the first that leaves the world, is Solid or is Smoke |
| Lasers.BeamLengthTags | src/structures/laser.cpp:64-77 | the beam's extent depends on the tags alone |
| Lasers.AlongDistinct | src/structures/laser.cpp:64-66 | the cells of a ray are distinct |
| Lasers.OnBeamStep | src/structures/laser.cpp:64-66 | the lit cells from `p` are `p` and the lit cells from the next cell |
| Lasers.BeamStaticAt | src/structures/laser.cpp:80 | the beam sets `laser_active` on exactly the lit cells and leaves every other static tag |
| Lasers.BeamTagAt | src/structures/laser.cpp:70-73 | the beam heats the Solid cell it stops at by 5 and leaves every other tag |
| Lasers.BeamCells | src/structures/laser.cpp:60-81 | the beam marks the lit ray cells, heats a Solid blocker, and changes nothing else |
| Lasers.EmitterStep | src/structures/laser.cpp:45-83 | a broken shape removes the emitter; otherwise the capacitor is updated and an unpowered emitter changes no cell |
| Lasers.ReceiverStep | src/structures/laser.cpp:100-115 | a broken shape removes the receiver; a receiver whose POI is not `laser_active` changes nothing; it never changes elements or static tags |
| Lasers.LitReceiverCharges | src/structures/laser.cpp:85-120 | a receiver whose POI is lit by a powered emitter's beam charges its footprint in the same world step |
| Lasers.BeamAt | src/structures/laser.cpp:64-81 | the beam loop on the world performs `Beam` |
| Lasers.EmitterStepAt | src/structures/laser.cpp:45-83 | `LaserEmitter::step` on the world performs `EmitterStep` |
| Lasers.ReceiverStepAt | src/structures/laser.cpp:100-115 | `LaserReceiver::step` on the world performs `ReceiverStep` |
| PressurePlates.PlateStep | src/structures/pressure_plate.cpp:33-89 | a plate stays exactly while its shape is intact, never changes elements or static tags, and an unpressed plate changes nothing |
| PressurePlates.PlateCharges | src/structures/pressure_plate.cpp:54-87 | a pressed intact plate charges exactly the uncharged copper under its non-Air cells to `power_max` |
| PressurePlates.HeavyNeedsEntity | src/structures/pressure_plate.cpp:38-81 | whatever presses a heavy plate presses a plate, and only an entity presses a heavy plate |
| PressurePlates.PressedAt | src/structures/pressure_plate.cpp:38-81 | the loop over `poi` with early exit computes whether some POI presses |
| PressurePlates.PlateStepAt | src/structures/pressure_plate.cpp:33-89 | the steps on the world perform `PlateStep` |
| Heaters.HeaterStep | src/structures/heater.cpp:29-48 | a heater stays exactly while intact, writes only tags, updates its capacitor, and changes nothing while unpowered |
| Heaters.WarmKeepsElems | src/structures/heater.cpp:41-44 | a heat pass writes tags only |
| Heaters.HeaterWarmsPOI | src/structures/heater.cpp:40-45 | a powered heater sets each POI's heat to `min(heat + 15, heat_max)`, keeping the rest of its tag |
| Heaters.HeaterKeepsRest | src/structures/heater.cpp:40-45 | a heater's step changes the tag of no cell other than its POIs |
| Heaters.HeaterBounds | src/structures/heater.cpp:43 | the heater never cools a cell at or below `heat_max` and never heats past it |
| Heaters.HeaterStepAt | src/structures/heater.cpp:29-48 | `Heater::step` on the world performs `HeaterStep` |
| Taps.TapElement | src/structures/tap.cpp:45-74 | a water tap puts Water; an oil tap puts Oil with a burn time from 36 to 60 |
| Taps.TapJobs | src/structures/tap.cpp:40-47 | one fill job per POI, at its world position |
| Taps.TapStep | src/structures/tap.cpp:30-79 | a tap stays exactly while intact, keeps static tags, updates its capacitor, and changes nothing while unpowered |
| Taps.TapJobsDistinct | src/structures/tap.cpp:40-47 | distinct POIs make distinct fill jobs |
| Taps.TapFillsPOI | src/structures/tap.cpp:43-75 | a powered tap turns a Gas POI into a fresh pixel of its liquid and leaves any other POI |
| Taps.TapKeepsRest | src/structures/tap.cpp:39-48 | a tap changes no cell other than its POIs |
| Taps.TapOnlyFills | src/structures/tap.cpp:44 | a tap only adds liquid: no non-Gas POI changes |
| Taps.TapStepAt | src/structures/tap.cpp:30-79 | the steps on the world perform `TapStep` |
| PowerSources.PowerSourceStep | src/structures/power_source.cpp:23-32 | a source stays exactly while intact and writes only tags |
| PowerSources.PowerSourceCharges | src/structures/power_source.cpp:28-30 | an intact source charges exactly the uncharged copper under its non-Air cells to `power_max` |
| PowerSources.PowerSourceStepAt | src/structures/power_source.cpp:23-32 | `PowerSource::step` on the world performs `PowerSourceStep` |
| Simulation.StructureStep | src/fallsand/world.cpp:186-187 | the dispatched step keeps the world's size; a structure survives exactly when its shape is intact, a dropped one changes nothing, and a survivor keeps its shape data, its priority and its place in the world, for whichever gate closing check `chk` the world loop threads through (`AsWritten` is the source's) |
| Simulation.StepPrefix | src/fallsand/world.cpp:186-190 | the first `n` turns of the structure loop give one result each and keep the world's size |
| Simulation.Kept | src/fallsand/world.cpp:187-189 | the filtered list is no longer than the results |
| Simulation.StepStructures | src/fallsand/world.cpp:184-191 | the structure loop keeps the world's size |
| Simulation.StepPrefixFaithful | src/fallsand/world.cpp:186-190 | each structure's result is faithful to it: it survives exactly when intact and keeps its shape data and priority |
| Simulation.StepPrefixDrops | src/fallsand/world.cpp:187 | a structure whose shape is broken on its turn leaves the cells as it found them and is dropped |
| Simulation.Bases | src/fallsand/world.cpp:184-191 | the shape data of each structure, in list order |
| Simulation.SubsequenceGrow | src/fallsand/world.cpp:188 | a subsequence stays one when the list grows at its end |
| Simulation.SubsequenceShrink | src/fallsand/world.cpp:188 | a subsequence stays one when it loses its last element |
| Simulation.SubsequenceBoth | src/fallsand/world.cpp:188 | appending the same element to both keeps a subsequence |
| Simulation.KeptInOrder | src/fallsand/world.cpp:184-191 | the kept structures are an order-keeping selection of the structures that stepped |
| Simulation.KeptSorted | src/fallsand/world.cpp:184-218 | filtering a priority-sorted list leaves it sorted, and nothing kept ranks after a structure still to step |
| Simulation.KeptPlaced | src/fallsand/world.cpp:184-191 | every kept structure lies in the world |
| Simulation.StepStructuresKeepsList | src/fallsand/world.cpp:184-191 | the new list keeps the old one's order, lies in the world, and stays sorted by priority |
| Simulation.StructureStepAt | src/fallsand/world.cpp:187 | the virtual step on the world performs `StructureStep` |
| Simulation.LowerBound | src/fallsand/world.cpp:213-218 | the lower bound: every structure before it ranks strictly earlier, the one at it does not |
| Simulation.LowerBoundSplits | src/fallsand/world.cpp:213-218 | in a sorted list, an index is the lower bound exactly when it splits the list into earlier-ranked structures and the rest |
| Simulation.Insert | src/fallsand/world.cpp:219 | inserting makes the list one longer |
| Simulation.InsertAt | src/fallsand/world.cpp:213-219 | the new structure lands at the lower bound, between the list's two parts |
| Simulation.InsertMultiset | src/fallsand/world.cpp:219 | inserting adds exactly the new structure |
| Simulation.InsertSorted | src/fallsand/world.cpp:211-219 | inserting keeps a sorted list sorted, the new structure before every structure of equal priority |
| Simulation.LowerBoundAt | src/fallsand/world.cpp:213-218 | the binary search on the list returns `LowerBound` |
| Simulation.AddStructure | src/fallsand/world.cpp:208-220 | only a gate's setup can refuse; otherwise the list is the insertion and the cells keep their size |
| Simulation.BarSetupOkValid | src/structures/gate.cpp:33-61 | a successful bar setup leaves a valid grid of the same size |
| Simulation.AddStructureKeepsList | src/fallsand/world.cpp:208-220 | adding keeps the world's list sorted by priority and inside the world |
| Simulation.AddStructureAt | src/fallsand/world.cpp:208-220 | `addStructure` on the world performs `AddStructure`; a refused gate leaves the list unchanged |
| Simulation.StepOneAt | src/fallsand/world.cpp:186-190 | one turn of the loop steps structure `i` and appends it to `next_structures` when it survives |
| Simulation.StepStructuresAt | src/fallsand/world.cpp:184-191 | the structure loop of `step` on the world performs `StepStructures` and replaces the list |
| Rendering.RenderIndexInPalette | src/fallsand/world.cpp:240-255 | with a buildable palette (Fire1, Fire2, Fire3 and Electric present), the chosen colour index is in the palette whenever the cell's own index is |
| Rendering.CellColors | src/fallsand/world.cpp:240-268 | the first pass gives one colour per cell, each `CellColor` |
| Rendering.CellColorPrecedence | src/fallsand/world.cpp:242-262 | fire first (Fire1 for roll 0, Fire2 for 1 to 4, Fire3 for 5), then "Electric" from charge 12, then the cell's own index; under a beam that index goes through the laser blend |
| Rendering.LaidStep | src/fallsand/world.cpp:264-267 | writing one colour over its four bytes lays out one more colour |
| Rendering.BytesOfCells | src/fallsand/world.cpp:240-268 | a buffer with every colour laid out is the bytes of those colours |
| Rendering.BytesOfCell | src/fallsand/world.cpp:264-267 | byte `ch` of world cell `(a, c)` is that channel of the cell's colour |
| Rendering.Overlay | src/fallsand/world.cpp:270-272 | the structures' drawing keeps the buffer's length |
| Rendering.OverlayKeeps | src/fallsand/world.cpp:270-272 | a cell under no structure's Decoration cell keeps what the first pass wrote |
| Rendering.OverlayTop | src/fallsand/world.cpp:270-272 | where several structures draw a cell, the last in the list wins |
| Rendering.RenderToBuffer | src/fallsand/world.cpp:222-273 | the rendered buffer holds four bytes per cell |
| Rendering.RenderShowsCell | src/fallsand/world.cpp:240-273 | an undecorated cell shows the four channels of the colour the first pass chose |
| Rendering.WriteColorAt | src/fallsand/world.cpp:264-267 | writing a colour sets the cell's four bytes in r, g, b, a order and no others |
| Rendering.CellColorAt | src/fallsand/world.cpp:241-262 | the first loop's colour choice for cell `i` is `CellColor` |
| Rendering.RenderCellsAt | src/fallsand/world.cpp:240-268 | the first loop fills the buffer with the bytes of every cell's colour |
| Rendering.OverlayAt | src/fallsand/world.cpp:270-272 | the second loop performs `Overlay` over the whole list |
| Rendering.RenderToBufferAt | src/fallsand/world.cpp:222-273 | `renderToBuffer` fills the buffer with `RenderToBuffer` |
| Renderers.UploadIndex | src/render.cpp:49-52 | a cell's index is kept when it is in the palette and clamped to 0 otherwise |
| Renderers.UploadColors | src/render.cpp:45-61 | one colour per cell, the palette colour of its clamped index |
| Renderers.UploadShowsCell | src/render.cpp:55-59 | byte `4 * (y * width + x) + ch` holds that channel of the cell's clamped palette colour |
| Renderers.Renderer.constructor | src/render.cpp:10 | a new renderer has no size and an empty buffer |
| Renderers.Renderer.Init | src/render.cpp:12-36 | a non-positive size is refused and nothing changes; otherwise the size is taken, the buffer zeroed, and the result is whether the texture resized |
| Renderers.Renderer.UploadFromWorld | src/render.cpp:38-66 | after an upload the renderer has the world's size and its buffer holds every cell's clamped palette colour |
| Renderers.Renderer.FillFromWorld | src/render.cpp:45-61 | the fill loop writes every cell's clamped palette colour |
| Renderers.Renderer.UploadRow | src/render.cpp:46-60 | one row of the loop lays out the colours of that row |
| Items.OilTagsAgree | src/items/oil.cpp:33 | every fresh oil pixel starts with the oil brush's tag, whatever its burn time |
| Items.PaintOne | src/items/oil.cpp:25-35 | one visit keeps the world's size and static tags |
| Items.PaintEach | src/items/oil.cpp:23-37 | a pass keeps the world's size and static tags |
| Items.PaintAppend | src/items/oil.cpp:23-37 | a pass over `a + b` is the pass over `a` then over `b`, and is used when either part is |
| Items.PaintNextVisit | src/items/oil.cpp:24-36 | one more visit extends the pass by that visit, and its `used` flag by whether it changed its cell |
| Items.PaintNextLine | src/items/oil.cpp:23-37 | one more line extends the pass by that line |
| Items.PaintOutside | src/items/oil.cpp:27-30 | visits all outside the world change nothing and leave `used` false |
| Items.PaintOneCell | src/items/oil.cpp:32-35 | one visit changes its own cell as the brush says and no other |
| Items.DistinctFront | src/items/oil.cpp:23-37 | dropping the last of distinct visits keeps them distinct and the last cell is none of the others |
| Items.PaintEachCells | src/items/oil.cpp:23-37 | over distinct cells, a pass paints each visited in-bounds cell from its original contents and leaves every other cell |
| Items.LastVisitSees | src/items/oil.cpp:23-37 | on distinct cells, the last visit sees its cell as it was before the pass |
| Items.SomeVisitChangesFront | src/items/oil.cpp:34 | some visit changes its cell exactly when the last or an earlier one does |
| Items.PaintUsedMeans | src/items/oil.cpp:22-38 | on distinct cells, a pass is used exactly when some visit's cell, as the world was, is one the brush changes |
| Items.LinePos | src/items/oil.cpp:23-26 | every cell of the square has a line and a place in it |
| Items.LineJobs | src/items/oil.cpp:24-26 | a line has one visit per entry |
| Items.SquareLines | src/items/oil.cpp:23-26 | `n` lines of `n` visits, visit `i` of line `d` at its column (or row) `d`, position `i` |
| Items.SquareVisit | src/items/oil.cpp:23-26 | visit `d * n + i` of the pass is entry `i` of line `d`, out of `n * n` |
| Items.SquareVisitOf | src/items/oil.cpp:23-26 | every visit of the pass is the entry of some line |
| Items.SquareJobsDistinct | src/items/oil.cpp:23-26 | a brush visits each cell of its square once |
| Items.SquareJobsCover | src/items/oil.cpp:23-26 | the visited cells are exactly the cells of the `n` x `n` square |
| Items.SquareCells | src/items/oil.cpp:23-37 | over the square, an in-bounds cell inside it is painted from its original contents, every other cell unchanged |
| Items.SquareUsed | src/items/oil.cpp:22-38 | a square pass is used exactly when some in-bounds cell of the square is one the brush changes |
| Items.VisitAt | src/items/oil.cpp:27-35 | one visit on the world performs `PaintOne` and reports whether it changed its cell |
| Items.PaintColumn | src/items/oil.cpp:24-36 | the inner loop performs its line's visits and reports whether any changed its cell |
| Items.HeatAt | src/items/fire.cpp:15-16 | one fire visit sets the cell's heat to `heat_max` |
| Items.HeatRow | src/items/fire.cpp:14-17 | the fire brush's inner loop heats its row |
| Items.PaintSquare | src/items/oil.cpp:23-37 | the two brush loops perform the pass over the square column by column; skipping an off-world column changes nothing |
| Items.HeatSquare | src/items/fire.cpp:13-18 | the fire brush's two loops heat the square row by row |
| Items.BrushSize.Clamped | src/items/brush.cpp:6-10 | the initial size is clamped into `[1, max]` |
| Items.BrushSize.constructor | src/items/brush.cpp:12-13 | the brush starts at its largest size |
| Items.BrushSize.ChangeBrushSize | src/items/brush.cpp:15-17 | the size moves by `delta`, saturating at 1 and the maximum |
| Items.BrushSize.TopLeft | src/items/brush.cpp:23-31 | the square's corner is half the size up and left of the cursor, so the cursor cell lies inside the square |
| Items.OilElements | src/items/oil.cpp:33 | the oil brush writes fresh oil built from each visit's draw |
| Items.SameElements | src/items/water.cpp:27 | the same element at every visit |
| Items.OilBrush.constructor | src/items/oil.cpp:6-8 | the oil brush starts at size 24 when large, 12 otherwise |
| Items.OilBrush.Name | src/items/oil.cpp:41-47 | "Oil[L]" for the large brush, "Oil" otherwise |
| Items.OilBrush.Use | src/items/oil.cpp:18-39 | `use` paints the square with oil over Gas cells and reports whether any cell was replaced |
| Items.WaterBrush.constructor | src/items/water.cpp:7 | the water brush asked to start at 9 starts at its cap of 3 |
| Items.WaterBrush.Use | src/items/water.cpp:13-32 | `use` paints Gas cells of the square with water and always reports success |
| Items.CopperBrush.constructor | src/items/copper.cpp:6 | the copper brush has size 2 |
| Items.CopperBrush.Name | src/items/copper.cpp:41-43 | "Copper" |
| Items.CopperBrush.Use | src/items/copper.cpp:12-39 | `use` turns every in-bounds cell nobody stands on into copper keeping its heat, and reports whether any was replaced |
| Items.FireBrush.constructor | src/items/fire.cpp:7 | the fire brush has size 3 |
| Items.FireBrush.Name | src/items/fire.cpp:22-24 | "Fire" |
| Items.FireBrush.Use | src/items/fire.cpp:9-20 | `use` raises every cell of the square, which must lie in the world, to `heat_max`, and always reports success |
| Items.OilBrushCells | src/items/oil.cpp:27-35 | an in-bounds Gas cell of the square becomes fresh oil from its draw; every other cell is unchanged |
| Items.OilBrushUsed | src/items/oil.cpp:22-38 | the oil brush reports use exactly when its square covers an in-bounds Gas cell |
| Items.WaterBrushCells | src/items/water.cpp:21-28 | an in-bounds Gas cell of the square becomes water; every other cell is unchanged |
| Items.CopperBrushCells | src/items/copper.cpp:19-35 | an in-bounds cell with no entity becomes copper keeping its heat; every other cell is unchanged |
| Items.CopperBrushUsed | src/items/copper.cpp:16-38 | the copper brush reports use exactly when its square covers an in-bounds cell no entity stands on |
| Items.FireBrushCells | src/items/fire.cpp:13-18 | each cell of the square gets heat `heat_max` and nothing else changes |
| Fonts.GlyphOf | src/font.cpp:46-47 | the cell of a charset position has a valid corner |
| Fonts.Layout | src/font.cpp:43-49 | the layout fills a 128-entry table |
| Fonts.LastIndexOf | src/font.cpp:44-49 | the last position of a character in the charset, or -1 when it does not occur |
| Fonts.LayoutAt | src/font.cpp:43-49 | entry `k` holds the cell of the last occurrence of character `k`, and no glyph when it does not occur |
| Fonts.FoldLetter | src/font.cpp:51-62 | one case turn keeps the table's size |
| Fonts.FoldCases | src/font.cpp:51-62 | the case loop keeps the table's size |
| Fonts.FoldCasesAt | src/font.cpp:51-62 | the case loop copies a letter present in one case only to the other case and leaves every other entry |
| Fonts.CasesAgree | src/font.cpp:51-62 | after the case loop a letter is present in both cases or in neither |
| Fonts.BuiltTable | src/font.cpp:43-62 | the built table has 128 entries |
| Fonts.BuiltHasChar | src/font.cpp:43-74 | a built font has a glyph for `k` exactly when `k` is in the charset or is a letter whose other case is |
| Fonts.LayOut | src/font.cpp:44-49 | the layout loop on the table computes `Layout` |
| Fonts.FoldTable | src/font.cpp:51-62 | the case loop on the table computes `FoldCases` |
| Fonts.NewFont | src/font.cpp:13-63 | an image whose width, then height, is not a multiple of the glyph size is refused with that error; otherwise the font holds the built table |
| Fonts.BuiltEntry | src/font.cpp:43-62 | every glyph of a built font is the cell of some charset position |
| Fonts.BuiltGlyphsInImage | src/font.cpp:43-49 | with no more charset characters than the image has cells, every glyph lies inside the image |
| Fonts.GlyphInImage | src/font.cpp:46-47 | the cell of position `i < cpr * rows` lies inside the image |
| Fonts.FirstMissing | src/font.cpp:82-88 | the first character with no glyph, or the text's length |
| Fonts.RenderText | src/font.cpp:76-100 | the characters before the first one without a glyph are drawn, the `k`-th at `(x + k * cw) * scale`; the missing character, if any, is the error |
| Fonts.GlyphRows | src/font.cpp:114-123 | one entry per glyph row, each its opaque pixels |
| Fonts.RowPointsMeaning | src/font.cpp:115-121 | the points of a glyph row are exactly its opaque pixels, shifted to the pen |
| Fonts.GlyphPointsMeaning | src/font.cpp:114-123 | the points of a glyph are exactly its opaque pixels, shifted to the pen |
| Fonts.BitmapInCells | src/font.cpp:105-125 | every bitmap point lies in the cell of a character of the text that has a glyph |
| Fonts.BitmapSkipsMissing | src/font.cpp:108-112 | a character with no glyph adds no points |
| Fonts.BitmapRow | src/font.cpp:115-122 | one glyph row of the loops yields its opaque pixels |
| Fonts.TextBitmap | src/font.cpp:102-126 | `textBitmap` yields `Bitmap`: the pen moves one cell per character, glyph or not |
| Fonts.CharSizeAtOne | include/wforge/assets.h:36-42 | at size 1 a character is one glyph cell, and a larger size never makes it smaller |
| Animations.NewFrames | src/animation.cpp:9-46 | a sheet whose height is not the frame height, then one whose width is not a multiple of the frame width, is refused; otherwise it holds `width / fw` frames left to right |
| Animations.FramesTile | src/animation.cpp:38-45 | the frames tile the sheet: column `x` lies in frame `x / fw` and no other |
| Animations.Render | src/animation.cpp:48-65 | an index outside `[0, length)` is refused with that error; otherwise the frame is drawn at `(x * scale, y * scale)` |
| Ducks.FloorOf | src/duck.cpp:323-326 | the floor is the integer at or just below the real |
| Ducks.CeilOf | src/duck.cpp:323-326 | the ceiling is the integer at or just above the real |
| Ducks.RoundOf | src/duck.cpp:94-95 | rounding goes to the nearest integer, halves away from zero |
| Ducks.RoundOdd | src/duck.cpp:94-95 | rounding is symmetric about zero |
| Ducks.CollidesMeaning | src/duck.cpp:64-91 | the duck collides at `(tx, ty)` exactly when some in-bounds, Solid, not free-falling cell lies under an opaque pixel of its shape |
| Ducks.OffGridNeverCollides | src/duck.cpp:68-82 | a duck placed wholly off the grid collides with nothing |
| Ducks.OutOfWorldNeverCollides | src/duck.cpp:42-97 | a duck out of the world does not collide where it stands |
| Ducks.PixelCells | src/duck.cpp:339-340 | the four cells of an opaque pixel: floor and ceiling column, each with floor and ceiling row |
| Ducks.DuckMask | src/duck.cpp:328-332 | the mask has one column per shape column, each as tall as the shape |
| Ducks.DuckMaskAt | src/duck.cpp:330 | a mask entry is set exactly when the shape has that opaque pixel |
| Ducks.ColumnMarksHave | src/duck.cpp:329-349 | a cell marked for column `dx` is on that column's floor or ceiling, at the floor or ceiling row of a set entry |
| Ducks.ColumnMarksHit | src/duck.cpp:329-349 | the floor and ceiling cells of a set entry of the column are marked |
| Ducks.ShapeMarksColumn | src/duck.cpp:328-350 | a cell marked for the mask is marked for one of its columns |
| Ducks.PresenceHave | src/duck.cpp:328-350 | a marked cell is a floor or ceiling cell of a set entry |
| Ducks.PresenceHit | src/duck.cpp:328-350 | the floor and ceiling cells of every set entry are marked |
| Ducks.PresenceMeaning | src/duck.cpp:328-350 | the marked cells are exactly the floor and ceiling cells of set entries |
| Ducks.Mark | src/duck.cpp:341-346 | marking a cell changes only static tags |
| Ducks.MarkAll | src/duck.cpp:339-348 | marking a list changes only static tags |
| Ducks.MarkAllAppend | src/duck.cpp:328-350 | marking `ps + qs` is marking `ps` then `qs` |
| Ducks.MarkAllMeaning | src/duck.cpp:341-346 | after marking, an in-bounds cell's flag is set exactly when it is listed or was set; nothing else of its static tag changes |
| Ducks.MarkAllNext | src/duck.cpp:339-348 | marking one more cell extends the marking by that cell |
| Ducks.MarkAllOffGrid | src/duck.cpp:341-343 | marking only off-grid cells changes nothing |
| Ducks.OutOfWorldMarksNothing | src/duck.cpp:322-351 | a duck out of the world marks no cell |
| Ducks.FlattenNext | src/duck.cpp:328-350 | the next row of a flattening is appended at its end |
| Ducks.DuckEntity.constructor | src/duck.cpp:32-35 | a new duck has the shape and the position given |
| Ducks.DuckEntity.SetPosition | src/duck.cpp:37-40 | `setPosition` sets both coordinates |
| Ducks.DuckEntity.IsOutOfWorld | src/duck.cpp:42-62 | the duck is out exactly when it is more than 10 pixels beyond an edge |
| Ducks.DuckEntity.ColumnCollidesAt | src/duck.cpp:74-88 | the inner loop decides whether column `dx` collides |
| Ducks.DuckEntity.WillCollideAt | src/duck.cpp:64-91 | `willCollideAt` decides `Collides` |
| Ducks.DuckEntity.CurrentlyColliding | src/duck.cpp:93-97 | `currentlyColliding` is `willCollideAt` at the rounded position |
| Ducks.DuckEntity.MarkAt | src/duck.cpp:341-346 | one in-bounds cell gets its entity flag set |
| Ducks.DuckEntity.MarkPixel | src/duck.cpp:339-348 | the four cells of one opaque pixel are marked |
| Ducks.DuckEntity.MarkColumn | src/duck.cpp:329-349 | the rows of column `dx` mark that column's cells |
| Ducks.DuckEntity.CommitEntityPresence | src/duck.cpp:322-351 | `commitEntityPresence` marks, in order, the floor and ceiling cells of every opaque pixel |
| Ducks.PresenceCommitted | src/duck.cpp:322-351 | afterwards a cell's flag is set exactly where the duck's mask marks it or where it was set; tags, elements and laser flags are untouched |
| Ducks.MarkedDuck | src/duck.cpp:328-337 | a marked cell is an opaque pixel's offset from the floor or the ceiling corner |
| Checkpoints.Advance | src/checkpoint.cpp:39-45 | the counter rises by one while the duck is inside and falls by one otherwise, staying in `[0, cap]`, and it stays put only at the cap or at 0 |
| Checkpoints.Run | src/checkpoint.cpp:39-45 | the counter stays in `[0, cap]` over any number of steps |
| Checkpoints.RunInside | src/checkpoint.cpp:40-41 | while the duck stays inside, the counter after `n` steps is `min(p + n, cap)` |
| Checkpoints.RunOutside | src/checkpoint.cpp:42-43 | while the duck stays away, the counter after `n` steps is `max(0, p - n)` |
| Checkpoints.AnyPixelInsideMeaning | src/checkpoint.cpp:65-97 | the duck is inside a checkpoint exactly when some opaque pixel lies in the area; the box check only saves time |
| Checkpoints.SpriteParts | src/checkpoint.cpp:143-184 | the bottom `progress` rows come from texture 2 and the rest from texture 1, each slice drawn only when not empty, at its rows' place |
| Checkpoints.SpriteRowsTile | src/checkpoint.cpp:162-183 | every sprite row is drawn by exactly one slice, from texture 2 for the bottom `progress` rows |
| Checkpoints.CheckpointArea.constructor | src/checkpoint.cpp:26-37 | a new area has no progress and the sprite's size |
| Checkpoints.CheckpointArea.ColumnTouchesAt | src/checkpoint.cpp:84-94 | the inner loop decides whether column `dx` touches the area |
| Checkpoints.CheckpointArea.IsDuckInside | src/checkpoint.cpp:65-97 | `_isDuckInside` decides whether some opaque pixel of the rounded duck lies in the area |
| Checkpoints.CheckpointArea.Step | src/checkpoint.cpp:39-45 | `step` advances the counter, capped at three ticks per row |
| Checkpoints.CheckpointArea.ResetProgress | src/checkpoint.cpp:47-49 | `resetProgress` sets the counter to 0 |
| Checkpoints.CheckpointArea.Progress | src/checkpoint.cpp:51-53 | `progress` is the number of whole rows, at most the height |
| Checkpoints.CheckpointArea.IsCompleted | src/checkpoint.cpp:55-57 | completed exactly at the cap, when every row shows progress |
| Checkpoints.CheckpointArea.Render | src/checkpoint.cpp:59-63 | texture 2 appears exactly when progress is positive, texture 1 exactly when it is below the height |
| Checkpoints.CheckpointCompletesAfter | src/checkpoint.cpp:39-57 | a duck that stays inside completes a fresh checkpoint in exactly `3 * height` steps |
| Goals.AllPixelsInsideMeaning | src/goal.cpp:45-77 | the duck is inside a goal exactly when the boxes overlap and no opaque pixel lies outside the area |
| Goals.AllInsideIsAnyInside | src/goal.cpp:45-77 | a duck wholly inside a goal, with an opaque pixel, is inside the area in the checkpoint's sense |
| Goals.BlankDuckInside | src/goal.cpp:52-59 | for a duck with no opaque pixel, the goal test is the box check |
| Goals.GoalArea.constructor | src/goal.cpp:20-27 | a new goal has no progress and the sprite's size |
| Goals.GoalArea.ColumnInsideAt | src/goal.cpp:64-74 | the inner loop decides whether column `dx` lies in the area |
| Goals.GoalArea.IsDuckInside | src/goal.cpp:45-77 | `_isDuckInside` decides whether every opaque pixel of the rounded duck lies in the area |
| Goals.GoalArea.Step | src/goal.cpp:29-35 | `step` advances the counter, capped at the height |
| Goals.GoalArea.IsCompleted | src/goal.cpp:37-39 | completed exactly when the counter reaches the height |
| Goals.GoalArea.Render | src/goal.cpp:41-43 | texture 2 appears exactly when progress is positive, texture 1 exactly when it is below the height |
| Goals.GoalCompletesAfter | src/goal.cpp:29-39 | a duck that stays wholly inside completes a fresh goal in exactly `height` steps |
| Loader.TopLeft | src/loader.cpp:23-27 | the entity's bottom row is `y` and its centre column is `x`, so `x` lies within its columns |
| Loader.ProbeOffset | src/loader.cpp:64-65 | the probe looks at east, south-east and south neighbours only |
| Loader.ProbeDirectionAt | src/loader.cpp:61-91 | the probe loop returns the direction of the first POI neighbour, North when none; its "multiple direction markers" error can never be raised |
| Loader.CountMarkers | src/loader.cpp:115-186 | the number of markers of one kind among the first `n` pixels is at most `n` |
| Loader.ScanUpToMeaning | src/loader.cpp:115-186 | the scan of the first `n` pixels succeeds exactly when every pixel is accepted and there is at most one duck and one checkpoint marker; then the duck and checkpoint stand at their marker, the structures are the laser and plate markers in row-major order, and each cell is classified or left for its marker |
| Loader.ScanStep | src/loader.cpp:117-184 | one pixel of the scan after a good prefix: a non-marker is classified, a border marker or an unknown colour or a second duck or checkpoint fails, the others are recorded |
| Loader.PlacedStep | src/loader.cpp:136-155 | one pixel keeps "the entity stands at its sole marker" true |
| Loader.ScanMap | src/loader.cpp:115-186 | the nested scan loop computes the row-major scan of every pixel |
| Loader.ScanRow | src/loader.cpp:116-185 | one row of the loop extends the scan to the end of that row |
| Loader.ScanErrorStays | src/loader.cpp:129-183 | once the scan fails it stays failed with the same error |
| Loader.ScanAt | src/loader.cpp:117-184 | the loop body for `(x, y)` is the visit of pixel `y * width + x` |
| Loader.ItemByName | src/loader.cpp:37-51 | only "water_brush" is known; any other name fails with an unknown-item error naming it |
| Loader.ConstructItems | src/loader.cpp:204-206 | the items succeed exactly when every name is known, one item per entry with its count; otherwise the error names an unknown entry |
| Loader.LoadFromAsset | src/loader.cpp:95-210 | a level loads exactly when the map is valid (every pixel accepted, exactly one duck and one checkpoint marker) and every item is known; then its cells, duck, checkpoint, structures and items are those of the scan |
| LevelBuild.PaintCell | src/loader.cpp:118-127 | visiting one pixel keeps the world's size and its static flags |
| LevelBuild.PaintCellCell | src/loader.cpp:118-127 | visiting pixel `k` gives a classified pixel's cell its type's element, with the class's colour unless that is 255; it leaves a marker's cell and every other cell unchanged |
| LevelBuild.PaintBefore | src/loader.cpp:115-127 | the first `n` pixels of the scan keep the world's size and its static flags |
| LevelBuild.PaintBeforeCells | src/loader.cpp:115-127 | after the first `n` pixels each of their non-marker cells is painted and every other cell is as it was |
| LevelBuild.PaintLevel | src/loader.cpp:107-127 | the scanned world has the map's width and height |
| LevelBuild.PaintLevelCells | src/loader.cpp:107-127 | after the scan every classified cell holds its type's element and tag (colour overridden unless 255), every marker cell holds Air with Air's tag, and no static flag is set |
| LevelBuild.PaintLevelFromImage | src/loader.cpp:115-127 | for a plan's cells, each non-marker pixel's cell holds `constructElementByType` of the pixel's class with its colour, and each marker's cell stays Air |
| LevelBuild.StructureShapes.Emitter | src/structures/laser.cpp:12-20 | `laserEmitterShape` picks the loaded emitter shape of the given direction |
| LevelBuild.MakeStructure | src/structures/laser.cpp:34-43 | a plate marker always constructs; a laser marker constructs exactly when its direction's shape has one POI, and otherwise fails with the POI count; the structure stands at the marker with the marker's direction, no power and its kind |
| LevelBuild.MakeStructures | src/loader.cpp:156-169 | the structures are constructed exactly when every marker's constructor succeeds, one per marker in scan order; otherwise the error is that of the first refusing marker |
| LevelBuild.MadePlaced | src/loader.cpp:156-169 | the constructed structures are never gates and each lies in the world |
| LevelBuild.AddStructures | src/loader.cpp:200-202 | adding the structures one by one keeps the world's size and adds exactly those structures to the list; without gates it cannot fail |
| LevelBuild.SetupAll | src/loader.cpp:200-202 | the setups in turn keep the world's size and its static flags |
| LevelBuild.AddStructuresKeepsList | src/loader.cpp:200-202 | the list stays sorted by priority and inside the world; without gates the cells are those of each structure's `setup` in turn |
| LevelBuild.SetupAllUnstamped | src/loader.cpp:200-202 | a cell no structure stamps is left as it was |
| LevelBuild.SetupAllLast | src/loader.cpp:200-202 | a stamped cell holds what the last structure over it stamped |
| LevelBuild.BuildWorld | src/loader.cpp:107-202 | the world is built exactly when every structure constructs, otherwise it fails with the constructor's error; it has the map's size and exactly the constructed structures |
| LevelBuild.BuildWorldSpec | src/loader.cpp:107-202 | the built world's list is sorted by priority, lies in the world and is the constructed structures; its cells are the scanned ones with each `setup` applied in marker order, so a cell no structure stamps holds the element and tag the scan gave it (Air for a marker) |
| Scenes.IntAt | src/scenes/scene.cpp:21-23 | reading a key succeeds exactly when the object has it as an integer, and gives that integer |
| Scenes.ChannelAt | src/scenes/scene.cpp:24-27 | reading a colour channel succeeds exactly when the array has an integer there, and keeps its low 8 bits |
| Scenes.FromJson | src/scenes/scene.cpp:19-29 | a descriptor is read exactly when `x`, `y`, `size` and four colour channels are present, and holds their values |
| Scenes.FromJsonToJson | src/scenes/scene.cpp:19-29 | reading back a written descriptor gives it again |
| Scenes.AutomaticScale | src/scenes/scene.cpp:46-61 | a configured scale above zero is kept; otherwise the scale is at least 1 |
| Scenes.MulFits | src/scenes/scene.cpp:52-57 | `k` copies of `d` fit in `n` exactly when `k <= n / d` |
| Scenes.AutomaticScaleLargest | src/scenes/scene.cpp:51-57 | without a configured scale, the window at one scale step more still fits the desktop (unless the scale is the floor 1), and at two steps more it does not |
| Scenes.StopCurrent | src/scenes/scene.cpp:127-143 | stopping leaves no track, records the stopped one and keeps the collection |
| Scenes.SetCollection | src/scenes/scene.cpp:125-136 | the same collection changes nothing; another one stops the current track first and is then set |
| Scenes.UnsetCollection | src/scenes/scene.cpp:138-144 | no collection and no track remain, the current one stopped |
| Scenes.ChooseTrack | src/scenes/scene.cpp:105-120 | a track starts only with a nonempty collection and no track playing, then the only one or the picked one |
| Scenes.SetCollectionIdempotent | src/scenes/scene.cpp:126 | setting the same collection twice is setting it once |
| Scenes.SetCollectionStops | src/scenes/scene.cpp:126-130 | after a change of collection no track plays and the one that played was stopped |
| Scenes.PlayingTrackKept | src/scenes/scene.cpp:105-106 | a track keeps playing across ticks until it stops |
| Scenes.SceneManager.constructor | src/scenes/scene.cpp:63-70 | a window of the scene's size, no music, then the scene's setup |
| Scenes.SceneManager.SetBGMCollection | src/scenes/scene.cpp:125-136 | `setBGMCollection` performs `SetCollection` and changes nothing else |
| Scenes.SceneManager.UnsetBGMCollection | src/scenes/scene.cpp:138-144 | `unsetBGMCollection` performs `UnsetCollection` and changes nothing else |
| Scenes.SceneManager.ChangeScene | src/scenes/scene.cpp:79-89 | the new scene is current, a new window is made exactly when the size differs, its setup runs and the changed flag is set |
| Scenes.SceneManager.Tick | src/scenes/scene.cpp:95-123 | a tick that changed the scene renders nothing and leaves the music alone; otherwise it renders and may start a track |
| Settings.Options | src/scenes/settings.cpp:236-247 | the menu lists seven options, eight in a debug build; Scale comes first and Back last; the debug-heat option is there exactly in a debug build |
| Settings.ValueText | src/scenes/settings.cpp:16-101 | the scale reads "Auto" exactly at 0 and the volume "Mute" exactly at 0; the value text is empty exactly for the three action options |
| Settings.NotMute | src/scenes/settings.cpp:69-76 | the text of a number is never "Mute", so a non-zero volume never shows as muted |
| Settings.LeftRightInRange | src/scenes/settings.cpp:44-90 | Left and Right keep the scale within 0..12 and the volume within 0..100 |
| Settings.ScaleSteps | src/scenes/settings.cpp:44-61 | the scale moves by exactly one and saturates at 0 and 12; Right undoes Left above 0 and Left undoes Right below 12 |
| Settings.VolumeClamps | src/scenes/settings.cpp:78-90 | the volume never drops below 0 or rises above 100, whatever it was; Left undoes Right on a multiple of 5 below 100 |
| Settings.TogglesIdempotent | src/scenes/settings.cpp:103-159 | Left always switches a toggle off and Right always switches it on, so repeating either changes nothing, and the value text then reads "Off" or "On" |
| Settings.ResetAllConfirmTwice | src/scenes/settings.cpp:167-202 | Reset All only arms on its first Enter and clears the progress and the settings on the second; Enter goes back exactly on Back or on an armed Reset All |
| Settings.CursorStaysOnOptions | src/scenes/settings.cpp:282-296 | Up and Down keep the cursor on an option, moving it one step and stopping at either end |
| Settings.TabDoesNotAdvance | src/scenes/settings.cpp:265-288 | as written, Tab forward leaves the cursor where it was, except that it jumps from the last option to the first |
| Settings.TabStuckOnFirst | src/scenes/settings.cpp:265-288 | as written, Tab on the first of the seven options leaves the cursor on it |
| Settings.TabIntended | src/scenes/settings.cpp:265-280 | the intended Tab keeps the cursor on an option |
| Settings.TabIntendedCycles | src/scenes/settings.cpp:265-280 | the intended Tab moves one option forward cyclically, Shift-Tab one back, and each undoes the other |
| Settings.CheatKey | src/scenes/settings.cpp:319-341 | a cheat letter advances the match by one, and relights the hint fully, exactly when it is the next letter of the code; otherwise nothing changes |
| Settings.CheatFades | src/scenes/settings.cpp:360-363 | each step dims the hint by 3, and the matched letters are forgotten once the opacity goes below 0 |
| Settings.TypeWord | src/scenes/settings.cpp:319-341 | typing any word keeps the match within the code's length |
| Settings.CheatCodeUnlocks | src/scenes/settings.cpp:319-358 | typing the code from the start leaves the menu in the state where the next step unlocks every level |
| Settings.WrongLetterKeeps | src/scenes/settings.cpp:319-341 | a wrong letter does not reset the letters matched so far |
| Settings.CheatForgotten | src/scenes/settings.cpp:360-363 | once the hint is dimmer than one fade step, the next step forgets the letters |
| Settings.SettingsMenu.constructor | src/scenes/settings.cpp:213-248 | the menu starts on the first option with no cheat letters and Reset All not armed |
| Settings.SettingsMenu.HandleKey | src/scenes/settings.cpp:258-347 | Escape, and Enter or Space on an option that asks for it, go back to the main menu and nothing else does; the cursor moves as Tab (as written), Up and Down say; Left, Right and Enter change the settings as the option under the cursor says; X, Y and Z feed the cheat matcher |
| Settings.SettingsMenu.PressEnter | src/scenes/settings.cpp:310-317 | Enter applies the option under the cursor and goes back to the main menu exactly when the option says so |
| Settings.SettingsMenu.Step | src/scenes/settings.cpp:349-364 | every level counts as completed exactly when the code has been typed and the hint is still at full opacity; the cheat state then fades; the settings and the cursor stay |
| MainMenus.ButtonUp | src/scenes/main_menu.cpp:82-89 | Up keeps the cursor on one of the four buttons, one back with wrap-around from the first to the last |
| MainMenus.ButtonDown | src/scenes/main_menu.cpp:91-98 | Down keeps the cursor on one of the four buttons, one on with wrap-around from the last to the first |
| MainMenus.UpDownInverse | src/scenes/main_menu.cpp:82-98 | Up and Down undo each other, and four presses of either bring the cursor back |
| MainMenus.Dispatch | src/scenes/main_menu.cpp:100-125 | Enter leaves the game exactly on the Exit button |
| MainMenus.DispatchInjective | src/scenes/main_menu.cpp:100-125 | each of the four buttons starts a different scene |
| MainMenus.MainMenu.constructor | src/scenes/main_menu.cpp:25-27 | the menu starts with the cursor on Play |
| MainMenus.MainMenu.HandleKey | src/scenes/main_menu.cpp:79-136 | Up/W and Down/S move the cursor with wrap-around; Enter/Space start the scene of the button under the cursor; Escape leaves the game; every other key changes nothing |
| MainMenus.MainMenu.Activate | src/scenes/main_menu.cpp:102-125 | Enter starts the scene the cursor's button names |
| LevelMenus.CheckLayout | src/scenes/level_menu.cpp:36-49 | the layout is accepted exactly when it has one more link than buttons, and otherwise the error names both counts |
| LevelMenus.InitialSelection | src/scenes/level_menu.cpp:68-72 | the menu opens on an existing level: the first one not yet completed, or the last level once all are |
| LevelMenus.RightPastLastLevel | src/scenes/level_menu.cpp:96-102 | as written, with all 3 levels completed, Right on the last level selects index 3, which has no level to fetch |
| LevelMenus.SelectedLevel | src/scenes/level_menu.cpp:111-119 | fetching the selected level succeeds exactly when the selection is an existing level |
| LevelMenus.SelectionStaysOnLevels | src/scenes/level_menu.cpp:88-102 | with the intended Right, Left and Right keep the selection on an existing unlocked level, and Left undoes a Right that moved |
| LevelMenus.RightAgreesBeforeLast | src/scenes/level_menu.cpp:96-102 | the intended Right differs from the written one only on the last level |
| LevelMenus.LevelSelectionMenu.New | src/scenes/level_menu.cpp:12-73 | the menu is built exactly when the layout check passes, and then opens on the initial selection |
| LevelMenus.LevelSelectionMenu.Init | src/scenes/level_menu.cpp:68-72 | the selection starts at the initial selection |
| LevelMenus.LevelSelectionMenu.HandleKey | src/scenes/level_menu.cpp:84-135 | Left/A and Right/D move the selection as written; Enter/Space on an unlocked selection start its level, through the loading screen unless animations are skipped, and fail when the selection has no level; Escape goes back to the main menu; other keys do nothing |
| LevelMenus.LevelSelectionMenu.Start | src/scenes/level_menu.cpp:104-125 | a locked selection does nothing; an unlocked one starts the fetched level, or fails as the fetch does |
| LevelMenus.IdealSlot | src/scenes/level_menu.cpp:149-150 | the duck's ideal slot is a button slot whenever there is one |
| LevelMenus.Buttons | src/scenes/level_menu.cpp:160-242 | the loop draws at most one button per slot, slot k showing level first + k, locked exactly when that level is past the completed count, and framed exactly when it is the selection |
| LevelMenus.RenderLinks | src/scenes/level_menu.cpp:178-256 | every link drawn is at one of the layout's slots and is locked exactly when the level it leads into is locked |
| LevelMenus.Links | src/scenes/level_menu.cpp:178-190 | each link drawn inside the window belongs to a drawn button whose level is not level 0 |
| LevelMenus.ButtonsFull | src/scenes/level_menu.cpp:160-164 | when every level of the window exists, every slot from i on is drawn |
| LevelMenus.WindowShowsSelection | src/scenes/level_menu.cpp:149-242 | with at least as many levels as buttons, the window is a full run of existing levels that contains the selection, framed at its slot, and each button is locked exactly when its level is past the completed count |
| LevelMenus.WindowEmptyWithFewLevels | src/scenes/level_menu.cpp:149-164 | as written, 5 button slots, 3 levels and level 2 selected put the first button at level -2, and no button is drawn |
| LevelMenus.IntendedWindowShowsSelection | src/scenes/level_menu.cpp:149-164 | with the window kept from starting before level 0, any number of levels draws every existing level of the window, the selection among them with its frame |
| LevelMenus.IntendedButtonsCount | src/scenes/level_menu.cpp:160-164 | from a first level of 0 or more, the loop draws exactly the slots that have a level |
| LevelScenes.HintTextOf | src/scenes/level.cpp:33-44 | the restart and quit hints have their own texts, and every other hint value has no text |
| LevelScenes.FadeHint | src/scenes/level.cpp:166-173 | a visible hint loses 3 of opacity per step; the step that takes it to 0 or below clears it to no hint at opacity 0; an invisible hint is left alone |
| LevelScenes.FadeStepsLinear | src/scenes/level.cpp:166-173 | while the hint stays visible, n steps lower its opacity by exactly 3n and keep its type |
| LevelScenes.FadedStaysOut | src/scenes/level.cpp:166-173 | a hint that has faded out stays as it is through any number of steps |
| LevelScenes.ArmedHintLifetime | src/scenes/level.cpp:24-25 | a hint armed at opacity 200 is still visible after 66 steps and gone, with its type reset, after 67 |
| LevelScenes.FadeAfter | src/scenes/level.cpp:166-173 | fading n + 1 times is fading n times and then once more |
| LevelScenes.FailedDuckPosition | src/scenes/level.cpp:129-136 | after a failure the duck is placed at the centre of the level, rounded down, whenever the duck fits in the level |
| LevelScenes.RecordCompletion | src/scenes/level.cpp:180-185 | completing a level raises the completed count to at least its index + 1 and never lowers it |
| LevelScenes.RecordCompletionIdempotent | src/scenes/level.cpp:180-185 | replaying an already completed level leaves the count alone, and recording twice is recording once |
| LevelScenes.LevelPlaying.constructor | src/scenes/level.cpp:50-56 | the scene starts with no hint at opacity 0 |
| LevelScenes.LevelPlaying.HandleEvent | src/scenes/level.cpp:67-123 | R restarts and Escape quits only while their own hint is visible, and otherwise arm their hint at full opacity; the wheel changes the brush size by one either way; a left click uses the active item; Up/PageUp/W and Down/PageDown/S pick the previous and next item; no other event does anything |
| LevelScenes.LevelPlaying.Step | src/scenes/level.cpp:125-196 | the hint fades; a failure restarts from the level's centre before a completion is looked at; a completion records the level in the completed count and shows the level-complete scene from the rounded duck position; otherwise the scene stays |
| LevelSwitch.BannerTopLeft | src/scenes/level_switch.cpp:34-40 | the banner is centred in the level, rounded down, and lies inside it whenever it fits |
| LevelSwitch.EveryFourth | src/scenes/level_switch.cpp:42-49 | the sample holds a quarter of the tiles, rounded up, and its k-th position is tile 4k |
| LevelSwitch.SampleTiles | src/scenes/level_switch.cpp:42-49 | the frame-counter loop keeps exactly every fourth tile from the first |
| LevelSwitch.TileDrift | src/2d.cpp:16-39 | along a segment, tiles j - i apart differ by at most j - i on each axis |
| LevelSwitch.StepPositionsWalk | src/scenes/level_switch.cpp:42-50 | the walk has at least two positions, starts at the duck, ends at the banner's corner, and moves at most four pixels per axis per position |
| LevelSwitch.AdvanceComplete | src/scenes/level_switch.cpp:63-84 | during a pause only the pause timer counts; once the text is shown and the pause is over the scene goes back to the level selection; otherwise the walk advances by at most one position |
| LevelSwitch.RunCompleteShape | src/scenes/level_switch.cpp:63-84 | after n steps the scene is in its first pause, on its walk or in its second pause, as a closed form in n, and it has not left yet |
| LevelSwitch.LevelCompleteDuration | src/scenes/level_switch.cpp:63-84 | with c positions the scene stays for exactly 47 + c steps and goes back to the level selection on the next one |
| LevelSwitch.LevelComplete.constructor | src/scenes/level_switch.cpp:19-51 | the positions are every fourth tile from the duck to the centred banner, then the banner's corner; the timers start at 0 and no text is shown |
| LevelSwitch.LevelComplete.Step | src/scenes/level_switch.cpp:63-84 | one step updates the pause, the walk and the text as the step function says, and asks for the level selection exactly when it says so |
| LevelSwitch.LevelLoading.constructor | src/scenes/level_switch.cpp:106-117 | the loading screen starts at tick 0 with the fade's length and the level to load |
| LevelSwitch.LevelLoading.Step | src/scenes/level_switch.cpp:129-139 | each step counts one tick, and the level is started exactly once the tick reaches the fade's length |
| DuckDeaths.Anchor | src/scenes/duckdeath.cpp:46-59 | the anchor is the least column and, separately, the least row holding an opaque pixel of the raw duck; both stay at the int maximum exactly when no pixel is opaque, and otherwise lie inside the image |
| DuckDeaths.AnchorColumn | src/scenes/duckdeath.cpp:52-58 | scanning one more column extends the anchor of the scanned part by that column's opaque pixels |
| DuckDeaths.AnchorUnique | src/scenes/duckdeath.cpp:46-59 | only one pair of numbers is the anchor of an image |
| DuckDeaths.RenderOrigin | src/scenes/duckdeath.cpp:130-132 | the animation is placed so that its anchor pixel lands on the duck's position |
| DuckDeaths.TimelineFromJson | src/scenes/duckdeath.cpp:61-70 | the timeline is read exactly when the total duration and the four timeline entries are integers, and holds their values |
| DuckDeaths.NextFrame | src/scenes/duckdeath.cpp:116-123 | once the animation has started, a tick at a multiple of the frame duration moves one frame on, but never past the last frame; any other tick keeps the frame |
| DuckDeaths.NextFrameInRange | src/scenes/duckdeath.cpp:116-123 | the frame stays a valid index of a non-empty animation and moves forward by at most one |
| DuckDeaths.SoundsAt | src/scenes/duckdeath.cpp:108-114 | the separation sound starts exactly on its tick and the reborn sound exactly on its own |
| DuckDeaths.FrameAfterBounds | src/scenes/duckdeath.cpp:96-124 | the first frame shows until the animation starts; after that the frame only moves forward and never past the last frame |
| DuckDeaths.DuckDeath.constructor | src/scenes/duckdeath.cpp:25-71 | the scene keeps the duck's position and the anchor of the raw duck image, and starts at tick 0 on frame 0 |
| DuckDeaths.DuckDeath.HandleKey | src/scenes/duckdeath.cpp:81-94 | Space, Enter and R skip the tick to the end of the timeline; other keys change nothing |
| DuckDeaths.DuckDeath.Step | src/scenes/duckdeath.cpp:96-124 | each step counts one tick; past the total duration the level restarts with no sound; otherwise the sounds due on that tick start and the frame moves as the frame function says |
| DuckDeaths.DuckDeath.Render | src/scenes/duckdeath.cpp:126-133 | the current frame is drawn at the render origin, and drawing never fails for a non-empty animation |
| FluidLabels.FluidCellsSpec | src/fallsand/fluid.cpp:149-153 | a cell is a candidate of the labelling scan exactly when it lies in the world and its class is Fluid |
| FluidLabels.FluidCellsInBounds | src/fallsand/fluid.cpp:149-153 | every candidate cell lies in the world |
| FluidLabels.StartFill | src/fallsand/fluid.cpp:159-166 | a new component starts from a state where every earlier fill is closed, with one unmarked fluid cell on the stack |
| FluidLabels.EndFill | src/fallsand/fluid.cpp:167-186 | once the stack is empty the fill is closed: every fluid neighbour of a marked cell is marked with the same id, and the component count grows by one |
| FluidLabels.PopAgain | src/fallsand/fluid.cpp:176-184 | a cell that is popped a second time has no unmarked fluid neighbour left, so it pushes nothing |
| FluidLabels.PopKeeps | src/fallsand/fluid.cpp:168-184 | one pop marks the top cell with the current id, lists it in `fluid_pixels`, and pushes its unmarked fluid neighbours, keeping the fill's invariant |
| FluidLabels.PopStep | src/fallsand/fluid.cpp:167-185 | one pop keeps the fill's invariant and makes progress: either one more fluid cell is marked, or the popped cell was marked already and the stack is shorter |
| FluidLabels.PushedStep | src/fallsand/fluid.cpp:176-183 | one more neighbour is looked at, and it is pushed exactly when it is fluid and not yet dirty |
| FluidLabels.PushCandidates | src/fallsand/fluid.cpp:176-184 | the neighbour loop over in-bounds cells pushes, in order, exactly the fluid cells that are not yet dirty |
| FluidLabels.PushNeighbors | src/fallsand/fluid.cpp:176-184 | the neighbours of `(cx, cy)` that are fluid and not yet dirty go on the stack, and with none the stack is unchanged |
| FluidLabels.MarkCell | src/fallsand/fluid.cpp:171-172 | a pop sets the cell's dirty flag and writes the component id into `_fluid_cid` |
| FluidLabels.Pop | src/fallsand/fluid.cpp:167-185 | one round of the flood fill: the top cell is marked with id `count` and listed, its unmarked fluid neighbours are pushed, and the fill makes progress |
| FluidLabels.Fill | src/fallsand/fluid.cpp:159-186 | the flood fill from an unmarked fluid cell ends with that cell and everything fluid-connected to it marked with one new id, and every earlier mark kept |
| FluidLabels.NextColumn | src/fallsand/fluid.cpp:149-150 | a finished column is where the scan of the next column starts |
| FluidLabels.ScanDone | src/fallsand/fluid.cpp:149-188 | once the scan is past the last column, every fluid cell is marked |
| FluidLabels.ScanColumn | src/fallsand/fluid.cpp:150-187 | down column `x`, every fluid cell not yet dirty starts a fill with the next id, and afterwards every fluid cell of the column is marked |
| FluidLabels.Label | src/fallsand/fluid.cpp:145-189 | step 1 of `fluidAnalysisStep`: every fluid cell gets an id in `[0, count)` and every other cell keeps -1; two fluid cells that share an edge have the same id; and `fluid_pixels` lists exactly the fluid cells |
| FluidRows.CountTotal | src/fallsand/fluid.cpp:194 | with every `fluid_dir` in {-1, 0, 1}, the three counters `dircnt` add up to the size of the group |
| FluidRows.Redistribution | src/fallsand/fluid.cpp:202-214 | `handle` writes one value per cell of the group |
| FluidRows.LevelledSorted | src/fallsand/fluid.cpp:202-214 | `handle` writes its values in order, never a larger one before a smaller one |
| FluidRows.LevelledPermutes | src/fallsand/fluid.cpp:202-214 | `handle` keeps a group's multiset of `fluid_dir` values and only puts them in order |
| FluidRows.FluidFromShape | src/fallsand/fluid.cpp:221-232 | the cells the row scan pushes are the fluid cells of the row, left to right, each once |
| FluidRows.GroupsFromCover | src/fallsand/fluid.cpp:221-240 | with the intended grouping, every fluid cell of the row is in exactly one group, and the groups follow each other left to right |
| FluidRows.GroupsFromAsWrittenCover | src/fallsand/fluid.cpp:221-240 | with the grouping as written, too, every fluid cell of the row is in exactly one group, and the groups follow each other left to right |
| FluidRows.ScanSolid | src/fallsand/fluid.cpp:223-226 | a Solid cell closes the running group, and the group is sealed off by that cell |
| FluidRows.ScanOther | src/fallsand/fluid.cpp:228-230 | a gas or particle cell changes nothing in the grouping |
| FluidRows.ScanSplit | src/fallsand/fluid.cpp:234-238 | with the intended grouping, a fluid cell of another component closes the running group and starts a new one |
| FluidRows.ScanJoin | src/fallsand/fluid.cpp:231-238 | a fluid cell of the running component joins the running group, or starts the first group after a Solid |
| FluidRows.GroupsFromCut | src/fallsand/fluid.cpp:221-240 | with the intended grouping, inside a group each cell is joined to the next, and the last cell of a group is not joined to the first cell of the next |
| FluidRows.GroupsMeaning | src/fallsand/fluid.cpp:221-240 | the intended groups of a row, stated without the scan: they list exactly the fluid cells, left to right; inside a group each cell is joined to the next (no Solid between them, the same component); and consecutive groups are not joined |
| FluidRows.ApplyCovering | src/fallsand/fluid.cpp:197-219 | for groups that list exactly the fluid cells, a cell in no group keeps its `fluid_dir`, and the cells of each group get that group's values back in order |
| FluidRows.RowResultMeaning | src/fallsand/fluid.cpp:192-241 | with the intended grouping, a cell that is not fluid keeps its `fluid_dir`, and each group gets its own multiset of values back, sorted |
| FluidRows.RowResultAsWrittenMeaning | src/fallsand/fluid.cpp:192-241 | as written, the groups list exactly the fluid cells, a cell that is not fluid keeps its `fluid_dir`, and each group gets its own values back in order |
| FluidRows.GroupsAsWrittenMixComponents | src/fallsand/fluid.cpp:228-238 | as written, the first cell of a new component goes into the previous group: a right-moving cell of component 0, a gas cell and a left-moving cell of component 1 form one group and swap their directions, where the intended grouping keeps them |
| FluidPass.DirsOfAt | src/fallsand/fluid.cpp:192-241 | the row values the pass reads are the cells' own `fluid_dir` fields |
| FluidPass.WithDirsAt | src/fallsand/fluid.cpp:203-213 | writing `fluid_dir` values changes that field of each cell and nothing else |
| FluidPass.WithDirsOf | src/fallsand/fluid.cpp:203-213 | writing a grid's own `fluid_dir` values back changes nothing |
| FluidPass.WithDirsTwice | src/fallsand/fluid.cpp:203-213 | later `fluid_dir` writes replace earlier ones |
| FluidPass.DirsOfWith | src/fallsand/fluid.cpp:203-213 | `fluid_dir` values read back after they were written are the values written |
| FluidPass.RowStep | src/fallsand/fluid.cpp:203-213 | one `tag.fluid_dir = v` through `tagOf(p, y)` changes one entry of row `y` and nothing else |
| FluidPass.RowOfAt | src/fallsand/fluid.cpp:222-234 | the row cell the pass reads at column `x` holds that cell's class, its `fluid_dir` and its `_fluid_cid` entry |
| FluidPass.Handle | src/fallsand/fluid.cpp:197-219 | `handle`: without a running group nothing changes; otherwise the cells of `loc` get `dircnt[0]` times -1, then `dircnt[1]` times 0, then +1, left to right, and the counters, `loc` and `last_comp_id` start over |
| FluidPass.PassClose | src/fallsand/fluid.cpp:197-219 | `handle` on the running group writes exactly what closing that group adds to the row's result, and the cells right of the scan keep their values |
| FluidPass.CountedNone | src/fallsand/fluid.cpp:193-195 | with no running group the three counters are zero |
| FluidPass.PassSolid | src/fallsand/fluid.cpp:223-226 | a Solid cell runs `handle`, which closes the running group, if any |
| FluidPass.PassOther | src/fallsand/fluid.cpp:228-230 | a gas or particle cell is passed over |
| FluidPass.CountedPush | src/fallsand/fluid.cpp:231-232 | `dircnt[fluid_dir + 1] += 1` counts the pushed cell's value |
| FluidPass.PassJoin | src/fallsand/fluid.cpp:231-238 | a fluid cell of the running component, or the first after a reset, is counted, pushed and joins the running group |
| FluidPass.PassSplit | src/fallsand/fluid.cpp:231-238 | a fluid cell of another component is counted and pushed first, so `handle` writes it with the running group, and the next group starts empty under the new id |
| FluidPass.PassEnd | src/fallsand/fluid.cpp:240 | the final `handle` completes the row's groups as written |
| FluidPass.PassCell | src/fallsand/fluid.cpp:221-239 | one column of the row loop, in the source's order, keeps the pass's invariant: the world holds the grouped result of the cells so far |
| FluidPass.PassFluid | src/fallsand/fluid.cpp:231-238 | a fluid cell is counted and pushed, then `handle` runs when its id differs from `last_comp_id` |
| FluidPass.PassNewComponent | src/fallsand/fluid.cpp:235-238 | for a cell of a new component, `handle` writes the running group with that cell already pushed onto it, and the new id becomes the running one |
| FluidPass.RowPass | src/fallsand/fluid.cpp:192-241 | the pass over row `y` writes `RowResultAsWritten` of that row into its `fluid_dir` values, and every other cell and field is unchanged |
| FluidPass.RowsStep | src/fallsand/fluid.cpp:192 | row `n` is still as it was when the rows before it are done, so its pass sees the original row |
| FluidPass.RowsNone | src/fallsand/fluid.cpp:192 | before any row pass, nothing has changed |
| FluidPass.RowsPass | src/fallsand/fluid.cpp:191-241 | step 2 runs the row pass on every row, from the top row down |
| FluidPass.GroupLevelled | src/fallsand/fluid.cpp:192-241 | after its row pass each group's values are in order and are the values the group had, rearranged |
| FluidPass.AllRowsMeaning | src/fallsand/fluid.cpp:191-241 | step 2 changes only `fluid_dir`, only on fluid cells; in every row each group's values end up in order and are the group's old values, rearranged |
| FluidLevel.SurfaceOfMeaning | src/fallsand/fluid.cpp:244-251 | a component's surface list holds each pixel of the component that lies in the top row, or has gas or a particle above it and is not falling, as often as `fluid_pixels` lists it, and nothing else |
| FluidLevel.CollectSurfaces | src/fallsand/fluid.cpp:244-251 | the one pass over `fluid_pixels` gives every component its own surface list |
| FluidLevel.Insert | src/fallsand/fluid.cpp:260-282 | inserting an entry into a surface list adds exactly that entry |
| FluidLevel.InsertPixels | src/fallsand/fluid.cpp:260-282 | inserting an entry adds exactly its pixel to the pixels of the list |
| FluidLevel.InsertSorted | src/fallsand/fluid.cpp:260-282 | inserting an entry keeps a sorted list sorted |
| FluidLevel.SortEntries | src/fallsand/fluid.cpp:260-282 | the sort rearranges the entries of the list |
| FluidLevel.SortEntriesSorted | src/fallsand/fluid.cpp:260-282 | the sorted entries are in order: by row, then by the shuffle's rank of their list positions |
| FluidLevel.SortEntriesPixels | src/fallsand/fluid.cpp:260-282 | the sorted entries hold the same pixels as often |
| FluidLevel.SortEntriesMeaning | src/fallsand/fluid.cpp:260-282 | the sorted entries are in order and hold the same pixels as often |
| FluidLevel.SortSurfaceMeaning | src/fallsand/fluid.cpp:259-282 | the sort by row followed by the shuffle within each row is the list's entries, each with its position, put in order by row and then by the shuffle's rank of their positions; the rows go down the list, and it holds the same pixels as often |
| FluidLevel.SurfaceDuplicatesParted | src/fallsand/fluid.cpp:244-282 | two entries of one pixel can be parted by the shuffle: `[p, q, q]`, the top row of a 2x2 block, can come out as `[q, p, q]` |
| FluidLevel.PartedEntries | src/fallsand/fluid.cpp:271-282 | for two pixels of one row, the shuffle that puts position 1 first orders the entries of `[p, q, q]` as positions 1, 0, 2 |
| FluidLevel.TopRunMeaning | src/fallsand/fluid.cpp:284-288 | the leading run counts every entry of the first row that leads the sorted list, and stops at the first entry of another row |
| FluidLevel.RoundRatioMeaning | src/fallsand/fluid.cpp:290-291 | `std::round(max_delta_y * 0.7)` for a non-negative span is the integer within half a unit of the exact product, with a half going up |
| FluidLevel.ApplySwapsFirst | src/fallsand/fluid.cpp:293-300 | the swaps of the loop apply in order, first to last |
| FluidLevel.LevelFromMeaning | src/fallsand/fluid.cpp:293-300 | the levelling swaps, stated without the loop: swap `k` takes the `k`-th highest surface pixel to the cell above the `k`-th lowest, with `k <= p`; the two are different entries of the list; the target lies in a lower row than the pixel that moves; and there are at most `p + 1` swaps and at most half as many as entries |
| FluidLevel.TopRun | src/fallsand/fluid.cpp:284-288 | the counting loop gives the length of the leading run of the first row |
| FluidLevel.LevelStep | src/fallsand/fluid.cpp:293-300 | a turn of the loop that does not break makes the first of the remaining swaps, to a cell in the world |
| FluidLevel.LevelCount | src/fallsand/fluid.cpp:284-291 | the pair count is the smaller of the leading run and the rounded `max_delta_y * 0.7` |
| FluidLevel.LevelDone | src/fallsand/fluid.cpp:293-298 | where the loop ends or breaks, no swap remains |
| FluidLevel.LevelPair | src/fallsand/fluid.cpp:294-299 | one turn of the levelling loop swaps the `i`-th pair and leaves the rest of the swaps to do |
| FluidLevel.LevelPairs | src/fallsand/fluid.cpp:293-300 | the levelling loop makes exactly the levelling swaps, in order |
| FluidLevel.LevelComponent | src/fallsand/fluid.cpp:284-300 | a component with at least two surface pixels is levelled by the swaps its pair count allows |
| FluidLevel.SortedIn | src/fallsand/fluid.cpp:259-282 | sorting keeps every surface pixel in the world |
| FluidLevel.LevelComponents | src/fallsand/fluid.cpp:253-301 | every component is levelled in id order, and one with fewer than two surface pixels is left alone |
| DensityRows.RangesStep | src/fallsand/fluid.cpp:38-51 | a column that ends the current range reports `[l, r]` when the range holds more than one column, ending at `r` for a fluid cell in the last column and at `r - 1` otherwise |
| DensityRows.RunClosed | src/fallsand/fluid.cpp:41-50 | the range the scan closes is a maximal run of fluid cells |
| DensityRows.RangesMeaning | src/fallsand/fluid.cpp:36-51 | the active ranges of a row are maximal runs of fluid cells, left to right and apart from each other, and every fluid cell lies in one of them unless it is a one-cell run in the last column |
| DensityRows.PlanIn | src/fallsand/fluid.cpp:58-80 | the fill positions of a range are fluid cells of the range in the row below |
| DensityRows.PlanSkip | src/fallsand/fluid.cpp:62-65 | a cell below that is not fluid changes nothing in the plan |
| DensityRows.PlanReplace | src/fallsand/fluid.cpp:67-79 | a fluid cell lighter than the fill type so far (or the first fluid cell) becomes the fill type and starts a new fill list with its own column |
| DensityRows.PlanAppend | src/fallsand/fluid.cpp:77-79 | a fluid cell of the fill type joins the fill list |
| DensityRows.PlanHeavier | src/fallsand/fluid.cpp:67-69 | a fluid cell heavier than the fill type only marks the range as holding two fluids |
| DensityRows.PlanStep | src/fallsand/fluid.cpp:61-80 | one column of the plan scan keeps the plan's invariant |
| DensityRows.PlanMeaning | src/fallsand/fluid.cpp:58-80 | the fill type of a range is the lightest fluid type in the row below it (Air when there is no fluid there), the fill positions are exactly its cells, left to right, and `at_least_dual_fluids` holds exactly when two fluid types meet in the range |
| DensityRows.Advance | src/fallsand/fluid.cpp:90-93 | the scan index `sp` moves past the used fill positions and those left of `x`, and stops at the first one still usable |
| DensityRows.Arrive | src/fallsand/fluid.cpp:89-97 | reaching column `x` advances the scan index `sp` and pushes `x` onto `left_pos` when it is a fill position, keeping the fill list and the count of swaps left |
| DensityRows.Column | src/fallsand/fluid.cpp:89-134 | one column swaps at most once, always at its own column and only when its cell moves over the fill type, and each swap uses up one of the available swaps |
| DensityRows.ColumnIn | src/fallsand/fluid.cpp:89-130 | a column keeps the scan state inside the row and swaps with a column of the row |
| DensityRows.MatchFromStep | src/fallsand/fluid.cpp:89-135 | the matching takes its first column, and ends after the swap that uses the last available fill position |
| DensityRows.ColumnKeeps | src/fallsand/fluid.cpp:89-134 | with the stale `left_pos` entry dropped, a column keeps the matching's invariant, and a swap takes a fill position not taken before |
| DensityRows.ColumnStays | src/fallsand/fluid.cpp:99-121 | a column of the fill type, or one with no fill position on either side, swaps nothing |
| DensityRows.ColumnGoesLeft | src/fallsand/fluid.cpp:124-126 | a column nearer the last `left_pos` entry than the position at `sp` swaps with that entry |
| DensityRows.LeftFresh | src/fallsand/fluid.cpp:107-126 | the last `left_pos` entry is a fill position not yet taken |
| DensityRows.ColumnGoesRight | src/fallsand/fluid.cpp:127-130 | otherwise the column swaps with the fill position at the scan index `sp` |
| DensityRows.ColumnFromRight | src/fallsand/fluid.cpp:113-130 | the fill position at the scan index `sp` has not been taken, and taking it keeps the invariant once the same column is also dropped from `left_pos` |
| DensityRows.MatchFromMeaning | src/fallsand/fluid.cpp:89-135 | with the stale entry dropped, the matching from column `x` swaps moving columns of the range, left to right, each with a fill position not taken before, and makes no more swaps than `avail_count` allows |
| DensityRows.MatchMeaning | src/fallsand/fluid.cpp:87-135 | with the stale entry dropped, the swaps of a range lie in the range, increase by column, move only cells that differ from the fill type, pair them with fill positions, each taken at most once, and are no more than the fill positions |
| DensityRows.MatchAsWrittenReusesFillPosition | src/fallsand/fluid.cpp:124-131 | as written, a row of four movers over fill positions 0 and 3 swaps column 0 with the fill cell at 0, then column 1 with the same, already risen cell, and the fill cell at 3 stays below; with the stale entry dropped the second swap takes 3 |
| DensityRows.ColumnWithin | src/fallsand/fluid.cpp:89-134 | whichever way `left_pos` is kept, a column swaps only with a fill position and keeps the state within the fill list |
| DensityRows.MatchFromWithin | src/fallsand/fluid.cpp:89-135 | whichever way `left_pos` is kept, the matching from `x` swaps columns of `[x, r]` with fill positions |
| DensityRows.Movers | src/fallsand/fluid.cpp:99-101 | a cell of row y moves over fill type `ft` exactly when it differs from `ft` (`typeOfIs`), or for the flow variant when it is denser |
| DensityRows.RowSwapsMeaning | src/fallsand/fluid.cpp:53-136 | with the stale entry dropped, each swap of a range trades a moving cell of row y for a fluid cell of the range below whose type is the lightest fluid type there, and no cell of either row takes part twice |
| DensityRows.MatchFromMovers | src/fallsand/fluid.cpp:89-135 | whichever way `left_pos` is kept, the matching from `x` swaps only moving columns of `[x, r]`, each at most once, left to right, and makes no more swaps than `avail_count` allows |
| DensityRows.PlanFromKind | src/fallsand/fluid.cpp:58-80 | every position the planning loop puts on `fill_pos` holds the fill type it settles on |
| DensityRows.FillPosKind | src/fallsand/fluid.cpp:58-80 | every fill position of a range holds a cell of the range's fill type |
| DensityRows.RowSwapsWithin | src/fallsand/fluid.cpp:53-136 | under either rule and either way of keeping `left_pos`, each swap of a range trades a cell of the range in row y that moves over the fill type for a fluid cell of the fill type in the range below; the swap columns strictly increase, and there are no more swaps than fill positions |
| FluidDensity.KindRow | src/fallsand/fluid.cpp:62 | the types of a row of the world, column by column |
| FluidDensity.ClassRow | src/fallsand/fluid.cpp:39 | the classes of a row of the world, column by column |
| FluidDensity.ApplyFluidSwaps | src/fallsand/fluid.cpp:125-128 | the `swapFluids` calls of a range, in order, keep the world's size and its static tags |
| FluidDensity.SwapFluidsSwapped | src/fallsand/fluid.cpp:125-128 | `swapFluids` exchanges the two cells, and each position keeps its own `fluid_dir` |
| FluidDensity.ApplyLast | src/fallsand/fluid.cpp:125-128 | the last swap of a list is made when it lies in the world and skipped otherwise |
| FluidDensity.ApplyFrame | src/fallsand/fluid.cpp:125-128 | a cell that no swap touches keeps its tag and its element |
| FluidDensity.ApplyDistinct | src/fallsand/fluid.cpp:123-130 | swaps that use no column twice exchange exactly their two cells: row y's cell goes down to its partner, the partner comes up, and each position keeps its own `fluid_dir` |
| FluidDensity.RangeLifts | src/fallsand/fluid.cpp:53-135 | with the stale entry dropped, each swap of a range moves a cell of row y that moves over the fill type down into a fill position, and lifts the fluid there, of the lightest type below the range, into its place; no cell of either row is used twice |
| FluidDensity.RangeMovers | src/fallsand/fluid.cpp:53-135 | under either rule and either way of keeping `left_pos`, each swap of a range takes a column of the range whose cell moves over the fill type and a fluid cell of the fill type in the range below; the columns strictly increase, and there are no more swaps than fill positions |
| FluidDensity.ActiveRanges | src/fallsand/fluid.cpp:36-51 | the first loop of a row computes its active ranges |
| FluidDensity.PlanFill | src/fallsand/fluid.cpp:58-80 | the second loop of a range computes `fill_type`, `fill_pos` and `at_least_dual_fluids` from the row below |
| FluidDensity.Choose | src/fallsand/fluid.cpp:103-130 | the column swaps with the nearer of `lp` and `rp`, the left one only when strictly nearer, with the width plus 10 standing for a side without a candidate; `avail_count` drops by one; as the source does, a fill position taken from the right is only marked -1 and stays on `left_pos` |
| FluidDensity.ScanTo | src/fallsand/fluid.cpp:90-93 | the scan loop advances `sp` past the used fill positions and those left of `x` |
| FluidDensity.ArriveAt | src/fallsand/fluid.cpp:89-97 | the start of a column brings `sp` up to `x` and pushes `x` onto `left_pos` when it is a fill position |
| FluidDensity.Stays | src/fallsand/fluid.cpp:99-101 | a column stays exactly when its cell does not move over the fill type |
| FluidDensity.MoverRowAt | src/fallsand/fluid.cpp:99-101 | a cell of row y is a mover exactly when its type moves over the fill type |
| FluidDensity.MatchColumn | src/fallsand/fluid.cpp:89-130 | one column of the matching loop makes the column's swap, if any, with `swapFluids`, and changes nothing else |
| FluidDensity.MatchRange | src/fallsand/fluid.cpp:87-135 | the matching loop of a range makes exactly the swaps of the matching, as written, on the row and the row below |
| FluidDensity.MatchRun | src/fallsand/fluid.cpp:89-135 | the matching loop over the movers of row `y` makes exactly the matching's swaps |
| FluidDensity.RunStart | src/fallsand/fluid.cpp:87-89 | the loop's invariant holds at the range's first column |
| FluidDensity.RunEnd | src/fallsand/fluid.cpp:89-135 | past the range's last column, the cells are the whole matching's |
| FluidDensity.MatchStep | src/fallsand/fluid.cpp:89-134 | one turn of the matching loop keeps the invariant, and stops (`break`) once `avail_count` reaches zero, with the cells the whole matching's |
| FluidDensity.RunAdvance | src/fallsand/fluid.cpp:89-134 | one column moves the invariant on by one column |
| FluidDensity.SwapKeepsRowAfter | src/fallsand/fluid.cpp:125-128 | a swap at column `x` leaves the rest of row y, to its right, as it was |
| FluidDensity.RangeDensity | src/fallsand/fluid.cpp:53-136 | a one-cell range does nothing; otherwise the range is planned from the row below and, unless there is no fill position (or, under `typeOfIs`, a single fluid type), matched |
| FluidDensity.DensityRow | src/fallsand/fluid.cpp:35-136 | the density pass of row `y` handles its active ranges left to right, each on the cells the ones before it left |
| FluidDensity.DensityStep | src/fallsand/fluid.cpp:32-138 | `densityAnalysisStep`: the world becomes the density pass of every row from the second lowest up to the top, with a used fill position kept on `left_pos` as written; what each range swaps is `RangeMovers` |
| FluidDensity.SwappedFluidsOnly | src/fallsand/fluid.cpp:125-128 | one exchange of two fluid cells changes only fluid cells |
| FluidDensity.ApplyFluidsOnly | src/fallsand/fluid.cpp:125-128 | swaps between fluid cells rearrange only fluid cells, and so keep every cell's class |
| FluidDensity.FluidsOnlyClassRow | src/fallsand/fluid.cpp:39 | a row's classes are unchanged by swaps between fluid cells |
| FluidDensity.RangeFluidsOnly | src/fallsand/fluid.cpp:53-136 | under either rule and either way of keeping `left_pos`, one range only rearranges fluid cells |
| FluidDensity.RangesFluidsOnly | src/fallsand/fluid.cpp:53-136 | the active ranges of a row only rearrange fluid cells |
| FluidDensity.DensityFluidsOnly | src/fallsand/fluid.cpp:32-138 | the density pass, under either rule and either way of keeping `left_pos`, only rearranges fluid cells: every cell keeps its class, and every cell that is not fluid keeps its tag and element |
| FluidAnalysis.LabelsPlaced | src/fallsand/fluid.cpp:189-246 | the labels of step 1 still place every listed pixel after step 2, which changes only `fluid_dir` |
| FluidAnalysis.SurfacesPlaced | src/fallsand/fluid.cpp:244-251 | every surface list lies in the world |
| FluidAnalysis.FluidAnalysisStep | src/fallsand/fluid.cpp:142-304 | `fluidAnalysisStep`: the components are labelled on the world as it was, the dirty flags are cleared, every row pass runs, each component's surface pixels of the world the passes left are levelled in id order, and the density pass runs last |
| FlowNetwork.NewVertex | src/fallsand/fluidflow.cpp:47-55 | a vertex as `buildNetwork` pushes it has its id and type, `belonged_component` -1, zero counters, and no edges and no air surface |
| FlowNetwork.WiredEdge | src/fallsand/fluidflow.cpp:70-91 | in a wired network every edge is indexed under its pair, and the reverse pair names its reverse edge |
| FlowNetwork.TouchIdempotent | src/fallsand/fluidflow.cpp:70-91 | touching a pair a second time, in either orientation, changes nothing: the same orientation returns the same edge, the other orientation its reverse |
| FlowNetwork.TouchLinks | src/fallsand/fluidflow.cpp:70-91 | `touchEdge` keeps the network wired and returns an edge from `u` to `v` whose reverse points back to it through `rev_index`; only the pair itself is added to `edge_idx_map`, and no capacity changes |
| FlowNetwork.TouchNew | src/fallsand/fluidflow.cpp:76-90 | a pair not yet indexed gets two new empty edges, one appended at each end, each naming the other's position as its `rev_index` |
| FlowNetwork.TouchNewEdges | src/fallsand/fluidflow.cpp:76-90 | after a new pair is touched, the two new edges name each other and the old edges are as they were |
| FlowNetwork.WiredEdgesOnly | src/fallsand/fluidflow.cpp:34-39 | the wiring and the capacities depend on the edge lists only |
| FlowNetwork.WidenKeeps | src/fallsand/fluidflow.cpp:105-111 | one unit of capacity together with one surface pixel keeps the network wired, and no edge is added |
| FlowNetwork.WidenCap | src/fallsand/fluidflow.cpp:105-107 | widening one edge adds one unit of capacity to its pair and none to any other |
| FlowNetwork.IncFlowWidens | src/fallsand/fluidflow.cpp:94-112 | `incFlow` keeps the network wired, adds one unit of capacity to the pair in both orientations and none to any other pair, and appends the lower pixel `(x, y + 1)` to the edge from `u` and the upper pixel `(x, y)` to its reverse |
| FlowNetwork.IndexedOutside | src/fallsand/fluidflow.cpp:94-112 | an indexed pair other than `(u, v)` and `(v, u)` names neither of their edges, so `incFlow` leaves it alone |
| FlowNetwork.AnalysisContext.constructor | src/fallsand/fluidflow.cpp:67-68 | a new context has no vertices, edges or components, and every pixel's vertex is -1 |
| FlowNetwork.AnalysisContext.TouchEdge | src/fallsand/fluidflow.cpp:70-91 | `touchEdge` updates the vertices and `edge_idx_map` as `Touch` says, and keeps the components |
| FlowNetwork.AnalysisContext.IncFlow | src/fallsand/fluidflow.cpp:94-112 | `incFlow` on a touched pair updates the two edges as `IncFlowNet` says and changes neither the index nor the components |
| FlowRegions.FluidCellsOf | src/fallsand/fluidflow.cpp:269-272 | the fluid set holds exactly the pixels whose class is fluid, the pixels the region scan starts vertices from |
| FlowRegions.Kinds | src/fallsand/fluidflow.cpp:245-246 | the kind map gives every in-bounds pixel the type `searchConnected` compares with `ptype` |
| FlowRegions.KindAt | src/fallsand/fluidflow.cpp:245-246 | an in-bounds pixel is in the kind map, under its grid type |
| FlowRegions.KindsCells | src/fallsand/fluidflow.cpp:267-268 | the kind map's keys are exactly the pixels of the grid the scan visits |
| FlowRegions.ConnectedSelf | src/fallsand/fluidflow.cpp:230-231 | every pixel reaches itself, so the seed belongs to its own region |
| FlowRegions.ConnectedStep | src/fallsand/fluidflow.cpp:244-251 | a same-type neighbour of a reached pixel is reached |
| FlowRegions.ConnectedReverse | src/fallsand/fluidflow.cpp:244-251 | neighbourhood is symmetric, so same-type reachability runs both ways |
| FlowRegions.ConnectedTrans | src/fallsand/fluidflow.cpp:244-251 | same-type reachability is transitive |
| FlowRegions.StartFill | src/fallsand/fluidflow.cpp:274-280 | an unmarked seed starts a fill: a new vertex `|vs|` of the seed's type is pushed and the stack holds the seed alone |
| FlowRegions.EndFill | src/fallsand/fluidflow.cpp:232 | a fill whose stack is empty and whose fluid seed is marked leaves every invariant of the scan in place |
| FlowRegions.PopMarkedClosure | src/fallsand/fluidflow.cpp:236-239 | dropping a marked pixel from the stack keeps every unmarked same-type neighbour of a marked pixel on the stack |
| FlowRegions.PopMarkedAbove | src/fallsand/fluidflow.cpp:236-239 | dropping a marked pixel keeps the stack's pixels unmarked or already handled |
| FlowRegions.PopMarked | src/fallsand/fluidflow.cpp:236-239 | a popped pixel that is marked already is skipped and the fill goes on with a shorter stack |
| FlowRegions.PopFreshStack | src/fallsand/fluidflow.cpp:241-251 | marking the popped pixel and pushing its unmarked same-type neighbours keeps every stacked pixel joined to the vertex's region |
| FlowRegions.PopFreshClosure | src/fallsand/fluidflow.cpp:241-251 | after a fresh pop, every unmarked same-type neighbour of a marked pixel of the vertex is on the stack |
| FlowRegions.PopFreshAbove | src/fallsand/fluidflow.cpp:241-251 | after a fresh pop, the stack's ordering invariant is kept |
| FlowRegions.PopFresh | src/fallsand/fluidflow.cpp:241-251 | a popped unmarked pixel is marked with the current vertex and its unmarked same-type neighbours are pushed, keeping the fill's invariant |
| FlowRegions.MarkShrinksCells | src/fallsand/fluidflow.cpp:241 | marking an unmarked pixel leaves one pixel fewer to mark, which bounds the fill |
| FlowRegions.PushSameType | src/fallsand/fluidflow.cpp:244-251 | the neighbour loop pushes, in `neighborsOf` order, exactly the in-bounds neighbours of type `ptype` that are not dirty |
| FlowRegions.AroundPixel | src/fallsand/fluidflow.cpp:245-246 | the grid's types and the dirty marks around a pixel read as the kind map and the marked set say |
| FlowRegions.Mark | src/fallsand/fluidflow.cpp:241-242 | the pixel's dirty flag is set and its `pixel_vid` becomes `vid`, and the two arrays stay linked to the marked set and the id map |
| FlowRegions.SearchFresh | src/fallsand/fluidflow.cpp:241-251 | an unmarked popped pixel is marked with `vid`, its same-type unmarked neighbours are pushed, and one pixel fewer is left to mark |
| FlowRegions.SearchPop | src/fallsand/fluidflow.cpp:232-252 | one round of the loop pops the top pixel: a dirty one is skipped with the marks unchanged, a clean one is marked with `vid`; the old marks are kept in both cases |
| FlowRegions.ExtendsTrans | src/fallsand/fluidflow.cpp:241-242 | a mark, once set, is kept over successive rounds |
| FlowRegions.SearchConnected | src/fallsand/fluidflow.cpp:223-253 | `searchConnected` ends with an empty stack, the seed marked with `vid`, the old marks kept, and every pixel the seed reaches through same-type neighbours marked |
| FlowRegions.LabelPixel | src/fallsand/fluidflow.cpp:269-280 | one pixel of the scan: a fluid pixel not yet dirty starts a new vertex of its type that `searchConnected` fills; afterwards the pixel is marked if it is fluid |
| FlowRegions.LabelRegions | src/fallsand/fluidflow.cpp:257-282 | the region scan reserves vertices 0 and 1 and ends with every fluid pixel marked, under the scan's invariant |
| FlowRegions.ScanStep | src/fallsand/fluidflow.cpp:268-280 | visiting `(x, y)` extends the scanned prefix of the grid by one pixel |
| FlowRegions.ScanRow | src/fallsand/fluidflow.cpp:267-268 | the end of one row is the start of the next |
| FlowRegions.ScanAll | src/fallsand/fluidflow.cpp:267-282 | once every row is scanned, every fluid pixel is marked |
| FlowRegions.WalkKeepsVertex | src/fallsand/fluidflow.cpp:244-251 | every pixel of a same-type walk from a marked pixel is marked with the walk's first vertex |
| FlowRegions.RegionsAreComponents | src/fallsand/fluidflow.cpp:257-282 | after the scan two marked pixels share a vertex exactly when a same-type walk joins them, everything a fluid pixel reaches is marked, every marked pixel has vertex 2 or above and is reached from that vertex's fluid seed, and every vertex from 2 on has such a seed |
| FlowBuild.Ids | src/fallsand/fluidflow.cpp:257-278 | the vertex ids are exactly `0` up to the number of vertices pushed |
| FlowBuild.PairCountSymmetric | src/fallsand/fluidflow.cpp:284-295 | the number of vertical pixel pairs joining two vertices does not depend on which is named first |
| FlowBuild.PairCountZero | src/fallsand/fluidflow.cpp:288-290 | no pixel pair joins a vertex with itself, the unlabelled -1, or a vertex no pixel carries |
| FlowBuild.VerticalJoinsProps | src/fallsand/fluidflow.cpp:284-295 | the capacity count is symmetric, and zero for a vertex with itself, for -1 and for a vertex no pixel carries |
| FlowBuild.TouchThenWiden | src/fallsand/fluidflow.cpp:292-293 | `touchEdge` then `incFlow` on two different vertices keeps the network wired, changes only edge lists, indexes the pair in both orientations, and adds one unit of capacity to that pair and to no other |
| FlowBuild.CountStep | src/fallsand/fluidflow.cpp:286-293 | a pixel pair joining two different region vertices adds one to their capacity, which keeps the counts equal to the pairs scanned so far |
| FlowBuild.CountSkip | src/fallsand/fluidflow.cpp:288-290 | a pair with an unlabelled pixel or a single vertex leaves every count as it was |
| FlowBuild.JoinPair | src/fallsand/fluidflow.cpp:286-293 | one pixel pair of the edge loop extends the scanned count by one pixel and changes only edge lists and the index |
| FlowBuild.CountedStart | src/fallsand/fluidflow.cpp:284 | before the edge loop nothing is counted |
| FlowBuild.EmptyNetwork | src/fallsand/fluidflow.cpp:257-282 | vertices without edges and an empty index form a wired network without capacity |
| FlowBuild.ConnectRegions | src/fallsand/fluidflow.cpp:284-295 | after the edge loop the network is wired, only edge lists changed, the capacity between any two vertices is the number of vertical pixel pairs joining them, and a pair is indexed exactly when that number is positive, all between region vertices |
| FlowBuild.CountedAll | src/fallsand/fluidflow.cpp:284-295 | once the last row is counted the capacities are `VerticalJoins` and the index holds exactly the pairs that join |
| FlowBuild.NextRow | src/fallsand/fluidflow.cpp:284-285 | the count at the end of one row is the count at the start of the next |
| FlowBuild.AirScanMeaning | src/fallsand/fluidflow.cpp:298-309 | the scan so far holds exactly the air surface pixels of the vertex before `(x, y)`, each once and in scan order |
| FlowBuild.AirSurfaceMeaning | src/fallsand/fluidflow.cpp:298-309 | a vertex's air surface holds exactly its pixels in row 0 or below an Air pixel, each once, in row-major order |
| FlowBuild.CollectAirSurfaces | src/fallsand/fluidflow.cpp:298-309 | the air loop appends to each vertex its air surface and changes nothing else, neither the index nor the components |
| FlowBuild.CollectAirRow | src/fallsand/fluidflow.cpp:299-308 | one row of the air loop extends every vertex's appended surface to the end of the row |
| FlowBuild.AirAddedAll | src/fallsand/fluidflow.cpp:298-309 | after the last row every vertex has its whole air surface appended and is otherwise unchanged |
| FlowBuild.AirNextRow | src/fallsand/fluidflow.cpp:298-299 | the end of one row of the air loop is the start of the next |
| FlowBuild.PixelVids | src/fallsand/fluidflow.cpp:242 | `pixel_vid` holds the vertex the fill gave a pixel, and -1 for a pixel the fill never reached |
| FlowBuild.RegionsOnPixels | src/fallsand/fluidflow.cpp:257-282 | the labelling's facts, read on `pixel_vid`: every fluid pixel is labelled, two labelled pixels share a vertex exactly when a same-type walk joins them, and each vertex has its pixels' type |
| FlowBuild.AirStep | src/fallsand/fluidflow.cpp:300-307 | a labelled pixel with the top border or Air above it is appended to its vertex's surface, and no other pixel is |
| FlowBuild.RegionsKeep | src/fallsand/fluidflow.cpp:284-309 | the later loops, which keep the number and types of the vertices, keep the regions |
| FlowBuild.BuildNetwork | src/fallsand/fluidflow.cpp:255-310 | `buildNetwork` on a fresh context yields source and sink of type Air, one vertex per maximal same-type 4-connected fluid region, counters at zero, each vertex's air surface, a wired network whose capacities are the vertical pixel pair counts, and the components untouched |
| FlowBuild.NetworkAssembled | src/fallsand/fluidflow.cpp:255-310 | the three loops of `buildNetwork` together give the network described above |
| FlowBuild.VertexFieldsKept | src/fallsand/fluidflow.cpp:284-309 | the edge loop changes only edge lists and the air loop only air surfaces, so ids, types and counters stay as pushed |
| FlowComponents.AssignDecreases | src/fallsand/fluidflow.cpp:335-336 | giving a vertex with no component a component leaves one vertex fewer without, which bounds the search |
| FlowComponents.UndirectedKept | src/fallsand/fluidflow.cpp:312-346 | changing only `belonged_component` keeps every edge paired with a reverse edge |
| FlowComponents.NeighboursOpen | src/fallsand/fluidflow.cpp:338-343 | a neighbour of a vertex with no component has none either or belongs to the component being searched |
| FlowComponents.AssignKeeps | src/fallsand/fluidflow.cpp:335-336 | putting the popped vertex into `cid` appends it to that component's list, keeps the source and sink out and leaves only its own edges to close |
| FlowComponents.ClosingAssign | src/fallsand/fluidflow.cpp:335 | an edge that led to the popped vertex now stays in `cid` |
| FlowComponents.ListedAssign | src/fallsand/fluidflow.cpp:336 | appending the popped vertex to the list of `cid` keeps each vertex listed once, in the list of its component |
| FlowComponents.PushesClose | src/fallsand/fluidflow.cpp:338-343 | once the neighbours with no component are pushed, every edge of a vertex in `cid` leads into `cid` or to a stacked vertex |
| FlowComponents.PopStep | src/fallsand/fluidflow.cpp:327-343 | one round pops a vertex: one in a component is skipped, one without joins `cid` and its open neighbours are pushed; only components change, assigned vertices stay assigned, and the number of unassigned vertices or the stack shrinks |
| FlowComponents.PushOpen | src/fallsand/fluidflow.cpp:338-343 | the edge loop of a popped vertex pushes its neighbours with no component, closing its edges |
| FlowComponents.OpenTargets | src/fallsand/fluidflow.cpp:338-343 | the pushes are the edge targets with no component, so every target is in `cid` or pushed |
| FlowComponents.KeepsTrans | src/fallsand/fluidflow.cpp:326-344 | the rounds together still change only components and keep assigned vertices assigned |
| FlowComponents.SearchComponent | src/fallsand/fluidflow.cpp:322-345 | the search from a region vertex without component pushes one new component, which the start vertex joins, keeping the search invariant |
| FlowComponents.SearchBegins | src/fallsand/fluidflow.cpp:322-325 | a new empty component list with the start vertex on the stack starts the search |
| FlowComponents.SearchEnds | src/fallsand/fluidflow.cpp:326 | once the stack is empty the new component is closed and not empty |
| FlowComponents.CalculateComponents | src/fallsand/fluidflow.cpp:312-346 | every region vertex ends in exactly one component and is listed once in that component's list, the source and sink are in none, no edge leaves a component, no component is empty, and nothing but the components changes |
| FlowComponents.ClosedAtEnd | src/fallsand/fluidflow.cpp:312-346 | once every region vertex has a component and the stack is empty, no edge leaves a component |
| FlowComponents.ComponentsPartition | src/fallsand/fluidflow.cpp:312-346 | a region vertex is in a component's list exactly when it belongs to that component, and every listed vertex is a region vertex |
| FlowComponents.PathStays | src/fallsand/fluidflow.cpp:338-343 | a path of edges stays in the component it starts in |
| FlowComponents.PathPrefixStays | src/fallsand/fluidflow.cpp:338-343 | each vertex of an edge path is in the component of its first vertex |
| FlowPrepare.MergedOwned | src/fallsand/fluidflow.cpp:352-358 | every merged pixel is an air surface pixel of one of the component's vertices, and `pixel_vid` names that vertex |
| FlowPrepare.SortedOwned | src/fallsand/fluidflow.cpp:364-382 | sorting and shuffling keeps exactly the merged pixels |
| FlowPrepare.DeepStart | src/fallsand/fluidflow.cpp:403-406 | the trailing run searched back from `j` starts at or before `j` |
| FlowPrepare.DeepStartMeaning | src/fallsand/fluidflow.cpp:403-406 | from its start on the run lies at row `d` or below, and the entry just before it lies above row `d` |
| FlowPrepare.DeepStartAbove | src/fallsand/fluidflow.cpp:403-406 | the trailing run cannot reach back into a prefix above row `d` |
| FlowPrepare.Runs | src/fallsand/fluidflow.cpp:384-406 | a sorted list is the top row `high_y`, then the row just below, then rows at `high_y + 2` or deeper |
| FlowPrepare.MiddleRow | src/fallsand/fluidflow.cpp:403-406 | between the top run and the deeper rows a sorted list holds only row `high_y + 1` |
| FlowPrepare.SourceCountMeaning | src/fallsand/fluidflow.cpp:384-406 | `source_cnt` is not negative, at most half the list and at most `(low_y - high_y) * 0.7`; the sources are top-row pixels and the sinks lie two rows or more below the top |
| FlowPrepare.SinkTrim | src/fallsand/fluidflow.cpp:403-406 | where the trimming loop stops, the count is `SourceCount`: the loop drops exactly the sinks in the row just below the top |
| FlowPrepare.CountSources | src/fallsand/fluidflow.cpp:384-406 | the counting, clamping and trimming of `source_cnt` yields `SourceCount` |
| FlowPrepare.TouchAndWiden | src/fallsand/fluidflow.cpp:418-421 | `touchEdge` then one unit on the returned edge keeps the network wired, changes only `u` and `v`, and adds one unit of capacity from `u` to `v` only |
| FlowPrepare.SameVerticesTrans | src/fallsand/fluidflow.cpp:413-434 | the connecting loops together change edge lists only |
| FlowPrepare.SourcesBegin | src/fallsand/fluidflow.cpp:413 | before the source loop no source edge is counted |
| FlowPrepare.SinksBegin | src/fallsand/fluidflow.cpp:425 | before the sink loop no sink edge is counted |
| FlowPrepare.SourceStep | src/fallsand/fluidflow.cpp:414-421 | one source turn adds one unit from the source to the vertex of pixel `i`, recording the pixel on the edge |
| FlowPrepare.SinkStep | src/fallsand/fluidflow.cpp:426-433 | one sink turn adds one unit from the vertex of pixel `i` to the sink, recording the cell above the pixel on the edge |
| FlowPrepare.ConnectSources | src/fallsand/fluidflow.cpp:412-422 | the source loop adds one unit from the source to the vertex of each of the first `source_cnt` pixels and nothing else |
| FlowPrepare.ConnectSinks | src/fallsand/fluidflow.cpp:424-434 | the sink loop adds one unit to the sink from the vertex of each of the last `source_cnt` pixels, recording the air cell above |
| FlowPrepare.PreparedFrom | src/fallsand/fluidflow.cpp:412-434 | the two loops together give the prepared network |
| FlowPrepare.CompSet | src/fallsand/fluidflow.cpp:436-437 | the vertex set of a prepared component holds its vertices, the source and the sink |
| FlowPrepare.OwnedFeeds | src/fallsand/fluidflow.cpp:415 | every merged pixel's `pixel_vid` is a vertex of the component |
| FlowPrepare.MergeAir | src/fallsand/fluidflow.cpp:352-358 | the merge loop concatenates the air surfaces of the component's vertices in list order |
| FlowPrepare.MergedMeaning | src/fallsand/fluidflow.cpp:352-358 | a pixel is merged exactly when it is on the air surface of one of the component's vertices |
| FlowPrepare.ConnectBoth | src/fallsand/fluidflow.cpp:412-434 | the two connecting loops build the prepared network for `source_cnt` sources and sinks |
| FlowPrepare.SurfaceFeeds | src/fallsand/fluidflow.cpp:352-382 | the sorted air surface pixels of a component carry its vertices |
| FlowPrepare.ConnectComponent | src/fallsand/fluidflow.cpp:412-439 | the connecting loops, then source and sink appended to the component's vertex list, no other component changing |
| FlowPrepare.PrepareComponent | src/fallsand/fluidflow.cpp:348-440 | succeeds exactly when the component has two or more air surface pixels spanning more than two rows and a positive source count; on failure nothing changes; on success the source and sink are connected with `SourceCount` units each way and appended to the component |
| FlowDinic.OutFlowUpdate | src/fallsand/fluidflow.cpp:484-485 | setting the flow of one edge changes the vertex's net outflow by the difference |
| FlowDinic.FlowsOnlySelf | src/fallsand/fluidflow.cpp:442-501 | a network changes only in flows from itself |
| FlowDinic.FlowsOnlyTrans | src/fallsand/fluidflow.cpp:442-501 | steps that change only flows, levels and current edges compose |
| FlowDinic.PushEdgeOk | src/fallsand/fluidflow.cpp:484-485 | after a push within the residual capacity every edge still has its reverse and its flow within capacity and antisymmetric |
| FlowDinic.PushWired | src/fallsand/fluidflow.cpp:484-485 | a push within the residual capacity keeps the network wired |
| FlowDinic.PushKeeps | src/fallsand/fluidflow.cpp:483-485 | pushing at most the residual along an edge and back along its reverse keeps the network wired, adds the amount to `u`'s net outflow, takes it from the far end's, and changes no third vertex |
| FlowDinic.AugmentingBegins | src/fallsand/fluidflow.cpp:474-476 | the edge loop of `dinicDFS` starts with nothing pushed |
| FlowDinic.AugmentingSkips | src/fallsand/fluidflow.cpp:476 | moving `cur_edge` to the next edge keeps the invariant |
| FlowDinic.AugmentingCloses | src/fallsand/fluidflow.cpp:486-488 | once the whole amount is pushed, dropping `u` to level 0 keeps the promised result |
| FlowDinic.AugmentingCalls | src/fallsand/fluidflow.cpp:480-482 | the search one level down leaves `u` and its current edge as they were |
| FlowDinic.AugmentingPushes | src/fallsand/fluidflow.cpp:479-485 | what the search one level down returns is pushed along the edge and added to `ret` |
| FlowDinic.DinicDFS | src/fallsand/fluidflow.cpp:469-493 | `dinicDFS` returns between 0 and `flow`, the whole `flow` at the sink; it pushes the result from `u` toward the sink along level edges with room, keeps every other vertex's net flow, flow within capacity and `flow(e) == -flow(rev e)`, and drops `u` to level 0 when it passed on all it was asked for |
| FlowDinic.ScanEdge | src/fallsand/fluidflow.cpp:476-491 | one round of the edge loop either closes `u` with the whole amount pushed or moves to the next edge, with `ret` growing but staying within `flow` |
| FlowDinic.PushAlong | src/fallsand/fluidflow.cpp:479-485 | on a level edge with room, at most `min(flow - ret, capacity - flow)` more units go along it |
| FlowDinic.RelabelledFlowsOnly | src/fallsand/fluidflow.cpp:444-459 | changing levels and current edges only keeps the network and its flows |
| FlowDinic.RelabelledTrans | src/fallsand/fluidflow.cpp:444-459 | level changes compose |
| FlowDinic.RelevelledRelabelled | src/fallsand/fluidflow.cpp:449-459 | a change of levels alone is a relabelling |
| FlowDinic.RelevelledTrans | src/fallsand/fluidflow.cpp:449-459 | level changes of the queue loop compose |
| FlowDinic.WalkExtends | src/fallsand/fluidflow.cpp:457 | a residual walk extends by any edge with room at its end |
| FlowDinic.WalkRelabelled | src/fallsand/fluidflow.cpp:444-459 | residual walks do not depend on levels or current edges |
| FlowDinic.LabelKeeps | src/fallsand/fluidflow.cpp:458 | giving an unlabelled vertex a level keeps what labelled vertices had |
| FlowDinic.LabelStep | src/fallsand/fluidflow.cpp:457-459 | an edge with room to an unlabelled vertex gives it the next level and queues it, with a labelling edge back to `u` |
| FlowDinic.PassStep | src/fallsand/fluidflow.cpp:457 | an edge to a labelled vertex, or without room, leaves the queue as it is |
| FlowDinic.FewerLeft | src/fallsand/fluidflow.cpp:458-459 | each vertex labelled leaves fewer unlabelled, which bounds the queue loop |
| FlowDinic.VisitEdge | src/fallsand/fluidflow.cpp:456-460 | one edge of the queue loop labels and queues its far end exactly when that end is unlabelled and the edge has room |
| FlowDinic.LabelEdges | src/fallsand/fluidflow.cpp:455-461 | the edge loop of a dequeued vertex labels and queues every unlabelled end of its edges with room |
| FlowDinic.ResetLevels | src/fallsand/fluidflow.cpp:444-447 | every vertex of the component goes back to level 0 and its first edge, and no flow changes |
| FlowDinic.QueueBegins | src/fallsand/fluidflow.cpp:449-450 | the queue starts with the source alone at level 1 |
| FlowDinic.ClosedReach | src/fallsand/fluidflow.cpp:451-462 | once every labelled vertex has had all its edges seen, everything a residual walk reaches from a labelled vertex is labelled |
| FlowDinic.ParentWalk | src/fallsand/fluidflow.cpp:458 | following the labelling edges back gives a residual walk from the source to each labelled vertex |
| FlowDinic.DrainQueue | src/fallsand/fluidflow.cpp:451-462 | the queue loop ends with a closed labelling, flows unchanged |
| FlowDinic.DinicBFS | src/fallsand/fluidflow.cpp:442-465 | `dinicBFS` resets the component's current edges, puts the source at level 1, and returns true exactly when the sink has a level, which is exactly when a residual walk leads from the source to the sink; flows do not change |
| FlowDinic.MaxDep | src/fallsand/fluidflow.cpp:469-493 | no vertex's level exceeds the bound on the depth of the recursion |
| FlowDinic.RelabelledConserves | src/fallsand/fluidflow.cpp:444-459 | relevelling changes no net flow |
| FlowDinic.ConservesTrans | src/fallsand/fluidflow.cpp:497-499 | the amounts of successive rounds add up |
| FlowDinic.UnmovedTrans | src/fallsand/fluidflow.cpp:497-499 | vertices outside the component stay unmoved over successive rounds |
| FlowDinic.DinicRound | src/fallsand/fluidflow.cpp:497-498 | one round levels the component and, when the sink is reached, pushes what one `dinicDFS` from the source returns; when not reached nothing but levels change and no residual walk leads to the sink |
| FlowDinic.MaxFlow | src/fallsand/fluidflow.cpp:495-501 | `maxFlow`'s total is not negative and is exactly what left the source and what reached the sink, every other vertex keeps its net flow, flows stay within capacity and antisymmetric, and when the loop ends no residual walk leads from source to sink |
| FlowApply.FlowsInto | src/fallsand/fluidflow.cpp:508-512 | a vertex's edges with flow into `z` number at most its edges |
| FlowApply.Carrying | src/fallsand/fluidflow.cpp:528-532 | a vertex's edges that carry flow number at most its edges |
| FlowApply.WiredTargets | src/fallsand/fluidflow.cpp:529 | in a wired network every edge leads to a vertex of the component |
| FlowApply.ConsumedTrans | src/fallsand/fluidflow.cpp:519-563 | consumed edges stay consumed over several visits |
| FlowApply.RecountedConsumed | src/fallsand/fluidflow.cpp:506-513 | counting in-degrees changes no edge |
| FlowApply.InFlowUpdate | src/fallsand/fluidflow.cpp:506-513 | when only `u`'s edges change, the component's flow counts move by `u`'s own difference if `u` is listed |
| FlowApply.ZeroedCounts | src/fallsand/fluidflow.cpp:558 | setting the flow of an edge with flow to 0 leaves one edge fewer carrying flow, and one fewer into its far end |
| FlowApply.CountedInto | src/fallsand/fluidflow.cpp:509-510 | an edge with flow from a listed vertex into `z` is counted in `z`'s in-flow |
| FlowApply.EdgeCounted | src/fallsand/fluidflow.cpp:509-510 | an edge with flow into `z` is counted among a vertex's edges into `z` |
| FlowApply.CountEdgesOf | src/fallsand/fluidflow.cpp:507-512 | the edges of `u` that carry flow each raise the in-degree of their far end by one, and nothing else changes |
| FlowApply.RecountedTrans | src/fallsand/fluidflow.cpp:506-513 | the counting of successive vertices composes and leaves edges alone |
| FlowApply.CountIndeg | src/fallsand/fluidflow.cpp:506-513 | the in-degree of every vertex rises by the number of edges with flow into it from the component's vertices, and no edge changes |
| FlowApply.VisitBegins | src/fallsand/fluidflow.cpp:520-521 | taking the front of the queue to visit it keeps the order topological |
| FlowApply.VisitEnds | src/fallsand/fluidflow.cpp:528-562 | a visit done with all of `u`'s edges leaves the sort's invariant in place |
| FlowApply.ConsumeInFlow | src/fallsand/fluidflow.cpp:557-558 | consuming an edge with flow lowers the component's in-flow of its far end by one and of no other vertex |
| FlowApply.ConsumeCounts | src/fallsand/fluidflow.cpp:557-558 | consuming an edge with flow leaves one edge fewer carrying flow, one fewer into its far end, and changes nothing else |
| FlowApply.ConsumeStep | src/fallsand/fluidflow.cpp:557-561 | consuming edge `i` lowers its far end's in-degree to the edges with flow still coming in and sets the edge's flow to 0 |
| FlowApply.ConsumeEdits | src/fallsand/fluidflow.cpp:557-558 | consuming an edge of the visited vertex changes only that vertex and the far end |
| FlowApply.Enqueue | src/fallsand/fluidflow.cpp:559-561 | a vertex with nothing more flowing in may join the queue |
| FlowApply.ReachedStep | src/fallsand/fluidflow.cpp:557-561 | after a consumption the far end is queued exactly when it is not the sink and nothing more flows into it |
| FlowApply.ShrinksTrans | src/fallsand/fluidflow.cpp:519-563 | the measure of the queue loop shrinks over successive steps |
| FlowApply.ConsumeEdge | src/fallsand/fluidflow.cpp:528-561 | one edge of the visit: an edge without flow is skipped, one with flow is consumed and its far end queued once nothing more flows into it |
| FlowApply.VisitVertex | src/fallsand/fluidflow.cpp:528-562 | the visit consumes every edge of `u` that carries flow |
| FlowApply.Topsort | src/fallsand/fluidflow.cpp:516-563 | the queue loop visits from the source, each vertex once nothing flows into it any more, consuming its edges with flow; the visiting order starts with the source |
| FlowApply.SameInFlow | src/fallsand/fluidflow.cpp:506-513 | the in-flow counts depend on the edges only |
| FlowApply.SortingBegins | src/fallsand/fluidflow.cpp:516-517 | the queue loop starts from the counted network with only the source queued |
| FlowApply.TopologicalRecounted | src/fallsand/fluidflow.cpp:506-513 | a topological order of the counted network is one of the network before counting |
| FlowApply.ApplyFlowResults | src/fallsand/fluidflow.cpp:503-564 | the in-degrees are counted and the vertices visited from the source in topological order of the flow; afterwards no flow is left on a visited vertex's edges, every vertex but the sink whose incoming flow was all consumed was visited, and each in-degree counts the edges with flow still coming in |
| FlowAnalysis.WorkingTrans | src/fallsand/fluidflow.cpp:566-578 | the rounds of `analysisFlow` together change only working fields |
| FlowAnalysis.StepsWork | src/fallsand/fluidflow.cpp:568-571 | preparing, `maxFlow` and `applyFlowResults` each change only edge lists, flows, levels, cursors and in-degrees |
| FlowAnalysis.AppendedDistinct | src/fallsand/fluidflow.cpp:436-437 | a component with the source and sink appended lists no vertex twice, and lists exactly its vertex set |
| FlowAnalysis.FlowComponent | src/fallsand/fluidflow.cpp:568-571 | the body of the loop for one component: succeeds exactly when the component is preparable, and then its maximum flow is found (non-negative, conserved, within capacity, final when `done`) and its flow results consumed in topological order; on failure nothing changes |
| FlowAnalysis.ComponentIds | src/fallsand/fluidflow.cpp:567 | each component lists distinct region vertices of that component |
| FlowAnalysis.MergedSame | src/fallsand/fluidflow.cpp:352-358 | the merged air surface depends only on the listed vertices' air surfaces |
| FlowAnalysis.ComponentEdge | src/fallsand/fluidflow.cpp:567-578 | at round `i` an edge of a region vertex of component `i` is as `buildNetwork` left it and stays within the component |
| FlowAnalysis.WiredComponent | src/fallsand/fluidflow.cpp:567-578 | at round `i` component `i` is wired within itself, the source and the sink |
| FlowAnalysis.ComponentEdges | src/fallsand/fluidflow.cpp:567-578 | at round `i` every edge of component `i`, the source and the sink is well formed within that set |
| FlowAnalysis.ComponentKeys | src/fallsand/fluidflow.cpp:567-578 | at round `i` every index pair within component `i` names an edge between its ends |
| FlowAnalysis.ComponentKey | src/fallsand/fluidflow.cpp:567-578 | at round `i` an index pair within component `i` is one `buildNetwork` made between region vertices |
| FlowAnalysis.ReadyFor | src/fallsand/fluidflow.cpp:567-568 | at round `i` component `i` meets what preparation needs, with its air surface as `buildNetwork` left it |
| FlowAnalysis.Reset | src/fallsand/fluidflow.cpp:573-577 | the reset clears the source's and the sink's edges and in-degrees and keeps every other vertex |
| FlowAnalysis.AdvanceVertices | src/fallsand/fluidflow.cpp:567-578 | a round keeps the vertices of later components and of earlier ones that did not prepare |
| FlowAnalysis.AdvanceKeys | src/fallsand/fluidflow.cpp:567-578 | a round adds index pairs only with an end in its component |
| FlowAnalysis.AdvanceComps | src/fallsand/fluidflow.cpp:567-571 | after round `i` the component lists up to `i` have source and sink appended exactly where preparation succeeded |
| FlowAnalysis.AnalysisRound | src/fallsand/fluidflow.cpp:567-578 | round `i`, the component's analysis and then the reset, extends the loop's invariant to `i + 1` |
| FlowAnalysis.RoundFlow | src/fallsand/fluidflow.cpp:568-571 | a component's analysis succeeds exactly when it is preparable, changes nothing when it is not, and otherwise adds index pairs only within the component and changes only working fields |
| FlowAnalysis.ResetTerminals | src/fallsand/fluidflow.cpp:573-577 | the reset clears the source's and the sink's edges and in-degrees and changes nothing else |
| FlowAnalysis.RoundsEnd | src/fallsand/fluidflow.cpp:566-579 | after every round each component has source and sink appended exactly when it prepared, and the vertices of components that did not are unchanged |
| FlowAnalysis.AnalysisFlow | src/fallsand/fluidflow.cpp:566-579 | `analysisFlow` appends source and sink to exactly the components that prepare, leaves the vertices of the others unchanged, keeps every index pair, changes only working fields, and ends with the source and sink without edges |
| FlowAnalysis.RegionEdges | src/fallsand/fluidflow.cpp:284-295 | with edges indexed only between region vertices every edge has its reverse and the source and sink have none |
| FlowAnalysis.SurfacesOwned | src/fallsand/fluidflow.cpp:298-309 | every collected air surface pixel carries its vertex in `pixel_vid` |
| FlowAnalysis.NetworkShape | src/fallsand/fluidflow.cpp:255-310 | a network as `buildNetwork` leaves it has every edge paired, source and sink without edges, and air surfaces on their vertices' pixels |
| FlowAnalysis.SplitNetwork | src/fallsand/fluidflow.cpp:587-591 | `calculateGraphConnectedComponents` on such a network leaves what `analysisFlow` starts from |
| FlowAnalysis.ComponentFlow | src/fallsand/fluidflow.cpp:590-591 | the components of the built network, then every component's flow: only the working fields change, exactly the preparable components get source and sink appended, and every index pair is kept |
| FlowAnalysis.FluidFlowStep | src/fallsand/fluidflow.cpp:583-592 | `fluidAnalysisStep`: the density pass, then the network of the world that pass leaves, the dirty flags cleared, the components and every component's flow; the world afterwards is the density pass's with clear dirty flags |

## Left out

- Heat transfer between cells (`src/fallsand/thermal.cpp`): worker threads, locks and float arithmetic.
- The world step here (`Simulation`) runs the structures only. Neither the `fluidAnalysisStep()` call of src/fallsand/world.cpp:181 nor the `thermalAnalysisStep()` call of world.cpp:182 is composed into it. Both definitions of `PixelWorld::fluidAnalysisStep` stand on their own as `FluidAnalysis.FluidAnalysisStep` (src/fallsand/fluid.cpp) and `FlowAnalysis.FluidFlowStep` (src/fallsand/fluidflow.cpp). Which of the two the game links is a build choice.
- Float physics: `src/fallsand/sand.cpp`, `WaterParticle::step` (src/fallsand/water.cpp:106-218), `DuckEntity::step` (src/duck.cpp:99-320) and the volume fades of `src/audio.cpp`. The duck's position is a pair of reals that comes in as an input.
- Float constants: the video duration of `convert_video.py` (only for display) is left out.
- Randomness: every `Xoroshiro128PP` draw is a parameter (`roll`, `dirRoll`, `diagRoll`, `Draws`, `draws`), and every `std::shuffle` result is an arbitrary permutation passed in.
- I/O: the save file (`src/save.cpp`; here the save data is a field or an input), the asset files and `loadAllAssets`, the `ffmpeg` process (an opaque outcome), and every SFML texture, sprite, window, sound and keyboard call. Images are RGBA arrays and events are key codes.
- `pack.py`: a directory walk and a zip writer with no logic of its own.
- `src/main.cpp`, `src/scenes/credits.cpp`, `src/scenes/help.cpp` and `src/scenes/key_guide.cpp`: static screens with no state worth proving. The main menu's targets for them are plain values.
- Drawing: beyond the index, slice and position arithmetic stated in the table, rendering is not modelled (fonts' sprites, textures, the level menu's textures, hint texts' placement).
- The music fade of `LevelLoading::setup` (a float fade in `src/audio.cpp`) and loading the level (`Level::loadFromMetadata`), which the scene requests as a target.
- `src/level.cpp`: the two-line `Level::step` that runs the world and then the duck; its failure and completion flags are inputs of `LevelScenes.LevelPlaying.Step`.
- The constant tag tables of `src/fallsand/air.cpp`, `stone.cpp`, `copper.cpp`, `decoration.cpp`, `src/elements/air.cpp` and `src/elements/stone.cpp` are data of `Pixels`. Where they disagree (Air's thermal conductivity is 1 in src/fallsand/air.cpp:12 and 5 in src/elements/air.cpp:12), the `src/elements/` value is used.
- `src/fallsand/oil.cpp` and `src/fallsand/wood.cpp` are older copies of `src/elements/oil.cpp` and `src/elements/wood.cpp`. Only the `src/elements/` versions are modelled.
- Header declarations that disagree with the `.cpp` files (`fallsand.h`, `elements.h`, `level.h`, `scene.h`, `structures.h`, `audio.h`, `render.h`, `save.h`) are not followed. The data model is taken from what the `.cpp` bodies read and write.
- The colour names the source looks up but `colorpalette.h` lacks ("Wood1", "POIMarker", "Fire1", ...) come from a colour table that is a parameter (`Config`). Only the six-entry table of `colorpalette.h` is a constant.
- The `PixelType` order behind `isDenser` is the order of the enumeration, and no proof depends on more than its being a total order.
- Integer widths: the game's `int` counters (the settings hint opacity, the gate's progress timer, tick counters) do not overflow in the model. In the source they would only overflow after about 2^31 ticks.
- Water.WaterStepLocal: requires the water's `fluid_dir` to be -1, 0 or 1. The source stores any `int` there but only ever writes those three values.
- Water.StaysPut: requires the same `fluid_dir` range, for the same reason.
- LevelBuild.BuildWorld: requires every constructed structure to lie in the world. `setup` writes its cells without a bounds check, so a structure over the edge would index outside the world's arrays.
- LevelBuild.BuildWorld: constructs the structures after the scan. The source constructs each one during the scan (src/loader.cpp:156-169). So when a map has both a refused emitter shape and a later scan fault, or a missing duck or checkpoint, the source reports the constructor's error and the model reports the scan's. The emitter and plate shapes that the constructors load from assets are a parameter (`StructureShapes`). The world is built as a value (`Grid`), not through `PixelWorld`'s methods.
- Items.FireBrush.Use: requires the brush square to lie in the world. The source does no bounds check there, so a square over the edge indexes outside the world's arrays.
- Items.OilBrush.Use: takes its random draws as a table indexed by column and row, not in the order the source draws them. The cells painted are the same.
- DuckDeaths.Anchor: requires the raw image's sides to fit in an `int`, as an `sf::Image`'s do.
- Raster2D: `tilesOnSegment` computes its slope in `float` (src/2d.cpp:22-27). The model uses the exact ratio `shorter / longer` and rounds `i * shorter / longer` to nearest, halves away from zero. For very long segments a `float` slope could round differently.
- `surface_adjust_factor`, the `float` 0.7 of src/fallsand/fluid.cpp:30 and src/fallsand/fluidflow.cpp:115, is the exact ratio 7/10 (`SurfaceNum / SurfaceDen`, `AdjustNum / AdjustDen`). The truncating casts of its products are floor divisions of non-negative values.
- The `std::sort` by row and the `std::shuffle` of each row of a surface list (src/fallsand/fluid.cpp:258-282, src/fallsand/fluidflow.cpp:364-382) are one sort: by row, then by an arbitrary rank of the entry's position in the unsorted list, then by that position. The rank is a function of the component id and the position (`rank(c, pos)`), so each component gets its own shuffle, as the fresh `std::mt19937` of each component (fluid.cpp:270) does. Ranking positions rather than pixels covers every outcome of the shuffle, including one that parts two entries of the same pixel; the flood fill can list a pixel twice (`FluidLevel.SurfaceDuplicatesParted`). `FluidAnalysis.FluidAnalysisStep` and `FlowAnalysis.AnalysisFlow` each take one such rank for the whole step.
- FluidAnalysis.FluidAnalysisStep: requires every fluid pixel's `fluid_dir` to be -1, 0 or 1 (`UnitFluidDirs`). The row passes count the three directions, and the element rules only ever write those values.
- FluidAnalysis.FluidAnalysisStep: the labelling keeps its dirty marks in an array of its own that starts clear, where src/fallsand/fluid.cpp:155 and 179 read and set the world's dirty flags. The two agree when the world's flags are clear as the analysis starts, which the model does not require: the world step ends with `resetDirtyFlags()` (src/fallsand/world.cpp:205), so they are clear when the next step's analysis runs (world.cpp:181). Like the source (fluid.cpp:189), the step clears the world's flags after labelling.
- FlowAnalysis.FluidFlowStep: builds the network with the labelling's marks in an array of its own that starts clear. The source reads and sets the world's dirty flags (src/fallsand/fluidflow.cpp:237-241, 270). This is the same when the flags are clear on entry, as `PixelWorld::step` leaves them (src/fallsand/world.cpp:205).
- FlowRegions.SearchConnected: keeps the dirty marks in that own array. `pixel_vid`, a flat vector indexed `y * width + x` in the source, is a two-dimensional array.
- FlowApply.ApplyFlowResults: models only the flow bookkeeping of `applyFlowResults` (src/fallsand/fluidflow.cpp:506-513, 516-521, 528-533, 557-561): the in-degrees, the topological visit and the consumption of edges with flow. Some parts are left out: the shuffles of `cache` and `y_surface`, the moves of pixels and elements into and out of the vertex caches, and `replacePixelWithAir` (lines 523-555). `FlowAnalysis.FluidFlowStep` therefore states the world as the density pass leaves it, with the dirty flags cleared.
- FlowDinic.MaxFlow: runs at most `fuel` rounds of `dinicBFS` and `dinicDFS`. It returns `done` when the last search found the sink unreachable, the point where `maxFlow`'s loop stops. Termination of the unbounded loop is not proved.
- FlowDinic.MaxFlow: `maxflow`, the sum of the rounds, is an unbounded integer. Each round's `dinicDFS` result is at most `INT_MAX` (`IntMax`), but the `int` sum is not checked for overflow. `analysisFlow` drops the result (`int flow`).
- FlowComponents.CalculateComponents: states that the components partition the region vertices, that no edge leaves a component and that no component is empty. It does not state that each component is connected.

## Findings

| source | as written | input that shows it | evidently intended | confidence | as-written member | corrected member |
|---|---|---|---|---|---|---|
| src/structures/gate.cpp:168-199 | when closing, `_canMoveFurther` looks at offset `gate_length - next_progress`, but `_closeFurther` writes the new front Stone at `gate_length - next_progress - 1` (gate.cpp:139-151), one cell nearer | `GateFinding.SampleColumn`: a South gate one cell open, unpowered, with Sand fallen into the vacated row 19 and Air on row 20; the check sees the Air and the bar overwrites the Sand | the closing check examines the cell the front Stone will fill, so a closing gate never crushes a Solid pixel | not executed | GateFinding.AsWrittenCheckCrushes | Gates.GateNeverCrushes |
| src/scenes/settings.cpp:265-282 | the `Tab` case has no `break` and falls through into `Up`, so Tab forward undoes its own step | `Settings.TabStuckOnFirst`: Tab on the first of the seven options leaves the cursor on it | Tab moves one option forward cyclically, Shift-Tab one back | not executed | Settings.TabStuckOnFirst | Settings.TabIntendedCycles |
| src/scenes/level_menu.cpp:96-102 | Right compares the selection only with the completed count, never with the number of levels | `LevelMenus.RightPastLastLevel`: 3 levels, all completed, Right on level 2 selects index 3, and Enter's `levels.at(3)` throws | Right stops at the last existing level | not executed | LevelMenus.RightPastLastLevel | LevelMenus.SelectionStaysOnLevels |
| src/scenes/level_menu.cpp:149-164 | with fewer levels than buttons, `duck_btn_index` can exceed the selection, so the window starts before level 0, and the unsigned range check then ends the loop at once | `LevelMenus.WindowEmptyWithFewLevels`: 5 buttons, 3 levels, level 2 selected; the first button is level -2 and no button is drawn | the window never starts before level 0 | not executed | LevelMenus.WindowEmptyWithFewLevels | LevelMenus.IntendedWindowShowsSelection |
| src/fallsand/fluid.cpp:228-238 | when the component id changes, the row pass counts the cell's `fluid_dir` and pushes its column onto `loc` before `handle()` flushes the group, so the first cell of a new component is levelled with the previous component's group | `FluidRows.GroupsAsWrittenMixComponents`: a row of Water (`fluid_dir` +1, component 0), a gas cell, Water (`fluid_dir` -1, component 1) becomes one group and ends as (-1, _, +1) | each run of one component is levelled on its own, so here each cell keeps its direction | not executed | FluidRows.GroupsAsWrittenMixComponents | FluidRows.RowResultMeaning |
| src/fallsand/fluid.cpp:124-131 | when the nearer fill position is the one to the right and equals the current column, the pass marks it used in `fill_pos` but leaves it on `left_pos`, so a later column can swap with the cell that already rose; fluidflow.cpp:178-213 does the same | `DensityRows.MatchAsWrittenReusesFillPosition`: four moving cells over fill positions 0 and 3 swap column 0 with fill cell 0, then column 1 with fill cell 0 again, and fill cell 3 stays below | a used fill position is dropped from `left_pos` too, so each fill cell rises at most once; here column 1 takes fill position 3 | not executed | DensityRows.MatchAsWrittenReusesFillPosition | DensityRows.MatchMeaning |

Other behaviour of the source that the model follows as written:

- The loader's "multiple direction markers" error (src/loader.cpp:76-86) cannot be raised, because the probe loop stops at the first marker it finds.
- `convert_video.py` passes `-crf 18` to the encoder, although its comment says 40.
- After water swaps sideways, its final `fluid_dir = 0` (src/fallsand/water.cpp:82) lands on the cell it swapped with, since the tag reference names the position and not the water.
- A burnt-out wood cell does not keep its heat (src/elements/wood.cpp:65-72), while a burnt-out oil cell does (src/elements/oil.cpp:51-59).
- The gate's setup checks for Solid cells after the shape has stamped itself into the world, so a Solid cell of the gate's own shape on the bar's path makes the setup fail (src/structures/gate.cpp:33-58).
- `CheckpointArea::isCompleted` and `GoalArea::isCompleted` test `progress >= max`. The counters never exceed their maximum, so the model states the equality.
