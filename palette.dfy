// include/wforge/colorpalette.h: the table of indexed colours and the
// compile-time lookup of a colour's index by name. Names are C strings: the
// lookup loop stops at the first NUL, which a Dafny string need not contain,
// so the end of the sequence counts as a terminator too.
module ColorPalette {
  import opened Base

  datatype Entry = Entry(name: string, color: Rgba)

  /** `_colors`: every colour a generated texture may index. */
  const Colors: seq<Entry> := [
    Entry("Air", Rgba(0, 0, 0, 0)),
    Entry("Stone1", Rgba(128, 128, 128, 255)),
    Entry("Sand", Rgba(194, 178, 128, 255)),
    Entry("Water", Rgba(64, 164, 223, 200)),
    Entry("Oil", Rgba(85, 107, 47, 200)),
    Entry("DebugRed", Rgba(255, 0, 0, 255))
  ]

  /** `_color_palette_size`. */
  const PaletteSize: nat := 6

  /** `-1` converted to `unsigned int`, the "not found" answer. */
  const NotFound: nat := 0xFFFF_FFFF

  /** The text of a C string: everything before the first NUL. */
  function CText(s: string): (t: string)
    ensures |t| <= |s| && t == s[..|t|] && '\0' !in t
    ensures |t| < |s| ==> s[|t|] == '\0'
    decreases |s|
  {
    if |s| == 0 || s[0] == '\0' then [] else [s[0]] + CText(s[1..])
  }

  predicate AtNul(s: string) { |s| == 0 || s[0] == '\0' }

  /** The inner `while` loop together with the test after it: walk both strings while they agree, then accept only if both ended. */
  function NamesMatch(j: string, k: string): bool
    decreases |j|
  {
    if !AtNul(j) && !AtNul(k) && j[0] == k[0] then NamesMatch(j[1..], k[1..])
    else AtNul(j) && AtNul(k)
  }

  /** The loop accepts exactly when the two C strings are equal: a proper prefix is not a match. */
  lemma {:induction false} NamesMatchIsEquality(j: string, k: string)
    ensures NamesMatch(j, k) <==> CText(j) == CText(k)
    decreases |j|
  {
    if !AtNul(j) && !AtNul(k) && j[0] == k[0] {
      NamesMatchIsEquality(j[1..], k[1..]);
      assert CText(j) == [j[0]] + CText(j[1..]);
      assert CText(k) == [k[0]] + CText(k[1..]);
      if CText(j) == CText(k) {
        assert CText(j)[1..] == CText(j[1..]);
        assert CText(k)[1..] == CText(k[1..]);
      }
    } else if AtNul(j) != AtNul(k) {
      if AtNul(j) { assert |CText(k)| > 0; } else { assert |CText(j)| > 0; }
    } else if !AtNul(j) {
      assert CText(j)[0] == j[0] && CText(k)[0] == k[0];
    }
  }

  /** The outer loop from entry `i` on. */
  function IndexFrom(table: seq<Entry>, name: string, i: nat): (r: nat)
    requires i <= |table|
    ensures r == NotFound || i <= r < |table|
    decreases |table| - i
  {
    if i == |table| then NotFound
    else if NamesMatch(table[i].name, name) then i
    else IndexFrom(table, name, i + 1)
  }

  /** `colorIndexOf`, over a given table (the header uses `_colors`). */
  function IndexOf(table: seq<Entry>, name: string): nat
  {
    IndexFrom(table, name, 0)
  }

  lemma {:induction false} IndexFromSpec(table: seq<Entry>, name: string, i: nat)
    requires i <= |table| < NotFound
    ensures var r := IndexFrom(table, name, i);
            (r == NotFound <==> forall k :: i <= k < |table| ==> CText(table[k].name) != CText(name))
            && (r != NotFound ==>
                  CText(table[r].name) == CText(name)
                  && forall k :: i <= k < r ==> CText(table[k].name) != CText(name))
    decreases |table| - i
  {
    if i < |table| {
      NamesMatchIsEquality(table[i].name, name);
      IndexFromSpec(table, name, i + 1);
    }
  }

  /**
    The lookup returns the first index whose name equals `name`, and the
    "not found" value exactly when no entry has that name.
   */
  lemma IndexOfSpec(table: seq<Entry>, name: string)
    requires |table| < NotFound
    ensures var r := IndexOf(table, name);
            (r == NotFound <==> forall k :: 0 <= k < |table| ==> CText(table[k].name) != CText(name))
            && (r != NotFound ==>
                  r < |table| && CText(table[r].name) == CText(name)
                  && forall k :: 0 <= k < r ==> CText(table[k].name) != CText(name))
  {
    IndexFromSpec(table, name, 0);
  }

  predicate DistinctNames(table: seq<Entry>)
  {
    forall a, b :: 0 <= a < b < |table| ==> CText(table[a].name) != CText(table[b].name)
  }

  /** With distinct names, looking an entry's own name up gives back its index. */
  lemma IndexOfOwnName(table: seq<Entry>, i: nat)
    requires |table| < NotFound && DistinctNames(table) && i < |table|
    ensures IndexOf(table, table[i].name) == i
  {
    IndexOfSpec(table, table[i].name);
  }

  function ColorIndexOf(name: string): nat
  {
    IndexOf(Colors, name)
  }

  /** `colorOfIndex`: only indices below the palette size are valid. */
  function ColorOfIndex(index: nat): (c: Rgba)
    requires index < PaletteSize
    ensures c == Colors[index].color
  {
    Colors[index].color
  }

  /** A string without NUL is its own C text. */
  lemma {:induction false} CTextOfPlain(s: string)
    requires '\0' !in s
    ensures CText(s) == s
    decreases |s|
  {
    if |s| > 0 {
      assert '\0' !in s[1..] by {
        forall k | 0 <= k < |s| - 1 ensures s[1..][k] != '\0' { assert s[1..][k] == s[k + 1]; }
      }
      CTextOfPlain(s[1..]);
    }
  }

  lemma PlainNames()
    ensures forall k :: 0 <= k < |Colors| ==> CText(Colors[k].name) == Colors[k].name
  {
    forall k | 0 <= k < |Colors| ensures CText(Colors[k].name) == Colors[k].name {
      CTextOfPlain(Colors[k].name);
    }
  }

  /** The header's names differ in length or in their first letter. */
  lemma ColorNamesDiffer()
    ensures forall a, b :: 0 <= a < b < |Colors| ==> Colors[a].name != Colors[b].name
  {
    forall a, b | 0 <= a < b < |Colors| ensures Colors[a].name != Colors[b].name {
      assert |Colors[a].name| != |Colors[b].name| || Colors[a].name[0] != Colors[b].name[0];
    }
  }

  lemma ColorsDistinct()
    ensures |Colors| == PaletteSize && DistinctNames(Colors)
  {
    ColorNamesDiffer();
    PlainNames();
  }

  /** Every palette entry is found at its own index, and a name outside the palette is not found. */
  lemma ColorIndexRoundTrip(i: nat)
    requires i < PaletteSize
    ensures ColorIndexOf(Colors[i].name) == i
    ensures ColorOfIndex(ColorIndexOf(Colors[i].name)) == Colors[i].color
  {
    ColorsDistinct();
    IndexOfOwnName(Colors, i);
  }

  /** A name the header's table lacks is not found (the game's sources use such names; see the README). */
  lemma ColorIndexMissing(name: string)
    requires '\0' !in name
    requires forall k :: 0 <= k < |Colors| ==> Colors[k].name != name
    ensures ColorIndexOf(name) == NotFound
  {
    PlainNames();
    CTextOfPlain(name);
    IndexOfSpec(Colors, name);
  }

  lemma Wood1NotInPalette()
    ensures ColorIndexOf("Wood1") == NotFound
  {
    forall k | 0 <= k < |Colors| ensures Colors[k].name != "Wood1" {
      assert |Colors[k].name| != 5 || Colors[k].name[0] != 'W' || Colors[k].name[1] != 'o';
    }
    ColorIndexMissing("Wood1");
  }

  // The game's palette. The sources look up names that the header's table
  // lacks ("Wood1", "POIMarker", "Fire1", ...); the lookup is `consteval` and
  // its result is stored in 8-bit fields, so a build exists only for a table
  // that holds every such name below index 256. The game's functions take
  // such a table as a parameter.

  /** Every name the game's sources look up at compile time. */
  const GameNames: set<string> := {
    "Air", "POIMarker", "Ruin", "Electric", "Fire1", "Fire2", "Fire3",
    "Stone1", "Stone2", "Stone3", "Stone4", "Wood1", "Wood2", "Wood3",
    "Copper1", "Copper2", "Copper3", "Copper4", "Copper5",
    "Sand", "Sand1", "Sand2", "Water", "Oil",
    "Steam1", "Steam2", "Smoke1", "Smoke2"
  }

  /** A table the game can be built against. */
  predicate GamePalette(table: seq<Entry>)
  {
    && |table| <= 256
    && (forall k :: 0 <= k < |table| ==> '\0' !in table[k].name)
    && (forall n :: n in GameNames ==> exists k :: 0 <= k < |table| && table[k].name == n)
  }

  lemma PlainTable(table: seq<Entry>)
    requires forall k :: 0 <= k < |table| ==> '\0' !in table[k].name
    ensures forall k :: 0 <= k < |table| ==> CText(table[k].name) == table[k].name
  {
    forall k | 0 <= k < |table| ensures CText(table[k].name) == table[k].name {
      CTextOfPlain(table[k].name);
    }
  }

  /** `colorIndexOf(name)` for a name the game uses: the first entry carrying that name, as an 8-bit index. */
  function NameIndex(table: seq<Entry>, name: string): (i: byte)
    requires GamePalette(table) && name in GameNames
    ensures (i as int) < |table| && table[i].name == name
    ensures forall k :: 0 <= k < i as int ==> table[k].name != name
    ensures i as int == IndexOf(table, name)
  {
    var k :| 0 <= k < |table| && table[k].name == name;
    PlainTable(table);
    CTextOfPlain(name);
    IndexOfSpec(table, name);
    IndexOf(table, name) as byte
  }

  /** `colorOfName(name)`: the colour stored under a name the game uses. */
  function ColorOfName(table: seq<Entry>, name: string): (c: Rgba)
    requires GamePalette(table) && name in GameNames
    ensures exists k :: 0 <= k < |table| && table[k].name == name && table[k].color == c
  {
    table[NameIndex(table, name)].color
  }
}
