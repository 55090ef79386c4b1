// `Font` of src/font.cpp: a bitmap font cut from one image of fixed-size
// glyph cells. Construction lays the charset out cell by cell into a table
// of 128 entries and then lets a letter present in one case stand for the
// other. The table is never changed after construction, so a font is a
// value here; the textures and sprites it draws with are not modelled, and a
// drawn character is the glyph rectangle with its position.
module Fonts {
  import opened Base
  import opened Assets

  /** `CharInfo`: the top-left corner of a glyph in the image, or `(-1, -1)` when there is none. */
  datatype CharInfo = CharInfo(x: int, y: int)
  {
    /** `isValid`. */
    predicate IsValid() { x >= 0 && y >= 0 }
  }

  const NoGlyph: CharInfo := CharInfo(-1, -1)

  /** The size of the glyph table: the ASCII range. */
  const TableSize: nat := 128

  /** Every character of `s` is ASCII. */
  predicate Ascii(s: string)
  {
    forall i :: 0 <= i < |s| ==> (s[i] as int) < TableSize
  }

  /** The cell of the `i`-th charset character, with `cpr` cells per image row. */
  function GlyphOf(i: nat, cpr: nat, cw: nat, ch: nat): (g: CharInfo)
    requires cpr > 0
    ensures g.IsValid()
  {
    CharInfo((i % cpr) * cw, (i / cpr) * ch)
  }

  /** The table after the layout loop over `charset`: each character at its cell, a later duplicate over an earlier one. */
  function Layout(charset: string, cpr: nat, cw: nat, ch: nat): (t: seq<CharInfo>)
    requires Ascii(charset) && (cpr > 0 || |charset| == 0)
    ensures |t| == TableSize
    decreases |charset|
  {
    if |charset| == 0 then seq(TableSize, _ => NoGlyph)
    else
      var n := |charset| - 1;
      Layout(charset[..n], cpr, cw, ch)[charset[n] as int := GlyphOf(n, cpr, cw, ch)]
  }

  /** The last position of `c` in `s`, or -1 when `c` does not occur. */
  function LastIndexOf(s: string, c: char): (r: int)
    ensures -1 <= r < |s|
    ensures r >= 0 ==> s[r] == c && forall j :: r < j < |s| ==> s[j] != c
    ensures r < 0 ==> c !in s
    decreases |s|
  {
    if |s| == 0 then -1
    else if s[|s| - 1] == c then |s| - 1
    else LastIndexOf(s[..|s| - 1], c)
  }

  /**
    After the layout, entry `k` holds the cell of the last occurrence of
    character `k` in the charset, and no glyph when it does not occur.
   */
  lemma {:induction false} LayoutAt(charset: string, cpr: nat, cw: nat, ch: nat, k: nat)
    requires Ascii(charset) && (cpr > 0 || |charset| == 0) && k < TableSize
    ensures var i := LastIndexOf(charset, k as char);
            Layout(charset, cpr, cw, ch)[k] == if i >= 0 then GlyphOf(i, cpr, cw, ch) else NoGlyph
    decreases |charset|
  {
    if |charset| > 0 {
      var n := |charset| - 1;
      LayoutAt(charset[..n], cpr, cw, ch, k);
      if charset[n] as int != k {
        assert charset[n] != k as char;
        if k as char in charset[..n] {
          assert k as char in charset;
        }
      }
    }
  }

  /** The codes of the `i`-th upper- and lower-case letters. */
  function UpperCode(i: int): int { 'A' as int + i }
  function LowerCode(i: int): int { 'a' as int + i }

  /** One turn of the case loop: a letter present in one case only is copied to the other case. */
  function FoldLetter(t: seq<CharInfo>, i: int): (r: seq<CharInfo>)
    requires |t| == TableSize && 0 <= i < 26
    ensures |r| == TableSize
  {
    var u, l := UpperCode(i), LowerCode(i);
    if t[l].IsValid() && !t[u].IsValid() then t[u := t[l]]
    else if t[u].IsValid() && !t[l].IsValid() then t[l := t[u]]
    else t
  }

  /** The case loop over the first `n` letters. */
  function FoldCases(t: seq<CharInfo>, n: nat): (r: seq<CharInfo>)
    requires |t| == TableSize && n <= 26
    ensures |r| == TableSize
  {
    if n == 0 then t else FoldLetter(FoldCases(t, n - 1), n - 1)
  }

  /** What the case loop makes of letter `i`: a lone case is copied over; two cases or none stay as they were. */
  predicate FoldedLetter(t: seq<CharInfo>, r: seq<CharInfo>, i: int)
    requires |t| == TableSize && |r| == TableSize && 0 <= i < 26
  {
    var u, l := UpperCode(i), LowerCode(i);
    if t[l].IsValid() && !t[u].IsValid() then r[u] == t[l] && r[l] == t[l]
    else if t[u].IsValid() && !t[l].IsValid() then r[u] == t[u] && r[l] == t[u]
    else r[u] == t[u] && r[l] == t[l]
  }

  /** A letter code of either case. */
  predicate IsLetterCode(k: int)
  {
    UpperCode(0) <= k < UpperCode(26) || LowerCode(0) <= k < LowerCode(26)
  }

  /**
    The case loop over the first `n` letters treats each of them as
    `FoldedLetter` says and leaves every other entry as it was.
   */
  lemma {:induction false} FoldCasesAt(t: seq<CharInfo>, n: nat)
    requires |t| == TableSize && n <= 26
    ensures forall i :: 0 <= i < n ==> FoldedLetter(t, FoldCases(t, n), i)
    ensures forall k :: 0 <= k < TableSize && !(UpperCode(0) <= k < UpperCode(n)) && !(LowerCode(0) <= k < LowerCode(n)) ==>
              FoldCases(t, n)[k] == t[k]
  {
    if n > 0 {
      FoldCasesAt(t, n - 1);
      var s := FoldCases(t, n - 1);
      var r := FoldCases(t, n);
      var u, l := UpperCode(n - 1), LowerCode(n - 1);
      assert s[u] == t[u] && s[l] == t[l];
      forall k | 0 <= k < TableSize && k != u && k != l ensures r[k] == s[k] {
      }
      forall i | 0 <= i < n - 1 ensures FoldedLetter(t, r, i) {
        assert FoldedLetter(t, s, i);
        assert r[UpperCode(i)] == s[UpperCode(i)] && r[LowerCode(i)] == s[LowerCode(i)];
      }
    }
  }

  /** After the case loop a letter is present in both cases or in neither. */
  lemma CasesAgree(t: seq<CharInfo>, i: int)
    requires |t| == TableSize && 0 <= i < 26
    ensures FoldCases(t, 26)[UpperCode(i)].IsValid() == FoldCases(t, 26)[LowerCode(i)].IsValid()
  {
    FoldCasesAt(t, 26);
    assert FoldedLetter(t, FoldCases(t, 26), i);
  }

  /** Why a font image is refused. */
  datatype FontError =
    | WidthNotMultiple(imageWidth: nat, charWidth: nat)
    | HeightNotMultiple(imageHeight: nat, charHeight: nat)

  /** A built font: the glyph size, the image and the glyph table. */
  datatype Font = Font(charWidth: nat, charHeight: nat, image: Image, charInfo: seq<CharInfo>)
  {
    predicate Valid() { |charInfo| == TableSize && image.Valid() }

    /** `_getCharInfo`: characters past ASCII have no glyph. */
    function GetCharInfo(c: char): CharInfo
      requires Valid()
    {
      if c as int >= TableSize then NoGlyph else charInfo[c as int]
    }

    /** `hasChar`. */
    predicate HasChar(c: char)
      requires Valid()
    {
      GetCharInfo(c).IsValid()
    }

    /** `charWidth(size)`: the width of a character drawn at `size`, whose cells share their border column. */
    function CharWidthAt(size: int): int { (charWidth - 1) * size + 1 }

    /** `charHeight(size)`. */
    function CharHeightAt(size: int): int { (charHeight - 1) * size + 1 }

    /** Every glyph lies inside the image. */
    predicate GlyphsInImage()
      requires Valid()
    {
      forall k :: 0 <= k < TableSize && charInfo[k].IsValid() ==>
        charInfo[k].x + charWidth <= image.width && charInfo[k].y + charHeight <= image.height
    }
  }

  /** The table a font built from `charset` has: the layout followed by the case loop. */
  function BuiltTable(charset: string, cpr: nat, cw: nat, ch: nat): (t: seq<CharInfo>)
    requires Ascii(charset) && (cpr > 0 || |charset| == 0)
    ensures |t| == TableSize
  {
    FoldCases(Layout(charset, cpr, cw, ch), 26)
  }

  /** The other case of a letter code. */
  function OtherCase(k: int): int
  {
    if UpperCode(0) <= k < UpperCode(26) then k - UpperCode(0) + LowerCode(0)
    else if LowerCode(0) <= k < LowerCode(26) then k - LowerCode(0) + UpperCode(0)
    else k
  }

  /**
    A font built from `charset` has a glyph for character `k` exactly when
    `k` is in the charset or `k` is a letter whose other case is.
   */
  lemma BuiltHasChar(charset: string, cpr: nat, cw: nat, ch: nat, k: nat)
    requires Ascii(charset) && (cpr > 0 || |charset| == 0) && k < TableSize
    ensures BuiltTable(charset, cpr, cw, ch)[k].IsValid() <==>
              (k as char in charset || (IsLetterCode(k) && (OtherCase(k) as char) in charset))
  {
    var t := Layout(charset, cpr, cw, ch);
    FoldCasesAt(t, 26);
    LayoutAt(charset, cpr, cw, ch, k);
    LayoutAt(charset, cpr, cw, ch, OtherCase(k));
    if UpperCode(0) <= k < UpperCode(26) {
      assert FoldedLetter(t, FoldCases(t, 26), k - UpperCode(0));
    } else if LowerCode(0) <= k < LowerCode(26) {
      assert FoldedLetter(t, FoldCases(t, 26), k - LowerCode(0));
    }
  }

  /** The layout loop, on the glyph table. */
  method LayOut(info: array<CharInfo>, charset: string, cpr: nat, cw: nat, ch: nat)
    requires info.Length == TableSize && Ascii(charset) && (cpr > 0 || |charset| == 0)
    requires forall k :: 0 <= k < TableSize ==> info[k] == NoGlyph
    modifies info
    ensures info[..] == Layout(charset, cpr, cw, ch)
  {
    for i := 0 to |charset|
      invariant info[..] == Layout(charset[..i], cpr, cw, ch)
    {
      assert charset[..i + 1][..i] == charset[..i];
      info[charset[i] as int] := CharInfo((i % cpr) * cw, (i / cpr) * ch);
    }
    assert charset[..|charset|] == charset;
  }

  /** The case loop, on the glyph table. */
  method FoldTable(info: array<CharInfo>)
    requires info.Length == TableSize
    modifies info
    ensures info[..] == FoldCases(old(info[..]), 26)
  {
    ghost var t := info[..];
    for i := 0 to 26
      invariant info[..] == FoldCases(t, i)
    {
      var upper, lower := 'A' as int + i, 'a' as int + i;
      if info[lower].IsValid() && !info[upper].IsValid() {
        info[upper] := info[lower];
      } else if info[upper].IsValid() && !info[lower].IsValid() {
        info[lower] := info[upper];
      }
    }
  }

  /**
    The `Font` constructor: an image whose width, then height, is not a
    multiple of the glyph size is refused; otherwise the font is built with
    `image.width / cw` cells per row. Characters past ASCII in the charset
    would be written outside the table, so the charset must be ASCII.
   */
  method NewFont(cw: nat, ch: nat, charset: string, img: Image) returns (r: Result<Font, FontError>)
    requires cw > 0 && ch > 0 && img.Valid() && Ascii(charset)
    requires img.width / cw > 0 || |charset| == 0
    ensures img.width % cw != 0 ==> r == Err(WidthNotMultiple(img.width, cw))
    ensures img.width % cw == 0 && img.height % ch != 0 ==> r == Err(HeightNotMultiple(img.height, ch))
    ensures img.width % cw == 0 && img.height % ch == 0 ==>
              r == Ok(Font(cw, ch, img, BuiltTable(charset, img.width / cw, cw, ch)))
  {
    if img.width % cw != 0 {
      return Err(WidthNotMultiple(img.width, cw));
    }
    if img.height % ch != 0 {
      return Err(HeightNotMultiple(img.height, ch));
    }
    var cpr := img.width / cw;
    var info := new CharInfo[TableSize](_ => NoGlyph);
    LayOut(info, charset, cpr, cw, ch);
    FoldTable(info);
    return Ok(Font(cw, ch, img, info[..]));
  }

  /** Every glyph of a built font is the cell of some charset position. */
  lemma BuiltEntry(charset: string, cpr: nat, cw: nat, ch: nat, k: nat)
    requires Ascii(charset) && (cpr > 0 || |charset| == 0) && k < TableSize
    ensures BuiltTable(charset, cpr, cw, ch)[k].IsValid() ==>
              exists i :: 0 <= i < |charset| && cpr > 0 && BuiltTable(charset, cpr, cw, ch)[k] == GlyphOf(i, cpr, cw, ch)
  {
    var t := Layout(charset, cpr, cw, ch);
    var r := BuiltTable(charset, cpr, cw, ch);
    FoldCasesAt(t, 26);
    LayoutAt(charset, cpr, cw, ch, k);
    LayoutAt(charset, cpr, cw, ch, OtherCase(k));
    if UpperCode(0) <= k < UpperCode(26) {
      assert FoldedLetter(t, r, k - UpperCode(0));
    } else if LowerCode(0) <= k < LowerCode(26) {
      assert FoldedLetter(t, r, k - LowerCode(0));
    }
    if r[k].IsValid() {
      var src := if r[k] == t[k] then k else OtherCase(k);
      assert r[k] == t[src];
      assert LastIndexOf(charset, src as char) >= 0;
    }
  }

  /** A built font with no more charset characters than the image has cells keeps every glyph inside the image. */
  lemma BuiltGlyphsInImage(charset: string, cw: nat, ch: nat, img: Image)
    requires cw > 0 && ch > 0 && img.Valid() && Ascii(charset) && img.width % cw == 0 && img.height % ch == 0
    requires img.width / cw > 0 && |charset| <= (img.width / cw) * (img.height / ch)
    ensures Font(cw, ch, img, BuiltTable(charset, img.width / cw, cw, ch)).GlyphsInImage()
  {
    var cpr, rows := img.width / cw, img.height / ch;
    assert cpr * cw == img.width && rows * ch == img.height;
    var r := BuiltTable(charset, cpr, cw, ch);
    forall k | 0 <= k < TableSize && r[k].IsValid()
      ensures r[k].x + cw <= img.width && r[k].y + ch <= img.height
    {
      BuiltEntry(charset, cpr, cw, ch, k);
      var i :| 0 <= i < |charset| && r[k] == GlyphOf(i, cpr, cw, ch);
      GlyphInImage(i, cpr, rows, cw, ch);
    }
  }

  /** The cell of charset character `i < cpr * rows` lies inside a `cpr * cw` by `rows * ch` image. */
  lemma GlyphInImage(i: nat, cpr: nat, rows: nat, cw: nat, ch: nat)
    requires cpr > 0 && i < cpr * rows
    ensures GlyphOf(i, cpr, cw, ch).x + cw <= cpr * cw && GlyphOf(i, cpr, cw, ch).y + ch <= rows * ch
  {
    var q := CellAt(i, cpr, rows);
    CellIndexDecode(q.x, q.y, cpr, rows);
    MulMonotone(cw, q.x + 1, cpr);
    MulMonotone(ch, q.y + 1, rows);
  }

  // ----- drawing text -----

  /** One drawn character: the glyph's corner in the image and the screen position. */
  datatype Sprite = Sprite(glyph: CharInfo, at: Point)

  /** The position of the first character of `text` with no glyph, or `|text|`. */
  function FirstMissing(f: Font, text: string): (k: nat)
    requires f.Valid()
    ensures k <= |text| && (forall j :: 0 <= j < k ==> f.HasChar(text[j])) && (k < |text| ==> !f.HasChar(text[k]))
    decreases |text|
  {
    if |text| == 0 then 0
    else if !f.HasChar(text[0]) then 0
    else 1 + FirstMissing(f, text[1..])
  }

  /**
    `renderText`: the characters before the first one without a glyph are
    drawn, the `k`-th with its pen at `(x + k * cw) * scale`; that character, if
    any, is the error.
   */
  method RenderText(f: Font, text: string, x: int, y: int, scale: int) returns (drawn: seq<Sprite>, missing: Option<char>)
    requires f.Valid()
    ensures |drawn| == FirstMissing(f, text)
    ensures forall k :: 0 <= k < |drawn| ==>
              drawn[k] == Sprite(f.GetCharInfo(text[k]), Point(x * scale + k * (f.charWidth * scale), y * scale))
    ensures missing == if |drawn| < |text| then Some(text[|drawn|]) else None
  {
    var pen := x * scale;
    var step := f.charWidth * scale;
    drawn := [];
    var k := 0;
    while k < |text|
      invariant k <= |text| && |drawn| == k && pen == x * scale + k * step
      invariant forall j :: 0 <= j < k ==> f.HasChar(text[j])
      invariant forall j :: 0 <= j < k ==> drawn[j] == Sprite(f.GetCharInfo(text[j]), Point(x * scale + j * step, y * scale))
    {
      var info := f.GetCharInfo(text[k]);
      if !info.IsValid() {
        return drawn, Some(text[k]);
      }
      drawn := drawn + [Sprite(info, Point(pen, y * scale))];
      pen := pen + step;
      k := k + 1;
    }
    return drawn, None;
  }

  /** The opaque pixels of columns `[0, n)` of glyph row `dy`, shifted to pen `pen`. */
  function RowPoints(img: Image, g: CharInfo, pen: int, dy: nat, n: nat): seq<Point>
    requires img.Valid() && g.IsValid() && g.x + n <= img.width && g.y + dy < img.height
  {
    if n == 0 then []
    else RowPoints(img, g, pen, dy, n - 1) + (if Opaque(img, g.x + n - 1, g.y + dy) then [Point(pen + n - 1, dy)] else [])
  }

  /** The rows `[0, m)` of a `cw`-wide glyph, each as its opaque pixels shifted to pen `pen`. */
  function GlyphRows(img: Image, g: CharInfo, pen: int, cw: nat, m: nat): (rows: seq<seq<Point>>)
    requires img.Valid() && g.IsValid() && g.x + cw <= img.width && g.y + m <= img.height
    ensures |rows| == m && forall dy :: 0 <= dy < m ==> rows[dy] == RowPoints(img, g, pen, dy, cw)
  {
    seq(m, dy requires 0 <= dy < m => RowPoints(img, g, pen, dy, cw))
  }

  /** The opaque pixels of rows `[0, m)` of a `cw`-wide glyph, row by row, shifted to pen `pen`. */
  function GlyphPoints(img: Image, g: CharInfo, pen: int, cw: nat, m: nat): seq<Point>
    requires img.Valid() && g.IsValid() && g.x + cw <= img.width && g.y + m <= img.height
  {
    Flatten(GlyphRows(img, g, pen, cw, m))
  }

  /** `textBitmap`: character `k` contributes its glyph's opaque pixels at pen `k * cw`; a character with no glyph only moves the pen. */
  function Bitmap(f: Font, text: string): seq<Point>
    requires f.Valid() && f.GlyphsInImage()
    decreases |text|
  {
    if |text| == 0 then []
    else
      var n := |text| - 1;
      var g := f.GetCharInfo(text[n]);
      Bitmap(f, text[..n]) + (if g.IsValid() then GlyphPoints(f.image, g, n * f.charWidth, f.charWidth, f.charHeight) else [])
  }

  /** The points of a glyph row are exactly its opaque pixels, each in the pen's cell row. */
  lemma {:induction false} RowPointsMeaning(img: Image, g: CharInfo, pen: int, dy: nat, n: nat, p: Point)
    requires img.Valid() && g.IsValid() && g.x + n <= img.width && g.y + dy < img.height
    ensures p in RowPoints(img, g, pen, dy, n) <==>
              p.y == dy && pen <= p.x < pen + n && Opaque(img, g.x + p.x - pen, g.y + p.y)
  {
    if n > 0 {
      RowPointsMeaning(img, g, pen, dy, n - 1, p);
    }
  }

  /** The points of a glyph are exactly its opaque pixels, shifted to pen `pen`. */
  lemma GlyphPointsMeaning(img: Image, g: CharInfo, pen: int, cw: nat, m: nat, p: Point)
    requires img.Valid() && g.IsValid() && g.x + cw <= img.width && g.y + m <= img.height
    ensures p in GlyphPoints(img, g, pen, cw, m) <==>
              pen <= p.x < pen + cw && 0 <= p.y < m && Opaque(img, g.x + p.x - pen, g.y + p.y)
  {
    var rows := GlyphRows(img, g, pen, cw, m);
    InFlatten(rows, p);
    if p in GlyphPoints(img, g, pen, cw, m) {
      var k :| 0 <= k < m && p in rows[k];
      RowPointsMeaning(img, g, pen, k, cw, p);
    }
    if pen <= p.x < pen + cw && 0 <= p.y < m {
      RowPointsMeaning(img, g, pen, p.y, cw, p);
    }
  }

  /** Every point of a bitmap lies in the cell `[k * cw, k * cw + cw) x [0, ch)` of a character `k` of the text that has a glyph. */
  lemma {:induction false} BitmapInCells(f: Font, text: string, p: Point)
    requires f.Valid() && f.GlyphsInImage() && p in Bitmap(f, text)
    ensures exists k :: 0 <= k < |text| && f.HasChar(text[k]) && k * f.charWidth <= p.x < k * f.charWidth + f.charWidth && 0 <= p.y < f.charHeight
    decreases |text|
  {
    var n := |text| - 1;
    var g := f.GetCharInfo(text[n]);
    if p in Bitmap(f, text[..n]) {
      BitmapInCells(f, text[..n], p);
      var k :| 0 <= k < n && f.HasChar(text[..n][k]) && k * f.charWidth <= p.x < k * f.charWidth + f.charWidth && 0 <= p.y < f.charHeight;
      assert text[..n][k] == text[k];
    } else {
      assert g.IsValid();
      GlyphPointsMeaning(f.image, g, n * f.charWidth, f.charWidth, f.charHeight, p);
    }
  }

  /** A character with no glyph adds no points, and the next character still starts one cell further on. */
  lemma BitmapSkipsMissing(f: Font, text: string, c: char)
    requires f.Valid() && f.GlyphsInImage() && !f.HasChar(c)
    ensures Bitmap(f, text + [c]) == Bitmap(f, text)
  {
    assert (text + [c])[..|text|] == text;
  }

  /** One glyph row of `textBitmap`'s loops. */
  method BitmapRow(f: Font, g: CharInfo, pen: int, dy: nat) returns (ps: seq<Point>)
    requires f.Valid() && g.IsValid() && g.x + f.charWidth <= f.image.width && g.y + dy < f.image.height
    ensures ps == RowPoints(f.image, g, pen, dy, f.charWidth)
  {
    ps := [];
    for dx := 0 to f.charWidth
      invariant ps == RowPoints(f.image, g, pen, dy, dx)
    {
      if f.image.At(g.x + dx, g.y + dy).a != 0 {
        ps := ps + [Point(pen + dx, dy)];
      }
    }
  }

  /** `textBitmap`, loop by loop: the pen moves one cell per character, glyph or not. */
  method TextBitmap(f: Font, text: string) returns (ps: seq<Point>)
    requires f.Valid() && f.GlyphsInImage()
    ensures ps == Bitmap(f, text)
  {
    ps := [];
    var pen := 0;
    for k := 0 to |text|
      invariant pen == k * f.charWidth && ps == Bitmap(f, text[..k])
    {
      assert text[..k + 1][..k] == text[..k];
      var g := f.GetCharInfo(text[k]);
      if g.IsValid() {
        ghost var before := ps;
        ghost var rows := GlyphRows(f.image, g, pen, f.charWidth, f.charHeight);
        for dy := 0 to f.charHeight
          invariant ps == before + Flatten(rows[..dy])
        {
          assert rows[..dy + 1][..dy] == rows[..dy];
          var row := BitmapRow(f, g, pen, dy);
          ps := ps + row;
        }
        assert rows[..f.charHeight] == rows;
      }
      pen := pen + f.charWidth;
    }
    assert text[..|text|] == text;
  }

  /** At size 1 a character is exactly one glyph cell; a larger size never makes it smaller. */
  lemma CharSizeAtOne(f: Font, size: int)
    requires f.charWidth >= 1 && f.charHeight >= 1 && size >= 1
    ensures f.CharWidthAt(1) == f.charWidth && f.CharHeightAt(1) == f.charHeight
    ensures f.CharWidthAt(size) >= f.charWidth && f.CharHeightAt(size) >= f.charHeight
  {
    MulMonotone(f.charWidth - 1, 1, size);
    MulMonotone(f.charHeight - 1, 1, size);
  }
}
