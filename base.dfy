// Shared vocabulary of the model: optional values and results for the
// source's error paths, bytes and RGBA colours, integer helpers and the
// decimal rendering of integers used wherever the source formats a number.
module Base {

  datatype Option<+T> = None | Some(value: T)

  /** A value or the error the source reports (an exception or an error exit). */
  datatype Result<+T, +E> = Ok(value: T) | Err(error: E)

  newtype byte = x: int | 0 <= x < 256

  /** An 8-bit-per-channel RGBA colour (`sf::Color`). */
  datatype Rgba = Rgba(r: byte, g: byte, b: byte, a: byte)

  const Transparent: Rgba := Rgba(0, 0, 0, 0)

  /** A 2-D integer point or vector (`std::array<int, 2>`, `sf::Vector2i`). */
  datatype Point = Point(x: int, y: int)

  function Min(a: int, b: int): int { if a < b then a else b }
  function Max(a: int, b: int): int { if a < b then b else a }
  function Abs(a: int): nat { if a < 0 then -a else a }

  /** `std::clamp(v, lo, hi)` for `lo <= hi`. */
  function Clamp(v: int, lo: int, hi: int): (r: int)
    requires lo <= hi
    ensures lo <= r <= hi
    ensures lo <= v <= hi ==> r == v
    ensures v < lo ==> r == lo
    ensures hi < v ==> r == hi
  {
    if v < lo then lo else if hi < v then hi else v
  }

  /** C++ integer division, which truncates toward zero (Dafny's `/` is Euclidean). */
  function TruncDiv(a: int, b: int): (q: int)
    requires b > 0
  {
    if a >= 0 then a / b else -((-a) / b)
  }

  /** Decimal digits of a natural number, most significant first, no leading zeros. */
  function NatToString(n: nat): (s: string)
    ensures |s| >= 1
    ensures forall i :: 0 <= i < |s| ==> '0' <= s[i] <= '9'
    decreases n
  {
    if n < 10 then [DigitChar(n)] else NatToString(n / 10) + [DigitChar(n % 10)]
  }

  function DigitChar(d: nat): (c: char)
    requires d < 10
    ensures '0' <= c <= '9'
  {
    ['0', '1', '2', '3', '4', '5', '6', '7', '8', '9'][d]
  }

  function DigitValue(c: char): nat
    requires '0' <= c <= '9'
  {
    (c as int - '0' as int) as nat
  }

  /** Reads a string of decimal digits back (the inverse of `NatToString`). */
  function ParseNat(s: string): nat
    requires forall i :: 0 <= i < |s| ==> '0' <= s[i] <= '9'
    decreases |s|
  {
    if |s| == 0 then 0 else 10 * ParseNat(s[..|s| - 1]) + DigitValue(s[|s| - 1])
  }

  lemma DigitRoundTrip(d: nat)
    requires d < 10
    ensures DigitValue(DigitChar(d)) == d
  {
    var digits := ['0', '1', '2', '3', '4', '5', '6', '7', '8', '9'];
    assert DigitChar(d) == digits[d];
  }

  lemma {:induction false} ParseNatToString(n: nat)
    ensures ParseNat(NatToString(n)) == n
    decreases n
  {
    DigitRoundTrip(n % 10);
    if n >= 10 {
      var p := NatToString(n / 10);
      var s := p + [DigitChar(n % 10)];
      assert NatToString(n) == s;
      assert s[..|s| - 1] == p;
      ParseNatToString(n / 10);
      assert ParseNat(s) == 10 * ParseNat(p) + DigitValue(DigitChar(n % 10));
    } else {
      assert NatToString(n) == [DigitChar(n)];
      assert [DigitChar(n)][..0] == [];
    }
  }

  /** `std::to_string` / Python `str` of an integer. */
  function IntToString(n: int): (s: string)
    ensures |s| >= 1
  {
    if n < 0 then "-" + NatToString(-n) else NatToString(n)
  }

  // Linear-arithmetic facts about products that the solver does not find alone.

  /** Multiplying by a natural number preserves non-strict order. */
  lemma MulMonotone(c: nat, x: nat, y: nat)
    requires x <= y
    ensures c * x <= c * y
  {
  }

  /** Row `row` of a `width`-wide row-major grid starts at `width * row`, and the next row right after it. */
  lemma RowStart(width: nat, height: nat, row: nat)
    requires row < height
    ensures row * width == width * row
    ensures width * row + width == width * (row + 1) <= width * height
  {
    MulMonotone(width, row + 1, height);
  }

  /** Multiplying by a positive factor preserves strict order both ways. */
  lemma MulLess(c: nat, x: int, y: int)
    requires c > 0
    ensures (c * x < c * y) == (x < y)
  {
    if x < y {
      assert c * y == c * x + c * (y - x);
    } else {
      assert c * x == c * y + c * (x - y);
    }
  }

  /** Euclidean division is determined by any decomposition with an in-range remainder. */
  lemma DivUnique(n: int, d: int, k: int, r: int)
    requires d > 0 && n == d * k + r && 0 <= r < d
    ensures n / d == k
  {
    var q := n / d;
    assert d * q + n % d == n;
    MulLess(d, k, q + 1);
    MulLess(d, q, k + 1);
  }

  /** The remainder of a decomposition with in-range remainder is the Euclidean one. */
  lemma ModUnique(n: int, d: int, k: int, r: int)
    requires d > 0 && n == d * k + r && 0 <= r < d
    ensures n / d == k && n % d == r
  {
    DivUnique(n, d, k, r);
    assert d * (n / d) + n % d == n;
  }

  /** Cell `(x, y)` of a row-major `width` x `height` grid lives at index `y * width + x`. */
  function CellIndex(x: int, y: int, width: int, height: int): (i: nat)
    requires 0 <= x < width && 0 <= y < height
    ensures i < width * height
  {
    MulMonotone(width, y + 1, height);
    y * width + x
  }

  /** The index determines the cell: its column is `i % width` and its row `i / width`. */
  lemma CellIndexDecode(x: int, y: int, width: int, height: int)
    requires 0 <= x < width && 0 <= y < height
    ensures CellIndex(x, y, width, height) % width == x
    ensures CellIndex(x, y, width, height) / width == y
  {
    ModUnique(y * width + x, width, y, x);
  }

  /** Distinct cells have distinct indices. */
  lemma CellIndexInjective(x1: int, y1: int, x2: int, y2: int, width: int, height: int)
    requires 0 <= x1 < width && 0 <= y1 < height
    requires 0 <= x2 < width && 0 <= y2 < height
    ensures CellIndex(x1, y1, width, height) == CellIndex(x2, y2, width, height) <==> x1 == x2 && y1 == y2
  {
    CellIndexDecode(x1, y1, width, height);
    CellIndexDecode(x2, y2, width, height);
  }

  /** The cell at row-major index `i`, the inverse of `CellIndex`. */
  function CellAt(i: int, width: nat, height: nat): (p: Point)
    requires 0 <= i < width * height
    ensures 0 <= p.x < width && 0 <= p.y < height
    ensures CellIndex(p.x, p.y, width, height) == i
  {
    assert width != 0;
    MulLess(width, i / width, height);
    Point(i % width, i / width)
  }

  /** Decoding the index of a cell gives the cell back. */
  lemma CellAtIndex(x: int, y: int, width: nat, height: nat)
    requires 0 <= x < width && 0 <= y < height
    ensures CellAt(CellIndex(x, y, width, height), width, height) == Point(x, y)
  {
    var p := CellAt(CellIndex(x, y, width, height), width, height);
    CellIndexInjective(p.x, p.y, x, y, width, height);
  }

  /** The sequences of `ls` one after the other. */
  function Flatten<T>(ls: seq<seq<T>>): seq<T>
    decreases |ls|
  {
    if |ls| == 0 then [] else Flatten(ls[..|ls| - 1]) + ls[|ls| - 1]
  }

  /** With sequences of `n` entries each, entry `i` of sequence `d` comes at `d * n + i`. */
  lemma {:induction false} FlattenAt<T>(ls: seq<seq<T>>, n: nat, d: int, i: int)
    requires forall k :: 0 <= k < |ls| ==> |ls[k]| == n
    requires 0 <= d < |ls| && 0 <= i < n
    ensures |Flatten(ls)| == |ls| * n
    ensures CellIndex(i, d, n, |ls|) < |Flatten(ls)| && Flatten(ls)[CellIndex(i, d, n, |ls|)] == ls[d][i]
    decreases |ls|
  {
    var front := ls[..|ls| - 1];
    assert (|ls| - 1) * n + n == |ls| * n;
    if d == |ls| - 1 {
      if d > 0 {
        FlattenAt(front, n, 0, 0);
      }
      assert |Flatten(front)| == d * n;
    } else {
      FlattenAt(front, n, d, i);
    }
  }

  /** An element is in a flattening exactly when it is in one of the flattened sequences. */
  lemma {:induction false} InFlatten<T>(ls: seq<seq<T>>, v: T)
    ensures v in Flatten(ls) <==> exists k :: 0 <= k < |ls| && v in ls[k]
    decreases |ls|
  {
    if |ls| > 0 {
      var front := ls[..|ls| - 1];
      InFlatten(front, v);
      if exists k :: 0 <= k < |ls| - 1 && v in front[k] {
        var k :| 0 <= k < |ls| - 1 && v in front[k];
        assert ls[k] == front[k];
      }
      if exists k :: 0 <= k < |ls| && v in ls[k] {
        var k :| 0 <= k < |ls| && v in ls[k];
        if k < |ls| - 1 {
          assert front[k] == ls[k];
        }
      }
    }
  }
}
