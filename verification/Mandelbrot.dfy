/** The fixed-point iteration of the Mandelbrot demo in 32-bit integers: no product, sum or shift
    leaves the word, and the count is the first iteration that escapes. */
module Mandelbrot {
  newtype Int32 = x: int | -0x8000_0000 <= x < 0x8000_0000

  const FP_ONE: Int32 := 4096
  const MAX_ITER: Int32 := 64
  const WIDTH: Int32 := 78
  const HEIGHT: Int32 := 30
  const SHADES := " .:-=+*#%@@@"

  /** The arithmetic shift right by twelve, which rounds down. */
  function Shifted(p: int): int { p / 4096 }

  /** A point as a pair of fixed-point numbers. */
  datatype Point = Point(re: int, im: int)

  function Square(z: Point): int { Shifted(z.re * z.re) + Shifted(z.im * z.im) }

  predicate Escaped(z: Point) { Square(z) > 4 * 4096 }

  function Next(z: Point, c: Point): Point {
    Point(Shifted(z.re * z.re) - Shifted(z.im * z.im) + c.re, 2 * Shifted(z.re * z.im) + c.im)
  }

  /** The n-th point of the iteration, without stopping. */
  function Orbit(c: Point, n: nat): Point { if n == 0 then Point(0, 0) else Next(Orbit(c, n - 1), c) }

  predicate EscapesAt(c: Point, n: nat) { Escaped(Orbit(c, n)) }

  predicate StaysUntil(c: Point, n: int) { forall k: nat | k < n :: !EscapesAt(c, k) }

  /** The first point of the iteration from n on that escapes, or the limit. */
  function EscapeCount(c: Point, n: nat): (k: nat)
    requires n <= MAX_ITER as nat
    ensures n <= k <= MAX_ITER as nat
    ensures forall j: nat | n <= j < k :: !EscapesAt(c, j)
    ensures k < MAX_ITER as nat ==> EscapesAt(c, k)
    decreases MAX_ITER as nat - n
  {
    if n == MAX_ITER as nat || EscapesAt(c, n) then n else EscapeCount(c, n + 1)
  }

  /** The character of a point: the table in equal steps of its escape count, the last place only
      for a point that never escapes. */
  function Character(c: Point): char { SHADES[EscapeCount(c, 0) * 11 / 64] }

  /** The view window. */
  predicate InWindow(c: Point) { -8192 <= c.re <= 4096 && -4915 <= c.im <= 4915 }

  predicate Small(z: Point) { -24576 <= z.re <= 24576 && -21305 <= z.im <= 21305 }

  // ---------- Bounds ----------

  lemma SquareNonNegative(a: int)
    ensures a * a >= 0
  {}

  lemma ProductBound(a: int, b: int, m: int)
    requires m >= 0 && -m <= a <= m && -m <= b <= m
    ensures -m * m <= a * b <= m * m
  {
    assert (m - a) * (m + b) >= 0 && (m + a) * (m - b) >= 0;
    assert (m - a) * (m - b) >= 0 && (m + a) * (m + b) >= 0;
    assert (m - a) * (m + b) + (m + a) * (m - b) == 2 * (m * m) - 2 * (a * b);
    assert (m - a) * (m - b) + (m + a) * (m + b) == 2 * (m * m) + 2 * (a * b);
  }

  /** Twice a product is at most the sum of the squares. */
  lemma TwiceProduct(a: int, b: int)
    ensures -(a * a + b * b) <= 2 * (a * b) <= a * a + b * b
  {
    SquareNonNegative(a - b);
    SquareNonNegative(a + b);
    assert (a - b) * (a - b) == a * a - 2 * (a * b) + b * b;
    assert (a + b) * (a + b) == a * a + 2 * (a * b) + b * b;
  }

  /** A point that has not escaped goes to a small one. */
  lemma StaysSmall(z: Point, c: Point)
    requires InWindow(c) && !Escaped(z)
    ensures Small(Next(z, c))
    ensures 0 <= Shifted(z.re * z.re) <= 16384 && 0 <= Shifted(z.im * z.im) <= 16384
    ensures -8195 <= Shifted(z.re * z.im) <= 8194
  {
    var x, y, p := z.re * z.re, z.im * z.im, z.re * z.im;
    SquareNonNegative(z.re);
    SquareNonNegative(z.im);
    TwiceProduct(z.re, z.im);
    assert x < 4096 * (Shifted(x) + 1) && y < 4096 * (Shifted(y) + 1);
  }

  lemma {:induction false} OrbitSmall(c: Point, n: nat)
    requires InWindow(c) && StaysUntil(c, n)
    ensures Small(Orbit(c, n))
  {
    if n > 0 {
      assert !EscapesAt(c, n - 1);
      StaysSmall(Orbit(c, n - 1), c);
    }
  }

  /** The next point is the square of the point plus c, in units of 1/4096, with each part short of it by
      less than one unit or, for the product, two; a point escapes when its distance from 0 is more than
      2, but for the two units that rounding can hide. */
  lemma NextIsSquarePlus(z: Point, c: Point)
    ensures var n := Next(z, c);
      && -4096 < 4096 * (n.re - c.re) - (z.re * z.re - z.im * z.im) < 4096
      && -8192 < 4096 * (n.im - c.im) - 2 * (z.re * z.im) <= 0
    ensures Escaped(z) ==> z.re * z.re + z.im * z.im > 8192 * 8192
    ensures z.re * z.re + z.im * z.im >= 8192 * 8192 + 3 * 4096 ==> Escaped(z)
  {
    RoundedDown(z.re * z.re);
    RoundedDown(z.im * z.im);
    RoundedDown(z.re * z.im);
  }

  lemma RoundedDown(p: int)
    ensures 4096 * Shifted(p) <= p < 4096 * Shifted(p) + 4096
  {}

  // ---------- The loops ----------

  method FpMul(a: Int32, b: Int32) returns (r: Int32)
    requires -24576 <= a <= 24576 && -24576 <= b <= 24576
    ensures r as int == Shifted(a as int * b as int)
  {
    ProductBound(a as int, b as int, 24576);
    var product: Int32 := a * b;
    r := product / 4096;
  }

  /** The number of iterations before the point escapes, at most the limit; every step fits in 32
      bits because each value has the 32-bit type. */
  method Iterate(cr: Int32, ci: Int32) returns (iter: Int32)
    requires InWindow(Point(cr as int, ci as int))
    ensures 0 <= iter <= MAX_ITER && iter as int == EscapeCount(Point(cr as int, ci as int), 0)
    ensures StaysUntil(Point(cr as int, ci as int), iter as int)
    ensures iter < MAX_ITER ==> EscapesAt(Point(cr as int, ci as int), iter as int)
  {
    hide Orbit, Shifted;
    ghost var c := Point(cr as int, ci as int);
    OrbitStart(c);
    var zr: Int32, zi: Int32 := 0, 0;
    iter := 0;
    while iter < MAX_ITER
      invariant 0 <= iter <= MAX_ITER
      invariant Point(zr as int, zi as int) == Orbit(c, iter as int) && Small(Orbit(c, iter as int))
      invariant StaysUntil(c, iter as int)
    {
      ghost var z := Point(zr as int, zi as int);
      var zr2 := FpMul(zr, zr);
      var zi2 := FpMul(zi, zi);
      SquaresFit(z);
      if zr2 + zi2 > 4 * FP_ONE { break; }
      StaysSmall(z, c);
      var cross := FpMul(zr, zi);
      var newZi := 2 * cross + ci;
      zr := zr2 - zi2 + cr;
      zi := newZi;
      OrbitNext(c, iter as int);
      iter := iter + 1;
    }
    CountIsFirst(c, iter as int);
  }

  /** Only one count has no escape before it and is an escape or the limit. */
  lemma CountIsFirst(c: Point, n: nat)
    requires n <= MAX_ITER as nat && StaysUntil(c, n) && (n < MAX_ITER as nat ==> EscapesAt(c, n))
    ensures EscapeCount(c, 0) == n
  {
    hide EscapesAt, EscapeCount;
  }

  lemma OrbitStart(c: Point)
    ensures Orbit(c, 0) == Point(0, 0)
  {}

  lemma OrbitNext(c: Point, n: nat)
    ensures Orbit(c, n + 1) == Next(Orbit(c, n), c)
  {}

  lemma SquaresFit(z: Point)
    requires Small(z)
    ensures 0 <= Shifted(z.re * z.re) <= 147456 && 0 <= Shifted(z.im * z.im) <= 147456
  {
    SquareNonNegative(z.re);
    SquareNonNegative(z.im);
    ProductBound(z.re, z.re, 24576);
    ProductBound(z.im, z.im, 24576);
  }

  /** The character for an iteration count: neither bound on the index is ever needed. */
  method Shade(iter: Int32) returns (ch: char)
    requires 0 <= iter <= MAX_ITER
    ensures ch == SHADES[iter as int * 11 / 64] && (iter == MAX_ITER ==> ch == SHADES[11])
  {
    var size: Int32 := 13;
    var scaled := (iter * (size - 2)) / MAX_ITER;
    var index := scaled as int;
    if index < 0 { index := 0; }
    if index >= 12 { index := 11; }
    ch := SHADES[index];
  }

  /** Every character of a line is its point's, 157 units apart from -2. */
  predicate Drawn(line: string, n: int, ci: int) {
    |line| == n && forall k | 0 <= k < n :: line[k] == Character(Point(-8192 + 157 * k, ci))
  }

  /** One row: each point of the grid is in the window, so nothing overflows. */
  method RenderRow(xMin: Int32, dx: Int32, ci: Int32) returns (line: string)
    requires xMin == -8192 && dx == 157 && -4915 <= ci <= 4915
    ensures Drawn(line, WIDTH as int, ci as int)
  {
    hide EscapeCount;
    line := "";
    var col: Int32 := 0;
    while col < WIDTH
      invariant 0 <= col <= WIDTH && Drawn(line, col as int, ci as int)
    {
      var cr := xMin + col * dx;
      var iter := Iterate(cr, ci);
      var ch := Shade(iter);
      line := line + [ch];
      col := col + 1;
    }
  }

  /** The whole picture: row r and column k show the point -2 + 157k/4096 and -1.2 + 327r/4096,
      by its first escaping iteration. */
  method Render() returns (rows: seq<string>)
    ensures |rows| == HEIGHT as int && forall r | 0 <= r < |rows| :: Drawn(rows[r], WIDTH as int, -4915 + 327 * r)
  {
    hide Drawn;
    var xMin: Int32, xMax: Int32 := -2 * FP_ONE, 1 * FP_ONE;
    var yMin: Int32 := -1 * FP_ONE - FP_ONE / 5;
    var yMax: Int32 := 1 * FP_ONE + FP_ONE / 5;
    var dx, dy := (xMax - xMin) / WIDTH, (yMax - yMin) / HEIGHT;
    assert dx == 157 && dy == 327 && yMin == -4915;
    rows := [];
    var row: Int32 := 0;
    while row < HEIGHT
      invariant 0 <= row <= HEIGHT && |rows| == row as int
      invariant forall r | 0 <= r < |rows| :: Drawn(rows[r], WIDTH as int, -4915 + 327 * r)
    {
      var ci := yMin + row * dy;
      var line := RenderRow(xMin, dx, ci);
      rows := rows + [line];
      row := row + 1;
    }
  }
}
