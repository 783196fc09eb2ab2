/**
 Lines and rectangles on the display's frame buffer, drawn with whole numbers only.
 */
module Line {
  import opened Values

  const WIDTH: int := 12
  const HEIGHT: int := 8

  type int32 = n: int | -0x8000_0000 <= n < 0x8000_0000
  type int64 = n: int | -0x8000_0000_0000_0000 <= n < 0x8000_0000_0000_0000

  // ----- pixels -----

  predicate OnDisplay(x: int, y: int) { 0 <= x < WIDTH && 0 <= y < HEIGHT }

  /** A frame buffer: one flag for each pixel, row by row. */
  predicate IsFrame(rows: array2<bool>) { rows.Length0 == HEIGHT && rows.Length1 == WIDTH }

  predicate Pixel(rows: array2<bool>, x: int, y: int)
    requires IsFrame(rows) && OnDisplay(x, y)
    reads rows
  {
    rows[y, x]
  }

  /** Sets or clears one pixel; points off the display are ignored. */
  method WritePoint(rows: array2<bool>, x: int, y: int, on: bool)
    requires IsFrame(rows)
    modifies rows
    ensures forall u, v {:trigger Pixel(rows, u, v)} :: OnDisplay(u, v) ==>
      Pixel(rows, u, v) == if (u, v) == (x, y) then on else old(Pixel(rows, u, v))
  {
    if !OnDisplay(x, y) {
      return;
    }
    rows[y, x] := on;
  }

  // ----- the ideal line -----

  function Abs(n: int): nat { if n > 0 then n else -n }

  /** `i` pixels from one end of an axis toward the other. */
  function Toward(from: int, to: int, i: nat): int { if from < to then from + i else from - i }

  function Max(a: nat, b: nat): nat { if a >= b then a else b }

  /** `n / d` to the nearest whole number, halves up. */
  function Round(n: nat, d: nat): nat { if d == 0 then 0 else (2 * n + d) / (2 * d) }

  /** Step `k` of the line: whole on the longer axis, rounded on the shorter. */
  function LinePoint(x0: int, y0: int, x1: int, y1: int, k: nat): (int, int) {
    var a, b := Abs(x1 - x0), Abs(y1 - y0);
    var i := if a >= b then k else Round(k * a, b);
    var j := if a >= b then Round(k * b, a) else k;
    (Toward(x0, x1, i), Toward(y0, y1, j))
  }

  predicate OnLine(x0: int, y0: int, x1: int, y1: int, x: int, y: int) {
    exists k: nat :: k <= Max(Abs(x1 - x0), Abs(y1 - y0)) && LinePoint(x0, y0, x1, y1, k) == (x, y)
  }

  // ----- rounding -----

  /** `p / d` lies within half of `n / d`, halves up; `p` is a multiple of `d`. */
  predicate Near(p: int, n: int, d: int) { -d < 2 * (p - n) <= d }

  lemma NearIsRound(j: nat, n: nat, d: nat)
    requires d > 0 && Near(j * d, n, d)
    ensures j == Round(n, d)
  {
    var m := 2 * n + d;
    var e := 2 * d;
    assert 2 * (j * d) == j * e;
    assert j * e <= m;
    assert m < j * e + e;
    DivUnique(m, e, j);
  }

  lemma DivUnique(m: nat, e: nat, j: nat)
    requires e > 0 && j * e <= m < j * e + e
    ensures m / e == j
  {
    var q := m / e;
    assert m == q * e + m % e;
    if q < j {
      Times(q, j, e);
    } else if q > j {
      Times(j, q, e);
    }
  }

  lemma Times(a: nat, b: nat, e: nat)
    requires a < b
    ensures a * e + e <= b * e
  {
    assert b * e == a * e + (b - a) * e;
    assert (b - a) * e == (b - a - 1) * e + e;
    NotNegative(b - a - 1, e);
  }

  lemma NotNegative(a: nat, b: nat)
    ensures a * b >= 0
  {
  }

  lemma RoundNear(n: nat, d: nat)
    requires d > 0
    ensures Near(Round(n, d) * d, n, d)
  {
    var m, e := 2 * n + d, 2 * d;
    var q := m / e;
    assert m == q * e + m % e;
    assert q * e == 2 * (q * d);
  }

  /** A rounded value never leaves the interval its ideal stays in. */
  lemma RoundWithin(k: nat, a: nat, b: nat)
    requires k <= a && 0 < a && b <= a
    ensures Round(k * b, a) <= b
    ensures k == a ==> Round(k * b, a) == b
    ensures k == 0 ==> Round(k * b, a) == 0
  {
    RoundNear(k * b, a);
    var j := Round(k * b, a);
    if k < a {
      Times(k, a, b);
    }
    assert k * b <= a * b;
    assert a * b == b * a;
    if j > b {
      Times(b, j, a);
    }
    if k == a {
      NearIsRound(b, k * b, a);
    }
    if k == 0 {
      NearIsRound(0, 0, a);
    }
  }

  /** The line begins at its first point, ends at its last, and stays in the box between. */
  lemma LineInBox(x0: int, y0: int, x1: int, y1: int, k: nat)
    requires k <= Max(Abs(x1 - x0), Abs(y1 - y0))
    ensures var (x, y) := LinePoint(x0, y0, x1, y1, k);
      && (x0 <= x <= x1 || x1 <= x <= x0) && (y0 <= y <= y1 || y1 <= y <= y0)
      && (k == 0 ==> (x, y) == (x0, y0))
      && (k == Max(Abs(x1 - x0), Abs(y1 - y0)) ==> (x, y) == (x1, y1))
  {
    hide Round;
    var a, b := Abs(x1 - x0), Abs(y1 - y0);
    if a >= b {
      if a > 0 {
        RoundWithin(k, a, b);
      } else {
        RoundNothing(k * b);
      }
    } else {
      RoundWithin(k, b, a);
    }
  }

  lemma RoundNothing(n: nat)
    ensures Round(n, 0) == 0
  {
  }

  /** Each point lies within half a pixel of the ideal line, measured on the shorter axis. */
  lemma LineIsNear(x0: int, y0: int, x1: int, y1: int, k: nat)
    ensures var a, b := Abs(x1 - x0), Abs(y1 - y0);
      var (x, y) := LinePoint(x0, y0, x1, y1, k);
      && (a >= b && a > 0 ==> Abs(x - x0) == k && Abs(2 * (Abs(y - y0) * a - k * b)) <= a)
      && (a < b ==> Abs(y - y0) == k && Abs(2 * (Abs(x - x0) * b - k * a)) <= b)
  {
    hide Round;
    var a, b := Abs(x1 - x0), Abs(y1 - y0);
    if a >= b && a > 0 {
      RoundNear(k * b, a);
    }
    if a < b {
      RoundNear(k * a, b);
    }
  }

  // ----- the loop -----

  ghost predicate Products(i: nat, j: nat, a: nat, b: nat, p: int, q: int) { p == j * a && q == i * b }

  lemma NextProducts(i: nat, j: nat, a: nat, b: nat, p: int, q: int, stepX: bool, stepY: bool)
    requires Products(i, j, a, b, p, q)
    ensures Products(if stepX then i + 1 else i, if stepY then j + 1 else j, a, b, if stepY then p + a else p, if stepX then q + b else q)
  {
    assert (j + 1) * a == j * a + a;
    assert (i + 1) * b == i * b + b;
  }

  /**
   The state after `k` steps: `i` and `j` pixels along the axes, with `p` for `j * a` and
   `q` for `i * b`. The shorter axis is rounded.
   */
  ghost predicate Stepped(k: nat, i: nat, j: nat, a: nat, b: nat, p: int, q: int) {
    && (if a >= b then i == k && (a > 0 ==> Near(p, q, a)) && (a == 0 ==> j == 0 && p == 0 && q == 0) else j == k && Near(q, p, b))
  }

  /** One turn of the loop is one step of the line, and the error stays in 32 bits. */
  lemma Turn(k: nat, i: nat, j: nat, a: nat, b: nat, p: int, q: int, err: int)
    requires Stepped(k, i, j, a, b, p, q) && k < Max(a, b) && err == (p + a) - (q + b)
    requires a <= 0x4000_0000 && b <= 0x4000_0000
    ensures var stepX := 2 * err >= -(b as int);
      var stepY := 2 * err <= a;
      && (stepX ==> -0x8000_0000 <= err - b < 0x8000_0000)
      && (stepY ==> -0x8000_0000 <= (if stepX then err - b else err) + a < 0x8000_0000)
      && Stepped(k + 1, if stepX then i + 1 else i, if stepY then j + 1 else j, a, b,
           if stepY then p + a else p, if stepX then q + b else q)
  {
  }

  lemma SteppedEnd(k: nat, i: nat, j: nat, a: nat, b: nat, p: int, q: int)
    requires Stepped(k, i, j, a, b, p, q) && Products(i, j, a, b, p, q) && k <= Max(a, b)
    ensures i <= a && j <= b
    ensures i == a && j == b <==> k == Max(a, b)
    ensures i == if a >= b then k else Round(k * a, b)
    ensures j == if a >= b then Round(k * b, a) else k
  {
    if a >= b {
      if a > 0 {
        NearIsRound(j, k * b, a);
        RoundWithin(k, a, b);
      }
    } else {
      NearIsRound(i, k * a, b);
      RoundWithin(k, b, a);
    }
  }

  /**
   Draws a line. It takes exactly as many steps as its longer axis is long, and lights
   the points of the ideal line, rounded, and no others.
   */
  method DrawLine(rows: array2<bool>, x0: int32, y0: int32, x1: int32, y1: int32, on: bool) returns (ghost steps: nat)
    requires IsFrame(rows) && Abs(x1 - x0) <= 0x4000_0000 && Abs(y1 - y0) <= 0x4000_0000
    modifies rows
    ensures steps == Max(Abs(x1 - x0), Abs(y1 - y0))
    ensures forall u, v {:trigger Pixel(rows, u, v)} :: OnDisplay(u, v) ==>
      Pixel(rows, u, v) == if OnLine(x0, y0, x1, y1, u, v) then on else old(Pixel(rows, u, v))
  {
    hide Pixel, Stepped, Products, Round, LinePoint, Before, OnLine;
    var dx: int32 := if x1 > x0 then x1 - x0 else x0 - x1;
    var sx := if x0 < x1 then 1 else -1;
    var dy: int32 := if y1 > y0 then -(y1 - y0) else -(y0 - y1);
    var sy := if y0 < y1 then 1 else -1;
    var err: int32 := dx + dy;
    var x: int32, y: int32 := x0, y0;
    ghost var a, b := Abs(x1 - x0), Abs(y1 - y0);
    ghost var i: nat, j: nat := 0, 0;
    ghost var p: int, q: int := 0, 0;
    steps := 0;
    SteppedStart(a, b);
    BeforeNext(x0, y0, x1, y1, 0);
    while true
      invariant steps <= Max(a, b) && Stepped(steps, i, j, a, b, p, q) && Products(i, j, a, b, p, q)
      invariant x == Toward(x0, x1, i) && y == Toward(y0, y1, j) && err == (p + a) - (q + b)
      invariant forall u, v {:trigger Pixel(rows, u, v)} :: OnDisplay(u, v) ==>
        Pixel(rows, u, v) == if Before(x0, y0, x1, y1, steps, u, v) then on else old(Pixel(rows, u, v))
      decreases Max(a, b) - steps
    {
      var doubled: int64 := err * 2;
      SteppedEnd(steps, i, j, a, b, p, q);
      PointIs(x0, y0, x1, y1, steps, i, j);
      BeforeNext(x0, y0, x1, y1, steps);
      Within(x0, x1, i);
      Within(y0, y1, j);
      WritePoint(rows, x, y, on);
      if x == x1 && y == y1 {
        BeforeAll(x0, y0, x1, y1);
        break;
      }
      NextStep(x0, y0, x1, y1, steps, i, j, a, b, p, q, err);
      if doubled >= dy {
        err := err + dy;
        i, q := i + 1, q + b;
        x := x + sx;
      }
      if doubled <= dx {
        err := err + dx;
        j, p := j + 1, p + a;
        y := y + sy;
      }
      steps := steps + 1;
    }
  }

  /** One turn keeps the products right, the coordinates within the line and the error in range. */
  lemma NextStep(x0: int, y0: int, x1: int, y1: int, k: nat, i: nat, j: nat, a: nat, b: nat, p: int, q: int, err: int)
    requires a == Abs(x1 - x0) <= 0x4000_0000 && b == Abs(y1 - y0) <= 0x4000_0000
    requires Stepped(k, i, j, a, b, p, q) && Products(i, j, a, b, p, q) && k < Max(a, b) && err == (p + a) - (q + b)
    ensures var stepX, stepY := 2 * err >= -(b as int), 2 * err <= a;
      var i1, j1 := if stepX then i + 1 else i, if stepY then j + 1 else j;
      var p1, q1 := if stepY then p + a else p, if stepX then q + b else q;
      && (stepX ==> -0x8000_0000 <= err - b < 0x8000_0000)
      && (stepY ==> -0x8000_0000 <= (if stepX then err - b else err) + a < 0x8000_0000)
      && Stepped(k + 1, i1, j1, a, b, p1, q1) && Products(i1, j1, a, b, p1, q1)
      && (x0 <= Toward(x0, x1, i1) <= x1 || x1 <= Toward(x0, x1, i1) <= x0)
      && (y0 <= Toward(y0, y1, j1) <= y1 || y1 <= Toward(y0, y1, j1) <= y0)
  {
    hide Stepped, Products, Round;
    var stepX, stepY := 2 * err >= -(b as int), 2 * err <= a;
    var i1, j1 := if stepX then i + 1 else i, if stepY then j + 1 else j;
    Turn(k, i, j, a, b, p, q, err);
    NextProducts(i, j, a, b, p, q, stepX, stepY);
    SteppedEnd(k + 1, i1, j1, a, b, if stepY then p + a else p, if stepX then q + b else q);
    Within(x0, x1, i1);
    Within(y0, y1, j1);
  }

  lemma SteppedStart(a: nat, b: nat)
    ensures Stepped(0, 0, 0, a, b, 0, 0) && Products(0, 0, a, b, 0, 0)
  {
  }

  lemma PointIs(x0: int, y0: int, x1: int, y1: int, k: nat, i: nat, j: nat)
    requires var a, b := Abs(x1 - x0), Abs(y1 - y0);
      i == (if a >= b then k else Round(k * a, b)) && j == if a >= b then Round(k * b, a) else k
    ensures LinePoint(x0, y0, x1, y1, k) == (Toward(x0, x1, i), Toward(y0, y1, j))
  {
    hide Round;
  }

  /** The turn moves by at most one pixel, so a coordinate stays within its line. */
  lemma Within(x0: int, x1: int, i: nat)
    requires i <= Abs(x1 - x0)
    ensures x0 <= Toward(x0, x1, i) <= x1 || x1 <= Toward(x0, x1, i) <= x0
    ensures Toward(x0, x1, i) == x1 <==> i == Abs(x1 - x0)
  {
  }

  /** One of the first `n` points. */
  predicate Before(x0: int, y0: int, x1: int, y1: int, n: nat, x: int, y: int) {
    exists k: nat :: k < n && LinePoint(x0, y0, x1, y1, k) == (x, y)
  }

  lemma BeforeNext(x0: int, y0: int, x1: int, y1: int, n: nat)
    ensures forall x, y :: Before(x0, y0, x1, y1, n + 1, x, y) <==>
      Before(x0, y0, x1, y1, n, x, y) || LinePoint(x0, y0, x1, y1, n) == (x, y)
    ensures forall x, y :: !Before(x0, y0, x1, y1, 0, x, y)
  {
    hide LinePoint;
  }

  lemma BeforeAll(x0: int, y0: int, x1: int, y1: int)
    ensures forall x, y :: Before(x0, y0, x1, y1, Max(Abs(x1 - x0), Abs(y1 - y0)) + 1, x, y) <==> OnLine(x0, y0, x1, y1, x, y)
  {
    hide LinePoint;
    forall x, y
      ensures Before(x0, y0, x1, y1, Max(Abs(x1 - x0), Abs(y1 - y0)) + 1, x, y) <==> OnLine(x0, y0, x1, y1, x, y)
    {
      if Before(x0, y0, x1, y1, Max(Abs(x1 - x0), Abs(y1 - y0)) + 1, x, y) {
        var k: nat :| k < Max(Abs(x1 - x0), Abs(y1 - y0)) + 1 && LinePoint(x0, y0, x1, y1, k) == (x, y);
        assert k <= Max(Abs(x1 - x0), Abs(y1 - y0));
      }
      if OnLine(x0, y0, x1, y1, x, y) {
        var k: nat :| k <= Max(Abs(x1 - x0), Abs(y1 - y0)) && LinePoint(x0, y0, x1, y1, k) == (x, y);
        assert k < Max(Abs(x1 - x0), Abs(y1 - y0)) + 1;
      }
    }
  }

  // ----- rectangles -----

  lemma Horizontal(x0: int, x1: int, y: int)
    requires x0 <= x1
    ensures forall u, v :: OnLine(x0, y, x1, y, u, v) <==> v == y && x0 <= u <= x1
  {
    hide Round;
    forall u, v
      ensures OnLine(x0, y, x1, y, u, v) <==> v == y && x0 <= u <= x1
    {
      if OnLine(x0, y, x1, y, u, v) {
        var k: nat :| k <= Max(Abs(x1 - x0), Abs(y - y)) && LinePoint(x0, y, x1, y, k) == (u, v);
        LineInBox(x0, y, x1, y, k);
      }
      if v == y && x0 <= u <= x1 {
        RoundZero(u - x0, x1 - x0);
        assert LinePoint(x0, y, x1, y, u - x0) == (u, v);
      }
    }
  }

  lemma Vertical(x: int, y0: int, y1: int)
    requires y0 <= y1
    ensures forall u, v :: OnLine(x, y0, x, y1, u, v) <==> u == x && y0 <= v <= y1
  {
    hide Round;
    forall u, v
      ensures OnLine(x, y0, x, y1, u, v) <==> u == x && y0 <= v <= y1
    {
      if OnLine(x, y0, x, y1, u, v) {
        var k: nat :| k <= Max(Abs(x - x), Abs(y1 - y0)) && LinePoint(x, y0, x, y1, k) == (u, v);
        LineInBox(x, y0, x, y1, k);
      }
      if u == x && y0 <= v <= y1 {
        RoundZero(v - y0, y1 - y0);
        assert LinePoint(x, y0, x, y1, v - y0) == (u, v);
      }
    }
  }

  lemma RoundZero(k: nat, d: nat)
    ensures Round(k * 0, d) == 0
  {
    if d > 0 {
      NearIsRound(0, 0, d);
    }
  }

  predicate OnBorder(x: int, y: int, width: int, height: int, u: int, v: int) {
    && x <= u < x + width && y <= v < y + height
    && (u == x || u == x + width - 1 || v == y || v == y + height - 1)
  }

  /** Draws the border of a rectangle, and nothing else. */
  method DrawRect(rows: array2<bool>, x: int32, y: int32, width: int32, height: int32, on: bool)
    requires IsFrame(rows) && FitsInt(x) && FitsInt(y) && FitsInt(width) && FitsInt(height)
    modifies rows
    ensures forall u, v {:trigger Pixel(rows, u, v)} :: OnDisplay(u, v) ==>
      Pixel(rows, u, v) == if OnBorder(x, y, width, height, u, v) then on else old(Pixel(rows, u, v))
  {
    hide OnLine, Pixel;
    if width <= 0 || height <= 0 {
      return;
    }
    var right: int32, bottom: int32 := x + width - 1, y + height - 1;
    Horizontal(x, right, y);
    Horizontal(x, right, bottom);
    Vertical(x, y, bottom);
    Vertical(right, y, bottom);
    ghost var steps;
    if width == 1 {
      steps := DrawLine(rows, x, y, x, bottom, on);
      return;
    }
    if height == 1 {
      steps := DrawLine(rows, x, y, right, y, on);
      return;
    }
    steps := DrawLine(rows, x, y, right, y, on);
    steps := DrawLine(rows, x, bottom, right, bottom, on);
    steps := DrawLine(rows, x, y, x, bottom, on);
    steps := DrawLine(rows, right, y, right, bottom, on);
  }
}
