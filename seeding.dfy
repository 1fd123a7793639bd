/** Where dots come from: the initial grid of dots laid out by `initializeDots`
    (js/game.js:238-266) and the dot `spawnDotOnRight` adds at the right edge
    (js/game.js:613-632). */
module Seeding {
  import opened Arith
  import opened Physics

  /** `currentSettings`: the size and friction every new dot takes. */
  datatype Settings = Settings(sizeScale: real, friction: real)

  /** `Math.ceil(Math.sqrt(n))`: the least c with c * c >= n. */
  function CeilSqrt(n: nat): (c: nat)
    ensures c * c >= n
    ensures c == 0 || (c - 1) * (c - 1) < n
  {
    CeilSqrtFrom(n, 0)
  }

  function CeilSqrtFrom(n: nat, c: nat): (r: nat)
    requires c == 0 || (c - 1) * (c - 1) < n
    ensures r * r >= n
    ensures r == 0 || (r - 1) * (r - 1) < n
    decreases n - c * c
  {
    if c * c >= n then c
    else
      assert (c + 1) * (c + 1) > c * c;
      CeilSqrtFrom(n, c + 1)
  }

  /** `Math.ceil(n / d)` for a positive whole d. */
  function CeilDiv(n: nat, d: nat): (r: nat)
    requires d > 0
    ensures r * d >= n
    ensures r == 0 || (r - 1) * d < n
  {
    var q := n / d;
    if q * d == n then q
    else
      assert q * d < n;
      q + 1
  }

  /** The grid columns and rows `initializeDots` lays n dots out on; for n == 0 the loop
      body never runs and no layout is needed. */
  function Layout(n: nat): (cr: (nat, nat))
    ensures n > 0 ==> cr.0 > 0 && cr.1 > 0 && cr.0 * cr.1 >= n
  {
    var cols := CeilSqrt(n);
    if cols == 0 then (0, 0) else (cols, CeilDiv(n, cols))
  }

  /** The k-th initial dot: centred in grid cell (k % cols, k / cols) of a cols x rows
      grid spanning the canvas, at rest, with the current settings (js/game.js:249-264). */
  function SeedDot(k: nat, cols: nat, rows: nat, width: real, height: real, s: Settings): Dot
    requires cols > 0 && rows > 0
  {
    Dot(SlotCentre(k % cols, cols, width), SlotCentre(k / cols, rows, height),
        0.0, 0.0, 0.0, 0.0, s.friction, s.sizeScale, Cube(s.sizeScale))
  }

  /** `i * spacing + spacing / 2` with spacing = size / count: the centre of slot i when
      [0, size] is cut into `count` equal slots. */
  function SlotCentre(i: nat, count: nat, size: real): real
    requires count > 0
  {
    var spacing := size / count as real;
    i as real * spacing + spacing / 2.0
  }

  /** The dots `initializeDots` appends, in order. */
  function Seeded(n: nat, width: real, height: real, s: Settings): (ds: seq<Dot>)
    ensures |ds| == n
  {
    var (cols, rows) := Layout(n);
    if n == 0 then []
    else seq(n, k requires 0 <= k < n => SeedDot(k, cols, rows, width, height, s))
  }



  /** The centre of slot i of `count` equal slots across [0, size] lies strictly inside. */
  lemma CentreInside(i: nat, count: nat, size: real)
    requires i < count && size > 0.0
    ensures 0.0 < SlotCentre(i, count, size) < size
  {
    var sp, ir, c := size / count as real, i as real, count as real;
    assert sp * c == size;
    assert sp > 0.0;
    MulNonNegative(ir, sp);
    MulNonNegative(c - (ir + 1.0), sp);
    assert (c - (ir + 1.0)) * sp == c * sp - ir * sp - sp;
  }

  lemma RowBound(k: nat, cols: nat, rows: nat)
    requires cols > 0 && k < cols * rows
    ensures k / cols < rows
  {
  }

  /** Every initial dot sits strictly inside the canvas in its own grid cell, at rest,
      with mass sizeScale^3 (js/game.js:240-264). */
  lemma SeededDotsInside(n: nat, width: real, height: real, s: Settings, k: nat)
    requires width > 0.0 && height > 0.0 && k < n
    ensures var (cols, rows) := Layout(n);
            var d := Seeded(n, width, height, s)[k];
            && k % cols < cols && k / cols < rows
            && 0.0 < d.x < width && 0.0 < d.y < height
            && d.vx == 0.0 && d.vy == 0.0 && d.ax == 0.0 && d.ay == 0.0
            && d.friction == s.friction && d.sizeScale == s.sizeScale && d.mass == Cube(s.sizeScale)
  {
    var (cols, rows) := Layout(n);
    assert Seeded(n, width, height, s)[k] == SeedDot(k, cols, rows, width, height, s);
    RowBound(k, cols, rows);
    CentreInside(k % cols, cols, width);
    CentreInside(k / cols, rows, height);
  }

  /** Distinct initial dots get distinct positions: the layout never stacks two dots. */
  lemma SeededDotsDistinct(n: nat, width: real, height: real, s: Settings, i: nat, j: nat)
    requires width > 0.0 && height > 0.0 && i < j < n
    ensures var ds := Seeded(n, width, height, s);
            ds[i].x != ds[j].x || ds[i].y != ds[j].y
  {
    var (cols, rows) := Layout(n);
    var ds := Seeded(n, width, height, s);
    assert ds[i] == SeedDot(i, cols, rows, width, height, s);
    assert ds[j] == SeedDot(j, cols, rows, width, height, s);
    SeedDotsDistinct(i, j, cols, rows, width, height, s);
  }

  lemma SeedDotsDistinct(i: nat, j: nat, cols: nat, rows: nat, width: real, height: real, s: Settings)
    requires cols > 0 && rows > 0 && width > 0.0 && height > 0.0 && i != j
    ensures SeedDot(i, cols, rows, width, height, s).x != SeedDot(j, cols, rows, width, height, s).x
         || SeedDot(i, cols, rows, width, height, s).y != SeedDot(j, cols, rows, width, height, s).y
  {
    if i % cols == j % cols {
      SameColumn(i, j, cols);
      Distinct(i / cols, j / cols, height, rows);
    } else {
      Distinct(i % cols, j % cols, width, cols);
    }
  }

  lemma SameColumn(i: nat, j: nat, cols: nat)
    requires cols > 0 && i != j && i % cols == j % cols
    ensures i / cols != j / cols
  {
  }

  lemma Distinct(a: nat, b: nat, size: real, count: nat)
    requires a != b && size > 0.0 && count > 0
    ensures SlotCentre(a, count, size) != SlotCentre(b, count, size)
  {
    var sp := size / count as real;
    assert sp * count as real == size;
    assert sp > 0.0;
    if a < b {
      MulPositive(b as real - a as real, sp);
    } else {
      MulPositive(a as real - b as real, sp);
    }
  }

  /** r * h stays within [0, h] for a draw r in [0, 1). */
  lemma ScaleInside(r: real, h: real)
    requires 0.0 <= r < 1.0
    ensures h >= 0.0 ==> 0.0 <= r * h <= h
    ensures h > 0.0 ==> r * h < h
  {
    if h >= 0.0 {
      MulNonNegative(r, h);
      MulNonNegative(1.0 - r, h);
    }
    if h > 0.0 {
      MulPositive(1.0 - r, h);
    }
  }

  /** The dot `spawnDotOnRight` pushes, given its two `Math.random()` draws: on the right
      edge, at height randY * height, moving left at 100 with a vertical speed in
      [-25, 25) (js/game.js:613-632). */
  function SpawnedDot(width: real, height: real, randY: real, randVy: real, s: Settings): (d: Dot)
    requires 0.0 <= randY < 1.0 && 0.0 <= randVy < 1.0
    ensures d.x == width && d.vx == -100.0 && -25.0 <= d.vy < 25.0
    ensures height >= 0.0 ==> 0.0 <= d.y <= height
    ensures height > 0.0 ==> d.y < height
    ensures d.ax == 0.0 && d.ay == 0.0
    ensures d.friction == s.friction && d.sizeScale == s.sizeScale && d.mass == Cube(s.sizeScale)
  {
    ScaleInside(randY, height);
    Dot(width, randY * height, -100.0, (randVy - 0.5) * 50.0, 0.0, 0.0,
        s.friction, s.sizeScale, Cube(s.sizeScale))
  }
}
