/** The rasterizer of the title screen: it walks the start button's rectangle
    on a 5-unit grid and turns every cell into one particle with a colour, a
    centre in container coordinates and a radial launch velocity. */
module Rasterizer {
  import opened Particle

  datatype Option<T> = None | Some(value: T)

  /** The button's rectangle relative to the container: left, top, width, height. */
  datatype Rect = Rect(left: real, top: real, width: real, height: real)

  /** A draw of the random source, in [0, 1). */
  type Unit = r: real | 0.0 <= r < 1.0

  /** The result of `Math.sqrt(..) || 1`: always positive. */
  type Positive = r: real | r > 0.0 witness 1.0

  /** The four random draws spent on one cell, in the order the source makes
      them: launch speed, horizontal jitter, upward kick, friction. */
  datatype Draw = Draw(speed: Unit, jitter: Unit, kick: Unit, friction: Unit)

  /** Grid pitch (`pixelSize`). */
  const Pitch: real := 5.0

  /** Number of grid lines `0, Pitch, 2 * Pitch, ...` strictly below `w`. */
  function Steps(w: real): nat
  {
    if w <= 0.0 then 0
    else
      var q := w / Pitch;
      if q.Floor as real == q then q.Floor else q.Floor + 1
  }

  /** `Steps(w)` is exactly the number of iterations of `for (p = 0; p < w; p += 5)`. */
  lemma StepsCount(w: real, k: nat)
    ensures Pitch * k as real < w <==> k < Steps(w)
  {
    if w > 0.0 {
      var q := w / Pitch;
      assert Pitch * q == w;
      assert q.Floor as real <= q < q.Floor as real + 1.0;
      if k < Steps(w) {
        assert k as real < q;
      } else {
        assert k as real >= q;
      }
    }
  }

  /** For a positive extent the count is the ceiling of `w / 5`. */
  lemma StepsIsCeiling(w: real)
    requires w > 0.0
    ensures Steps(w) >= 1
    ensures Pitch * (Steps(w) - 1) as real < w <= Pitch * Steps(w) as real
  {
    StepsCount(w, 0);
    StepsCount(w, Steps(w) - 1);
    StepsCount(w, Steps(w));
  }

  /** JavaScript's `%`: the remainder takes the sign of the dividend. */
  function JsRem(a: int, b: int): int
    requires b > 0
  {
    if a >= 0 then a % b else -((-a) % b)
  }

  /** The cell's corner lies within one pitch of the left or top side, or
      less than two pitches from the right or bottom side. */
  predicate IsEdge(g: Rect, px: real, py: real)
  {
    px < Pitch || px > g.width - Pitch * 2.0 || py < Pitch || py > g.height - Pitch * 2.0
  }

  /** The approximate label region: 15%..85% of the width, 20%..80% of the height. */
  predicate InTextRegion(g: Rect, px: real, py: real)
  {
    px >= g.width * 0.15 && px <= g.width * 0.85 && py >= g.height * 0.2 && py <= g.height * 0.8
  }

  /** The stipple band of a column: two pitches wide, counted from the label's left side. */
  function CharIndex(g: Rect, px: real): int
  {
    ((px - g.width * 0.15) / (Pitch * 2.0)).Floor
  }

  function Classify(g: Rect, px: real, py: real): Colour
  {
    if IsEdge(g, px, py) then NeonPurple
    else if InTextRegion(g, px, py) then
      var c := JsRem(CharIndex(g, px), 3);
      if c == 0 then NeonPurple else if c == 1 then TextDark else NeonPurple
    else Fill
  }

  /** Launch speed: 1.5 plus up to 3.5, boosted by half for edge cells. */
  function LaunchSpeed(edge: bool, d: Draw): real
  {
    (1.5 + d.speed * 3.5) * (if edge then 1.5 else 1.0)
  }

  /** The particle of the cell whose top-left corner is (`px`, `py`) inside the button. */
  function CellPixel(g: Rect, px: real, py: real, id: nat, d: Draw, dist: (real, real) -> Positive): Pixel
  {
    var cx := g.left + px + Pitch / 2.0;
    var cy := g.top + py + Pitch / 2.0;
    var dx := cx - (g.left + g.width / 2.0);
    var dy := cy - (g.top + g.height / 2.0);
    var dd := dist(dx, dy);
    var speed := LaunchSpeed(IsEdge(g, px, py), d);
    Pixel(id, cx, cy,
          (dx / dd) * speed + (d.jitter - 0.5) * 2.0,
          (dy / dd) * speed - d.kick * 1.5,
          Pitch - 1.0, Classify(g, px, py), 1.0, 0.96 + d.friction * 0.02)
  }

  /** Column and row of the `i`-th generated particle: the outer loop runs
      over columns, the inner one over the `rows` cells of a column. */
  function ColumnOf(i: nat, rows: nat): nat { if rows == 0 then 0 else i / rows }
  function RowOf(i: nat, rows: nat): nat { if rows == 0 then 0 else i % rows }

  function RasterAt(g: Rect, i: nat, dist: (real, real) -> Positive, rnd: nat -> Draw): Pixel
  {
    var rows := Steps(g.height);
    CellPixel(g, Pitch * ColumnOf(i, rows) as real, Pitch * RowOf(i, rows) as real, i, rnd(i), dist)
  }

  /** The whole particle field of a measured button, in generation order. */
  function Raster(g: Rect, dist: (real, real) -> Positive, rnd: nat -> Draw): seq<Pixel>
  {
    seq(Steps(g.width) * Steps(g.height), i requires 0 <= i => RasterAt(g, i, dist, rnd))
  }

  lemma DivModOf(q: nat, r: nat, d: nat)
    requires r < d
    ensures (q * d + r) / d == q && (q * d + r) % d == r
  {
    var n := q * d + r;
    var k := n / d - q;
    assert k * d == r - n % d by {
      assert n == d * (n / d) + n % d;
      assert k * d == (n / d) * d - q * d;
    }
  }

  /** An index below `cols * rows` has a column below `cols`. */
  lemma ColumnBelow(i: nat, cols: nat, rows: nat)
    requires i < cols * rows
    ensures rows > 0 && i / rows < cols
  {
  }

  /** The rasterizer as the source runs it: nothing when the button or the
      container cannot be measured, otherwise nested loops over columns and
      rows that push one particle per cell with a running id. */
  method Rasterize(m: Option<Rect>, dist: (real, real) -> Positive, rnd: nat -> Draw)
    returns (r: Option<seq<Pixel>>)
    ensures m.None? ==> r.None?
    ensures m.Some? ==> r == Some(Raster(m.value, dist, rnd))
  {
    if m.None? {
      return None;
    }
    var g := m.value;
    var generated: seq<Pixel> := [];
    var id: nat := 0;
    ghost var cols, rows := Steps(g.width), Steps(g.height);
    var px := 0.0;
    ghost var col: nat := 0;
    while px < g.width
      invariant col <= cols && px == Pitch * col as real
      invariant id == col * rows && |generated| == id
      invariant forall i :: 0 <= i < id ==> generated[i] == RasterAt(g, i, dist, rnd)
      decreases cols - col
    {
      StepsCount(g.width, col);
      var py := 0.0;
      ghost var row: nat := 0;
      while py < g.height
        invariant row <= rows && py == Pitch * row as real
        invariant id == col * rows + row && |generated| == id
        invariant forall i :: 0 <= i < id ==> generated[i] == RasterAt(g, i, dist, rnd)
        decreases rows - row
      {
        StepsCount(g.height, row);
        DivModOf(col, row, rows);
        generated := generated + [CellPixel(g, px, py, id, rnd(id), dist)];
        id := id + 1;
        py := py + Pitch;
        row := row + 1;
      }
      StepsCount(g.height, row);
      px := px + Pitch;
      col := col + 1;
    }
    StepsCount(g.width, col);
    assert generated == Raster(g, dist, rnd);
    return Some(generated);
  }

  /** The field is empty exactly when the button has no width or no height. */
  lemma RasterEmpty(g: Rect, dist: (real, real) -> Positive, rnd: nat -> Draw)
    ensures |Raster(g, dist, rnd)| == 0 <==> g.width <= 0.0 || g.height <= 0.0
  {
    StepsCount(g.width, 0);
    StepsCount(g.height, 0);
  }

  /** Every grid cell `(c, r)` of the button appears exactly at index
      `c * rows + r`, with that index as its id: the outer loop is the
      column, the inner the row. */
  lemma RasterTiles(g: Rect, dist: (real, real) -> Positive, rnd: nat -> Draw, c: nat, r: nat)
    requires Pitch * c as real < g.width && Pitch * r as real < g.height
    ensures c * Steps(g.height) + r < |Raster(g, dist, rnd)|
    ensures Raster(g, dist, rnd)[c * Steps(g.height) + r]
         == CellPixel(g, Pitch * c as real, Pitch * r as real, c * Steps(g.height) + r, rnd(c * Steps(g.height) + r), dist)
  {
    StepsCount(g.width, c);
    StepsCount(g.height, r);
    var rows := Steps(g.height);
    DivModOf(c, r, rows);
    assert c * rows + r < (c + 1) * rows <= Steps(g.width) * rows;
  }

  /** Conversely, every particle is the one of a grid cell inside the button. */
  lemma RasterCellInside(g: Rect, dist: (real, real) -> Positive, rnd: nat -> Draw, i: nat)
    requires i < |Raster(g, dist, rnd)|
    ensures Steps(g.height) > 0
    ensures Pitch * (i / Steps(g.height)) as real < g.width && Pitch * (i % Steps(g.height)) as real < g.height
    ensures Raster(g, dist, rnd)[i]
         == CellPixel(g, Pitch * (i / Steps(g.height)) as real, Pitch * (i % Steps(g.height)) as real, i, rnd(i), dist)
  {
    var cols, rows := Steps(g.width), Steps(g.height);
    ColumnBelow(i, cols, rows);
    var c, r := i / rows, i % rows;
    assert ColumnOf(i, rows) == c && RowOf(i, rows) == r;
    assert Raster(g, dist, rnd)[i] == RasterAt(g, i, dist, rnd);
    CellInside(g, c, r);
  }

  lemma CellInside(g: Rect, c: nat, r: nat)
    requires c < Steps(g.width) && r < Steps(g.height)
    ensures Pitch * c as real < g.width && Pitch * r as real < g.height
  {
    StepsCount(g.width, c);
    StepsCount(g.height, r);
  }

  /** A freshly generated particle: id equal to its position, fully opaque,
      size 4, friction in [0.96, 0.98), centred half a pitch into its cell. */
  lemma FreshParticle(g: Rect, px: real, py: real, id: nat, d: Draw, dist: (real, real) -> Positive)
    ensures CellPixel(g, px, py, id, d, dist).id == id
    ensures CellPixel(g, px, py, id, d, dist).opacity == 1.0
    ensures CellPixel(g, px, py, id, d, dist).size == 4.0
    ensures 0.96 <= CellPixel(g, px, py, id, d, dist).friction < 0.98
    ensures CellPixel(g, px, py, id, d, dist).x == g.left + px + 2.5
    ensures CellPixel(g, px, py, id, d, dist).y == g.top + py + 2.5
  {
  }

  /** The launch speed lies in [1.5, 5.0), times 1.5 on the edge; the
      horizontal velocity is the radial one give or take 1, and the vertical
      one never exceeds the radial component (the upward kick). */
  lemma LaunchVelocity(g: Rect, px: real, py: real, id: nat, d: Draw, dist: (real, real) -> Positive)
    ensures 1.5 <= LaunchSpeed(false, d) < 5.0
    ensures LaunchSpeed(true, d) == 1.5 * LaunchSpeed(false, d)
    ensures
      var p := CellPixel(g, px, py, id, d, dist);
      var dx := p.x - (g.left + g.width / 2.0);
      var dy := p.y - (g.top + g.height / 2.0);
      var s := LaunchSpeed(IsEdge(g, px, py), d);
      && -1.0 <= p.vx - (dx / dist(dx, dy)) * s < 1.0
      && p.vy <= (dy / dist(dx, dy)) * s
  {
  }

  /** The label region lies right of its left side, so the stipple band is
      never negative there and JavaScript's `%` agrees with Euclid's. */
  lemma CharIndexNonNegative(g: Rect, px: real, py: real)
    requires InTextRegion(g, px, py)
    ensures CharIndex(g, px) >= 0
    ensures JsRem(CharIndex(g, px), 3) == CharIndex(g, px) % 3
  {
    assert (px - g.width * 0.15) / (Pitch * 2.0) >= 0.0;
  }

  /** The colour rules: edges are neon; the dark stipple colour appears only
      in the label region, off the edge, in every third band; the fill colour
      appears exactly off the edge and outside the label region. */
  lemma ColourRules(g: Rect, px: real, py: real)
    ensures IsEdge(g, px, py) ==> Classify(g, px, py) == NeonPurple
    ensures Classify(g, px, py) == TextDark
        <==> !IsEdge(g, px, py) && InTextRegion(g, px, py) && CharIndex(g, px) % 3 == 1
    ensures Classify(g, px, py) == Fill <==> !IsEdge(g, px, py) && !InTextRegion(g, px, py)
  {
    if !IsEdge(g, px, py) && InTextRegion(g, px, py) {
      CharIndexNonNegative(g, px, py);
    }
  }

  /** Inside the label the stipple pattern repeats every six pitches. */
  lemma StipplePeriod(g: Rect, px: real, py: real)
    requires !IsEdge(g, px, py) && InTextRegion(g, px, py)
    requires !IsEdge(g, px + 6.0 * Pitch, py) && InTextRegion(g, px + 6.0 * Pitch, py)
    ensures Classify(g, px + 6.0 * Pitch, py) == Classify(g, px, py)
  {
    var a := (px - g.width * 0.15) / (Pitch * 2.0);
    assert (px + 6.0 * Pitch - g.width * 0.15) / (Pitch * 2.0) == a + 3.0;
    assert (a + 3.0).Floor == a.Floor + 3;
    CharIndexNonNegative(g, px, py);
    CharIndexNonNegative(g, px + 6.0 * Pitch, py);
  }
}
