// Filling an RGBA buffer from plain runs: every pixel shows the module that owns it.

module Rasters {
  import opened Domain
  import opened Geometries

  // ---- module boundaries in pixels ----

  // One pixel per module or more: a whole module size, centred by the origin. Fewer: the exact ratio size/total.
  datatype Layout = Whole(origin: int, module_: int) | Fractional(size: int, total: int)

  function NewLayout(size: int, total: int): Layout
    requires total > 0
  {
    if size >= total then
      var m := size / total;
      Whole((size - m * total) / 2, m)
    else Fractional(size, total)
  }

  // The boundary before module m: its exact position rounded to the nearest pixel.
  function Edge(l: Layout, m: int): int
    requires l.Fractional? ==> l.total > 0
  {
    match l
    case Whole(origin, mod) => origin + m * mod
    case Fractional(size, total) => (2 * m * size + total) / (2 * total)
  }

  lemma DivMonotone(a: int, b: int, d: int)
    requires a <= b && d > 0
    ensures a / d <= b / d
  {
    var q := b / d;
    assert b < (q + 1) * d;
    if a / d > q {
      MulMonotone(q + 1, a / d, d);
    }
  }

  lemma EdgeMonotone(size: int, total: int, a: int, b: int)
    requires size > 0 && total > 0 && a <= b
    ensures Edge(NewLayout(size, total), a) <= Edge(NewLayout(size, total), b)
  {
    if size >= total {
      var m := size / total;
      MulMonotone(a, b, m);
    } else {
      MulMonotone(a, b, size);
      assert 2 * a * size == 2 * (a * size) && 2 * b * size == 2 * (b * size);
      DivMonotone(2 * a * size + total, 2 * b * size + total, 2 * total);
    }
  }

  // The modules fit the image; when there is less than a pixel each, they fill it from edge to edge.
  lemma EdgesFit(size: int, total: int)
    requires size > 0 && total > 0
    ensures 0 <= Edge(NewLayout(size, total), 0) && Edge(NewLayout(size, total), total) <= size
    ensures size < total ==> Edge(NewLayout(size, total), 0) == 0 && Edge(NewLayout(size, total), total) == size
    ensures size >= total ==> Edge(NewLayout(size, total), 0) + (size - Edge(NewLayout(size, total), total)) < total
  {
    if size >= total {
      WholeFits(size, total);
    } else {
      FractionalFits(size, total);
    }
  }

  // Where the edges are. With a pixel per module or more all modules are equally wide, as wide as fits, and the rest is
  // split evenly around them; with less each edge is the pixel nearest to its exact place.
  lemma EdgesAre(size: int, total: int, m: int)
    requires size > 0 && total > 0
    ensures size >= total ==>
              && Edge(NewLayout(size, total), m) == Edge(NewLayout(size, total), 0) + m * (size / total)
              && 0 <= (size - Edge(NewLayout(size, total), total)) - Edge(NewLayout(size, total), 0) <= 1
    ensures size < total ==>
              -total <= 2 * total * Edge(NewLayout(size, total), m) - 2 * m * size <= total
  {
    if size >= total {
      var w, spare := size / total, size % total;
      assert w * total + spare == size && total * w == w * total && 0 * w == 0;
      assert Edge(NewLayout(size, total), 0) == spare / 2;
    } else {
      NearestPixel(2 * m * size, total);
    }
  }

  lemma NearestPixel(a: int, total: int)
    requires total > 0
    ensures -total <= 2 * total * ((a + total) / (2 * total)) - a <= total
  {
    var d := 2 * total;
    var q := (a + total) / d;
    assert d * q <= a + total < d * q + d;
  }

  lemma WholeFits(size: int, total: int)
    requires size >= total > 0
    ensures 0 <= Edge(NewLayout(size, total), 0) && Edge(NewLayout(size, total), total) <= size
    ensures Edge(NewLayout(size, total), 0) + (size - Edge(NewLayout(size, total), total)) < total
  {
    var m, spare := size / total, size % total;
    assert m * total + spare == size && total * m == m * total && 0 * m == 0;
    assert Edge(NewLayout(size, total), 0) == spare / 2;
    assert Edge(NewLayout(size, total), total) == spare / 2 + m * total;
  }

  lemma FractionalFits(size: int, total: int)
    requires 0 < size < total
    ensures Edge(NewLayout(size, total), 0) == 0 && Edge(NewLayout(size, total), total) == size
  {
    var d := 2 * total;
    assert total / d == 0;
    assert 2 * total * size + total == size * d + total;
    DivExact(size, total, d);
  }

  lemma DivExact(q: int, r: int, d: int)
    requires d > 0 && 0 <= r < d
    ensures (q * d + r) / d == q
  {
    var k := (q * d + r) / d;
    assert k * d <= q * d + r < k * d + d;
    if k < q {
      MulMonotone(k + 1, q, d);
    } else if k > q {
      MulMonotone(q + 1, k, d);
    }
  }

  // The module interval a pixel column (or row) falls into.
  ghost predicate Owns(l: Layout, m: int, p: int)
    requires l.Fractional? ==> l.total > 0
  {
    Edge(l, m) <= p < Edge(l, m + 1)
  }

  // Intervals neither gap nor overlap: each pixel between the outer edges has exactly one owner.
  lemma OwnerUnique(size: int, total: int, m: int, k: int, p: int)
    requires size > 0 && total > 0
    requires Owns(NewLayout(size, total), m, p) && Owns(NewLayout(size, total), k, p)
    ensures m == k
  {
    if m < k {
      EdgeMonotone(size, total, m + 1, k);
    } else if k < m {
      EdgeMonotone(size, total, k + 1, m);
    }
  }

  lemma {:induction false} OwnerExists(size: int, total: int, n: nat, p: int) returns (m: nat)
    requires size > 0 && total > 0
    requires Edge(NewLayout(size, total), 0) <= p < Edge(NewLayout(size, total), n)
    ensures m < n && Owns(NewLayout(size, total), m, p)
    decreases n
  {
    if Edge(NewLayout(size, total), n - 1) <= p {
      m := n - 1;
    } else {
      m := OwnerExists(size, total, n - 1, p);
    }
  }

  // ---- the pixel buffer ----

  newtype byte = x: int | 0 <= x < 256

  datatype Color = Color(r: byte, g: byte, b: byte)

  const OPAQUE: byte := 0xFF

  function Offset(size: nat, x: nat, y: nat): nat { y * (size * 4) + x * 4 }

  lemma OffsetInside(size: nat, x: nat, y: nat)
    requires x < size && y < size
    ensures Offset(size, x, y) + 4 <= size * size * 4
  {
    MulMonotone(y + 1, size, size * 4);
    assert size * (size * 4) == size * size * 4;
    assert (y + 1) * (size * 4) == y * (size * 4) + size * 4;
  }

  lemma OffsetsApart(size: nat, x: nat, y: nat, u: nat, v: nat)
    requires x < size && u < size && (x != u || y != v)
    ensures Offset(size, x, y) + 4 <= Offset(size, u, v) || Offset(size, u, v) + 4 <= Offset(size, x, y)
  {
    if y < v {
      MulMonotone(y + 1, v, size * 4);
      assert (y + 1) * (size * 4) == y * (size * 4) + size * 4;
    } else if v < y {
      MulMonotone(v + 1, y, size * 4);
      assert (v + 1) * (size * 4) == v * (size * 4) + size * 4;
    }
  }

  predicate Shows(pix: seq<byte>, o: int, c: Color) {
    0 <= o && o + 4 <= |pix| && pix[o] == c.r && pix[o + 1] == c.g && pix[o + 2] == c.b && pix[o + 3] == OPAQUE
  }

  // Pixels are stored row by row, four bytes each: red, green, blue and full opacity.
  lemma BytesOfPixel(pix: seq<byte>, size: nat, x: nat, y: nat, c: Color)
    requires Shows(pix, Offset(size, x, y), c)
    ensures var o := 4 * (y * size + x);
            o + 3 < |pix| && pix[o] == c.r && pix[o + 1] == c.g && pix[o + 2] == c.b && pix[o + 3] == 255
  {
    assert y * (size * 4) == 4 * (y * size);
  }

  ghost predicate SamePixel(a: seq<byte>, b: seq<byte>, o: int) {
    0 <= o && o + 4 <= |a| == |b| && a[o..o + 4] == b[o..o + 4]
  }

  lemma SamePixelShows(a: seq<byte>, b: seq<byte>, o: int, c: Color)
    requires SamePixel(a, b, o)
    ensures Shows(a, o, c) == Shows(b, o, c)
  {
    assert a[o..o + 4][0] == b[o..o + 4][0] && a[o..o + 4][1] == b[o..o + 4][1];
    assert a[o..o + 4][2] == b[o..o + 4][2] && a[o..o + 4][3] == b[o..o + 4][3];
  }

  class Image {
    const size: nat
    const pix: array<byte>

    ghost predicate Valid()
    {
      pix.Length == size * size * 4
    }

    constructor (size: nat)
      ensures Valid() && this.size == size && fresh(pix)
    {
      this.size := size;
      pix := new byte[size * size * 4](_ => 0);
    }

    // Paint the pixels of one row from column x0 up to x1.
    method FillRow(y: nat, x0: nat, x1: nat, c: Color)
      requires Valid() && x0 <= x1 <= size && y < size
      modifies pix
      ensures forall x: nat :: x0 <= x < x1 ==> Shows(pix[..], Offset(size, x, y), c)
      ensures forall u: nat, v: nat :: u < size && v < size && !(v == y && x0 <= u < x1) ==>
                SamePixel(old(pix[..]), pix[..], Offset(size, u, v))
    {
      ghost var before := pix[..];
      forall u: nat, v: nat | u < size && v < size ensures SamePixel(before, pix[..], Offset(size, u, v)) {
        OffsetInside(size, u, v);
      }
      for x := x0 to x1
        invariant forall k: nat :: x0 <= k < x ==> Shows(pix[..], Offset(size, k, y), c)
        invariant forall u: nat, v: nat :: u < size && v < size && !(v == y && x0 <= u < x) ==>
                    SamePixel(before, pix[..], Offset(size, u, v))
      {
        ghost var now := pix[..];
        var o := Offset(size, x, y);
        OffsetInside(size, x, y);
        pix[o] := c.r;
        pix[o + 1] := c.g;
        pix[o + 2] := c.b;
        pix[o + 3] := OPAQUE;
        forall u: nat, v: nat | u < size && v < size && (u != x || v != y)
          ensures SamePixel(now, pix[..], Offset(size, u, v)) {
          OffsetInside(size, u, v);
          OffsetsApart(size, x, y, u, v);
        }
        forall k: nat | x0 <= k < x ensures Shows(pix[..], Offset(size, k, y), c) {
          SamePixelShows(now, pix[..], Offset(size, k, y), c);
        }
      }
    }

    // Paint an axis-aligned rectangle; everything else keeps its bytes.
    method FillRect(x0: nat, y0: nat, x1: nat, y1: nat, c: Color)
      requires Valid() && x0 <= x1 <= size && y0 <= y1 <= size
      modifies pix
      ensures forall x: nat, y: nat :: x0 <= x < x1 && y0 <= y < y1 ==> Shows(pix[..], Offset(size, x, y), c)
      ensures forall u: nat, v: nat :: u < size && v < size && !(y0 <= v < y1 && x0 <= u < x1) ==>
                SamePixel(old(pix[..]), pix[..], Offset(size, u, v))
    {
      ghost var before := pix[..];
      forall u: nat, v: nat | u < size && v < size ensures SamePixel(before, pix[..], Offset(size, u, v)) {
        OffsetInside(size, u, v);
      }
      for y := y0 to y1
        invariant forall x: nat, k: nat :: x0 <= x < x1 && y0 <= k < y ==> Shows(pix[..], Offset(size, x, k), c)
        invariant forall u: nat, v: nat :: u < size && v < size && !(y0 <= v < y && x0 <= u < x1) ==>
                    SamePixel(before, pix[..], Offset(size, u, v))
      {
        ghost var now := pix[..];
        FillRow(y, x0, x1, c);
        forall x: nat, k: nat | x0 <= x < x1 && y0 <= k < y ensures Shows(pix[..], Offset(size, x, k), c) {
          SamePixelShows(now, pix[..], Offset(size, x, k), c);
        }
      }
    }

    // The first row pixel by pixel, every other row a copy of it.
    method FillAll(c: Color)
      requires Valid()
      modifies pix
      ensures forall x: nat, y: nat :: x < size && y < size ==> Shows(pix[..], Offset(size, x, y), c)
    {
      if size == 0 {
        return;
      }
      FillRow(0, 0, size, c);
      for y := 1 to size
        invariant forall x: nat, k: nat :: x < size && k < y ==> Shows(pix[..], Offset(size, x, k), c)
      {
        CopyRow(y, c);
      }
    }

    method CopyRow(y: nat, ghost c: Color)
      requires Valid() && 0 < y < size
      requires forall x: nat, k: nat :: x < size && k < y ==> Shows(pix[..], Offset(size, x, k), c)
      modifies pix
      ensures forall x: nat, k: nat :: x < size && k <= y ==> Shows(pix[..], Offset(size, x, k), c)
    {
      ghost var before := pix[..];
      for x := 0 to size
        invariant forall u: nat :: u < x ==> Shows(pix[..], Offset(size, u, y), c)
        invariant forall u: nat, k: nat :: u < size && k < y ==> Shows(pix[..], Offset(size, u, k), c)
      {
        ghost var now := pix[..];
        var o, s := Offset(size, x, y), Offset(size, x, 0);
        OffsetInside(size, x, y);
        OffsetInside(size, x, 0);
        OffsetsApart(size, x, y, x, 0);
        pix[o], pix[o + 1], pix[o + 2], pix[o + 3] := pix[s], pix[s + 1], pix[s + 2], pix[s + 3];
        forall u: nat, k: nat | u < size && k <= y && (u != x || k != y) && Shows(now, Offset(size, u, k), c)
          ensures Shows(pix[..], Offset(size, u, k), c) {
          OffsetsApart(size, x, y, u, k);
        }
      }
    }

    // The crisp part of a render: background, then every plain run snapped to its edges. Rounded runs are
    // returned for the anti-aliased pass.
    method RenderPlain(g: Geometry, fg: Color, bg: Color) returns (curved: seq<Run>)
      requires Valid() && size > 0 && g.total > 0
      requires forall r :: r in g.runs ==> RunInside(g.total, r)
      modifies pix
      ensures forall px: nat, py: nat :: px < size && py < size ==>
                Shows(pix[..], Offset(size, px, py),
                      if Painted(NewLayout(size, g.total), g.runs, |g.runs|, px, py) then fg else bg)
      ensures forall r :: r in curved <==> r in g.runs && r.corners != PLAIN
    {
      var lay := NewLayout(size, g.total);
      curved := [];
      FillAll(bg);
      for i := 0 to |g.runs|
        invariant forall px: nat, py: nat :: px < size && py < size ==>
                    Shows(pix[..], Offset(size, px, py), if Painted(lay, g.runs, i, px, py) then fg else bg)
        invariant forall r :: r in curved <==> r in g.runs[..i] && r.corners != PLAIN
      {
        var r := g.runs[i];
        assert g.runs[..i + 1] == g.runs[..i] + [r];
        if r.corners != PLAIN {
          curved := curved + [r];
        } else {
          assert RunInside(g.total, r);
          RunEdges(size, g.total, r);
          ghost var now := pix[..];
          FillRect(Edge(lay, r.x), Edge(lay, r.y), Edge(lay, r.x + r.w), Edge(lay, r.y + 1), fg);
          forall px: nat, py: nat | px < size && py < size
            ensures Shows(pix[..], Offset(size, px, py), if Painted(lay, g.runs, i + 1, px, py) then fg else bg) {
            if !RunPaints(lay, r, px, py) {
              SamePixelShows(now, pix[..], Offset(size, px, py), if Painted(lay, g.runs, i, px, py) then fg else bg);
            }
          }
        }
      }
      assert g.runs[..|g.runs|] == g.runs;
    }
  }

  // ---- what the painted runs amount to ----

  predicate RunInside(total: int, r: Run) { 0 <= r.x && 0 < r.w && r.x + r.w <= total && 0 <= r.y < total }

  ghost predicate RunPaints(l: Layout, r: Run, px: int, py: int)
    requires l.Fractional? ==> l.total > 0
  {
    Edge(l, r.x) <= px < Edge(l, r.x + r.w) && Edge(l, r.y) <= py < Edge(l, r.y + 1)
  }

  // One of the first n plain runs covers the pixel.
  ghost predicate Painted(l: Layout, runs: seq<Run>, n: nat, px: int, py: int)
    requires n <= |runs| && (l.Fractional? ==> l.total > 0)
  {
    exists i :: 0 <= i < n && runs[i].corners == PLAIN && RunPaints(l, runs[i], px, py)
  }

  lemma RunEdges(size: int, total: int, r: Run)
    requires size > 0 && total > 0 && RunInside(total, r)
    ensures var l := NewLayout(size, total);
            && 0 <= Edge(l, r.x) <= Edge(l, r.x + r.w) <= size
            && 0 <= Edge(l, r.y) <= Edge(l, r.y + 1) <= size
  {
    EdgesFit(size, total);
    EdgeMonotone(size, total, 0, r.x);
    EdgeMonotone(size, total, r.x, r.x + r.w);
    EdgeMonotone(size, total, r.x + r.w, total);
    EdgeMonotone(size, total, 0, r.y);
    EdgeMonotone(size, total, r.y, r.y + 1);
    EdgeMonotone(size, total, r.y + 1, total);
  }

  // A pixel owned by a module of a run's columns lies between the run's edges, and the other way round.
  lemma RunOwnsColumns(size: int, total: int, x: int, w: int, m: int, p: int)
    requires size > 0 && total > 0 && Owns(NewLayout(size, total), m, p)
    ensures Edge(NewLayout(size, total), x) <= p < Edge(NewLayout(size, total), x + w) <==> x <= m < x + w
  {
    if x <= m {
      EdgeMonotone(size, total, x, m);
    } else {
      EdgeMonotone(size, total, m + 1, x);
    }
    if m < x + w {
      EdgeMonotone(size, total, m + 1, x + w);
    } else {
      EdgeMonotone(size, total, x + w, m);
    }
  }

  lemma PaintedIsCovered(size: int, g: Geometry, mx: int, my: int, px: int, py: int)
    requires size > 0 && g.total > 0
    requires Owns(NewLayout(size, g.total), mx, px) && Owns(NewLayout(size, g.total), my, py)
    ensures Painted(NewLayout(size, g.total), g.runs, |g.runs|, px, py) <==> SquareAt(g, mx, my)
  {
    forall i | 0 <= i < |g.runs|
      ensures RunPaints(NewLayout(size, g.total), g.runs[i], px, py) == Covers(g.runs[i], mx, my) {
      var r := g.runs[i];
      RunOwnsColumns(size, g.total, r.x, r.w, mx, px);
      RunOwnsColumns(size, g.total, r.y, 1, my, py);
    }
  }

  lemma {:induction false} CoverFromRun(runs: seq<Run>, i: nat, x: int, y: int)
    requires i < |runs| && Covers(runs[i], x, y)
    ensures RunsOver(runs, x, y) > 0
    decreases |runs|
  {
    if i < |runs| - 1 {
      CoverFromRun(runs[..|runs| - 1], i, x, y);
    }
  }

  // Every run of an exact cover lies inside the image, since only modules of the symbol are dark.
  lemma CoverStaysInside(sym: Symbol, hole: Option<Rect>, margin: int, g: Geometry, r: Run)
    requires sym.Valid() && margin >= 0 && g.total == sym.size + 2 * margin && ExactCover(sym, hole, margin, g)
    requires r in g.runs && r.w > 0
    ensures RunInside(g.total, r)
  {
    var i :| 0 <= i < |g.runs| && g.runs[i] == r;
    CoverFromRun(g.runs, i, r.x, r.y);
    CoverFromRun(g.runs, i, r.x + r.w - 1, r.y);
    assert CoverCount(g.runs, g.dots, r.x, r.y) > 0;
    assert CoverCount(g.runs, g.dots, r.x + r.w - 1, r.y) > 0;
  }

  // A module of a square-shaped cover is dark exactly when a plain rectangle covers it.
  lemma SquareCover(sym: Symbol, hole: Option<Rect>, margin: int, g: Geometry, x: int, y: int)
    requires sym.Valid() && ExactCover(sym, hole, margin, g)
    requires forall r :: r in g.runs ==> RunOk(sym, hole, Square, margin, r)
    requires forall d :: d in g.dots ==> DotOk(sym, Square, margin, d)
    ensures SquareAt(g, x, y) <==> IsDark(sym, hole, x - margin, y - margin)
  {
    assert CoverCount(g.runs, g.dots, x, y) == if IsDark(sym, hole, x - margin, y - margin) then 1 else 0;
    if DotsOn(g.dots, x, y) > 0 {
      SomeDotOn(g.dots, x, y);
    }
    if RunsOver(g.runs, x, y) > 0 {
      SomeRunCovers(g.runs, x, y);
      var i :| 0 <= i < |g.runs| && Covers(g.runs[i], x, y);
      assert RunOk(sym, hole, Square, margin, g.runs[i]);
    }
    if SquareAt(g, x, y) {
      var i :| 0 <= i < |g.runs| && Covers(g.runs[i], x, y);
      CoverFromRun(g.runs, i, x, y);
    }
  }

  ghost predicate PixelDark(sym: Symbol, hole: Option<Rect>, margin: int, l: Layout, px: int, py: int)
    requires sym.Valid() && (l.Fractional? ==> l.total > 0)
  {
    exists mx, my :: Owns(l, mx, px) && Owns(l, my, py) && IsDark(sym, hole, mx - margin, my - margin)
  }

  lemma PaintedIsDark(sym: Symbol, hole: Option<Rect>, margin: int, size: int, g: Geometry, px: int, py: int)
    requires sym.Valid() && margin >= 0 && size > 0 && g.total > 0 && g.total == sym.size + 2 * margin
    requires ExactCover(sym, hole, margin, g)
    requires forall r :: r in g.runs ==> RunOk(sym, hole, Square, margin, r)
    requires forall d :: d in g.dots ==> DotOk(sym, Square, margin, d)
    ensures Painted(NewLayout(size, g.total), g.runs, |g.runs|, px, py)
            <==> PixelDark(sym, hole, margin, NewLayout(size, g.total), px, py)
  {
    var l := NewLayout(size, g.total);
    if Painted(l, g.runs, |g.runs|, px, py) {
      var i :| 0 <= i < |g.runs| && g.runs[i].corners == PLAIN && RunPaints(l, g.runs[i], px, py);
      var r := g.runs[i];
      assert RunOk(sym, hole, Square, margin, r);
      CoverStaysInside(sym, hole, margin, g, r);
      EdgeMonotone(size, g.total, 0, r.x);
      EdgeMonotone(size, g.total, 0, r.y);
      var mx := OwnerExists(size, g.total, r.x + r.w, px);
      var my := OwnerExists(size, g.total, r.y + 1, py);
      PaintedIsCovered(size, g, mx, my, px, py);
      SquareCover(sym, hole, margin, g, mx, my);
    }
    if PixelDark(sym, hole, margin, l, px, py) {
      var mx, my :| Owns(l, mx, px) && Owns(l, my, py) && IsDark(sym, hole, mx - margin, my - margin);
      PaintedIsCovered(size, g, mx, my, px, py);
      SquareCover(sym, hole, margin, g, mx, my);
    }
  }

  // Square modules: for every symbol, hole, margin and size, each pixel shows the foreground exactly when the
  // module owning its column and row is dark and outside the hole.
  method RenderSquare(sym: Symbol, hole: Option<Rect>, margin: int, size: nat, fg: Color, bg: Color)
    returns (img: Image)
    requires sym.Valid() && sym.size > 0 && margin >= 0 && size > 0
    ensures img.Valid() && img.size == size
    ensures forall px: nat, py: nat :: px < size && py < size ==>
              Shows(img.pix[..], Offset(size, px, py),
                    if PixelDark(sym, hole, margin, NewLayout(size, sym.size + 2 * margin), px, py) then fg else bg)
  {
    var g := ComputeGeometry(sym, Square, margin, hole);
    forall r | r in g.runs ensures RunInside(g.total, r) {
      assert RunOk(sym, hole, Square, margin, r);
      CoverStaysInside(sym, hole, margin, g, r);
    }
    img := new Image(size);
    var curved := img.RenderPlain(g, fg, bg);
    forall px: nat, py: nat | px < size && py < size
      ensures Painted(NewLayout(size, g.total), g.runs, |g.runs|, px, py)
              == PixelDark(sym, hole, margin, NewLayout(size, g.total), px, py) {
      PaintedIsDark(sym, hole, margin, size, g, px, py);
    }
  }
}
