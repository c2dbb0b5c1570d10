// From a grid of dark modules to runs and dots: an exact cover, with finder patterns kept square.

module Geometries {
  import opened Domain

  datatype Shape = Square | Dotted | Rounded

  datatype Rect = Rect(minX: int, minY: int, maxX: int, maxY: int)

  datatype Corners = Corners(tl: bool, tr: bool, br: bool, bl: bool)

  const PLAIN := Corners(false, false, false, false)

  datatype Run = Run(x: int, y: int, w: int, corners: Corners)

  datatype Dot = Dot(x: int, y: int)

  datatype Geometry = Geometry(total: int, runs: seq<Run>, dots: seq<Dot>, hole: Option<Rect>)

  predicate InRect(r: Rect, x: int, y: int) { r.minX <= x < r.maxX && r.minY <= y < r.maxY }

  // A module grid, row by row.
  datatype Symbol = Symbol(size: nat, dark: seq<seq<bool>>) {
    ghost predicate Valid() { |dark| == size && forall y :: 0 <= y < size ==> |dark[y]| == size }

    // Out-of-range coordinates are light.
    predicate Module(x: int, y: int)
      requires Valid()
    {
      if x < 0 || y < 0 || x >= size || y >= size then false else dark[y][x]
    }
  }

  // Dark and not cleared for the logo.
  predicate IsDark(sym: Symbol, hole: Option<Rect>, x: int, y: int)
    requires sym.Valid()
  {
    !(hole.Some? && InRect(hole.value, x, y)) && sym.Module(x, y)
  }

  predicate InFinder(n: int, x: int, y: int) {
    (x < 7 && y < 7) || (x >= n - 7 && y < 7) || (x < 7 && y >= n - 7)
  }

  // A module is dark if the grid says so and it lies outside the hole; nothing is dark outside the grid.
  lemma DarkMeans(sym: Symbol, hole: Option<Rect>, x: int, y: int)
    requires sym.Valid()
    ensures IsDark(sym, hole, x, y) <==>
            && 0 <= x < sym.size && 0 <= y < sym.size && sym.dark[y][x]
            && (hole.Some? ==>
                  x < hole.value.minX || hole.value.maxX <= x || y < hole.value.minY || hole.value.maxY <= y)
  {
  }

  // The finder patterns: the seven modules at each end, both ways, but for the lower right corner.
  lemma FindersAre(n: int, x: int, y: int)
    requires n >= 14 && 0 <= x < n && 0 <= y < n
    ensures InFinder(n, x, y) <==>
            (x < 7 || n - 7 <= x) && (y < 7 || n - 7 <= y) && (x < n - 7 || y < n - 7)
  {
  }

  // ---- covering ----

  predicate Covers(r: Run, x: int, y: int) { r.y == y && r.x <= x < r.x + r.w }

  function RunsOver(runs: seq<Run>, x: int, y: int): nat {
    if runs == [] then 0
    else RunsOver(runs[..|runs| - 1], x, y) + (if Covers(runs[|runs| - 1], x, y) then 1 else 0)
  }

  function DotsOn(dots: seq<Dot>, x: int, y: int): nat {
    if dots == [] then 0
    else DotsOn(dots[..|dots| - 1], x, y) + (if dots[|dots| - 1] == Dot(x, y) then 1 else 0)
  }

  function CoverCount(runs: seq<Run>, dots: seq<Dot>, x: int, y: int): nat { RunsOver(runs, x, y) + DotsOn(dots, x, y) }

  // Dark modules are covered once, others not at all; margin translates symbol to geometry coordinates.
  ghost predicate ExactCover(sym: Symbol, hole: Option<Rect>, margin: int, g: Geometry)
    requires sym.Valid()
  {
    forall x, y {:trigger CoverCount(g.runs, g.dots, x, y)} ::
      CoverCount(g.runs, g.dots, x, y) == if IsDark(sym, hole, x - margin, y - margin) then 1 else 0
  }

  // The corner a rounded run shows at each end: rounded where the neighbour above or below is light.
  ghost predicate CornersOk(sym: Symbol, hole: Option<Rect>, shape: Shape, margin: int, r: Run)
    requires sym.Valid()
  {
    var x, y := r.x - margin, r.y - margin;
    if shape == Rounded && !InFinder(sym.size, x, y) then
      && r.corners.tl == !IsDark(sym, hole, x, y - 1) && r.corners.tr == !IsDark(sym, hole, x + r.w - 1, y - 1)
      && r.corners.bl == !IsDark(sym, hole, x, y + 1) && r.corners.br == !IsDark(sym, hole, x + r.w - 1, y + 1)
    else !r.corners.tl && !r.corners.tr && !r.corners.bl && !r.corners.br
  }

  predicate OneKind(n: int, x: int, y: int, w: int) {
    forall m :: x <= m < x + w ==> InFinder(n, m, y) == InFinder(n, x, y)
  }

  // The module and its right neighbour belong together: both dark and, unless modules are square, of one kind.
  ghost predicate Joined(sym: Symbol, hole: Option<Rect>, shape: Shape, x: int, y: int)
    requires sym.Valid()
  {
    && IsDark(sym, hole, x, y) && IsDark(sym, hole, x + 1, y)
    && (shape == Square || InFinder(sym.size, x, y) == InFinder(sym.size, x + 1, y))
  }

  // Runs are not empty and stop only where modules do not belong together; unless modules are square, no run mixes
  // finder and data modules.
  ghost predicate RunOk(sym: Symbol, hole: Option<Rect>, shape: Shape, margin: int, r: Run)
    requires sym.Valid()
  {
    && r.w > 0
    && CornersOk(sym, hole, shape, margin, r)
    && !Joined(sym, hole, shape, r.x - margin - 1, r.y - margin)
    && !Joined(sym, hole, shape, r.x - margin + r.w - 1, r.y - margin)
    && (shape != Square ==> OneKind(sym.size, r.x - margin, r.y - margin, r.w))
    && (shape == Dotted ==> InFinder(sym.size, r.x - margin, r.y - margin))
  }

  ghost predicate DotOk(sym: Symbol, shape: Shape, margin: int, d: Dot) {
    shape == Dotted && !InFinder(sym.size, d.x - margin, d.y - margin)
  }

  ghost predicate Swept(sym: Symbol, hole: Option<Rect>, margin: int, runs: seq<Run>, dots: seq<Dot>, sx: int, sy: int)
    requires sym.Valid()
  {
    forall x, y {:trigger CoverCount(runs, dots, x, y)} ::
      CoverCount(runs, dots, x, y)
      == if IsDark(sym, hole, x - margin, y - margin) && (y - margin < sy || (y - margin == sy && x - margin < sx))
           then 1 else 0
  }

  // The run that starts at a dark module: extended while the next module is dark and of the same kind.
  method RunFrom(sym: Symbol, shape: Shape, margin: int, hole: Option<Rect>, x: int, y: int) returns (run: Run)
    requires sym.Valid() && 0 <= x < sym.size && 0 <= y < sym.size && IsDark(sym, hole, x, y)
    requires !Joined(sym, hole, shape, x - 1, y) && (shape == Dotted ==> InFinder(sym.size, x, y))
    ensures run.x == x + margin && run.y == y + margin && run.w > 0 && x + run.w <= sym.size
    ensures forall m :: x <= m < x + run.w ==> IsDark(sym, hole, m, y)
    ensures RunOk(sym, hole, shape, margin, run) && !Joined(sym, hole, shape, x + run.w - 1, y)
  {
    var n := sym.size;
    var w := 1;
    while x + w < n && IsDark(sym, hole, x + w, y)
      && (shape == Square || InFinder(n, x + w, y) == InFinder(n, x, y))
      invariant 1 <= w && x + w <= n
      invariant forall m :: x <= m < x + w ==> IsDark(sym, hole, m, y)
      invariant shape != Square ==> forall m :: x <= m < x + w ==> InFinder(n, m, y) == InFinder(n, x, y)
    {
      w := w + 1;
    }
    var corners := PLAIN;
    if shape == Rounded && !InFinder(n, x, y) {
      corners := Corners(!IsDark(sym, hole, x, y - 1), !IsDark(sym, hole, x + w - 1, y - 1),
                         !IsDark(sym, hole, x + w - 1, y + 1), !IsDark(sym, hole, x, y + 1));
    }
    run := Run(x + margin, y + margin, w, corners);
  }

  // Scan row by row; extend each run while the next module is dark and of the same kind.
  method ComputeGeometry(sym: Symbol, shape: Shape, margin: int, hole: Option<Rect>) returns (g: Geometry)
    requires sym.Valid()
    ensures g.total == sym.size + 2 * margin
    ensures hole.Some? ==> g.hole == Some(Rect(hole.value.minX + margin, hole.value.minY + margin,
                                               hole.value.maxX + margin, hole.value.maxY + margin))
    ensures hole.None? ==> g.hole == None
    ensures ExactCover(sym, hole, margin, g)
    ensures forall r :: r in g.runs ==> RunOk(sym, hole, shape, margin, r)
    ensures forall d :: d in g.dots ==> DotOk(sym, shape, margin, d)
  {
    hide CornersOk, OneKind, Swept, ExactCover;
    var n := sym.size;
    var runs: seq<Run>, dots: seq<Dot> := [], [];
    NothingSwept(sym, hole, margin);
    var y := 0;
    while y < n
      invariant 0 <= y <= n
      invariant Swept(sym, hole, margin, runs, dots, 0, y)
      invariant forall r :: r in runs ==> RunOk(sym, hole, shape, margin, r)
      invariant forall d :: d in dots ==> DotOk(sym, shape, margin, d)
    {
      var x := 0;
      while x < n
        invariant 0 <= x <= n
        invariant Swept(sym, hole, margin, runs, dots, x, y)
        invariant !Joined(sym, hole, shape, x - 1, y) || (shape == Dotted && !InFinder(n, x, y))
        invariant forall r :: r in runs ==> RunOk(sym, hole, shape, margin, r)
        invariant forall d :: d in dots ==> DotOk(sym, shape, margin, d)
      {
        if !IsDark(sym, hole, x, y) {
          SweepLight(sym, hole, margin, runs, dots, x, y);
          x := x + 1;
        } else if shape == Dotted && !InFinder(n, x, y) {
          SweepDot(sym, hole, margin, runs, dots, x, y);
          dots := dots + [Dot(x + margin, y + margin)];
          x := x + 1;
        } else {
          var run := RunFrom(sym, shape, margin, hole, x, y);
          SweepRun(sym, hole, margin, runs, dots, x, y, run);
          runs := runs + [run];
          x := x + run.w;
        }
      }
      EndOfRow(sym, hole, margin, runs, dots, y);
      y := y + 1;
    }
    var shifted := if hole.Some?
      then Some(Rect(hole.value.minX + margin, hole.value.minY + margin,
                     hole.value.maxX + margin, hole.value.maxY + margin))
      else None;
    g := Geometry(n + 2 * margin, runs, dots, shifted);
    EndOfSymbol(sym, hole, margin, g);
  }

  lemma NothingSwept(sym: Symbol, hole: Option<Rect>, margin: int)
    requires sym.Valid()
    ensures Swept(sym, hole, margin, [], [], 0, 0)
  {
  }

  lemma SweepLight(sym: Symbol, hole: Option<Rect>, margin: int, runs: seq<Run>, dots: seq<Dot>, sx: int, sy: int)
    requires sym.Valid() && Swept(sym, hole, margin, runs, dots, sx, sy) && !IsDark(sym, hole, sx, sy)
    ensures Swept(sym, hole, margin, runs, dots, sx + 1, sy)
  {
  }

  lemma SweepDot(sym: Symbol, hole: Option<Rect>, margin: int, runs: seq<Run>, dots: seq<Dot>, sx: int, sy: int)
    requires sym.Valid() && Swept(sym, hole, margin, runs, dots, sx, sy) && IsDark(sym, hole, sx, sy)
    ensures Swept(sym, hole, margin, runs, dots + [Dot(sx + margin, sy + margin)], sx + 1, sy)
  {
    var more := dots + [Dot(sx + margin, sy + margin)];
    assert more[..|more| - 1] == dots;
    forall x, y ensures CoverCount(runs, more, x, y)
      == if IsDark(sym, hole, x - margin, y - margin) && (y - margin < sy || (y - margin == sy && x - margin < sx + 1))
           then 1 else 0 {
      var c := CoverCount(runs, dots, x, y);
      assert c == if IsDark(sym, hole, x - margin, y - margin)
               && (y - margin < sy || (y - margin == sy && x - margin < sx)) then 1 else 0;
    }
  }

  lemma SweepRun(sym: Symbol, hole: Option<Rect>, margin: int, runs: seq<Run>, dots: seq<Dot>, sx: int, sy: int,
                 run: Run)
    requires sym.Valid() && Swept(sym, hole, margin, runs, dots, sx, sy)
    requires run.x == sx + margin && run.y == sy + margin && run.w > 0
    requires forall m :: sx <= m < sx + run.w ==> IsDark(sym, hole, m, sy)
    ensures Swept(sym, hole, margin, runs + [run], dots, sx + run.w, sy)
  {
    var more := runs + [run];
    assert more[..|more| - 1] == runs;
    forall x, y ensures CoverCount(more, dots, x, y)
      == if IsDark(sym, hole, x - margin, y - margin)
           && (y - margin < sy || (y - margin == sy && x - margin < sx + run.w)) then 1 else 0 {
      var c := CoverCount(runs, dots, x, y);
      assert c == if IsDark(sym, hole, x - margin, y - margin)
               && (y - margin < sy || (y - margin == sy && x - margin < sx)) then 1 else 0;
    }
  }

  lemma EndOfRow(sym: Symbol, hole: Option<Rect>, margin: int, runs: seq<Run>, dots: seq<Dot>, sy: int)
    requires sym.Valid() && Swept(sym, hole, margin, runs, dots, sym.size, sy)
    ensures Swept(sym, hole, margin, runs, dots, 0, sy + 1)
  {
  }

  lemma EndOfSymbol(sym: Symbol, hole: Option<Rect>, margin: int, g: Geometry)
    requires sym.Valid() && Swept(sym, hole, margin, g.runs, g.dots, 0, sym.size)
    ensures ExactCover(sym, hole, margin, g)
  {
  }

  // ---- reading the cover back ----

  // A plain rectangle covers the module.
  ghost predicate SquareAt(g: Geometry, x: int, y: int) {
    exists i :: 0 <= i < |g.runs| && g.runs[i].corners == PLAIN && Covers(g.runs[i], x, y)
  }

  method HasSquareAt(g: Geometry, x: int, y: int) returns (found: bool)
    ensures found == SquareAt(g, x, y)
  {
    for i := 0 to |g.runs|
      invariant forall j :: 0 <= j < i ==> !(g.runs[j].corners == PLAIN && Covers(g.runs[j], x, y))
    {
      if g.runs[i].corners == PLAIN && g.runs[i].y == y && x >= g.runs[i].x && x < g.runs[i].x + g.runs[i].w {
        return true;
      }
    }
    found := false;
  }

  lemma {:induction false} SomeRunCovers(runs: seq<Run>, x: int, y: int)
    requires RunsOver(runs, x, y) > 0
    ensures exists i :: 0 <= i < |runs| && Covers(runs[i], x, y)
    decreases |runs|
  {
    if !Covers(runs[|runs| - 1], x, y) {
      SomeRunCovers(runs[..|runs| - 1], x, y);
      var i :| 0 <= i < |runs| - 1 && Covers(runs[..|runs| - 1][i], x, y);
      assert Covers(runs[i], x, y);
    }
  }

  lemma {:induction false} SomeDotOn(dots: seq<Dot>, x: int, y: int)
    requires DotsOn(dots, x, y) > 0
    ensures Dot(x, y) in dots
    decreases |dots|
  {
    if dots[|dots| - 1] != Dot(x, y) {
      SomeDotOn(dots[..|dots| - 1], x, y);
    }
  }

  // Whatever the shape, every dark finder module that the hole spares is covered by a plain rectangle.
  lemma FindersStaySquare(sym: Symbol, hole: Option<Rect>, shape: Shape, margin: int, g: Geometry, x: int, y: int)
    requires sym.Valid() && ExactCover(sym, hole, margin, g)
    requires forall r :: r in g.runs ==> RunOk(sym, hole, shape, margin, r)
    requires forall d :: d in g.dots ==> DotOk(sym, shape, margin, d)
    requires InFinder(sym.size, x, y) && IsDark(sym, hole, x, y)
    ensures SquareAt(g, x + margin, y + margin)
  {
    assert CoverCount(g.runs, g.dots, x + margin, y + margin) == 1;
    if RunsOver(g.runs, x + margin, y + margin) == 0 {
      SomeDotOn(g.dots, x + margin, y + margin);
    } else {
      SomeRunCovers(g.runs, x + margin, y + margin);
      var i :| 0 <= i < |g.runs| && Covers(g.runs[i], x + margin, y + margin);
      var r := g.runs[i];
      assert RunOk(sym, hole, shape, margin, r);
      assert shape != Square ==> InFinder(sym.size, x, r.y - margin) == InFinder(sym.size, r.x - margin, r.y - margin);
      assert r.corners == PLAIN;
    }
  }
}
