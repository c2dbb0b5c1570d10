// The square a logo clears, and the error-correction level that must carry it.

module LogoHoles {
  import opened Domain
  import opened Geometries

  // ---- codeword area ----

  // The number of codeword modules of a version, as the code computes it.
  method RawDataModules(v: int) returns (result: int)
    requires 1 <= v <= 40
    ensures result == CodewordArea(v) == CODEWORD_AREAS[v - 1]
  {
    result := (16 * v + 128) * v + 64;
    if v >= 2 {
      var numAlign := v / 7 + 2;
      result := result - ((25 * numAlign - 10) * numAlign - 55);
      if v >= 7 {
        result := result - 36;
      }
    }
    ClosedForm(v);
    AreaIsTabulated(v);
  }

  // ISO/IEC 18004:2015, Table 1: data capacity in modules of versions 1 to 40.
  const CODEWORD_AREAS: seq<int> := [
    208, 359, 567, 807, 1079, 1383, 1568, 1936, 2336, 2768,
    3232, 3728, 4256, 4651, 5243, 5867, 6523, 7211, 7931, 8683,
    9252, 10068, 10916, 11796, 12708, 13652, 14628, 15371, 16411, 17483,
    18587, 19723, 20891, 22091, 23008, 24272, 25568, 26896, 28256, 29648]

  // The same area counted from the symbol's function patterns (ISO/IEC 18004): the whole square, less three
  // finders with separators, two timing lines, format information with the dark module, version
  // information, and the alignment patterns, of which those on a timing line share five modules with it.
  function CodewordArea(v: int): int {
    var n := 4 * v + 17;
    var a := if v >= 2 then v / 7 + 2 else 0;
    var alignment := if v >= 2 then (a * a - 3) * 25 - 2 * (a - 2) * 5 else 0;
    n * n - 3 * 64 - 2 * (n - 16) - 31 - (if v >= 7 then 36 else 0) - alignment
  }

  // The area is the tabulated one for every version there is.
  lemma AreaIsTabulated(v: int)
    requires 1 <= v <= 40
    ensures CodewordArea(v) == CODEWORD_AREAS[v - 1]
  {
    hide CodewordArea;
    if v <= 10 {
      AreasTo10();
    } else if v <= 20 {
      AreasTo20();
    } else if v <= 30 {
      AreasTo30();
    } else {
      AreasTo40();
    }
  }

  lemma AreasTo10()
    ensures CodewordArea(1) == 208 && CodewordArea(2) == 359 && CodewordArea(3) == 567 && CodewordArea(4) == 807
    ensures CodewordArea(5) == 1079 && CodewordArea(6) == 1383 && CodewordArea(7) == 1568 && CodewordArea(8) == 1936
    ensures CodewordArea(9) == 2336 && CodewordArea(10) == 2768
  {
  }

  lemma AreasTo20()
    ensures CodewordArea(11) == 3232 && CodewordArea(12) == 3728 && CodewordArea(13) == 4256 && CodewordArea(14) == 4651
    ensures CodewordArea(15) == 5243 && CodewordArea(16) == 5867 && CodewordArea(17) == 6523 && CodewordArea(18) == 7211
    ensures CodewordArea(19) == 7931 && CodewordArea(20) == 8683
  {
  }

  lemma AreasTo30()
    ensures CodewordArea(21) == 9252 && CodewordArea(22) == 10068 && CodewordArea(23) == 10916
    ensures CodewordArea(24) == 11796
    ensures CodewordArea(25) == 12708 && CodewordArea(26) == 13652 && CodewordArea(27) == 14628
    ensures CodewordArea(28) == 15371
    ensures CodewordArea(29) == 16411 && CodewordArea(30) == 17483
  {
  }

  lemma AreasTo40()
    ensures CodewordArea(31) == 18587 && CodewordArea(32) == 19723 && CodewordArea(33) == 20891
    ensures CodewordArea(34) == 22091
    ensures CodewordArea(35) == 23008 && CodewordArea(36) == 24272 && CodewordArea(37) == 25568
    ensures CodewordArea(38) == 26896
    ensures CodewordArea(39) == 28256 && CodewordArea(40) == 29648
  {
  }

  lemma ClosedForm(v: int)
    requires 1 <= v <= 40
    ensures CodewordArea(v)
            == (16 * v + 128) * v + 64 - (if v >= 2 then (25 * (v / 7 + 2) - 10) * (v / 7 + 2) - 55 else 0)
               - (if v >= 7 then 36 else 0)
  {
    assert (4 * v + 17) * (4 * v + 17) == 16 * v * v + 136 * v + 289;
    var a := v / 7 + 2;
    assert (a * a - 3) * 25 - 2 * (a - 2) * 5 == 25 * a * a - 10 * a - 55;
    assert (25 * a - 10) * a - 55 == 25 * a * a - 10 * a - 55;
  }

  // ---- the hole ----

  // Largest integer whose square does not exceed m.
  method FloorSqrt(m: nat) returns (r: nat)
    ensures r * r <= m < (r + 1) * (r + 1)
  {
    r := 0;
    while (r + 1) * (r + 1) <= m
      invariant r * r <= m
      decreases m - r
    {
      r := r + 1;
    }
  }

  // Odd, centred, clear of every finder by a full module, and no larger than the scale allows unless it had
  // to be widened to the smallest side that shows any of the logo.
  ghost predicate GoodHole(n: int, scale: real, area: int, h: Rect) {
    var side := h.maxX - h.minX;
    && h.maxY - h.minY == side && h.minX == h.minY
    && side % 2 == 1 && side >= 3
    && h.minX == n - h.maxX
    && h.minX >= 8
    && (side == 3 || (side * side) as real <= scale * area as real)
  }

  method LogoHole(n: int, scale: real) returns (h: Rect)
    requires n % 4 == 1 && 21 <= n <= 177 && scale >= 0.0
    ensures GoodHole(n, scale, CodewordArea((n - 17) / 4), h)
    ensures Largest(n, scale, CodewordArea((n - 17) / 4), h)
  {
    hide CodewordArea, GoodHole, Largest;
    var raw := RawDataModules((n - 17) / 4);
    AreaPositive((n - 17) / 4);
    Product(scale, raw as real);
    var root := FloorSqrt((scale * raw as real).Floor);
    var side := OddSide(n, root);
    var start := (n - side) / 2;
    h := Rect(start, start, start + side, start + side);
    SideFits(n, scale, raw, root, side);
  }

  // Make the side odd, at least three, and at least eight modules short of each edge.
  method OddSide(n: int, root: nat) returns (side: int)
    requires n % 2 == 1 && n >= 21
    ensures side % 2 == 1 && 3 <= side <= n - 16 && (side > 3 ==> side <= root)
    ensures forall s: int :: s % 2 == 1 && side < s <= n - 16 ==> s > root
  {
    side := root;
    if side % 2 == 0 {
      side := side - 1;
    }
    if side < 3 {
      side := 3;
    }
    if side > n - 16 {
      side := n - 16;
      if side % 2 == 0 {
        side := side - 1;
      }
    }
  }

  lemma CentredOddSquare(n: int, side: int)
    requires n % 2 == 1 && side % 2 == 1 && side <= n - 16
    ensures var start := (n - side) / 2; start == n - (start + side) && start >= 8
  {
  }

  // The linear facts about the chosen side, turned into facts about its area.
  lemma SideFits(n: int, scale: real, area: int, root: nat, side: int)
    requires n % 2 == 1 && root * root <= (scale * area as real).Floor < (root + 1) * (root + 1)
    requires side % 2 == 1 && 3 <= side <= n - 16 && (side > 3 ==> side <= root)
    requires forall s: int :: s % 2 == 1 && side < s <= n - 16 ==> s > root
    ensures var start := (n - side) / 2;
            var h := Rect(start, start, start + side, start + side);
            GoodHole(n, scale, area, h) && Largest(n, scale, area, h)
  {
    var budget := scale * area as real;
    CentredOddSquare(n, side);
    if side > 3 {
      Squares(side, root);
    }
    forall s: int | s % 2 == 1 && side < s <= n - 16 ensures (s * s) as real > budget {
      Squares(root + 1, s);
    }
  }

  // No larger odd side would both clear the finders and stay within the scale.
  ghost predicate Largest(n: int, scale: real, area: int, h: Rect) {
    forall s: int :: s % 2 == 1 && h.maxX - h.minX < s <= n - 16 ==> (s * s) as real > scale * area as real
  }

  lemma AreaPositive(v: int)
    requires 1 <= v <= 40
    ensures CodewordArea(v) > 0
  {
    ClosedForm(v);
    var a := v / 7 + 2;
    assert 2 <= a <= 7;
    assert (25 * a - 10) * a <= 165 * 7;
    assert (16 * v + 128) * v >= 144 * v;
    if v >= 7 {
      assert (16 * v + 128) * v >= 240 * 7;
    } else {
      assert a == 2;
    }
  }

  lemma Product(a: real, b: real)
    requires a >= 0.0 && b >= 0.0
    ensures a * b >= 0.0
  {
  }

  lemma Squares(a: int, b: int)
    requires 0 <= a <= b
    ensures a * a <= b * b
  {
    assert a * a <= a * b;
    assert a * b <= b * b;
  }

  // The hole never touches a finder pattern, so clearing it leaves every finder module as it was.
  lemma HoleSparesFinders(sym: Symbol, scale: real, area: int, h: Rect, x: int, y: int)
    requires sym.Valid() && GoodHole(sym.size, scale, area, h) && InFinder(sym.size, x, y)
    ensures IsDark(sym, Some(h), x, y) == sym.Module(x, y)
  {
  }

  // With a logo in place, every dark finder module is still drawn as part of a plain rectangle, for every
  // symbol, shape, margin and scale.
  method GeometryWithLogo(sym: Symbol, shape: Shape, margin: int, scale: real) returns (g: Geometry)
    requires sym.Valid() && sym.size % 4 == 1 && 21 <= sym.size <= 177 && scale >= 0.0
    ensures forall x, y :: InFinder(sym.size, x, y) && sym.Module(x, y) ==> SquareAt(g, x + margin, y + margin)
    ensures forall x, y {:trigger sym.dark[y][x]} ::
              0 <= x < sym.size && 0 <= y < sym.size && sym.dark[y][x]
              && (x < 7 || sym.size - 7 <= x) && (y < 7 || sym.size - 7 <= y)
              && (x < sym.size - 7 || y < sym.size - 7) ==>
                SquareAt(g, x + margin, y + margin)
  {
    var h := LogoHole(sym.size, scale);
    g := ComputeGeometry(sym, shape, margin, Some(h));
    forall x, y | InFinder(sym.size, x, y) && sym.Module(x, y) ensures SquareAt(g, x + margin, y + margin) {
      HoleSparesFinders(sym, scale, CodewordArea((sym.size - 17) / 4), h, x, y);
      FindersStaySquare(sym, Some(h), shape, margin, g, x, y);
    }
    forall x, y | 0 <= x < sym.size && 0 <= y < sym.size && sym.dark[y][x]
                  && (x < 7 || sym.size - 7 <= x) && (y < 7 || sym.size - 7 <= y)
                  && (x < sym.size - 7 || y < sym.size - 7)
      ensures SquareAt(g, x + margin, y + margin) {
      FindersAre(sym.size, x, y);
    }
  }

  // ---- the level that carries the logo ----

  datatype Level = Low | Medium | Quartile | High

  function Rank(l: Level): nat {
    match l case Low => 0 case Medium => 1 case Quartile => 2 case High => 3
  }

  const LEVEL_ORDER: seq<Level> := [Low, Medium, Quartile, High]

  function Budget(l: Level): real {
    match l case Low => 0.05 case Medium => 0.12 case Quartile => 0.20 case High => 0.25
  }

  // Each budget stays below the share of codewords its level can recover (7, 15, 25 and 30 per cent), and the
  // budgets rise with the levels.
  lemma BudgetsLeaveMargin(l: Level, m: Level)
    ensures Budget(l) < match l case Low => 0.07 case Medium => 0.15 case Quartile => 0.25 case High => 0.30
    ensures 0.0 < Budget(l) && (Rank(l) < Rank(m) ==> Budget(l) < Budget(m))
  {
  }

  // The least level, not below the requested one, whose budget covers the scale; raising must be allowed.
  method ResolveLogoLevel(requested: Level, scale: real, autoRaise: bool) returns (r: Option<Level>)
    ensures r.Some? <==> exists l :: Rank(requested) <= Rank(l) && scale <= Budget(l) && (autoRaise || l == requested)
    ensures r.Some? ==> Rank(requested) <= Rank(r.value) && scale <= Budget(r.value)
    ensures r.Some? ==> forall l :: Rank(requested) <= Rank(l) && scale <= Budget(l) ==> Rank(r.value) <= Rank(l)
    ensures requested == Low && autoRaise ==>
              r == (if scale <= 0.05 then Some(Low) else if scale <= 0.12 then Some(Medium)
                    else if scale <= 0.20 then Some(Quartile) else if scale <= 0.25 then Some(High) else None)
  {
    assert Budget(Low) == 0.05 && Budget(Medium) == 0.12 && Budget(Quartile) == 0.20 && Budget(High) == 0.25;
    assert Rank(Low) == 0 && Rank(Medium) == 1 && Rank(Quartile) == 2 && Rank(High) == 3;
    if scale <= Budget(requested) {
      return Some(requested);
    }
    if !autoRaise {
      return None;
    }
    for i := Rank(requested) + 1 to |LEVEL_ORDER|
      invariant forall l :: Rank(requested) <= Rank(l) < i ==> scale > Budget(l)
    {
      assert forall l :: Rank(l) == i ==> l == LEVEL_ORDER[i];
      if scale <= Budget(LEVEL_ORDER[i]) {
        return Some(LEVEL_ORDER[i]);
      }
    }
    assert forall l: Level :: Rank(l) < |LEVEL_ORDER|;
    r := None;
  }
}
