// The path data of plain runs, and reading it back.

module SvgPaths {
  import opened Domain
  import opened Geometries
  import opened Rasters

  // ---- decimal numbers ----

  function DigitChar(d: nat): (c: char)
    requires d < 10
    ensures '0' <= c <= '9' && DigitValue(c) == d
  {
    ('0' as int + d) as char
  }

  predicate IsDigit(c: char) { '0' <= c <= '9' }

  function DigitValue(c: char): nat
    requires '0' <= c <= '9'
  {
    c as int - '0' as int
  }

  // Decimal text without leading zeros.
  function Itoa(n: nat): (s: string)
    ensures s != "" && forall i :: 0 <= i < |s| ==> IsDigit(s[i])
    decreases n
  {
    if n < 10 then [DigitChar(n)] else Itoa(n / 10) + [DigitChar(n % 10)]
  }

  // The number of leading digits of a text.
  function DigitSpan(s: string): (n: nat)
    ensures n <= |s| && forall i :: 0 <= i < n ==> IsDigit(s[i])
    ensures n < |s| ==> !IsDigit(s[n])
  {
    if s == "" || !IsDigit(s[0]) then 0 else 1 + DigitSpan(s[1..])
  }

  function Value(s: string): nat
    requires forall i :: 0 <= i < |s| ==> IsDigit(s[i])
  {
    if s == "" then 0
    else
      assert IsDigit(s[|s| - 1]);
      Value(s[..|s| - 1]) * 10 + DigitValue(s[|s| - 1])
  }

  lemma {:induction false} ValueOfItoa(n: nat)
    ensures Value(Itoa(n)) == n
    decreases n
  {
    if n < 10 {
      assert [DigitChar(n)][..0] == "";
    } else {
      var s := Itoa(n);
      assert s[..|s| - 1] == Itoa(n / 10);
      ValueOfItoa(n / 10);
    }
  }

  lemma {:induction false} SpanOfDigits(digits: string, rest: string)
    requires forall i :: 0 <= i < |digits| ==> IsDigit(digits[i])
    requires rest == "" || !IsDigit(rest[0])
    ensures DigitSpan(digits + rest) == |digits|
    decreases |digits|
  {
    if digits == "" {
      assert digits + rest == rest;
    } else {
      assert (digits + rest)[1..] == digits[1..] + rest;
      SpanOfDigits(digits[1..], rest);
    }
  }

  // ---- printing ----

  // M x y h w v1 h-w z, as one subpath per run.
  function PrintRun(r: Run): string
    requires r.x >= 0 && r.y >= 0 && r.w >= 0
  {
    "M" + Itoa(r.x) + " " + Itoa(r.y) + "h" + Itoa(r.w) + "v1h-" + Itoa(r.w) + "z"
  }

  ghost predicate Printable(runs: seq<Run>) {
    forall i :: 0 <= i < |runs| ==> runs[i].x >= 0 && runs[i].y >= 0 && runs[i].w >= 0
  }

  function PrintRuns(runs: seq<Run>): string
    requires Printable(runs)
  {
    if runs == [] then "" else PrintRuns(runs[..|runs| - 1]) + PrintRun(runs[|runs| - 1])
  }

  // What it looks like.
  lemma PrintedExample()
    ensures PrintRuns([Run(3, 40, 5, PLAIN)]) == "M3 40h5v1h-5z"
  {
    var r := Run(3, 40, 5, PLAIN);
    assert Itoa(3) == "3" && Itoa(5) == "5" && Itoa(4) == "4" && Itoa(40) == "40";
    assert PrintRun(r) == "M3 40h5v1h-5z";
    assert [r][..0] == [];
  }

  // The emitting loop: pieces appended to a buffer, run by run.
  method EmitPlainRuns(runs: seq<Run>) returns (b: string)
    requires Printable(runs)
    ensures b == PrintRuns(runs)
  {
    b := "";
    for i := 0 to |runs|
      invariant b == PrintRuns(runs[..i])
    {
      var r := runs[i];
      ghost var before := b;
      b := b + "M";
      b := b + Itoa(r.x);
      b := b + " ";
      b := b + Itoa(r.y);
      b := b + "h";
      b := b + Itoa(r.w);
      b := b + "v1h-";
      b := b + Itoa(r.w);
      b := b + "z";
      assert b == before + PrintRun(r);
      assert runs[..i + 1][..i] == runs[..i];
    }
    assert runs[..|runs|] == runs;
  }

  // ---- path data (SVG 1.1, section 8.3): moveto, horizontal and vertical lineto, closepath ----

  datatype Command =
    | MoveTo(relative: bool, x: int, y: int)
    | Horizontal(relative: bool, x: int)
    | Vertical(relative: bool, y: int)
    | ClosePath

  predicate IsWsp(c: char) { c == ' ' || c == '\t' || c == '\n' || c == '\r' }

  function SkipWsp(s: string): (r: string)
    ensures |r| <= |s|
  {
    if s != "" && IsWsp(s[0]) then SkipWsp(s[1..]) else s
  }

  // Between two coordinates: white space and at most one comma.
  function SkipSeparator(s: string): (r: string)
    ensures |r| <= |s|
  {
    var t := SkipWsp(s);
    if t != "" && t[0] == ',' then SkipWsp(t[1..]) else t
  }

  datatype Number = Number(value: int, rest: string)

  // An integer with an optional sign.
  function TakeNumber(s: string): (r: Option<Number>)
    ensures r.Some? ==> |r.value.rest| < |s|
  {
    var body := if s != "" && (s[0] == '-' || s[0] == '+') then s[1..] else s;
    var n := DigitSpan(body);
    if n == 0 then None
    else Some(Number(if s[0] == '-' then 0 - Value(body[..n]) else Value(body[..n]), body[n..]))
  }

  datatype Token = Token(command: Command, rest: string)

  function TakeMove(relative: bool, s: string): (r: Option<Token>)
    ensures r.Some? ==> |r.value.rest| < |s|
  {
    match TakeNumber(s)
    case None => None
    case Some(x) =>
      match TakeNumber(SkipSeparator(x.rest))
      case None => None
      case Some(y) => Some(Token(MoveTo(relative, x.value, y.value), SkipWsp(y.rest)))
  }

  // One command letter with one group of arguments.
  function TakeCommand(s: string): (r: Option<Token>)
    requires s != ""
    ensures r.Some? ==> |r.value.rest| < |s|
  {
    var args := SkipWsp(s[1..]);
    if s[0] == 'M' || s[0] == 'm' then TakeMove(s[0] == 'm', args)
    else if s[0] == 'H' || s[0] == 'h' then
      match TakeNumber(args)
      case None => None
      case Some(x) => Some(Token(Horizontal(s[0] == 'h', x.value), SkipWsp(x.rest)))
    else if s[0] == 'V' || s[0] == 'v' then
      match TakeNumber(args)
      case None => None
      case Some(y) => Some(Token(Vertical(s[0] == 'v', y.value), SkipWsp(y.rest)))
    else if s[0] == 'Z' || s[0] == 'z' then Some(Token(ClosePath, args))
    else None
  }

  function ParseCommands(s: string): Option<seq<Command>>
    decreases |s|
  {
    if s == "" then Some([])
    else
      match TakeCommand(s)
      case None => None
      case Some(t) =>
        match ParseCommands(t.rest)
        case None => None
        case Some(more) => Some([t.command] + more)
  }

  // Path data begins with a moveto.
  function ParsePath(s: string): Option<seq<Command>> {
    var commands := ParseCommands(SkipWsp(s));
    if commands.Some? && commands.value != [] && !commands.value[0].MoveTo? then None else commands
  }

  // ---- filling (SVG 1.1, section 11.3): the nonzero rule ----

  // Where the pen is, and where its subpath began.
  datatype Pen = Pen(x: int, y: int, startX: int, startY: int)

  function After(p: Pen, c: Command): Pen {
    match c
    case MoveTo(relative, x, y) =>
      var (u, v) := if relative then (p.x + x, p.y + y) else (x, y);
      Pen(u, v, u, v)
    case Horizontal(relative, x) => p.(x := if relative then p.x + x else x)
    case Vertical(relative, y) => p.(y := if relative then p.y + y else y)
    case ClosePath => p.(x := p.startX, y := p.startY)
  }

  // How the edge from (a, b) to (c, d) winds around the middle of the pixel (x, y): a ray to the right meets it
  // going down, going up, or not at all.
  function Crossing(a: int, b: int, c: int, d: int, x: int, y: int): int {
    var side := (c - a) * (2 * y + 1 - 2 * b) - (2 * x + 1 - 2 * a) * (d - b);
    if b <= y < d && side > 0 then 1 else if d <= y < b && side < 0 then -1 else 0
  }

  // A new subpath, and the end of the path, close the open one first.
  function Winding(p: Pen, commands: seq<Command>, x: int, y: int): int
    decreases |commands|
  {
    if commands == [] then Crossing(p.x, p.y, p.startX, p.startY, x, y)
    else
      var q := After(p, commands[0]);
      (if commands[0].MoveTo? then Crossing(p.x, p.y, p.startX, p.startY, x, y) else Crossing(p.x, p.y, q.x, q.y, x, y))
      + Winding(q, commands[1..], x, y)
  }

  const ORIGIN := Pen(0, 0, 0, 0)

  // What a reader of the path data takes to be filled.
  ghost predicate Filled(path: string, x: int, y: int) {
    var commands := ParsePath(path);
    commands.Some? && Winding(ORIGIN, commands.value, x, y) != 0
  }

  // ---- reading what was printed ----

  function CommandsOf(r: Run): seq<Command> {
    [MoveTo(false, r.x, r.y), Horizontal(true, r.w), Vertical(true, 1), Horizontal(true, 0 - r.w), ClosePath]
  }

  function AllCommands(runs: seq<Run>): seq<Command> {
    if runs == [] then [] else CommandsOf(runs[0]) + AllCommands(runs[1..])
  }

  // What may follow a number.
  predicate EndsNumber(rest: string) { rest == "" || (!IsDigit(rest[0]) && !IsWsp(rest[0])) }

  lemma DigitsRead(n: nat, rest: string)
    requires rest == "" || !IsDigit(rest[0])
    ensures DigitSpan(Itoa(n) + rest) == |Itoa(n)| && Value((Itoa(n) + rest)[..|Itoa(n)|]) == n
    ensures (Itoa(n) + rest)[|Itoa(n)|..] == rest
  {
    SpanOfDigits(Itoa(n), rest);
    ValueOfItoa(n);
    assert (Itoa(n) + rest)[..|Itoa(n)|] == Itoa(n);
  }

  lemma NumberRead(n: nat, rest: string)
    requires rest == "" || !IsDigit(rest[0])
    ensures TakeNumber(Itoa(n) + rest) == Some(Number(n, rest))
    ensures TakeNumber("-" + Itoa(n) + rest) == Some(Number(0 - n, rest))
    ensures SkipWsp(Itoa(n) + rest) == Itoa(n) + rest && SkipSeparator(Itoa(n) + rest) == Itoa(n) + rest
  {
    hide Itoa, Value, DigitSpan;
    DigitsRead(n, rest);
    assert IsDigit((Itoa(n) + rest)[0]);
    assert ("-" + Itoa(n) + rest)[1..] == Itoa(n) + rest;
  }

  lemma MoveRead(x: nat, y: nat, rest: string)
    requires EndsNumber(rest)
    ensures TakeCommand("M" + Itoa(x) + " " + Itoa(y) + rest) == Some(Token(MoveTo(false, x, y), rest))
  {
    hide Itoa, TakeNumber, TakeMove;
    var args := Itoa(x) + (" " + (Itoa(y) + rest));
    MoveArguments(x, y, rest);
    NumberRead(x, " " + (Itoa(y) + rest));
    assert "M" + Itoa(x) + " " + Itoa(y) + rest == "M" + args;
    assert ("M" + args)[1..] == args;
  }

  lemma MoveArguments(x: nat, y: nat, rest: string)
    requires EndsNumber(rest)
    ensures TakeMove(false, Itoa(x) + (" " + (Itoa(y) + rest))) == Some(Token(MoveTo(false, x, y), rest))
  {
    hide Itoa, TakeNumber, SkipSeparator;
    NumberRead(x, " " + (Itoa(y) + rest));
    NumberRead(y, rest);
    SpaceSkipped(Itoa(y) + rest);
  }

  lemma SpaceSkipped(s: string)
    ensures SkipSeparator(" " + s) == SkipSeparator(s)
  {
    assert (" " + s)[1..] == s;
  }

  lemma AcrossRead(w: nat, rest: string)
    requires EndsNumber(rest)
    ensures TakeCommand("h" + Itoa(w) + rest) == Some(Token(Horizontal(true, w), rest))
    ensures TakeCommand("h-" + Itoa(w) + rest) == Some(Token(Horizontal(true, 0 - w), rest))
  {
    hide Itoa, TakeNumber;
    NumberRead(w, rest);
    assert ("h" + Itoa(w) + rest)[1..] == Itoa(w) + rest;
    assert ("h-" + Itoa(w) + rest)[1..] == "-" + Itoa(w) + rest;
  }

  lemma DownRead(rest: string)
    requires EndsNumber(rest)
    ensures TakeCommand("v1" + rest) == Some(Token(Vertical(true, 1), rest))
  {
    hide Itoa, TakeNumber, TakeMove;
    OneIsWritten();
    NumberRead(1, rest);
    assert ("v1" + rest)[1..] == "1" + rest;
  }

  lemma OneIsWritten()
    ensures Itoa(1) == "1"
  {
  }

  lemma CloseRead(rest: string)
    requires EndsNumber(rest)
    ensures TakeCommand("z" + rest) == Some(Token(ClosePath, rest))
  {
    assert ("z" + rest)[1..] == rest;
  }

  lemma OneMoreCommand(s: string, c: Command, rest: string)
    requires s != "" && TakeCommand(s) == Some(Token(c, rest))
    ensures ParseCommands(rest).Some? ==> ParseCommands(s) == Some([c] + ParseCommands(rest).value)
  {
    hide TakeCommand;
  }

  // The way back of a printed run, from its lower right corner.
  lemma BackRead(w: nat, rest: string)
    requires EndsNumber(rest) && ParseCommands(rest).Some?
    ensures ParseCommands("v1" + ("h-" + Itoa(w) + ("z" + rest)))
            == Some([Vertical(true, 1), Horizontal(true, 0 - w), ClosePath] + ParseCommands(rest).value)
  {
    hide TakeCommand, ParseCommands, Itoa;
    var t2 := "z" + rest;
    var t1 := "h-" + Itoa(w) + t2;
    CloseRead(rest);
    OneMoreCommand(t2, ClosePath, rest);
    AcrossRead(w, t2);
    OneMoreCommand(t1, Horizontal(true, 0 - w), t2);
    DownRead(t1);
    OneMoreCommand("v1" + t1, Vertical(true, 1), t1);
    var more := ParseCommands(rest).value;
    assert [Vertical(true, 1)] + ([Horizontal(true, 0 - w)] + ([ClosePath] + more))
        == [Vertical(true, 1), Horizontal(true, 0 - w), ClosePath] + more;
  }

  lemma RunRead(r: Run, rest: string)
    requires r.x >= 0 && r.y >= 0 && r.w >= 0 && EndsNumber(rest) && ParseCommands(rest).Some?
    ensures ParseCommands(PrintRun(r) + rest) == Some(CommandsOf(r) + ParseCommands(rest).value)
  {
    hide TakeCommand, ParseCommands, Itoa;
    var t1 := "v1" + ("h-" + Itoa(r.w) + ("z" + rest));
    var t0 := "h" + Itoa(r.w) + t1;
    var s := "M" + Itoa(r.x) + " " + Itoa(r.y) + t0;
    assert PrintRun(r) + rest == s;
    BackRead(r.w, rest);
    AcrossRead(r.w, t1);
    OneMoreCommand(t0, Horizontal(true, r.w), t1);
    MoveRead(r.x, r.y, t0);
    OneMoreCommand(s, MoveTo(false, r.x, r.y), t0);
    var more, back := ParseCommands(rest).value, [Vertical(true, 1), Horizontal(true, 0 - r.w), ClosePath];
    assert [MoveTo(false, r.x, r.y)] + ([Horizontal(true, r.w)] + (back + more)) == CommandsOf(r) + more;
  }

  lemma {:induction false} PrintFromFront(runs: seq<Run>)
    requires Printable(runs) && runs != []
    ensures PrintRuns(runs) == PrintRun(runs[0]) + PrintRuns(runs[1..])
    decreases |runs|
  {
    var last := runs[|runs| - 1];
    if |runs| == 1 {
      assert runs[..0] == [] && runs[1..] == [];
      assert PrintRuns(runs) == PrintRun(runs[0]);
    } else {
      PrintFromFront(runs[..|runs| - 1]);
      assert runs[..|runs| - 1][1..] == runs[1..][..|runs| - 2];
    }
  }

  lemma {:induction false} PrintedIsRead(runs: seq<Run>)
    requires Printable(runs)
    ensures ParseCommands(PrintRuns(runs)) == Some(AllCommands(runs)) && EndsNumber(PrintRuns(runs))
    decreases |runs|
  {
    hide ParseCommands, PrintRun, CommandsOf;
    if runs == [] {
      assert ParseCommands("") == Some([]) by { EmptyPath(); }
    } else {
      PrintFromFront(runs);
      PrintedIsRead(runs[1..]);
      RunRead(runs[0], PrintRuns(runs[1..]));
      assert PrintRun(runs[0])[0] == 'M' by { RunStarts(runs[0]); }
    }
  }

  lemma EmptyPath()
    ensures ParseCommands("") == Some([])
  {
  }

  lemma RunStarts(r: Run)
    requires r.x >= 0 && r.y >= 0 && r.w >= 0
    ensures PrintRun(r) != "" && PrintRun(r)[0] == 'M'
  {
  }

  // Reading the emitted path data gives back, run by run, the outline of each.
  lemma PathRoundTrip(runs: seq<Run>)
    requires Printable(runs)
    ensures ParsePath(PrintRuns(runs)) == Some(AllCommands(runs))
  {
    hide ParseCommands, PrintRuns;
    PrintedIsRead(runs);
  }

  // ---- the filled pixels are those of the runs ----

  // Around a pixel of the run its outline winds once, around any other not at all.
  lemma RunWinds(p: Pen, r: Run, rest: seq<Command>, x: int, y: int)
    requires r.w >= 0 && p.x == p.startX && p.y == p.startY
    ensures Winding(p, CommandsOf(r) + rest, x, y)
            == (if Covers(r, x, y) then 1 else 0) + Winding(Pen(r.x, r.y, r.x, r.y), rest, x, y)
  {
    var p1, more := Pen(r.x, r.y, r.x, r.y), CommandsOf(r)[1..] + rest;
    assert (CommandsOf(r) + rest)[1..] == more;
    WindStep(p, CommandsOf(r) + rest, x, y);
    StillPen(p, x, y);
    hide Crossing, Winding;
    OutlineWinds(r, rest, x, y);
  }

  lemma OutlineWinds(r: Run, rest: seq<Command>, x: int, y: int)
    requires r.w >= 0
    ensures Winding(Pen(r.x, r.y, r.x, r.y), CommandsOf(r)[1..] + rest, x, y)
            == (if Covers(r, x, y) then 1 else 0) + Winding(Pen(r.x, r.y, r.x, r.y), rest, x, y)
  {
    hide Crossing, Winding;
    var p1 := Pen(r.x, r.y, r.x, r.y);
    var p2, p3, p4 := p1.(x := r.x + r.w), p1.(x := r.x + r.w, y := r.y + 1), p1.(y := r.y + 1);
    var c4 := [ClosePath] + rest;
    var c3 := [Horizontal(true, 0 - r.w)] + c4;
    var c2 := [Vertical(true, 1)] + c3;
    var c1 := [Horizontal(true, r.w)] + c2;
    assert CommandsOf(r)[1..] + rest == c1;
    assert c1[1..] == c2 && c2[1..] == c3 && c3[1..] == c4 && c4[1..] == rest;
    WindStep(p1, c1, x, y);
    WindStep(p2, c2, x, y);
    WindStep(p3, c3, x, y);
    WindStep(p4, c4, x, y);
    Edges(r, x, y);
  }

  lemma WindStep(p: Pen, commands: seq<Command>, x: int, y: int)
    requires commands != []
    ensures var q := After(p, commands[0]);
            Winding(p, commands, x, y)
            == (if commands[0].MoveTo? then Crossing(p.x, p.y, p.startX, p.startY, x, y)
                else Crossing(p.x, p.y, q.x, q.y, x, y))
               + Winding(q, commands[1..], x, y)
  {
  }

  lemma StillPen(p: Pen, x: int, y: int)
    requires p.x == p.startX && p.y == p.startY
    ensures Crossing(p.x, p.y, p.startX, p.startY, x, y) == 0
  {
  }

  lemma Edges(r: Run, x: int, y: int)
    requires r.w >= 0
    ensures Crossing(r.x, r.y, r.x + r.w, r.y, x, y) == 0
    ensures Crossing(r.x + r.w, r.y, r.x + r.w, r.y + 1, x, y) == (if y == r.y && x < r.x + r.w then 1 else 0)
    ensures Crossing(r.x + r.w, r.y + 1, r.x, r.y + 1, x, y) == 0
    ensures Crossing(r.x, r.y + 1, r.x, r.y, x, y) == (if y == r.y && x < r.x then -1 else 0)
  {
  }

  lemma {:induction false} RunsWind(p: Pen, runs: seq<Run>, x: int, y: int)
    requires p.x == p.startX && p.y == p.startY && forall i :: 0 <= i < |runs| ==> runs[i].w >= 0
    ensures Winding(p, AllCommands(runs), x, y) == RunsOver(runs, x, y)
    decreases |runs|
  {
    hide CommandsOf, Covers, Crossing;
    if runs == [] {
      StillPen(p, x, y);
    } else {
      hide Winding;
      var r := runs[0];
      RunWinds(p, r, AllCommands(runs[1..]), x, y);
      RunsWind(Pen(r.x, r.y, r.x, r.y), runs[1..], x, y);
      OverFromFront(runs, x, y);
    }
  }

  lemma {:induction false} OverFromFront(runs: seq<Run>, x: int, y: int)
    requires runs != []
    ensures RunsOver(runs, x, y) == (if Covers(runs[0], x, y) then 1 else 0) + RunsOver(runs[1..], x, y)
    decreases |runs|
  {
    hide Covers;
    if |runs| > 1 {
      OverFromFront(runs[..|runs| - 1], x, y);
      assert runs[..|runs| - 1][1..] == runs[1..][..|runs| - 2];
    }
  }

  lemma {:induction false} OverWhenCovered(runs: seq<Run>, x: int, y: int)
    ensures RunsOver(runs, x, y) != 0 <==> exists i :: 0 <= i < |runs| && Covers(runs[i], x, y)
    decreases |runs|
  {
    hide Covers;
    if runs != [] {
      OverWhenCovered(runs[..|runs| - 1], x, y);
    }
  }

  // The document fills a pixel exactly when one of the runs covers it.
  lemma PrintedFills(runs: seq<Run>, x: int, y: int)
    requires Printable(runs)
    ensures Filled(PrintRuns(runs), x, y) <==> exists i :: 0 <= i < |runs| && Covers(runs[i], x, y)
  {
    hide ParsePath, PrintRuns, AllCommands, Covers, Winding, RunsOver;
    PathRoundTrip(runs);
    RunsWind(ORIGIN, runs, x, y);
    OverWhenCovered(runs, x, y);
  }

  // Square modules: the document's path fills exactly the dark modules outside the hole, as the raster does.
  method RenderSquarePath(sym: Symbol, hole: Option<Rect>, margin: int) returns (path: string)
    requires sym.Valid() && margin >= 0
    ensures forall x, y :: Filled(path, x, y) <==> IsDark(sym, hole, x - margin, y - margin)
  {
    hide Filled, Covers, PrintRuns;
    var g := ComputeGeometry(sym, Square, margin, hole);
    forall i | 0 <= i < |g.runs| ensures RunInside(g.total, g.runs[i]) && g.runs[i].corners == PLAIN {
      assert RunOk(sym, hole, Square, margin, g.runs[i]);
      CoverStaysInside(sym, hole, margin, g, g.runs[i]);
    }
    path := EmitPlainRuns(g.runs);
    forall x, y ensures Filled(path, x, y) <==> IsDark(sym, hole, x - margin, y - margin) {
      SquareCover(sym, hole, margin, g, x, y);
      PrintedFills(g.runs, x, y);
    }
  }
}
