// The entities of the service and the string conventions every layer shares.

module Domain {

  datatype Option<+T> = None | Some(value: T)

  // Microseconds since the start of year one, the time value nobody set.
  type Time = int

  const ZERO_TIME: Time := 0

  // Unset is the empty string a caller may send; Unknown is any other text.
  datatype CodeState = Unset | Active | Disabled | Deleted | Unknown(text: string)

  datatype CodeMode = NoMode | Dynamic | Direct | OtherMode(text: string)

  datatype User = User(
    id: string, email: string, passwordHash: string, isAdmin: bool, tokenVersion: int,
    source: string, createdAt: Time, lastLoginAt: Option<Time>)

  datatype Styling = Styling(
    id: string, fgColor: string, bgColor: string, moduleShape: string, marginModules: int, sizePx: int,
    ecLevel: string, ecLevelEffective: string, logoBlobKey: string, logoScale: real)

  datatype Code = Code(
    id: string, shortCode: string, isAlias: bool, userId: string, mode: CodeMode, clientRef: string,
    destination: string, state: CodeState, styling: Styling, blobKey: string, blobETag: string,
    version: int, createdAt: Time, updatedAt: Time, deletedAt: Option<Time>)

  datatype Reservation = Reservation(codeId: string, reservedAt: Time, releasedAt: Option<Time>)

  datatype StoreError = Required | Conflict | AliasTaken | ClientRefTaken | NotFound | BadState

  // ---- white space and letter case ----

  // Unicode White_Space, which is what Go trims.
  predicate IsSpace(c: char) {
    || '\U{0009}' <= c <= '\U{000D}' || c == ' ' || c == '\U{0085}' || c == '\U{00A0}' || c == '\U{1680}'
    || '\U{2000}' <= c <= '\U{200A}' || c == '\U{2028}' || c == '\U{2029}' || c == '\U{202F}' || c == '\U{205F}'
    || c == '\U{3000}'
  }

  // The twenty-five code points with the property, in order.
  const WHITE_SPACE :=
    "\U{0009}\U{000A}\U{000B}\U{000C}\U{000D}\U{0020}\U{0085}\U{00A0}\U{1680}\U{2000}\U{2001}\U{2002}\U{2003}" +
    "\U{2004}\U{2005}\U{2006}\U{2007}\U{2008}\U{2009}\U{200A}\U{2028}\U{2029}\U{202F}\U{205F}\U{3000}"

  lemma SpacesListed(i: nat)
    ensures |WHITE_SPACE| == 25 && (i < 25 ==> IsSpace(WHITE_SPACE[i]))
  {
  }

  lemma OnlySpacesListed(c: char)
    requires IsSpace(c)
    ensures c in WHITE_SPACE
  {
  }

  // What SQLite folds: the ASCII letters and nothing else.
  function AsciiChar(c: char): char {
    if 'A' <= c <= 'Z' then (c as int - 'A' as int + 'a' as int) as char else c
  }

  const CAPITALS := "ABCDEFGHIJKLMNOPQRSTUVWXYZ"
  const SMALL := "abcdefghijklmnopqrstuvwxyz"

  // The capitals become the small letters, and nothing else changes.
  lemma CapitalsFold(c: char, i: nat)
    ensures i < 26 ==> AsciiChar(CAPITALS[i]) == SMALL[i]
    ensures c !in CAPITALS ==> AsciiChar(c) == c
  {
    if 'A' <= c <= 'Z' {
      assert CAPITALS[c as int - 'A' as int] == c;
    }
  }

  const KELVIN := '\U{212A}'

  // Lower-casing letter by letter, as Go does it for all of Unicode: ASCII as SQLite folds it, white space kept
  // apart from letters, nothing left to lower-case afterwards, and letters outside ASCII folded as well.
  ghost predicate FoldsLetters(f: char -> char) {
    && (forall c {:trigger f(f(c))} :: f(f(c)) == f(c))
    && (forall c {:trigger IsSpace(f(c))} :: IsSpace(f(c)) == IsSpace(c))
    && (forall c {:trigger AsciiChar(c)} :: c as int < 128 ==> f(c) == AsciiChar(c))
    && f(KELVIN) == 'k'
  }

  function AsciiAndKelvin(c: char): char { if c == KELVIN then 'k' else AsciiChar(c) }

  type LetterFold = f: char -> char | FoldsLetters(f) witness AsciiAndKelvin

  // Any such folding; everything below holds for each of them, the program's among them.
  const GO_LOWER: LetterFold

  function LowerChar(c: char): char { GO_LOWER(c) }

  lemma LowerCharFacts(c: char)
    ensures LowerChar(LowerChar(c)) == LowerChar(c) && IsSpace(LowerChar(c)) == IsSpace(c)
    ensures LowerChar(AsciiChar(c)) == LowerChar(c) && AsciiChar(LowerChar(c)) == LowerChar(c)
    ensures c as int < 128 ==> LowerChar(c) == AsciiChar(c)
  {
    assert GO_LOWER(GO_LOWER(c)) == GO_LOWER(c) && IsSpace(GO_LOWER(c)) == IsSpace(c);
    var d := GO_LOWER(c);
    assert d as int < 128 ==> GO_LOWER(d) == AsciiChar(d);
    assert c as int < 128 ==> AsciiChar(c) as int < 128 && GO_LOWER(c) == AsciiChar(c);
  }

  function Lower(s: string): (r: string)
    ensures |r| == |s|
    ensures forall i :: 0 <= i < |s| ==> r[i] == LowerChar(s[i])
  {
    seq(|s|, i requires 0 <= i < |s| => LowerChar(s[i]))
  }

  function AsciiLower(s: string): (r: string)
    ensures |r| == |s|
    ensures forall i :: 0 <= i < |s| ==> r[i] == AsciiChar(s[i])
  {
    seq(|s|, i requires 0 <= i < |s| => AsciiChar(s[i]))
  }

  // Lower-casing a short code twice is lower-casing it once, so every lookup by a stored key finds itself.
  lemma LowerIdempotent(s: string)
    ensures Lower(Lower(s)) == Lower(s)
  {
    forall i | 0 <= i < |s| ensures Lower(Lower(s))[i] == Lower(s)[i] {
      LowerCharFacts(s[i]);
    }
  }

  // A lower-cased text has no ASCII capitals left, and folding those first changes nothing.
  lemma FoldsAgree(s: string)
    ensures AsciiLower(Lower(s)) == Lower(s) && Lower(AsciiLower(s)) == Lower(s)
  {
    forall i | 0 <= i < |s| ensures AsciiLower(Lower(s))[i] == Lower(s)[i] && Lower(AsciiLower(s))[i] == Lower(s)[i] {
      LowerCharFacts(s[i]);
    }
  }

  predicate Plain(s: string) { forall i :: 0 <= i < |s| ==> s[i] as int < 128 && !('A' <= s[i] <= 'Z') }

  // Small ASCII text is left alone by both foldings.
  lemma PlainIsFolded(s: string)
    requires Plain(s)
    ensures Lower(s) == s && AsciiLower(s) == s
  {
    forall i | 0 <= i < |s| ensures Lower(s)[i] == s[i] {
      LowerCharFacts(s[i]);
    }
  }

  // The two stores compare texts with different foldings.
  datatype Driver = MapStore | Relational

  function Fold(d: Driver, s: string): string { if d.MapStore? then Lower(s) else AsciiLower(s) }

  // A folded text is the stored, lower-cased one or no stored text at all.
  lemma FoldIsLowerOrUnstored(d: Driver, s: string)
    ensures Lower(Fold(d, s)) == Lower(s)
    ensures Lower(s) == s ==> Fold(d, s) == s
  {
    LowerIdempotent(s);
    FoldsAgree(s);
  }

  // ---- trimming ----

  function TrimLeft(s: string): (r: string)
    ensures |r| <= |s| && r == s[|s| - |r|..]
    ensures r != "" ==> !IsSpace(r[0])
    ensures s != "" && !IsSpace(s[0]) ==> r == s
  {
    if s != "" && IsSpace(s[0]) then TrimLeft(s[1..]) else s
  }

  function TrimRight(s: string): (r: string)
    ensures |r| <= |s| && r == s[..|r|]
    ensures r != "" ==> !IsSpace(r[|r| - 1])
    ensures s != "" && !IsSpace(s[|s| - 1]) ==> r == s
  {
    if s != "" && IsSpace(s[|s| - 1]) then TrimRight(s[..|s| - 1]) else s
  }

  function Trim(s: string): (r: string)
    ensures |r| <= |s| && (|r| == |s| ==> r == s)
    ensures r != "" ==> !IsSpace(r[0]) && !IsSpace(r[|r| - 1])
    ensures s != "" && !IsSpace(s[0]) && !IsSpace(s[|s| - 1]) ==> r == s
  {
    TrimRight(TrimLeft(s))
  }

  // Trimming takes white space from both ends, all of it, and nothing else.
  lemma TrimTakesOuterSpace(s: string)
    ensures exists i, j :: 0 <= i <= j <= |s| && Trim(s) == s[i..j]
              && (forall k :: 0 <= k < i || j <= k < |s| ==> IsSpace(s[k]))
    ensures Trim(s) == "" <==> forall k :: 0 <= k < |s| ==> IsSpace(s[k])
  {
    hide IsSpace;
    var t := TrimLeft(s);
    var i := |s| - |t|;
    LeftIsSpace(s);
    RightIsSpace(t);
    var j := i + |Trim(s)|;
    assert t == s[i..];
    assert Trim(s) == s[i..j];
    forall k | j <= k < |s| ensures IsSpace(s[k]) {
      assert s[k] == t[k - i];
    }
    if Trim(s) != "" {
      assert Trim(s)[0] == s[i];
    }
  }

  lemma {:induction false} LeftIsSpace(s: string)
    ensures forall k :: 0 <= k < |s| - |TrimLeft(s)| ==> IsSpace(s[k])
    decreases |s|
  {
    hide IsSpace;
    if s != "" && IsSpace(s[0]) {
      LeftIsSpace(s[1..]);
      forall k | 0 < k < |s| - |TrimLeft(s)| ensures IsSpace(s[k]) {
        assert s[k] == s[1..][k - 1];
      }
    }
  }

  lemma {:induction false} RightIsSpace(s: string)
    ensures forall k :: |TrimRight(s)| <= k < |s| ==> IsSpace(s[k])
    decreases |s|
  {
    hide IsSpace;
    if s != "" && IsSpace(s[|s| - 1]) {
      RightIsSpace(s[..|s| - 1]);
    }
  }

  lemma NothingToTrim(s: string)
    requires s != "" && !IsSpace(s[0]) && !IsSpace(s[|s| - 1])
    ensures Trim(s) == s
  {
    hide IsSpace;
  }

  // Lower-casing neither makes nor removes outer space.
  lemma TrimLowerCommute(s: string)
    ensures Trim(s) == s <==> Trim(Lower(s)) == Lower(s)
  {
    hide IsSpace, LowerChar, Trim;
    if s != "" {
      LowerCharFacts(s[0]);
      LowerCharFacts(s[|s| - 1]);
    }
  }

  // ---- byte order on identifiers ----

  predicate Less(a: string, b: string) {
    b != "" && (a == "" || a[0] < b[0] || (a[0] == b[0] && Less(a[1..], b[1..])))
  }

  // The first difference decides, and a text precedes its own continuations.
  lemma {:induction false} FirstDifferenceDecides(a: string, b: string, n: nat)
    requires n <= |a| && n < |b| && a[..n] == b[..n] && (n == |a| || a[n] < b[n])
    ensures Less(a, b)
    decreases n
  {
    if n > 0 {
      assert a[0] == a[..n][0] == b[..n][0] == b[0];
      assert a[1..][..n - 1] == a[..n][1..] == b[..n][1..] == b[1..][..n - 1];
      FirstDifferenceDecides(a[1..], b[1..], n - 1);
    }
  }

  lemma LessTotal(a: string, b: string)
    ensures a == b || Less(a, b) || Less(b, a)
  {
    if a != "" && b != "" && a[0] == b[0] {
      LessTotal(a[1..], b[1..]);
      if a[1..] == b[1..] {
        assert a == [a[0]] + a[1..] && b == [b[0]] + b[1..];
      }
    }
  }

  lemma LessAsymmetric(a: string, b: string)
    ensures !(Less(a, b) && Less(b, a))
    ensures !Less(a, a)
  {
  }

  lemma LessTransitive(a: string, b: string, c: string)
    requires Less(a, b) && Less(b, c)
    ensures Less(a, c)
  {
  }

  lemma MulMonotone(a: int, b: int, c: int)
    requires a <= b && c >= 0
    ensures a * c <= b * c
  {
  }
}
