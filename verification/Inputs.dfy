// Validating a create request: everything that is decided without the store or the blob store.

module Inputs {
  import opened Domain

  // The parts of the configuration and of URL parsing the service consults.
  datatype Config = Config(hasBase: bool, baseRaw: string, destinationOk: string -> bool, reserved: set<string>)

  datatype CreateInput = CreateInput(
    mode: CodeMode, destination: string, alias: string, styling: Styling, logo: string, autoRaise: bool,
    clientRef: string)

  // shortCode is the normalised alias, empty when one is to be generated.
  datatype Prepared = Prepared(
    mode: CodeMode, destination: string, styling: Styling, isAlias: bool, shortCode: string,
    logo: string, autoRaise: bool, clientRef: string)

  datatype InputError =
    | UserRequired | InvalidMode | ScanUrlNotConfigured | RefTooLong | InvalidDestination
    | TooLarge(limit: nat) | InvalidAlias | AliasReserved

  datatype Preparation = Ready(p: Prepared) | Refused(error: InputError)

  const MAX_REF_LEN := 128
  const ALIAS_MIN := 3
  const ALIAS_MAX := 64
  const GENERATED_LEN := 12

  // ---- short codes ----

  predicate Alphanumeric(c: char) { 'a' <= c <= 'z' || '0' <= c <= '9' }

  // Lower-case Crockford base 32: no i, l, o, u.
  predicate Crockford(c: char) { Alphanumeric(c) && c != 'i' && c != 'l' && c != 'o' && c != 'u' }

  predicate GeneratedShape(s: string) { |s| == GENERATED_LEN && forall i :: 0 <= i < |s| ==> Crockford(s[i]) }

  function NormalizeAlias(s: string): string { Lower(Trim(s)) }

  predicate AliasShape(a: string) {
    && ALIAS_MIN <= |a| <= ALIAS_MAX
    && (forall i :: 0 <= i < |a| ==> Alphanumeric(a[i]) || a[i] == '-')
    && Alphanumeric(a[0]) && Alphanumeric(a[|a| - 1])
    && (forall i :: 0 <= i < |a| - 1 ==> !(a[i] == '-' && a[i + 1] == '-'))
  }

  // A short code that is its own lower-case, trimmed form, as every code the service creates is.
  predicate Canonical(s: string) { s != "" && Lower(s) == s && Trim(s) == s }

  // What an alias may look like, and what a generated code looks like.
  lemma AliasLooks(a: string)
    ensures AliasShape(a) <==>
            && 3 <= |a| <= 64
            && (forall i :: 0 <= i < |a| ==> 'a' <= a[i] <= 'z' || '0' <= a[i] <= '9' || a[i] == '-')
            && a[0] != '-' && a[|a| - 1] != '-' && (forall i :: 0 < i < |a| ==> a[i - 1] != '-' || a[i] != '-')
  {
    if AliasShape(a) {
      forall i | 0 < i < |a| ensures a[i - 1] != '-' || a[i] != '-' {
        assert !(a[i - 1] == '-' && a[i - 1 + 1] == '-');
      }
    }
  }

  lemma GeneratedLooks(s: string)
    ensures GeneratedShape(s) <==>
            |s| == 12
            && forall i :: 0 <= i < |s| ==>
                 ('a' <= s[i] <= 'z' && s[i] !in "ilou") || '0' <= s[i] <= '9'
  {
  }

  lemma AlphanumericIsPlain(c: char)
    requires Alphanumeric(c) || c == '-'
    ensures !IsSpace(c) && c as int < 128 && !('A' <= c <= 'Z')
  {
  }

  lemma CanonicalText(s: string)
    requires s != "" && Plain(s) && !IsSpace(s[0]) && !IsSpace(s[|s| - 1])
    ensures Canonical(s)
  {
    hide IsSpace, Lower, Trim, Plain;
    PlainIsFolded(s);
    NothingToTrim(s);
  }

  lemma GeneratedIsCanonical(s: string)
    requires GeneratedShape(s)
    ensures Canonical(s)
  {
    hide IsSpace, Canonical, Alphanumeric;
    forall i | 0 <= i < |s| ensures s[i] as int < 128 && !('A' <= s[i] <= 'Z') && !IsSpace(s[i]) {
      AlphanumericIsPlain(s[i]) by {
        assert Crockford(s[i]);
      }
    }
    CanonicalText(s);
  }

  lemma AliasIsCanonical(s: string)
    requires AliasShape(s)
    ensures Canonical(s)
  {
    hide IsSpace, Canonical, Alphanumeric;
    forall i | 0 <= i < |s| ensures s[i] as int < 128 && !('A' <= s[i] <= 'Z') && !IsSpace(s[i]) {
      AlphanumericIsPlain(s[i]);
    }
    CanonicalText(s);
  }

  // ---- styling ----

  function OrText(s: string, d: string): string { if s == "" then d else s }

  function FillStyling(s: Styling): Styling {
    var level := OrText(s.ecLevel, "M");
    s.(fgColor := OrText(s.fgColor, "#000000"), bgColor := OrText(s.bgColor, "#FFFFFF"),
       moduleShape := OrText(s.moduleShape, "square"),
       marginModules := if s.marginModules == 0 then 4 else s.marginModules,
       sizePx := if s.sizePx == 0 then 512 else s.sizePx,
       ecLevel := level, ecLevelEffective := OrText(s.ecLevelEffective, level))
  }

  // ISO/IEC 18004 Table 7, version 40, byte mode; zero for an unknown level.
  function Capacity(level: string): nat {
    if level == "L" then 2953
    else if level == "M" then 2331
    else if level == "Q" then 1663
    else if level == "H" then 1273
    else 0
  }

  // Of the 3706 codewords of version 40, those that correct errors (750, 1372, 2040 and 2430, Table 9) are no payload,
  // nor are the mode and the length of byte content (4 and 16 bits).
  lemma CapacityIsWhatIsLeft()
    ensures Capacity("L") == (8 * (3706 - 750) - 20) / 8 && Capacity("M") == (8 * (3706 - 1372) - 20) / 8
    ensures Capacity("Q") == (8 * (3706 - 2040) - 20) / 8 && Capacity("H") == (8 * (3706 - 2430) - 20) / 8
  {
  }

  // ---- preparing ----

  function ModeOf(m: CodeMode): CodeMode { if m == NoMode then Dynamic else m }

  function Prepare(cfg: Config, userId: string, in_: CreateInput): (r: Preparation)
    ensures r.Ready? ==> userId != "" && (r.p.mode == Dynamic || r.p.mode == Direct) && r.p.mode == ModeOf(in_.mode)
    ensures r.Ready? ==> r.p.destination == Trim(in_.destination)
    ensures r.Ready? ==> r.p.clientRef == in_.clientRef && |r.p.clientRef| <= MAX_REF_LEN
    ensures r.Ready? && r.p.isAlias ==> Canonical(r.p.shortCode) && !GeneratedShape(r.p.shortCode)
    ensures r.Ready? ==> r.p.styling.logoBlobKey == "" && r.p.logo == in_.logo
    ensures r.Ready? && r.p.mode == Dynamic ==> cfg.hasBase
    ensures r.Ready? && r.p.mode == Direct ==> |r.p.destination| <= Capacity(r.p.styling.ecLevel)
  {
    var mode := ModeOf(in_.mode);
    if userId == "" then Refused(UserRequired)
    else if mode != Dynamic && mode != Direct then Refused(InvalidMode)
    else if mode == Dynamic && !cfg.hasBase then Refused(ScanUrlNotConfigured)
    else if |in_.clientRef| > MAX_REF_LEN then Refused(RefTooLong)
    else if !cfg.destinationOk(Trim(in_.destination)) then Refused(InvalidDestination)
    else
      var filled := FillStyling(in_.styling).(logoBlobKey := "");
      var styling := if in_.logo == "" then filled.(logoScale := 0.0)
        else if filled.logoScale == 0.0 then filled.(logoScale := 0.15) else filled;
      var destination := Trim(in_.destination);
      if mode == Direct && |destination| > Capacity(styling.ecLevel) then Refused(TooLarge(Capacity(styling.ecLevel)))
      else if in_.alias == "" then
        Ready(Prepared(mode, destination, styling, false, "", in_.logo, in_.autoRaise, in_.clientRef))
      else
        var alias := NormalizeAlias(in_.alias);
        if !AliasShape(alias) then Refused(InvalidAlias)
        else if alias in cfg.reserved then Refused(AliasReserved)
        else if GeneratedShape(alias) then Refused(InvalidAlias)
        else
          AliasIsCanonical(alias);
          Ready(Prepared(mode, destination, styling, true, alias, in_.logo, in_.autoRaise, in_.clientRef))
  }

  // A request is prepared exactly when every one of its parts is acceptable on its own.
  lemma PreparedExactly(cfg: Config, userId: string, in_: CreateInput)
    ensures Prepare(cfg, userId, in_).Ready? <==>
            && userId != "" && |in_.clientRef| <= MAX_REF_LEN && cfg.destinationOk(Trim(in_.destination))
            && ((ModeOf(in_.mode) == Dynamic && cfg.hasBase)
                || (ModeOf(in_.mode) == Direct
                    && |Trim(in_.destination)| <= Capacity(OrText(in_.styling.ecLevel, "M"))))
            && (in_.alias != "" ==>
                  && AliasShape(NormalizeAlias(in_.alias)) && NormalizeAlias(in_.alias) !in cfg.reserved
                  && !GeneratedShape(NormalizeAlias(in_.alias)))
  {
    hide Capacity, AliasShape, GeneratedShape, NormalizeAlias, Trim;
  }

  // The first check that fails names the error, in this order.
  lemma FirstFaultNamed(cfg: Config, userId: string, in_: CreateInput)
    ensures var r, alias := Prepare(cfg, userId, in_), Lower(Trim(in_.alias));
            var limit := Capacity(if in_.styling.ecLevel == "" then "M" else in_.styling.ecLevel);
            if userId == "" then r == Refused(UserRequired)
            else if in_.mode != NoMode && in_.mode != Dynamic && in_.mode != Direct then r == Refused(InvalidMode)
            else if in_.mode != Direct && !cfg.hasBase then r == Refused(ScanUrlNotConfigured)
            else if |in_.clientRef| > 128 then r == Refused(RefTooLong)
            else if !cfg.destinationOk(Trim(in_.destination)) then r == Refused(InvalidDestination)
            else if in_.mode == Direct && |Trim(in_.destination)| > limit then r == Refused(TooLarge(limit))
            else if in_.alias == "" then r.Ready?
            else if !AliasShape(alias) then r == Refused(InvalidAlias)
            else if alias in cfg.reserved then r == Refused(AliasReserved)
            else if GeneratedShape(alias) then r == Refused(InvalidAlias)
            else r.Ready?
  {
    hide Trim, Lower, AliasShape, GeneratedShape, Capacity;
  }
}
