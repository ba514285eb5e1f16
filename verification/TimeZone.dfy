/** The POSIX TZ validator of `time_config.c`.

    The grammar below (a restriction of section 8.3 of the Base Definitions of
    IEEE Std 1003.1) says which strings are accepted by asking for split points;
    the cursor parser is proved to accept exactly those. */
module TimeZone {

  /** A C string: a buffer whose only NUL is its last character. */
  predicate IsCString(s: seq<char>) {
    |s| > 0 && s[|s| - 1] == '\0' && forall i :: 0 <= i < |s| - 1 ==> s[i] != '\0'
  }

  type CString = s: seq<char> | IsCString(s) witness ['\0']

  predicate Digit(c: char) { '0' <= c <= '9' }

  predicate Alpha(c: char) { 'A' <= c <= 'Z' || 'a' <= c <= 'z' }

  predicate TimeChar(c: char) { Digit(c) || c == ':' }

  predicate QuotedChar(c: char) { Alpha(c) || Digit(c) || c == '+' || c == '-' }

  // ----- the grammar: `X(s, i, j)` says that s[i..j] is an X -------------------------

  function DigitValue(c: char): nat
    requires Digit(c)
  {
    c as nat - '0' as nat
  }

  function Value(s: seq<char>, i: nat, j: nat): nat
    requires i <= j <= |s|
    requires forall k :: i <= k < j ==> Digit(s[k])
  {
    if i == j then 0 else 10 * Value(s, i, j - 1) + DigitValue(s[j - 1])
  }

  predicate Number(s: CString, i: nat, j: nat, min: nat, max: nat, digits: nat) {
    i < j < |s| && j - i <= digits && (forall k :: i <= k < j ==> Digit(s[k])) &&
    min <= Value(s, i, j) <= max
  }

  predicate Name(s: CString, i: nat, j: nat) {
    i < j < |s| &&
    ((3 <= j - i <= 10 && forall k :: i <= k < j ==> Alpha(s[k])) ||
     (3 <= j - i - 2 <= 10 && s[i] == '<' && s[j - 1] == '>' && forall k :: i < k < j - 1 ==> QuotedChar(s[k])))
  }

  /** Nothing, or a colon and a number up to 59. */
  predicate Minutes(s: CString, i: nat, j: nat) {
    i == j || (i < j && i < |s| && s[i] == ':' && Number(s, i + 1, j, 0, 59, 2))
  }

  function MinutesValue(s: CString, i: nat, j: nat): nat
    requires Minutes(s, i, j)
  {
    if i == j then 0 else Value(s, i + 1, j)
  }

  /** Hours, minutes and seconds at those split points, up to 24:00:00; an offset has whole minutes. */
  predicate TimeSplit(s: CString, i: nat, h: nat, m: nat, j: nat, offset: bool) {
    Number(s, i, h, 0, 24, 2) && Minutes(s, h, m) && Minutes(s, m, j) && (h == m ==> m == j) &&
    (offset ==> MinutesValue(s, m, j) == 0) &&
    (Value(s, i, h) == 24 ==> MinutesValue(s, h, m) == 0 && MinutesValue(s, m, j) == 0)
  }

  ghost predicate Time(s: CString, i: nat, j: nat, offset: bool) {
    exists h: nat, m: nat :: TimeSplit(s, i, h, m, j, offset)
  }

  predicate Sign(s: CString, i: nat) {
    i < |s| && (s[i] == '+' || s[i] == '-')
  }

  /** A time, with an optional sign where one is allowed. */
  ghost predicate SignedTime(s: CString, i: nat, j: nat, signed: bool, offset: bool) {
    Time(s, i, j, offset) || (signed && Sign(s, i) && Time(s, i + 1, j, offset))
  }

  ghost predicate Offset(s: CString, i: nat, j: nat) {
    SignedTime(s, i, j, true, true)
  }

  /** Month, week and day: "Mm.w.d". */
  predicate MonthSplit(s: CString, i: nat, w: nat, d: nat, j: nat) {
    Number(s, i, w, 1, 12, 2) && s[w] == '.' && Number(s, w + 1, d, 1, 5, 1) && s[d] == '.' &&
    Number(s, d + 1, j, 0, 6, 1)
  }

  ghost predicate MonthDate(s: CString, i: nat, j: nat) {
    exists w: nat, d: nat :: MonthSplit(s, i, w, d, j)
  }

  ghost predicate Date(s: CString, i: nat, j: nat) {
    Number(s, i, j, 0, 365, 3) ||
    (i < |s| && s[i] == 'J' && Number(s, i + 1, j, 1, 365, 3)) ||
    (i < |s| && s[i] == 'M' && MonthDate(s, i + 1, j))
  }

  /** A date, and optionally a slash and an unsigned time of day. */
  ghost predicate RuleSplit(s: CString, i: nat, d: nat, j: nat) {
    Date(s, i, d) && (d == j || (d < |s| && s[d] == '/' && Time(s, d + 1, j, false)))
  }

  ghost predicate Rule(s: CString, i: nat, j: nat) {
    exists d: nat :: RuleSplit(s, i, d, j)
  }

  ghost predicate RulesSplit(s: CString, i: nat, e: nat) {
    Rule(s, i, e) && e < |s| && s[e] == ',' && Rule(s, e + 1, |s| - 1)
  }

  /** The two rules, ending the string. */
  ghost predicate Rules(s: CString, i: nat) {
    exists e: nat :: RulesSplit(s, i, e)
  }

  predicate HasComma(s: CString, i: nat) {
    i < |s| && s[i] == ','
  }

  ghost predicate DaylightName(s: CString, i: nat, d: nat, c: nat) {
    Name(s, i, d) && (d == c || Offset(s, d, c)) && HasComma(s, c)
  }

  ghost predicate DaylightSplit(s: CString, i: nat, d: nat, c: nat) {
    DaylightName(s, i, d, c) && Rules(s, c + 1)
  }

  /** Daylight name, optional offset, and the two rules. */
  ghost predicate Daylight(s: CString, i: nat) {
    exists d: nat, c: nat :: DaylightSplit(s, i, d, c)
  }

  /** Standard name and offset, alone or with a daylight name and explicit rules. */
  ghost predicate Standard(s: CString, n: nat, o: nat) {
    Name(s, 0, n) && Offset(s, n, o)
  }

  ghost predicate ZoneSplit(s: CString, n: nat, o: nat) {
    Standard(s, n, o) && (o == |s| - 1 || Daylight(s, o))
  }

  ghost predicate Zone(s: CString) {
    exists n: nat, o: nat :: ZoneSplit(s, n, o)
  }

  // ----- the cursor parser: it never reads past the NUL ---------------------------------

  method ParseNumber(s: CString, start: nat, min: nat, max: nat, digits: nat) returns (ok: bool, cursor: nat, value: nat)
    requires start < |s|
    ensures start <= cursor < |s|
    ensures ok ==> Number(s, start, cursor, min, max, digits) && value == Value(s, start, cursor)
    ensures forall j: nat :: Number(s, start, j, min, max, digits) && !Digit(s[j]) ==> ok && cursor == j
  {
    cursor, value := start, 0;
    var seen := 0;
    while Digit(s[cursor])
      invariant start <= cursor < |s| && seen == cursor - start <= digits
      invariant forall k :: start <= k < cursor ==> Digit(s[k])
      invariant value == Value(s, start, cursor)
      decreases |s| - cursor
    {
      seen := seen + 1;
      if seen > digits {
        return false, cursor, value;
      }
      value := value * 10 + DigitValue(s[cursor]);
      cursor := cursor + 1;
    }
    ok := seen > 0 && min <= value <= max;
  }

  method ParseName(s: CString, start: nat) returns (ok: bool, cursor: nat)
    requires start < |s|
    ensures start <= cursor < |s|
    ensures ok ==> Name(s, start, cursor)
    ensures forall j: nat :: Name(s, start, j) && !Alpha(s[j]) ==> ok && cursor == j
  {
    var quoted := s[start] == '<';
    cursor := if quoted then start + 1 else start;
    var begin, length := cursor, 0;
    while Alpha(s[cursor]) || (quoted && (Digit(s[cursor]) || s[cursor] == '+' || s[cursor] == '-'))
      invariant begin <= cursor < |s| && length == cursor - begin <= 10
      invariant forall k :: begin <= k < cursor ==> if quoted then QuotedChar(s[k]) else Alpha(s[k])
      decreases |s| - cursor
    {
      cursor := cursor + 1;
      length := length + 1;
      if length > 10 {
        return false, cursor;
      }
    }
    if length < 3 {
      return false, cursor;
    }
    if quoted {
      if s[cursor] != '>' {
        return false, cursor;
      }
      cursor := cursor + 1;
    }
    ok := true;
  }

  method ParseHms(s: CString, start: nat, signed: bool, offset: bool) returns (ok: bool, cursor: nat)
    requires start < |s|
    ensures start <= cursor < |s|
    ensures ok ==> SignedTime(s, start, cursor, signed, offset)
    ensures forall j: nat :: SignedTime(s, start, j, signed, offset) && j < |s| && !TimeChar(s[j]) ==> ok && cursor == j
  {
    var begin := if signed && Sign(s, start) then start + 1 else start;
    ok, cursor := ParseTime(s, begin, offset);
  }

  method ParseTime(s: CString, start: nat, offset: bool) returns (ok: bool, cursor: nat)
    requires start < |s|
    ensures start <= cursor < |s|
    ensures ok ==> Time(s, start, cursor, offset)
    ensures forall j: nat :: Time(s, start, j, offset) && j < |s| && !TimeChar(s[j]) ==> ok && cursor == j
  {
    var hours, minutes, seconds := 0, 0, 0;
    ok, cursor, hours := ParseNumber(s, start, 0, 24, 2);
    if !ok {
      return;
    }
    ghost var h := cursor;
    ghost var m := cursor;
    if s[cursor] == ':' {
      ok, cursor, minutes := ParseNumber(s, cursor + 1, 0, 59, 2);
      if !ok {
        return;
      }
      m := cursor;
      if s[cursor] == ':' {
        ok, cursor, seconds := ParseNumber(s, cursor + 1, 0, 59, 2);
        if !ok {
          return;
        }
      }
    }
    ok := (!offset || seconds == 0) && (hours < 24 || (minutes == 0 && seconds == 0));
    if ok {
      assert TimeSplit(s, start, h, m, cursor, offset);
    }
  }

  method ParseTransition(s: CString, start: nat) returns (ok: bool, cursor: nat)
    requires start < |s|
    ensures start <= cursor < |s|
    ensures ok ==> Rule(s, start, cursor)
    ensures forall j: nat :: Rule(s, start, j) && j < |s| && (s[j] == ',' || s[j] == '\0') ==> ok && cursor == j
  {
    ok, cursor := ParseDate(s, start);
    if !ok {
      return;
    }
    ghost var d := cursor;
    if s[cursor] == '/' {
      ok, cursor := ParseHms(s, cursor + 1, false, false);
      if !ok {
        return;
      }
    }
    assert RuleSplit(s, start, d, cursor);
  }

  /** The date part of `transition`. */
  method ParseDate(s: CString, start: nat) returns (ok: bool, cursor: nat)
    requires start < |s|
    ensures start <= cursor < |s|
    ensures ok ==> Date(s, start, cursor)
    ensures forall j: nat :: Date(s, start, j) && j < |s| && !Digit(s[j]) ==> ok && cursor == j
  {
    var ignored: nat;
    if s[start] == 'M' {
      ok, cursor, ignored := ParseNumber(s, start + 1, 1, 12, 2);
      if !ok || s[cursor] != '.' {
        return false, cursor;
      }
      ghost var w := cursor;
      ok, cursor, ignored := ParseNumber(s, cursor + 1, 1, 5, 1);
      if !ok || s[cursor] != '.' {
        return false, cursor;
      }
      ghost var d := cursor;
      ok, cursor, ignored := ParseNumber(s, cursor + 1, 0, 6, 1);
      if ok {
        assert MonthSplit(s, start + 1, w, d, cursor);
      }
    } else if s[start] == 'J' {
      ok, cursor, ignored := ParseNumber(s, start + 1, 1, 365, 3);
    } else {
      ok, cursor, ignored := ParseNumber(s, start, 0, 365, 3);
    }
  }

  /** An offset starts with a sign or a digit. */
  lemma OffsetStart(s: CString, i: nat, j: nat)
    requires Offset(s, i, j)
    ensures i < j < |s| && !Alpha(s[i]) && s[i] != ','
  {
  }

  lemma DaylightStart(s: CString, i: nat)
    requires Daylight(s, i)
    ensures i < |s| && !TimeChar(s[i]) && s[i] != '\0'
  {
    var d: nat, c: nat :| DaylightSplit(s, i, d, c);
  }

  /** The strings accepted are exactly those of the grammar. */
  method TimezoneValid(s: CString) returns (ok: bool)
    ensures ok <==> Zone(s)
  {
    var cursor: nat;
    ghost var name: nat;
    ok, cursor, name := ParseStandard(s);
    forall n: nat, o: nat | ZoneSplit(s, n, o)
      ensures ok && cursor == o
    {
      if o != |s| - 1 {
        DaylightStart(s, o);
      }
    }
    if ok && s[cursor] != '\0' {
      ok := ParseDaylight(s, cursor);
    }
    if ok {
      assert ZoneSplit(s, name, cursor);
    }
  }

  method ParseStandard(s: CString) returns (ok: bool, cursor: nat, ghost name: nat)
    ensures cursor < |s|
    ensures ok ==> Standard(s, name, cursor)
    ensures forall n: nat, o: nat :: Standard(s, n, o) && o < |s| && !TimeChar(s[o]) ==> ok && cursor == o
  {
    ok, cursor := ParseName(s, 0);
    name := cursor;
    forall n: nat, o: nat | Standard(s, n, o)
      ensures ok && name == n
    {
      OffsetStart(s, n, o);
    }
    if ok {
      ok, cursor := ParseHms(s, cursor, true, true);
    }
  }

  /** From the daylight name to the end of the string. */
  method ParseDaylight(s: CString, start: nat) returns (ok: bool)
    requires start < |s|
    ensures ok <==> Daylight(s, start)
  {
    var cursor: nat;
    ghost var name: nat;
    ok, cursor, name := ParseDaylightName(s, start);
    if ok {
      ok := ParseRules(s, cursor + 1);
      if ok {
        assert DaylightSplit(s, start, name, cursor);
      }
    }
  }

  method ParseDaylightName(s: CString, start: nat) returns (ok: bool, cursor: nat, ghost name: nat)
    requires start < |s|
    ensures start <= cursor < |s|
    ensures ok ==> DaylightName(s, start, name, cursor)
    ensures forall d: nat, c: nat :: DaylightName(s, start, d, c) ==> ok && cursor == c
  {
    ok, cursor := ParseName(s, start);
    name := cursor;
    forall d: nat, c: nat | DaylightName(s, start, d, c)
      ensures ok && name == d && (s[d] == ',' ==> c == d)
    {
      if d != c {
        OffsetStart(s, d, c);
      }
    }
    if ok && s[cursor] != ',' {
      ok, cursor := ParseHms(s, cursor, true, true);
    }
    ok := ok && s[cursor] == ',';
  }

  method ParseRules(s: CString, start: nat) returns (ok: bool)
    requires start < |s|
    ensures ok <==> Rules(s, start)
  {
    var cursor: nat;
    ok, cursor := ParseTransition(s, start);
    if !ok || s[cursor] != ',' {
      return false;
    }
    ghost var e := cursor;
    ok, cursor := ParseTransition(s, cursor + 1);
    ok := ok && s[cursor] == '\0';
    if ok {
      assert RulesSplit(s, start, e);
    }
  }
}
