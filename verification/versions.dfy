/**
 * The launcher's four-tier version number: the `Version` struct and the
 * `VersionArray` display tables of CBPLauncher/MainWindow.xaml.cs.
 *
 * The fields are C# `short`s. A version is read from text by splitting on '.'
 * and handing each of the four fields to `short.Parse`; text that does not split
 * into exactly four fields is read as 0.0.0.0 instead. The canonical text is the
 * dotted decimal form, and the display form maps each field through a table.
 */
module Versions {
  import opened Wrappers

  const ShortMin: int := -32768
  const ShortMax: int := 32767

  /** The values of a C# `short`. */
  type Int16 = x: int | ShortMin <= x <= ShortMax

  /** The two exceptions `short.Parse` raises on bad input. */
  datatype ParseError = FormatError | OverflowError

  datatype Version = Version(major: Int16, minor: Int16, subMinor: Int16, hotfix: Int16)
  {
    /** The four numbers in order, as `new Version(text)` reads them. */
    function Field(i: nat): Int16
      requires i < 4
    {
      if i == 0 then major else if i == 1 then minor else if i == 2 then subMinor else hotfix
    }
  }

  /** `Version.zero`, also the lenient reading of text with the wrong number of fields. */
  const Zero: Version := Version(0, 0, 0, 0)

  // ---------------------------------------------------------------------------
  // String.Split(char) and its inverse
  // ---------------------------------------------------------------------------

  /** The pieces of `s` between occurrences of `sep`, empty pieces included. */
  function Split(s: string, sep: char): (parts: seq<string>)
    ensures |parts| >= 1
    ensures forall i :: 0 <= i < |parts| ==> sep !in parts[i]
  {
    if |s| == 0 then [""]
    else
      var rest := Split(s[1..], sep);
      if s[0] == sep then [""] + rest
      else [[s[0]] + rest[0]] + rest[1..]
  }

  /** `string.Join(sep, parts)`. */
  function Join(parts: seq<string>, sep: char): string
    requires |parts| >= 1
  {
    if |parts| == 1 then parts[0] else parts[0] + [sep] + Join(parts[1..], sep)
  }

  /** Splitting loses nothing: joining the pieces gives back the text. */
  lemma {:induction false} JoinSplit(s: string, sep: char)
    ensures Join(Split(s, sep), sep) == s
  {
    if |s| > 0 {
      JoinSplit(s[1..], sep);
      var rest := Split(s[1..], sep);
      if s[0] == sep {
        assert Split(s, sep)[1..] == rest;
      } else {
        var parts := Split(s, sep);
        assert parts[0] == [s[0]] + rest[0];
        if |rest| == 1 {
          assert s == [s[0]] + s[1..];
        } else {
          assert parts[1..] == rest[1..];
          assert s == [s[0]] + s[1..];
        }
      }
    }
  }

  /** There is one piece more than there are separators. */
  lemma {:induction false} SplitCount(s: string, sep: char)
    ensures |Split(s, sep)| == multiset(s)[sep] + 1
  {
    if |s| > 0 {
      SplitCount(s[1..], sep);
      assert s == [s[0]] + s[1..];
      assert multiset(s) == multiset([s[0]]) + multiset(s[1..]);
    }
  }

  lemma {:induction false} SplitNoSeparator(a: string, sep: char)
    requires sep !in a
    ensures Split(a, sep) == [a]
  {
    if |a| > 0 {
      SplitNoSeparator(a[1..], sep);
      assert [a[0]] + a[1..] == a;
    }
  }

  lemma {:induction false} SplitFirstPiece(a: string, sep: char, t: string)
    requires sep !in a
    ensures Split(a + [sep] + t, sep) == [a] + Split(t, sep)
  {
    if |a| == 0 {
      assert a + [sep] + t == [sep] + t;
      assert ([sep] + t)[1..] == t;
    } else {
      var s := a + [sep] + t;
      assert s[1..] == a[1..] + [sep] + t;
      SplitFirstPiece(a[1..], sep, t);
      assert [a[0]] + a[1..] == a;
    }
  }

  /** Joining pieces that hold no separator and splitting again gives back the pieces. */
  lemma {:induction false} SplitJoin(parts: seq<string>, sep: char)
    requires |parts| >= 1
    requires forall i :: 0 <= i < |parts| ==> sep !in parts[i]
    ensures Split(Join(parts, sep), sep) == parts
  {
    if |parts| == 1 {
      SplitNoSeparator(parts[0], sep);
    } else {
      SplitJoin(parts[1..], sep);
      SplitFirstPiece(parts[0], sep, Join(parts[1..], sep));
      assert [parts[0]] + parts[1..] == parts;
    }
  }

  // ---------------------------------------------------------------------------
  // Decimal digits
  // ---------------------------------------------------------------------------

  predicate IsDigit(c: char) {
    '0' <= c <= '9'
  }

  predicate AllDigits(s: string) {
    forall i :: 0 <= i < |s| ==> IsDigit(s[i])
  }

  /** The value of a run of decimal digits, most significant first. */
  function DigitsValue(s: string): nat
    requires AllDigits(s)
  {
    if |s| == 0 then 0 else 10 * DigitsValue(s[..|s| - 1]) + (s[|s| - 1] as int - '0' as int)
  }

  function DigitChar(d: nat): (c: char)
    requires d < 10
    ensures IsDigit(c) && c as int - '0' as int == d
  {
    ('0' as int + d) as char
  }

  /** The shortest decimal form of `n`, as `ToString()` prints it. */
  function NatToDecimal(n: nat): (s: string)
    ensures |s| >= 1 && AllDigits(s)
  {
    if n < 10 then [DigitChar(n)] else NatToDecimal(n / 10) + [DigitChar(n % 10)]
  }

  lemma {:induction false} DecimalRoundTrip(n: nat)
    ensures DigitsValue(NatToDecimal(n)) == n
  {
    if n >= 10 {
      DecimalRoundTrip(n / 10);
      var s := NatToDecimal(n);
      assert s[..|s| - 1] == NatToDecimal(n / 10);
    }
  }

  /** `short.ToString()` in the invariant culture. */
  function IntToDecimal(i: int): (s: string)
    ensures |s| >= 1 && '.' !in s
    ensures s[0] == '-' <==> i < 0
    ensures i < 0 ==> AllDigits(s[1..])
    ensures i >= 0 ==> AllDigits(s)
  {
    if i < 0 then "-" + NatToDecimal(-i) else NatToDecimal(i)
  }

  // ---------------------------------------------------------------------------
  // short.Parse (NumberStyles.Integer, invariant culture)
  // ---------------------------------------------------------------------------

  /** The white space `short.Parse` skips: U+0009 to U+000D and U+0020. */
  predicate IsWhite(c: char) {
    c == ' ' || '\t' <= c <= '\r'
  }

  predicate AllWhite(s: string) {
    forall i :: 0 <= i < |s| ==> IsWhite(s[i])
  }

  function TrimStart(s: string): string {
    if |s| > 0 && IsWhite(s[0]) then TrimStart(s[1..]) else s
  }

  function TrimEnd(s: string): string {
    if |s| > 0 && IsWhite(s[|s| - 1]) then TrimEnd(s[..|s| - 1]) else s
  }

  /** An integer in `NumberStyles.Integer` once white space is trimmed: a digit or a sign first, digits after, and at least one digit. */
  predicate IntegerText(t: string) {
    && |t| > 0
    && (IsDigit(t[0]) || (|t| > 1 && (t[0] == '-' || t[0] == '+')))
    && AllDigits(t[1..])
  }

  /**
   * `short.Parse(s)`: optional leading and trailing white space, an optional
   * sign, at least one digit; a value outside the `short` range overflows.
   */
  function ParseInt16(s: string): (r: Result<Int16, ParseError>)
    ensures r == Failure(FormatError) <==> !IntegerText(TrimEnd(TrimStart(s)))
    ensures r.Success? ==> (r.value < 0 ==> TrimEnd(TrimStart(s))[0] == '-')
  {
    var t := TrimEnd(TrimStart(s));
    var negative := |t| > 0 && t[0] == '-';
    var digits := if |t| > 0 && (t[0] == '-' || t[0] == '+') then t[1..] else t;
    if |digits| == 0 || !AllDigits(digits) then Failure(FormatError)
    else
      var magnitude: int := DigitsValue(digits);
      var n := if negative then -magnitude else magnitude;
      if ShortMin <= n <= ShortMax then Success(n) else Failure(OverflowError)
  }

  lemma {:induction false} TrimStartKeeps(s: string, c: char)
    requires c in s && !IsWhite(c)
    ensures c in TrimStart(s)
  {
    if |s| > 0 && IsWhite(s[0]) {
      assert s == [s[0]] + s[1..];
      TrimStartKeeps(s[1..], c);
    }
  }

  lemma {:induction false} TrimEndKeeps(s: string, c: char)
    requires c in s && !IsWhite(c)
    ensures c in TrimEnd(s)
  {
    if |s| > 0 && IsWhite(s[|s| - 1]) {
      assert s == s[..|s| - 1] + [s[|s| - 1]];
      TrimEndKeeps(s[..|s| - 1], c);
    }
  }

  /** A character that is neither white space, a sign nor a digit makes the field a format error. */
  lemma StrayCharacterIsFormatError(s: string, c: char)
    requires c in s
    requires !IsWhite(c) && !IsDigit(c) && c != '-' && c != '+'
    ensures ParseInt16(s) == Failure(FormatError)
  {
    TrimStartKeeps(s, c);
    TrimEndKeeps(TrimStart(s), c);
    var t := TrimEnd(TrimStart(s));
    var digits := if |t| > 0 && (t[0] == '-' || t[0] == '+') then t[1..] else t;
    assert c in digits by {
      if |t| > 0 && (t[0] == '-' || t[0] == '+') {
        assert t == [t[0]] + t[1..];
      }
    }
  }

  lemma {:induction false} TrimEndPadding(s: string, pad: string)
    requires AllWhite(pad)
    ensures TrimEnd(s + pad) == TrimEnd(s)
  {
    if |pad| > 0 {
      var p := pad[..|pad| - 1];
      assert (s + pad)[..|s + pad| - 1] == s + p;
      TrimEndPadding(s, p);
    } else {
      assert s + pad == s;
    }
  }

  /** `short.Parse` reads back what `short.ToString()` printed, with any trailing white space. */
  lemma Int16RoundTrip(n: Int16, pad: string)
    requires AllWhite(pad)
    ensures ParseInt16(IntToDecimal(n) + pad) == Success(n)
  {
    var s := IntToDecimal(n);
    assert (s + pad)[0] == s[0];
    assert TrimStart(s + pad) == s + pad;
    TrimEndPadding(s, pad);
    assert TrimEnd(s) == s;
    var m: int := n;
    if m < 0 {
      DecimalRoundTrip(-m);
      assert s[1..] == NatToDecimal(-m);
    } else {
      DecimalRoundTrip(n);
    }
  }

  // ---------------------------------------------------------------------------
  // The Version struct
  // ---------------------------------------------------------------------------

  function Fields(v: Version): seq<string> {
    [IntToDecimal(v.major), IntToDecimal(v.minor), IntToDecimal(v.subMinor), IntToDecimal(v.hotfix)]
  }

  /** `Version.ToString()`: "major.minor.subMinor.hotfix". */
  function ToString(v: Version): string {
    Join(Fields(v), '.')
  }

  /** The canonical text splits back into the four rendered fields, so it holds exactly three dots. */
  lemma ToStringSplits(v: Version)
    ensures Split(ToString(v), '.') == Fields(v)
    ensures multiset(ToString(v))['.'] == 3
  {
    SplitJoin(Fields(v), '.');
    SplitCount(ToString(v), '.');
  }

  /**
   * `new Version(text)`: text that does not split into exactly four fields on
   * '.' reads as `Zero`; otherwise each field goes through `short.Parse`, left
   * to right, and the first field that fails raises its exception.
   */
  function Parse(text: string): Result<Version, ParseError> {
    var fields := Split(text, '.');
    if |fields| != 4 then Success(Zero) else ParseFields(fields)
  }

  /**
   * Four fields read as a version exactly when every field reads as a
   * `short`; otherwise the error is the one the first failing field raises.
   */
  function ParseFields(f: seq<string>): (r: Result<Version, ParseError>)
    requires |f| == 4
    ensures r.Success? <==> forall i :: 0 <= i < 4 ==> ParseInt16(f[i]).Success?
    ensures r.Success? ==> forall i :: 0 <= i < 4 ==> ParseInt16(f[i]) == Success(r.value.Field(i))
  {
    var a, b, c, d := ParseInt16(f[0]), ParseInt16(f[1]), ParseInt16(f[2]), ParseInt16(f[3]);
    if a.Failure? then Failure(a.error)
    else if b.Failure? then Failure(b.error)
    else if c.Failure? then Failure(c.error)
    else if d.Failure? then Failure(d.error)
    else Success(Version(a.value, b.value, c.value, d.value))
  }

  /** The fields are read left to right: the first that fails decides the exception. */
  lemma ParseFieldsFirstFailure(f: seq<string>, i: nat)
    requires |f| == 4 && i < 4
    requires ParseInt16(f[i]).Failure?
    requires forall j :: 0 <= j < i ==> ParseInt16(f[j]).Success?
    ensures ParseFields(f) == Failure(ParseInt16(f[i]).error)
  {
  }

  /** Text with other than three dots reads as 0.0.0.0, never as an error. */
  lemma WrongFieldCountReadsAsZero(text: string)
    requires multiset(text)['.'] != 3
    ensures Parse(text) == Success(Zero)
  {
    SplitCount(text, '.');
  }

  /** Four fields, one of which holds a character foreign to a number: the parse raises. */
  lemma NonNumericFieldFails(text: string, k: nat, c: char)
    requires multiset(text)['.'] == 3
    requires k < |Split(text, '.')| && c in Split(text, '.')[k]
    requires !IsWhite(c) && !IsDigit(c) && c != '-' && c != '+'
    ensures Parse(text).Failure?
  {
    SplitCount(text, '.');
    StrayCharacterIsFormatError(Split(text, '.')[k], c);
  }

  lemma JoinFour(a: string, b: string, c: string, d: string, sep: char)
    ensures Join([a, b, c, d], sep) == a + [sep] + b + [sep] + c + [sep] + d
  {
    assert [a, b, c, d][1..] == [b, c, d];
    assert [b, c, d][1..] == [c, d];
    assert [c, d][1..] == [d];
    assert Join([c, d], sep) == c + [sep] + d;
    assert Join([b, c, d], sep) == b + [sep] + (c + [sep] + d);
    assert Join([a, b, c, d], sep) == a + [sep] + (b + [sep] + (c + [sep] + d));
  }

  /** Reading the canonical text back gives the same version, even with trailing white space such as a line break. */
  lemma ParseRoundTrip(v: Version, pad: string)
    requires AllWhite(pad)
    ensures Parse(ToString(v) + pad) == Success(v)
  {
    var f := Fields(v);
    var g := [f[0], f[1], f[2], f[3] + pad];
    JoinFour(f[0], f[1], f[2], f[3], '.');
    JoinFour(f[0], f[1], f[2], f[3] + pad, '.');
    assert ToString(v) + pad == Join(g, '.');
    assert forall i :: 0 <= i < |pad| ==> pad[i] != '.';
    assert '.' !in f[3] + pad;
    SplitJoin(g, '.');
    Int16RoundTrip(v.major, "");
    Int16RoundTrip(v.minor, "");
    Int16RoundTrip(v.subMinor, "");
    Int16RoundTrip(v.hotfix, pad);
    assert IntToDecimal(v.major) + "" == IntToDecimal(v.major);
    assert IntToDecimal(v.minor) + "" == IntToDecimal(v.minor);
    assert IntToDecimal(v.subMinor) + "" == IntToDecimal(v.subMinor);
  }

  /** `IsDifferentThan`: compares major, then minor, then subMinor, then hotfix. */
  function IsDifferentThan(a: Version, b: Version): (r: bool)
    ensures r <==> a.major != b.major || a.minor != b.minor || a.subMinor != b.subMinor || a.hotfix != b.hotfix
    ensures r <==> a != b
  {
    if a.major != b.major then true
    else if a.minor != b.minor then true
    else if a.subMinor != b.subMinor then true
    else if a.hotfix != b.hotfix then true
    else false
  }

  lemma DifferenceIsIrreflexiveAndSymmetric(a: Version, b: Version)
    ensures !IsDifferentThan(a, a)
    ensures IsDifferentThan(a, b) == IsDifferentThan(b, a)
  {
  }

  // ---------------------------------------------------------------------------
  // VersionArray: the display tables
  // ---------------------------------------------------------------------------

  const VersionStart: seq<string> :=
    ["not installed", "Pre-Alpha ", "Alpha ", "Beta ", "Release Candidate ",
     "1.", "2.", "3.", "4.", "5.", "6."]
  const VersionMiddle: seq<string> :=
    ["", "1", "2", "3", "4", "5", "6", "7", "8", "9", "10", "11", "12", "13", "14", "15"]
  const VersionEnd: seq<string> :=
    ["", "a", "b", "c", "d", "e", "f", "g", "h", "i", "j", "k", "l", "m", "n", "o", "p"]
  const VersionHotfix: seq<string> :=
    ["", " (hotfix 1)", " (hotfix 2)", " (hotfix 3)", " (hotfix 4)", " (hotfix 5)",
     " (hotfix 6)", " (hotfix 7)", " (hotfix 8)", " (hotfix 9)"]

  /** Every field indexes its table: the tables hold 11, 16, 17 and 10 entries. */
  predicate Displayable(v: Version) {
    && 0 <= v.major < |VersionStart|
    && 0 <= v.minor < |VersionMiddle|
    && 0 <= v.subMinor < |VersionEnd|
    && 0 <= v.hotfix < |VersionHotfix|
  }

  /** The human label, e.g. 3.1.2.0 reads "Beta 1b". The source indexes the arrays unchecked. */
  function Render(v: Version): (s: string)
    requires Displayable(v)
    ensures |s| > 0
  {
    VersionStart[v.major] + VersionMiddle[v.minor] + VersionEnd[v.subMinor] + VersionHotfix[v.hotfix]
  }

  // ---------------------------------------------------------------------------
  // The display form tells versions apart
  // ---------------------------------------------------------------------------

  /** The start labels begin with eleven different characters. */
  lemma StartInitials(i: int, j: int)
    requires 0 <= i < |VersionStart| && 0 <= j < |VersionStart|
    requires VersionStart[i][0] == VersionStart[j][0]
    ensures i == j
  {
    assert i == 0 || i == 1 || i == 2 || i == 3 || i == 4 || i == 5 || i == 6 || i == 7 || i == 8 || i == 9 || i == 10;
    assert j == 0 || j == 1 || j == 2 || j == 3 || j == 4 || j == 5 || j == 6 || j == 7 || j == 8 || j == 9 || j == 10;
  }

  /** Entry `i` of the minor table is empty for 0 and the decimal form of `i` otherwise. */
  lemma MiddleValue(i: int)
    requires 0 <= i < |VersionMiddle|
    ensures AllDigits(VersionMiddle[i])
    ensures |VersionMiddle[i]| == 0 <==> i == 0
    ensures DigitsValue(VersionMiddle[i]) == i
  {
    assert i == 0 || i == 1 || i == 2 || i == 3 || i == 4 || i == 5 || i == 6 || i == 7
        || i == 8 || i == 9 || i == 10 || i == 11 || i == 12 || i == 13 || i == 14 || i == 15;
    var m := VersionMiddle[i];
    if |m| == 2 {
      assert m[..1] == [m[0]];
    }
  }

  /** Entry `i` of the sub-minor table is empty for 0 and the `i`-th lower-case letter otherwise. */
  lemma EndLetter(i: int)
    requires 0 <= i < |VersionEnd|
    ensures i == 0 ==> VersionEnd[i] == ""
    ensures i > 0 ==> VersionEnd[i] == [('a' as int + i - 1) as char]
  {
    assert i == 0 || i == 1 || i == 2 || i == 3 || i == 4 || i == 5 || i == 6 || i == 7 || i == 8
        || i == 9 || i == 10 || i == 11 || i == 12 || i == 13 || i == 14 || i == 15 || i == 16;
  }

  /** Entry `i` of the hotfix table is empty for 0 and " (hotfix i)" otherwise. */
  lemma HotfixDigit(i: int)
    requires 0 <= i < |VersionHotfix|
    ensures i == 0 ==> VersionHotfix[i] == ""
    ensures i > 0 ==> |VersionHotfix[i]| == 11 && VersionHotfix[i][0] == ' '
    ensures i > 0 ==> VersionHotfix[i][9] as int - '0' as int == i
  {
    assert i == 0 || i == 1 || i == 2 || i == 3 || i == 4 || i == 5 || i == 6 || i == 7 || i == 8 || i == 9;
  }

  /** The number of digits `s` begins with. */
  function LeadingDigits(s: string): nat {
    if |s| > 0 && IsDigit(s[0]) then 1 + LeadingDigits(s[1..]) else 0
  }

  lemma {:induction false} LeadingDigitsOf(x: string, t: string)
    requires AllDigits(x)
    requires |t| == 0 || !IsDigit(t[0])
    ensures LeadingDigits(x + t) == |x|
  {
    if |x| == 0 {
      assert x + t == t;
    } else {
      assert (x + t)[1..] == x[1..] + t;
      LeadingDigitsOf(x[1..], t);
    }
  }

  /** 1 when `t` begins with a sub-minor letter, 0 when it is empty or begins a hotfix label. */
  function LetterWidth(t: string): nat {
    if |t| > 0 && t[0] != ' ' then 1 else 0
  }

  /** Two label tails of the form sub-minor letter + hotfix label agree only on equal indices. */
  lemma TailDetermined(x: int, hx: int, y: int, hy: int)
    requires 0 <= x < |VersionEnd| && 0 <= y < |VersionEnd|
    requires 0 <= hx < |VersionHotfix| && 0 <= hy < |VersionHotfix|
    requires VersionEnd[x] + VersionHotfix[hx] == VersionEnd[y] + VersionHotfix[hy]
    ensures x == y && hx == hy
  {
    EndLetter(x);
    EndLetter(y);
    HotfixDigit(hx);
    HotfixDigit(hy);
    var t := VersionEnd[x] + VersionHotfix[hx];
    assert LetterWidth(t) == |VersionEnd[x]|;
    assert LetterWidth(t) == |VersionEnd[y]|;
    var w := |VersionEnd[x]|;
    assert VersionEnd[x] == t[..w] == VersionEnd[y];
    assert VersionHotfix[hx] == t[w..] == VersionHotfix[hy];
  }

  /** A minor label followed by a tail agrees with another only on equal minor indices and tails. */
  lemma MinorDetermined(x: int, tx: string, y: int, ty: string)
    requires 0 <= x < |VersionMiddle| && 0 <= y < |VersionMiddle|
    requires |tx| == 0 || !IsDigit(tx[0])
    requires |ty| == 0 || !IsDigit(ty[0])
    requires VersionMiddle[x] + tx == VersionMiddle[y] + ty
    ensures x == y && tx == ty
  {
    MiddleValue(x);
    MiddleValue(y);
    LeadingDigitsOf(VersionMiddle[x], tx);
    LeadingDigitsOf(VersionMiddle[y], ty);
    var r := VersionMiddle[x] + tx;
    var w := |VersionMiddle[x]|;
    assert VersionMiddle[x] == r[..w] == VersionMiddle[y];
    assert tx == r[w..] == ty;
  }

  /** A start label followed by a rest agrees with another only on equal major indices and rests. */
  lemma MajorDetermined(x: int, rx: string, y: int, ry: string)
    requires 0 <= x < |VersionStart| && 0 <= y < |VersionStart|
    requires VersionStart[x] + rx == VersionStart[y] + ry
    ensures x == y && rx == ry
  {
    var r := VersionStart[x] + rx;
    assert r[0] == VersionStart[x][0];
    assert r[0] == VersionStart[y][0];
    StartInitials(x, y);
    assert rx == r[|VersionStart[x]|..] == ry;
  }

  /** The tail after a minor label never begins with a digit. */
  lemma TailStartsWithoutDigit(x: int, hx: int)
    requires 0 <= x < |VersionEnd| && 0 <= hx < |VersionHotfix|
    ensures var t := VersionEnd[x] + VersionHotfix[hx]; |t| == 0 || !IsDigit(t[0])
  {
    EndLetter(x);
    HotfixDigit(hx);
  }

  lemma RenderParts(v: Version)
    requires Displayable(v)
    ensures Render(v) == VersionStart[v.major] + (VersionMiddle[v.minor] + (VersionEnd[v.subMinor] + VersionHotfix[v.hotfix]))
  {
  }

  /** Distinct displayable versions have distinct labels, so archive folder names never collide. */
  lemma RenderIsInjective(a: Version, b: Version)
    requires Displayable(a) && Displayable(b)
    requires Render(a) == Render(b)
    ensures a == b
  {
    var ta := VersionEnd[a.subMinor] + VersionHotfix[a.hotfix];
    var tb := VersionEnd[b.subMinor] + VersionHotfix[b.hotfix];
    var ra := VersionMiddle[a.minor] + ta;
    var rb := VersionMiddle[b.minor] + tb;
    RenderParts(a);
    RenderParts(b);
    MajorDetermined(a.major, ra, b.major, rb);
    TailStartsWithoutDigit(a.subMinor, a.hotfix);
    TailStartsWithoutDigit(b.subMinor, b.hotfix);
    MinorDetermined(a.minor, ta, b.minor, tb);
    TailDetermined(a.subMinor, a.hotfix, b.subMinor, b.hotfix);
  }
}
