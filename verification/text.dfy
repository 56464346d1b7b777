/** The .NET string operations the modelled code relies on, over `string` = `seq<char>`:
    ordinal and case-insensitive search, `Split`, `Trim`, `Replace(x, "")`, decimal
    rendering of integers and `Int32` parsing. */
module Text {
  import opened Wrappers

  const Int32Min: int := -0x8000_0000
  const Int32Max: int := 0x7FFF_FFFF

  predicate IsInt32(n: int) {
    Int32Min <= n <= Int32Max
  }

  /** The characters `char.IsWhiteSpace` accepts below U+0100. */
  const WhiteSpace: set<char> := {' ', '\t', '\n', '\U{B}', '\U{C}', '\r', '\U{85}', '\U{A0}'}

  predicate IsWhiteSpace(c: char) {
    c in WhiteSpace
  }

  /** `String.IsNullOrWhiteSpace` on a non-null string. */
  predicate IsBlank(s: string) {
    forall k :: 0 <= k < |s| ==> IsWhiteSpace(s[k])
  }

  /** `String.IsNullOrWhiteSpace`, where `None` is `null`. */
  predicate IsNullOrBlank(s: Option<string>) {
    s.None? || IsBlank(s.value)
  }

  // ---------------------------------------------------------------------------
  // Ordinal search

  predicate MatchesAt(s: string, i: nat, pat: string) {
    i + |pat| <= |s| && s[i..i + |pat|] == pat
  }

  function IndexFrom(s: string, pat: string, i: nat): (r: int)
    requires i <= |s|
    ensures r == -1 || i <= r <= |s|
    ensures r >= 0 ==> MatchesAt(s, r, pat) && forall j :: i <= j < r ==> !MatchesAt(s, j, pat)
    ensures r == -1 ==> forall j :: i <= j <= |s| ==> !MatchesAt(s, j, pat)
    decreases |s| - i
  {
    if MatchesAt(s, i, pat) then i
    else if i == |s| then -1
    else IndexFrom(s, pat, i + 1)
  }

  /** `s.IndexOf(pat)`: the first position where `pat` occurs, or -1. */
  function IndexOf(s: string, pat: string): (r: int)
    ensures -1 <= r <= |s|
    ensures r >= 0 ==> MatchesAt(s, r, pat) && forall j :: 0 <= j < r ==> !MatchesAt(s, j, pat)
    ensures r == -1 ==> forall j :: 0 <= j <= |s| ==> !MatchesAt(s, j, pat)
  {
    IndexFrom(s, pat, 0)
  }

  predicate Contains(s: string, pat: string) {
    IndexOf(s, pat) >= 0
  }

  /** A pattern whose first character is missing from every position it could start at
      does not occur. */
  lemma AbsentWhenFirstMissing(s: string, pat: string)
    requires |pat| > 0
    requires forall j :: 0 <= j && j + |pat| <= |s| ==> s[j] != pat[0]
    ensures IndexOf(s, pat) == -1
  {
    forall j | 0 <= j <= |s|
      ensures !MatchesAt(s, j, pat)
    {
      if j + |pat| <= |s| {
        assert s[j..j + |pat|][0] == s[j];
      }
    }
  }

  // ---------------------------------------------------------------------------
  // Case-insensitive search (ASCII letters fold to lower case)

  function ToLowerAscii(c: char): char {
    if 'A' <= c <= 'Z' then (c as int + 32) as char else c
  }

  predicate FoldMatchesAt(s: string, i: nat, pat: string) {
    && i + |pat| <= |s|
    && forall k :: 0 <= k < |pat| ==> ToLowerAscii(s[i + k]) == ToLowerAscii(pat[k])
  }

  function CaseInsIndexFrom(s: string, pat: string, i: nat): (r: Option<nat>)
    requires i <= |s|
    ensures r.Some? ==> i <= r.value <= |s| && FoldMatchesAt(s, r.value, pat)
    ensures r.Some? ==> forall j :: i <= j < r.value ==> !FoldMatchesAt(s, j, pat)
    ensures r.None? ==> forall j :: i <= j <= |s| ==> !FoldMatchesAt(s, j, pat)
    decreases |s| - i
  {
    if FoldMatchesAt(s, i, pat) then Some(i)
    else if i == |s| then None
    else CaseInsIndexFrom(s, pat, i + 1)
  }

  /** `CaseInsIndexOf(s, pat, out index)`: the first case-insensitive occurrence. */
  function CaseInsIndexOf(s: string, pat: string): (r: Option<nat>)
    ensures r.Some? ==> r.value + |pat| <= |s| && FoldMatchesAt(s, r.value, pat)
    ensures r.Some? ==> forall j :: 0 <= j < r.value ==> !FoldMatchesAt(s, j, pat)
    ensures r.None? ==> forall j :: 0 <= j <= |s| ==> !FoldMatchesAt(s, j, pat)
  {
    CaseInsIndexFrom(s, pat, 0)
  }

  predicate CaseInsContains(s: string, pat: string) {
    CaseInsIndexOf(s, pat).Some?
  }

  // ---------------------------------------------------------------------------
  // Splitting

  /** The length of the longest prefix of `s` holding no character of `stops`. */
  function SpanUntil(s: string, stops: set<char>): (n: nat)
    ensures n <= |s|
    ensures forall k :: 0 <= k < n ==> s[k] !in stops
    ensures n < |s| ==> s[n] in stops
  {
    if |s| == 0 || s[0] in stops then 0 else 1 + SpanUntil(s[1..], stops)
  }

  /** `s.Split(stops)[0]`: the text before the first character of `stops`. */
  function PrefixBefore(s: string, stops: set<char>): string {
    s[..SpanUntil(s, stops)]
  }

  function Join(fields: seq<string>, sep: char): string
    requires |fields| > 0
  {
    if |fields| == 1 then fields[0] else fields[0] + [sep] + Join(fields[1..], sep)
  }

  /** `s.Split(sep)`: the fields between separators, empty ones included. */
  function Split(s: string, sep: char): (fields: seq<string>)
    ensures |fields| > 0
    ensures forall k :: 0 <= k < |fields| ==> sep !in fields[k]
    ensures Join(fields, sep) == s
    decreases |s|
  {
    var n := SpanUntil(s, {sep});
    if n == |s| then
      [s]
    else
      var rest := Split(s[n + 1..], sep);
      var fields := [s[..n]] + rest;
      assert fields[1..] == rest;
      assert s == s[..n] + [sep] + s[n + 1..];
      fields
  }

  function CountChar(s: string, c: char): nat {
    if |s| == 0 then 0 else (if s[0] == c then 1 else 0) + CountChar(s[1..], c)
  }

  lemma {:induction false} CountCharAppend(a: string, b: string, c: char)
    ensures CountChar(a + b, c) == CountChar(a, c) + CountChar(b, c)
    decreases |a|
  {
    if |a| > 0 {
      assert (a + b)[1..] == a[1..] + b;
      CountCharAppend(a[1..], b, c);
    } else {
      assert a + b == b;
    }
  }

  lemma {:induction false} CountCharAbsent(s: string, c: char)
    requires c !in s
    ensures CountChar(s, c) == 0
    decreases |s|
  {
    if |s| > 0 {
      CountCharAbsent(s[1..], c);
    }
  }

  /** `Split` yields one field more than there are separators. */
  lemma {:induction false} SplitCount(s: string, sep: char)
    ensures |Split(s, sep)| == CountChar(s, sep) + 1
    decreases |s|
  {
    var n := SpanUntil(s, {sep});
    if n == |s| {
      assert s[..n] == s;
      CountCharAbsent(s, sep);
    } else {
      SplitCount(s[n + 1..], sep);
      assert s == s[..n] + ([sep] + s[n + 1..]);
      CountCharAppend(s[..n], [sep] + s[n + 1..], sep);
      CountCharAppend([sep], s[n + 1..], sep);
      CountCharAbsent(s[..n], sep);
    }
  }

  lemma {:induction false} SpanOfJoin(a: string, rest: string, sep: char)
    requires sep !in a
    ensures SpanUntil(a + [sep] + rest, {sep}) == |a|
    decreases |a|
  {
    if |a| > 0 {
      assert (a + [sep] + rest)[1..] == a[1..] + [sep] + rest;
      SpanOfJoin(a[1..], rest, sep);
    }
  }

  lemma {:induction false} SpanOfFree(a: string, sep: char)
    requires sep !in a
    ensures SpanUntil(a, {sep}) == |a|
    decreases |a|
  {
    if |a| > 0 {
      SpanOfFree(a[1..], sep);
    }
  }

  /** `Split` undoes `Join` when no field holds the separator. */
  lemma {:induction false} SplitJoin(fields: seq<string>, sep: char)
    requires |fields| > 0
    requires forall k :: 0 <= k < |fields| ==> sep !in fields[k]
    ensures Split(Join(fields, sep), sep) == fields
    decreases |fields|
  {
    if |fields| == 1 {
      SpanOfFree(fields[0], sep);
    } else {
      var rest := Join(fields[1..], sep);
      var s := fields[0] + [sep] + rest;
      assert Join(fields, sep) == s;
      SpanOfJoin(fields[0], rest, sep);
      var n := |fields[0]|;
      assert s[..n] == fields[0];
      assert s[n + 1..] == rest;
      SplitJoin(fields[1..], sep);
      assert Split(s, sep) == [s[..n]] + Split(s[n + 1..], sep);
      assert fields == [fields[0]] + fields[1..];
    }
  }

  /** The first non-empty element, as `Split(..., RemoveEmptyEntries)[0]` finds it. */
  function FirstNonEmpty(fields: seq<string>): (r: Option<string>)
    ensures r.Some? ==> r.value != [] && r.value in fields
    ensures r.None? ==> forall k :: 0 <= k < |fields| ==> fields[k] == []
  {
    if |fields| == 0 then None
    else if fields[0] != [] then Some(fields[0])
    else FirstNonEmpty(fields[1..])
  }

  // ---------------------------------------------------------------------------
  // Trimming and replacing

  function TrimStart(s: string, cs: set<char>): (r: string)
    ensures |r| <= |s| && r == s[|s| - |r|..]
    ensures forall k :: 0 <= k < |s| - |r| ==> s[k] in cs
    ensures |r| > 0 ==> r[0] !in cs
  {
    if |s| > 0 && s[0] in cs then TrimStart(s[1..], cs) else s
  }

  function TrimEnd(s: string, cs: set<char>): (r: string)
    ensures |r| <= |s| && r == s[..|r|]
    ensures forall k :: |r| <= k < |s| ==> s[k] in cs
    ensures |r| > 0 ==> r[|r| - 1] !in cs
  {
    if |s| > 0 && s[|s| - 1] in cs then TrimEnd(s[..|s| - 1], cs) else s
  }

  /** `s.Trim(chars)`: both ends stripped of every character in `cs`. */
  function TrimSet(s: string, cs: set<char>): (r: string)
    ensures |r| > 0 ==> r[0] !in cs && r[|r| - 1] !in cs
  {
    TrimEnd(TrimStart(s, cs), cs)
  }

  /** A string whose ends are both kept is its own trim. */
  lemma TrimSetOfKeptEnds(s: string, cs: set<char>)
    requires |s| > 0 ==> s[0] !in cs && s[|s| - 1] !in cs
    ensures TrimSet(s, cs) == s
  {
    assert TrimStart(s, cs) == s;
  }

  /** `s.EndsWith(t)`, ordinal. */
  predicate EndsWith(s: string, t: string) {
    |t| <= |s| && s[|s| - |t|..] == t
  }

  /** Trimming the front of `x + y` stops inside `x` or at the start of `y` when `y` starts
      with a character that is kept. */
  lemma {:induction false} TrimStartAppend(x: string, y: string, cs: set<char>)
    requires |y| > 0 && y[0] !in cs
    ensures TrimStart(x + y, cs) == TrimStart(x, cs) + y
    decreases |x|
  {
    if |x| > 0 {
      assert (x + y)[0] == x[0];
      assert (x + y)[1..] == x[1..] + y;
      TrimStartAppend(x[1..], y, cs);
    } else {
      assert x + y == y;
    }
  }

  /** Trimming the end of `w + y` stops inside `y` or at the end of `w` when `w` ends with
      a character that is kept. */
  lemma {:induction false} TrimEndAppend(w: string, y: string, cs: set<char>)
    requires |w| > 0 && w[|w| - 1] !in cs
    ensures TrimEnd(w + y, cs) == w + TrimEnd(y, cs)
    decreases |y|
  {
    if |y| == 0 {
      assert w + y == w;
    } else {
      assert (w + y)[|w + y| - 1] == y[|y| - 1];
      assert (w + y)[..|w + y| - 1] == w + y[..|y| - 1];
      TrimEndAppend(w, y[..|y| - 1], cs);
    }
  }

  /** `(x + y).Trim(cs)` when `y` starts with a kept character: the front trim touches only
      `x` and the end trim touches only `y`. */
  lemma TrimSetSplit(x: string, y: string, cs: set<char>)
    requires |y| > 0 && y[0] !in cs
    ensures TrimSet(x + y, cs) == TrimStart(x, cs) + [y[0]] + TrimEnd(y[1..], cs)
  {
    TrimStartAppend(x, y, cs);
    TrimEndOfKept(TrimStart(x, cs), y, cs);
  }

  lemma TrimEndOfKept(t: string, y: string, cs: set<char>)
    requires |y| > 0 && y[0] !in cs
    ensures TrimEnd(t + y, cs) == t + [y[0]] + TrimEnd(y[1..], cs)
  {
    var w := t + [y[0]];
    assert t + y == w + y[1..];
    TrimEndAppend(w, y[1..], cs);
  }

  lemma TrimStartBeforeKept(x: string, w: string, y: string, cs: set<char>)
    requires |w| > 0 && w[0] !in cs
    ensures TrimStart(x + w + y, cs) == TrimStart(x, cs) + w + y
  {
    assert x + w + y == x + (w + y);
    assert (w + y)[0] == w[0];
    TrimStartAppend(x, w + y, cs);
    assert TrimStart(x, cs) + (w + y) == TrimStart(x, cs) + w + y;
  }

  lemma TrimEndAfterKept(t: string, w: string, y: string, cs: set<char>)
    requires |w| > 0 && w[|w| - 1] !in cs
    ensures TrimEnd(t + w + y, cs) == t + w + TrimEnd(y, cs)
  {
    assert (t + w)[|t + w| - 1] == w[|w| - 1];
    TrimEndAppend(t + w, y, cs);
  }

  /** Trimming `x + w + y`, where `w` starts and ends with kept characters, leaves `w`
      followed by `y` trimmed at its end. */
  lemma TrimSetMiddle(x: string, w: string, y: string, cs: set<char>)
    requires |w| > 0 && w[0] !in cs && w[|w| - 1] !in cs
    ensures TrimSet(x + w + y, cs) == TrimStart(x, cs) + w + TrimEnd(y, cs)
  {
    TrimStartBeforeKept(x, w, y, cs);
    TrimEndAfterKept(TrimStart(x, cs), w, y, cs);
  }

  lemma EndsWithConcat(r: string, t: string, w: string, e: string)
    requires r == t + w + e
    ensures EndsWith(r, w + e)
  {
    assert r[|r| - |w + e|..] == w + e;
  }

  lemma TrimSetEndsWith(x: string, w: string, y: string, cs: set<char>)
    requires |w| > 0 && w[0] !in cs && w[|w| - 1] !in cs
    ensures EndsWith(TrimSet(x + w + y, cs), w + TrimEnd(y, cs))
  {
    TrimSetMiddle(x, w, y, cs);
    EndsWithConcat(TrimSet(x + w + y, cs), TrimStart(x, cs), w, TrimEnd(y, cs));
  }

  lemma TrimSetEndsWithKept(x: string, w: string, cs: set<char>)
    requires |w| > 0 && w[0] !in cs && w[|w| - 1] !in cs
    ensures EndsWith(TrimSet(x + w, cs), w)
  {
    assert x + w + [] == x + w;
    assert w + TrimEnd([], cs) == w;
    TrimSetEndsWith(x, w, [], cs);
  }

  /** `s.Trim()`. */
  function Trim(s: string): string {
    TrimSet(s, WhiteSpace)
  }

  /** `s.Replace(pat, "")`: every occurrence found scanning left to right is removed. */
  function RemoveAll(s: string, pat: string): string
    requires |pat| > 0
    decreases |s|
  {
    if |s| == 0 then s
    else if pat <= s then RemoveAll(s[|pat|..], pat)
    else [s[0]] + RemoveAll(s[1..], pat)
  }

  lemma {:induction false} RemoveAllFree(s: string, pat: string)
    requires |pat| > 0
    requires forall i :: 0 <= i < |s| ==> !MatchesAt(s, i, pat)
    ensures RemoveAll(s, pat) == s
    decreases |s|
  {
    if |s| > 0 {
      assert !MatchesAt(s, 0, pat);
      assert !(pat <= s);
      forall i | 0 <= i < |s[1..]|
        ensures !MatchesAt(s[1..], i, pat)
      {
        assert !MatchesAt(s, i + 1, pat);
        if i + |pat| <= |s[1..]| {
          assert s[1..][i..i + |pat|] == s[i + 1..i + 1 + |pat|];
        }
      }
      RemoveAllFree(s[1..], pat);
    }
  }

  // ---------------------------------------------------------------------------
  // Decimal integers

  predicate IsDigit(c: char) {
    '0' <= c <= '9'
  }

  predicate IsDigits(s: string) {
    |s| > 0 && forall k :: 0 <= k < |s| ==> IsDigit(s[k])
  }

  function DigitChar(d: nat): (c: char)
    requires d < 10
    ensures IsDigit(c)
  {
    ('0' as int + d) as char
  }

  function DigitValue(c: char): nat
    requires IsDigit(c)
  {
    c as int - '0' as int
  }

  /** The decimal rendering of a natural number, without leading zeros. */
  function NatToString(n: nat): (s: string)
    ensures IsDigits(s)
    decreases n
  {
    if n < 10 then [DigitChar(n)] else NatToString(n / 10) + [DigitChar(n % 10)]
  }

  /** `n.ToString()` in the invariant culture. */
  function IntToString(n: int): (s: string)
    ensures |s| > 0
    ensures forall k :: 0 <= k < |s| ==> IsDigit(s[k]) || s[k] == '-'
  {
    if n < 0 then "-" + NatToString(-n) else NatToString(n)
  }

  /** The value of a string of decimal digits. */
  function DigitsValue(s: string): nat
    requires forall k :: 0 <= k < |s| ==> IsDigit(s[k])
  {
    if |s| == 0 then 0 else DigitsValue(s[..|s| - 1]) * 10 + DigitValue(s[|s| - 1])
  }

  lemma {:induction false} DigitsValueOfNatToString(n: nat)
    ensures DigitsValue(NatToString(n)) == n
    decreases n
  {
    if n >= 10 {
      var s := NatToString(n);
      DigitsValueOfNatToString(n / 10);
      assert s[..|s| - 1] == NatToString(n / 10);
    }
  }

  /** A larger number never has a shorter decimal rendering. */
  lemma {:induction false} NatToStringLengthMonotonic(a: nat, b: nat)
    requires a <= b
    ensures |NatToString(a)| <= |NatToString(b)|
    decreases b
  {
    if a >= 10 {
      NatToStringLengthMonotonic(a / 10, b / 10);
    }
  }

  lemma TrimOfNoWhiteSpace(s: string)
    requires forall k :: 0 <= k < |s| ==> IsDigit(s[k]) || s[k] == '-'
    ensures Trim(s) == s
    ensures TrimSet(s, NumberWhiteSpace) == s
  {
    if |s| > 0 {
      assert s[0] !in WhiteSpace && s[0] !in NumberWhiteSpace;
      assert s[|s| - 1] !in WhiteSpace && s[|s| - 1] !in NumberWhiteSpace;
    }
    TrimSetOfKeptEnds(s, NumberWhiteSpace);
  }

  /** The white space `NumberStyles.Integer` allows around a number: U+0009 to U+000D
      and U+0020, a narrower set than `char.IsWhiteSpace`. */
  const NumberWhiteSpace: set<char> := {'\t', '\n', '\U{B}', '\U{C}', '\r', ' '}

  /** The numeric part of `Int32.Parse` with `NumberStyles.Integer`: surrounding white
      space, an optional sign, at least one digit; `None` is a format error. */
  function ParseInteger(s: string): Option<int> {
    var t := TrimSet(s, NumberWhiteSpace);
    if |t| > 0 && (t[0] == '-' || t[0] == '+') then
      if IsDigits(t[1..]) then
        var v: int := DigitsValue(t[1..]);
        Some(if t[0] == '-' then -v else v)
      else None
    else if IsDigits(t) then Some(DigitsValue(t))
    else None
  }

  /** A no-break space is white space to `char.IsWhiteSpace` but not around a number:
      " 7 " parses, "\u00A07" does not. */
  lemma NumberWhiteSpaceOnly()
    ensures ParseInteger(" 7 ") == Some(7)
    ensures IsWhiteSpace('\U{A0}') && ParseInteger("\U{A0}7") == None
  {
    SpacesTrimmed();
    SameTrimSameParse(" 7 ", "7");
    SevenParses();
    NoBreakSpaceKept();
  }

  lemma SpacesTrimmed()
    ensures TrimSet(" 7 ", NumberWhiteSpace) == "7" == TrimSet("7", NumberWhiteSpace)
  {
    assert " 7 "[0] in NumberWhiteSpace;
    assert " 7 "[1..] == "7 ";
    assert TrimStart("7 ", NumberWhiteSpace) == "7 ";
    assert "7 "[1] in NumberWhiteSpace;
    assert "7 "[..1] == "7";
    assert TrimEnd("7", NumberWhiteSpace) == "7";
    assert TrimSet("7", NumberWhiteSpace) == "7";
  }

  lemma SameTrimSameParse(s: string, t: string)
    requires TrimSet(s, NumberWhiteSpace) == TrimSet(t, NumberWhiteSpace)
    ensures ParseInteger(s) == ParseInteger(t)
  {
  }

  lemma SevenParses()
    ensures ParseInteger("7") == Some(7)
  {
    assert TrimSet("7", NumberWhiteSpace) == "7";
    assert "7"[..0] == "";
    assert DigitsValue("7") == 7;
  }

  lemma NoBreakSpaceKept()
    ensures ParseInteger("\U{A0}7") == None
  {
    var t := "\U{A0}7";
    assert t[0] !in NumberWhiteSpace && t[1] !in NumberWhiteSpace;
    assert TrimSet(t, NumberWhiteSpace) == t;
    assert !IsDigit(t[0]) && t[0] != '-' && t[0] != '+';
  }

  /** `Convert.ToInt32(s)`: a format error, an overflow, or the value. */
  function ConvertToInt32(s: string): (r: Result<int>)
    ensures r.Ok? ==> IsInt32(r.value)
    ensures r.Err? ==> r.error == Format || r.error == Overflow
  {
    match ParseInteger(s)
    case None => Err(Format)
    case Some(v) => if IsInt32(v) then Ok(v) else Err(Overflow)
  }

  const UInt64Max: int := 0xFFFF_FFFF_FFFF_FFFF

  /** `Convert.ToUInt64(s)`: a format error, an overflow (negative values included), or
      the value. */
  function ConvertToUInt64(s: string): (r: Result<nat>)
    ensures r.Ok? ==> r.value <= UInt64Max
    ensures r.Err? ==> r.error == Format || r.error == Overflow
    ensures r.Ok? <==> ParseInteger(s).Some? && 0 <= ParseInteger(s).value <= UInt64Max
  {
    match ParseInteger(s)
    case None => Err(Format)
    case Some(v) => if 0 <= v <= UInt64Max then Ok(v) else Err(Overflow)
  }

  /** `int.TryParse(s, out v)`: `None` when `Convert.ToInt32` would raise. */
  function TryParseInt32(s: string): (r: Option<int>)
    ensures r.Some? <==> ConvertToInt32(s).Ok?
    ensures r.Some? ==> r.value == ConvertToInt32(s).value
  {
    match ConvertToInt32(s)
    case Ok(v) => Some(v)
    case Err(_) => None
  }

  /** Parsing undoes rendering for every 32-bit integer. */
  lemma ParseOfIntToString(n: int)
    requires IsInt32(n)
    ensures ConvertToInt32(IntToString(n)) == Ok(n)
  {
    if n < 0 {
      ParseOfNegative(n);
    } else {
      ParseOfNatToString(n);
    }
  }

  /** Parsing undoes rendering for every negative number. */
  lemma ParseOfNegative(n: int)
    requires n < 0
    ensures ParseInteger("-" + NatToString(-n)) == Some(n)
  {
    var d := NatToString(-n);
    ParseOfSignedDigits(d);
    DigitsValueOfNatToString(-n);
    assert DigitsValue(d) == -n;
  }

  /** A minus sign followed by digits parses to the negated value of the digits. */
  lemma ParseOfSignedDigits(d: string)
    requires IsDigits(d)
    ensures ParseInteger("-" + d) == Some(-(DigitsValue(d) as int))
  {
    SignedDigitsTrimmed(d);
    SignDropped(d);
  }

  /** A sign followed by digits is free of white space. */
  lemma SignedDigitsTrimmed(d: string)
    requires IsDigits(d)
    ensures TrimSet("-" + d, NumberWhiteSpace) == "-" + d
  {
    var s := "-" + d;
    assert s[|s| - 1] == d[|d| - 1];
    TrimSetOfKeptEnds(s, NumberWhiteSpace);
  }

  lemma NegativeChars(d: string)
    requires IsDigits(d)
    ensures forall k :: 0 <= k < |"-" + d| ==> IsDigit(("-" + d)[k]) || ("-" + d)[k] == '-'
  {
    var s := "-" + d;
    forall k | 0 <= k < |s|
      ensures IsDigit(s[k]) || s[k] == '-'
    {
      if k > 0 {
        assert s[k] == d[k - 1];
      }
    }
  }

  lemma SignDropped(d: string)
    ensures ("-" + d)[0] == '-' && ("-" + d)[1..] == d
  {
  }

  /** Parsing undoes rendering for every natural number. */
  lemma ParseOfNatToString(n: nat)
    ensures ParseInteger(NatToString(n)) == Some(n)
  {
    var s := NatToString(n);
    TrimOfNoWhiteSpace(s);
    DigitsValueOfNatToString(n);
  }
}
