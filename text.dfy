/** The few .NET string operations the cache relies on, over `seq<char>`:
    `TrimStart`/`TrimEnd` with a set of characters, `Replace` of a character
    and of a substring, `ToLower` on ASCII letters, `int.ToString()`,
    `int.TryParse` and `Path.GetFileName`. */
module Text {
  import opened Wrappers

  /** `s.TrimStart(chars)`: drops every leading character that is in `chars`. */
  function TrimStart(s: string, chars: set<char>): (r: string)
    ensures |r| <= |s|
  {
    if s != [] && s[0] in chars then TrimStart(s[1..], chars) else s
  }

  /** `TrimStart` removes exactly the longest prefix made of characters of `chars`. */
  lemma {:induction false} TrimStartSpec(s: string, chars: set<char>)
    ensures var r := TrimStart(s, chars);
      r == s[|s| - |r|..] && (r == [] || r[0] !in chars) &&
      forall i :: 0 <= i < |s| - |r| ==> s[i] in chars
  {
    if s != [] && s[0] in chars {
      TrimStartSpec(s[1..], chars);
    }
  }

  /** `s.TrimEnd(chars)`: drops every trailing character that is in `chars`. */
  function TrimEnd(s: string, chars: set<char>): (r: string)
    ensures |r| <= |s|
  {
    if s != [] && s[|s| - 1] in chars then TrimEnd(s[..|s| - 1], chars) else s
  }

  /** `TrimEnd` removes exactly the longest suffix made of characters of `chars`. */
  lemma {:induction false} TrimEndSpec(s: string, chars: set<char>)
    ensures var r := TrimEnd(s, chars);
      r == s[..|r|] && (r == [] || r[|r| - 1] !in chars) &&
      forall i :: |r| <= i < |s| ==> s[i] in chars
  {
    if s != [] && s[|s| - 1] in chars {
      TrimEndSpec(s[..|s| - 1], chars);
    }
  }

  /** `s.Replace(from, to)` for two characters. */
  function ReplaceChar(s: string, from: char, to: char): string {
    seq(|s|, i requires 0 <= i < |s| => if s[i] == from then to else s[i])
  }

  /** Replacing one character by another that the inputs never contain loses nothing. */
  lemma ReplaceCharInjective(s1: string, s2: string, from: char, to: char)
    requires to !in s1 && to !in s2
    requires ReplaceChar(s1, from, to) == ReplaceChar(s2, from, to)
    ensures s1 == s2
  {
    var r1, r2 := ReplaceChar(s1, from, to), ReplaceChar(s2, from, to);
    forall i | 0 <= i < |s1|
      ensures s1[i] == s2[i]
    {
      assert r1[i] == r2[i];
      assert s1[i] != to && s2[i] != to;
    }
  }

  /** `Char.ToLower` restricted to ASCII: the only letters the model lower-cases are ASCII. */
  function ToLowerChar(c: char): char {
    if 'A' <= c <= 'Z' then (c as int + 32) as char else c
  }

  /** `s.ToLower()` on ASCII text. */
  function ToLower(s: string): string {
    seq(|s|, i requires 0 <= i < |s| => ToLowerChar(s[i]))
  }

  /** True when `pattern` starts at position `i` of `s`. */
  predicate OccursAt(s: string, pattern: string, i: int) {
    0 <= i && i + |pattern| <= |s| && s[i..i + |pattern|] == pattern
  }

  /** `s.Replace(pattern, replacement)`: every non-overlapping occurrence of
      `pattern`, scanning from the left, is replaced. An empty pattern makes
      .NET throw; the model only uses non-empty constant patterns. */
  function Replace(s: string, pattern: string, replacement: string): (r: string)
    requires pattern != []
    ensures (forall i :: 0 <= i <= |s| - |pattern| ==> !OccursAt(s, pattern, i)) ==> r == s
    decreases |s|
  {
    if |s| < |pattern| then s
    else if s[..|pattern|] == pattern then
      assert OccursAt(s, pattern, 0);
      replacement + Replace(s[|pattern|..], pattern, replacement)
    else
      assert forall i :: 0 <= i <= |s| - 1 - |pattern| ==> (OccursAt(s[1..], pattern, i) ==> OccursAt(s, pattern, i + 1));
      [s[0]] + Replace(s[1..], pattern, replacement)
  }

  predicate IsDigit(c: char) { '0' <= c <= '9' }

  function DigitChar(d: nat): (c: char)
    requires d < 10
    ensures IsDigit(c) && c as int - '0' as int == d
  {
    (d + '0' as int) as char
  }

  function DigitValue(c: char): nat
    requires IsDigit(c)
  {
    c as int - '0' as int
  }

  /** Decimal digits of a natural number, most significant first, no leading zeros. */
  function NatToString(n: nat): (r: string)
    ensures r != [] && forall i :: 0 <= i < |r| ==> IsDigit(r[i])
    ensures |r| > 1 ==> r[0] != '0'
    decreases n
  {
    if n < 10 then [DigitChar(n)] else NatToString(n / 10) + [DigitChar(n % 10)]
  }

  /** `v.ToString()` for an `int`: an optional `-` followed by decimal digits. */
  function IntToString(v: int): (r: string)
    ensures r != [] && IsDigit(r[|r| - 1])
    ensures (r[0] == '-') <==> v < 0
    ensures forall i :: 0 <= i < |r| ==> IsDigit(r[i]) || (i == 0 && r[i] == '-')
  {
    if v < 0 then "-" + NatToString(-v) else NatToString(v)
  }

  predicate AllDigits(s: string) {
    forall i :: 0 <= i < |s| ==> IsDigit(s[i])
  }

  /** The number a string of decimal digits denotes. */
  function DigitsValue(s: string): nat
    requires AllDigits(s)
  {
    if s == [] then 0 else 10 * DigitsValue(s[..|s| - 1]) + DigitValue(s[|s| - 1])
  }

  lemma {:induction false} DigitsValueOfNatToString(n: nat)
    ensures DigitsValue(NatToString(n)) == n
    decreases n
  {
    if n >= 10 {
      var s := NatToString(n);
      assert s[..|s| - 1] == NatToString(n / 10);
      DigitsValueOfNatToString(n / 10);
    }
  }

  const MinInt32: int := -0x8000_0000
  const MaxInt32: int := 0x7FFF_FFFF

  /** The white space `int.TryParse` accepts around the number. */
  const WhiteSpace: set<char> := {' ', '\t', '\n', 11 as char, 12 as char, '\r'}

  /** `int.TryParse(s, out v)`: white space around an optional sign and decimal
      digits, the value within the 32-bit range; `None` where .NET returns false. */
  function TryParseInt32(s: string): (r: Option<int>)
    ensures r.Some? ==> MinInt32 <= r.value <= MaxInt32
  {
    var t := TrimEnd(TrimStart(s, WhiteSpace), WhiteSpace);
    if t == [] then None
    else
      var digits := if t[0] == '-' || t[0] == '+' then t[1..] else t;
      if digits == [] || !AllDigits(digits) then None
      else
        var v: int := if t[0] == '-' then -(DigitsValue(digits) as int) else DigitsValue(digits);
        if MinInt32 <= v <= MaxInt32 then Some(v) else None
  }

  /** Text that starts and ends with a digit or a sign is left alone by the trimming of `TryParseInt32`. */
  lemma NoWhiteSpaceAround(s: string)
    requires s != []
    requires s[0] !in WhiteSpace && s[|s| - 1] !in WhiteSpace
    ensures TrimEnd(TrimStart(s, WhiteSpace), WhiteSpace) == s
  {
    var u := TrimStart(s, WhiteSpace);
    TrimStartSpec(s, WhiteSpace);
    assert |u| == |s| by {
      if |u| < |s| { assert false; }
    }
    var t := TrimEnd(u, WhiteSpace);
    TrimEndSpec(u, WhiteSpace);
    assert |t| == |u| by {
      if |t| < |u| { assert false; }
    }
  }

  /** Every 32-bit integer written by `ToString()` parses back to itself. */
  lemma IntToStringParses(v: int)
    requires MinInt32 <= v <= MaxInt32
    ensures TryParseInt32(IntToString(v)) == Some(v)
  {
    var s := IntToString(v);
    NoWhiteSpaceAround(s);
    if v < 0 {
      assert s[1..] == NatToString(-v);
      DigitsValueOfNatToString(-v);
    } else {
      DigitsValueOfNatToString(v);
    }
  }

  /** The characters `Path.GetFileName` separates on under Windows. */
  predicate IsPathSeparator(c: char) {
    c == '\\' || c == '/' || c == ':'
  }

  /** The characters that make `Path.GetFileName` throw an `ArgumentException`. */
  predicate IsInvalidPathChar(c: char) {
    c == '"' || c == '<' || c == '>' || c == '|' || c < ' '
  }

  /** The part of `path` after its last separator. */
  function FileNamePart(path: string): (r: string)
    ensures |r| <= |path|
  {
    if path == [] then []
    else if IsPathSeparator(path[|path| - 1]) then []
    else FileNamePart(path[..|path| - 1]) + [path[|path| - 1]]
  }

  /** `FileNamePart` is the longest suffix free of separators. */
  lemma {:induction false} FileNamePartSpec(path: string)
    ensures var r := FileNamePart(path);
      r == path[|path| - |r|..] &&
      (forall i :: 0 <= i < |r| ==> !IsPathSeparator(r[i])) &&
      (|r| < |path| ==> IsPathSeparator(path[|path| - |r| - 1]))
  {
    if path != [] && !IsPathSeparator(path[|path| - 1]) {
      FileNamePartSpec(path[..|path| - 1]);
    }
  }

  datatype PathError = InvalidPathChars

  /** `Path.GetFileName(path)` for a non-null path: it throws on an invalid
      character, and otherwise returns the longest separator-free suffix. */
  function GetFileName(path: string): (r: Result<string, PathError>)
    ensures r.Failure? <==> exists i :: 0 <= i < |path| && IsInvalidPathChar(path[i])
    ensures r.Success? ==>
      |r.value| <= |path| && r.value == path[|path| - |r.value|..] &&
      (forall i :: 0 <= i < |r.value| ==> !IsPathSeparator(r.value[i])) &&
      (|r.value| < |path| ==> IsPathSeparator(path[|path| - |r.value| - 1]))
  {
    if exists i :: 0 <= i < |path| && IsInvalidPathChar(path[i]) then Failure(InvalidPathChars)
    else
      FileNamePartSpec(path);
      Success(FileNamePart(path))
  }

  /** A bare name, with no separator and no invalid character, is its own file name. */
  lemma GetFileNameOfBareName(name: string)
    requires forall i :: 0 <= i < |name| ==> !IsPathSeparator(name[i]) && !IsInvalidPathChar(name[i])
    ensures GetFileName(name) == Success(name)
  {
    var r := FileNamePart(name);
    FileNamePartSpec(name);
    assert |r| == |name| by {
      if |r| < |name| { assert false; }
    }
  }
}
