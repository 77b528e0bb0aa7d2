/**
 * The JavaScript string operations that the application relies on, over `seq<char>`:
 * trim, split and join on one character, includes, upper-casing, decimal digits,
 * and the prefix readers behind `parseInt(s, 10)` and `isNaN(parseFloat(s))`.
 */
module Text {
  import opened Wrappers

  // ---------------------------------------------------------------------------
  // Whitespace and trim
  // ---------------------------------------------------------------------------

  /** The WhiteSpace and LineTerminator code points of ECMAScript, which `trim` removes. */
  predicate IsSpace(c: char) {
    c == '\t' || c == '\n' || c == '\U{000B}' || c == '\U{000C}' || c == '\r' || c == ' '
    || c == '\U{00A0}' || c == '\U{1680}' || ('\U{2000}' <= c <= '\U{200A}')
    || c == '\U{2028}' || c == '\U{2029}' || c == '\U{202F}' || c == '\U{205F}'
    || c == '\U{3000}' || c == '\U{FEFF}'
  }

  predicate AllSpace(s: string) {
    forall i :: 0 <= i < |s| ==> IsSpace(s[i])
  }

  /** `trimStart`: drops the longest all-whitespace prefix. */
  function TrimStart(s: string): (r: string)
    ensures |r| <= |s| && r == s[|s| - |r|..]
    ensures AllSpace(s[..|s| - |r|])
    ensures r == [] || !IsSpace(r[0])
  {
    if |s| > 0 && IsSpace(s[0]) then TrimStart(s[1..]) else s
  }

  /** `trimEnd`: drops the longest all-whitespace suffix. */
  function TrimEnd(s: string): (r: string)
    ensures |r| <= |s| && r == s[..|r|]
    ensures AllSpace(s[|r|..])
    ensures r == [] || !IsSpace(r[|r| - 1])
  {
    if |s| > 0 && IsSpace(s[|s| - 1]) then
      var r := TrimEnd(s[..|s| - 1]);
      assert s[|r|..] == s[..|s| - 1][|r|..] + [s[|s| - 1]];
      r
    else s
  }

  /** `String.prototype.trim`. */
  function Trim(s: string): (r: string)
  {
    TrimEnd(TrimStart(s))
  }

  /** `s.trim() === ''`, and equally `!s.trim()`: the string is empty or whitespace only. */
  predicate IsBlank(s: string) {
    Trim(s) == ""
  }

  /** What `trim` returns neither starts nor ends with whitespace. */
  lemma TrimEdges(s: string)
    ensures var r := Trim(s); r == [] || (!IsSpace(r[0]) && !IsSpace(r[|r| - 1]))
  {
    var t := TrimStart(s);
    var r := TrimEnd(t);
    if r != [] {
      assert r[0] == t[0];
    }
  }

  /** Trimming twice is trimming once. */
  lemma TrimIdempotent(s: string)
    ensures Trim(Trim(s)) == Trim(s)
  {
    var r := Trim(s);
    TrimEdges(s);
    assert TrimStart(r) == r;
    assert TrimEnd(r) == r;
  }

  lemma {:induction false} TrimStartAllSpace(s: string)
    requires AllSpace(s)
    ensures TrimStart(s) == []
  {
    if |s| > 0 {
      TrimStartAllSpace(s[1..]);
    }
  }

  /** A string that neither starts nor ends with whitespace is its own trim. */
  lemma TrimUnpadded(s: string)
    requires s == [] || (!IsSpace(s[0]) && !IsSpace(s[|s| - 1]))
    ensures Trim(s) == s
  {
    var t := TrimStart(s);
    if |t| < |s| {
      assert s[..|s| - |t|][0] == s[0];
    }
    assert t == s;
  }

  /** A string is blank exactly when every character of it is whitespace. */
  lemma BlankIffAllSpace(s: string)
    ensures IsBlank(s) <==> AllSpace(s)
  {
    if AllSpace(s) {
      TrimStartAllSpace(s);
    }
    var t := TrimStart(s);
    if TrimEnd(t) == [] {
      assert t[0..] == t;
      assert s == s[..|s| - |t|] + t;
    }
  }

  // ---------------------------------------------------------------------------
  // includes
  // ---------------------------------------------------------------------------

  predicate StartsWith(s: string, t: string) {
    |t| <= |s| && s[..|t|] == t
  }

  /** `t` occurs in `s` starting at position `i`. */
  predicate OccursAt(s: string, t: string, i: int) {
    0 <= i && i + |t| <= |s| && s[i..i + |t|] == t
  }

  /** The reference definition of a substring: `t` occurs in `s` at some position. */
  predicate Contains(s: string, t: string) {
    exists i | 0 <= i <= |s| - |t| :: OccursAt(s, t, i)
  }

  /** `s.includes(t)` as a search: `t` starts `s` or the rest of `s` after its first character. */
  predicate Includes(s: string, t: string)
    decreases |s|
  {
    StartsWith(s, t) || (s != [] && Includes(s[1..], t))
  }

  /** The search finds `t` exactly when it occurs somewhere in `s`. */
  lemma {:induction false} IncludesIffContains(s: string, t: string)
    ensures Includes(s, t) <==> Contains(s, t)
  {
    if s == [] {
      if t == [] {
        assert OccursAt(s, t, 0);
      }
    } else {
      IncludesIffContains(s[1..], t);
      ContainsFirstOrRest(s, t);
    }
  }

  /** An occurrence is at the start or in the rest. */
  lemma ContainsFirstOrRest(s: string, t: string)
    requires s != []
    ensures Contains(s, t) <==> StartsWith(s, t) || Contains(s[1..], t)
  {
    if StartsWith(s, t) {
      assert s[0..|t|] == s[..|t|];
      assert OccursAt(s, t, 0);
    }
    if Contains(s[1..], t) {
      var i :| 0 <= i <= |s| - 1 - |t| && OccursAt(s[1..], t, i);
      assert s[i + 1..i + 1 + |t|] == s[1..][i..i + |t|];
      assert OccursAt(s, t, i + 1);
    }
    if Contains(s, t) && !StartsWith(s, t) {
      var i :| 0 <= i <= |s| - |t| && OccursAt(s, t, i);
      assert i != 0;
      assert s[1..][i - 1..i - 1 + |t|] == s[i..i + |t|];
      assert OccursAt(s[1..], t, i - 1);
    }
  }

  /** A string contains every string placed inside it. */
  lemma ContainsInfix(a: string, t: string, b: string)
    ensures Contains(a + t + b, t)
  {
    assert OccursAt(a + t + b, t, |a|);
  }

  /** A string cannot contain a longer one. */
  lemma NotContainsLonger(s: string, t: string)
    requires |s| < |t|
    ensures !Contains(s, t)
  {
  }

  /** If some character of `t` is missing from `s`, then `s` does not contain `t`. */
  lemma NotContainsMissingChar(s: string, t: string, c: char)
    requires c in t && c !in s
    ensures !Contains(s, t)
  {
    var k :| 0 <= k < |t| && t[k] == c;
    forall i | 0 <= i <= |s| - |t|
      ensures !OccursAt(s, t, i)
    {
      assert s[i..i + |t|][k] == s[i + k];
    }
  }

  /**
   * An occurrence of `t` in `a + b` lies in `a`, in `b`, or across the join; it cannot lie
   * across the join when the last character of `a` or the first of `b` is not in `t`.
   */
  lemma NotContainsAppend(a: string, b: string, t: string)
    requires !Contains(a, t) && !Contains(b, t)
    requires (|a| > 0 && a[|a| - 1] !in t) || (|b| > 0 && b[0] !in t)
    ensures !Contains(a + b, t)
  {
    var s := a + b;
    forall i | 0 <= i <= |s| - |t|
      ensures !OccursAt(s, t, i)
    {
      if i + |t| <= |a| {
        assert s[i..i + |t|] == a[i..i + |t|];
        assert !OccursAt(a, t, i);
      } else if i >= |a| {
        assert s[i..i + |t|] == b[i - |a|..i - |a| + |t|];
        assert !OccursAt(b, t, i - |a|);
      } else {
        assert s[i..i + |t|][|a| - 1 - i] == a[|a| - 1];
        assert s[i..i + |t|][|a| - i] == b[0];
      }
    }
  }

  /** A string that lacks some part of `t` lacks `t`. */
  lemma NotContainsVia(s: string, t: string, u: string)
    requires !Contains(s, u) && Contains(t, u)
    ensures !Contains(s, t)
  {
    if Contains(s, t) {
      var i :| 0 <= i <= |s| - |t| && OccursAt(s, t, i);
      var j :| 0 <= j <= |t| - |u| && OccursAt(t, u, j);
      forall k | 0 <= k < |u| ensures s[i + j + k] == u[k] {
        assert u[k] == t[j..j + |u|][k] == t[j + k];
        assert t[j + k] == s[i..i + |t|][j + k];
      }
      assert s[i + j..i + j + |u|] == u;
      assert OccursAt(s, u, i + j);
    }
  }

  /** Strings of the same length contain each other only when they are equal. */
  lemma ContainsSameLength(s: string, t: string)
    requires |s| == |t|
    ensures Contains(s, t) <==> s == t
  {
    assert s[0..|t|] == s;
    if s == t {
      assert OccursAt(s, t, 0);
    }
  }

  // ---------------------------------------------------------------------------
  // split and join on one separator character
  // ---------------------------------------------------------------------------

  /** `s.split(sep)` for a one-character separator. */
  function Split(s: string, sep: char): (r: seq<string>)
    ensures |r| >= 1
    ensures forall i :: 0 <= i < |r| ==> sep !in r[i]
    ensures Join(r, sep) == s
  {
    if |s| == 0 then [""]
    else
      var rest := Split(s[1..], sep);
      if s[0] == sep then
        JoinCons("", rest, sep);
        [""] + rest
      else
        var r := [[s[0]] + rest[0]] + rest[1..];
        assert r[1..] == rest[1..];
        assert Join(rest, sep) == rest[0] + JoinTail(rest[1..], sep);
        r
  }

  /** `parts.join(sep)`. */
  function Join(parts: seq<string>, sep: char): (r: string)
    requires |parts| >= 1
  {
    parts[0] + JoinTail(parts[1..], sep)
  }

  /** The separator and each further part, in order. */
  function JoinTail(parts: seq<string>, sep: char): string
  {
    if parts == [] then "" else [sep] + parts[0] + JoinTail(parts[1..], sep)
  }

  lemma JoinCons(w: string, rest: seq<string>, sep: char)
    requires |rest| >= 1
    ensures Join([w] + rest, sep) == w + [sep] + Join(rest, sep)
  {
    assert ([w] + rest)[1..] == rest;
  }

  /** Splitting a join of separator-free parts gives the parts back. */
  lemma {:induction false} SplitJoin(parts: seq<string>, sep: char)
    requires |parts| >= 1
    requires forall i :: 0 <= i < |parts| ==> sep !in parts[i]
    ensures Split(Join(parts, sep), sep) == parts
  {
    if |parts| == 1 {
      assert Join(parts, sep) == parts[0];
      SplitWord(parts[0], sep);
    } else {
      var rest := parts[1..];
      JoinCons(parts[0], rest, sep);
      SplitJoin(rest, sep);
      assert parts == [parts[0]] + rest;
      SplitWordThen(parts[0], Join(rest, sep), sep);
    }
  }

  /** A separator-free word splits to itself. */
  lemma {:induction false} SplitWord(w: string, sep: char)
    requires sep !in w
    ensures Split(w, sep) == [w]
  {
    if |w| > 0 {
      SplitWord(w[1..], sep);
      assert [w[0]] + w[1..] == w;
    }
  }

  /** Splitting `w + sep + s` for a separator-free `w` puts `w` in front of the split of `s`. */
  lemma {:induction false} SplitWordThen(w: string, s: string, sep: char)
    requires sep !in w
    ensures Split(w + [sep] + s, sep) == [w] + Split(s, sep)
  {
    if |w| == 0 {
      assert w + [sep] + s == [sep] + s;
      assert ([sep] + s)[1..] == s;
    } else {
      SplitWordThen(w[1..], s, sep);
      assert (w + [sep] + s)[1..] == w[1..] + [sep] + s;
      assert [w[0]] + w[1..] == w;
    }
  }

  // ---------------------------------------------------------------------------
  // Characters
  // ---------------------------------------------------------------------------

  /** `\d` of a regular expression without the `u` flag. */
  predicate IsDigit(c: char) { '0' <= c <= '9' }
  /** `[a-z]`. */
  predicate IsLower(c: char) { 'a' <= c <= 'z' }
  /** `[A-Z]`. */
  predicate IsUpper(c: char) { 'A' <= c <= 'Z' }

  predicate AllDigits(s: string) {
    forall i :: 0 <= i < |s| ==> IsDigit(s[i])
  }

  /**
   * `toUpperCase` of one character, for Basic Latin and the Latin-1 Supplement
   * (the one-to-one mappings there; 'ß' is left unchanged).
   */
  function UpperChar(c: char): (u: char)
    ensures IsLower(c) ==> IsUpper(u)
    ensures !IsLower(c) && c < '\U{00B5}' ==> u == c
  {
    if IsLower(c) then (c as int - 32) as char
    else if c == '\U{00B5}' then '\U{039C}'
    else if ('\U{00E0}' <= c <= '\U{00FE}') && c != '\U{00F7}' then (c as int - 32) as char
    else if c == '\U{00FF}' then '\U{0178}'
    else c
  }

  /** `toUpperCase`, character by character. */
  function ToUpper(s: string): (r: string)
    ensures |r| == |s|
    ensures forall i :: 0 <= i < |s| ==> r[i] == UpperChar(s[i])
  {
    if s == [] then [] else [UpperChar(s[0])] + ToUpper(s[1..])
  }

  // ---------------------------------------------------------------------------
  // Decimal numbers
  // ---------------------------------------------------------------------------

  function DigitValue(c: char): (v: nat)
    requires IsDigit(c)
    ensures v < 10
  {
    c as int - '0' as int
  }

  function DigitChar(v: nat): (c: char)
    requires v < 10
    ensures IsDigit(c) && DigitValue(c) == v
  {
    ('0' as int + v) as char
  }

  /** The value of a string of decimal digits (the empty string reads as 0). */
  function DigitsValue(s: string): (n: nat)
    requires AllDigits(s)
  {
    if s == [] then 0 else DigitsValue(s[..|s| - 1]) * 10 + DigitValue(s[|s| - 1])
  }

  /** `n.toString()` for a natural number. */
  function NatToString(n: nat): (s: string)
    ensures |s| >= 1 && AllDigits(s)
    ensures |s| > 1 ==> s[0] != '0'
    ensures DigitsValue(s) == n
  {
    if n < 10 then [DigitChar(n)]
    else
      var p := NatToString(n / 10);
      var s := p + [DigitChar(n % 10)];
      assert s[..|s| - 1] == p;
      s
  }

  /** The length of the longest prefix of decimal digits. */
  function DigitRun(s: string): (k: nat)
    ensures k <= |s| && AllDigits(s[..k])
    ensures k < |s| ==> !IsDigit(s[k])
    ensures AllDigits(s) ==> k == |s|
  {
    if s != [] && IsDigit(s[0]) then
      var k := 1 + DigitRun(s[1..]);
      assert s[..k] == [s[0]] + s[1..][..k - 1];
      k
    else 0
  }

  /**
   * `parseInt(s, 10)`: leading whitespace is skipped, then an optional sign, then the
   * longest run of decimal digits; `None` stands for NaN (no digit where one is needed).
   */
  function ParseInt(s: string): (r: Option<int>)
  {
    var t := TrimStart(s);
    var neg := |t| > 0 && t[0] == '-';
    var u := if |t| > 0 && (t[0] == '-' || t[0] == '+') then t[1..] else t;
    var k := DigitRun(u);
    if k == 0 then None
    else Some(if neg then -(DigitsValue(u[..k]) as int) else DigitsValue(u[..k]))
  }

  /**
   * `Number(s)` for the decimal integer forms: after trimming, the empty text is 0, and an
   * optional sign followed by decimal digits is that integer; `None` stands for NaN.
   */
  function NumberOf(s: string): (r: Option<int>)
  {
    var t := Trim(s);
    if t == "" then Some(0)
    else if (t[0] == '-' || t[0] == '+') && |t| > 1 && AllDigits(t[1..]) then
      Some(if t[0] == '-' then -(DigitsValue(t[1..]) as int) else DigitsValue(t[1..]))
    else if AllDigits(t) then Some(DigitsValue(t))
    else None
  }

  /** `Number` reads a run of decimal digits as its value. */
  lemma NumberOfDigits(s: string)
    requires s != [] && AllDigits(s)
    ensures NumberOf(s) == Some(DigitsValue(s) as int)
  {
    TrimUnpadded(s);
  }

  /** `parseInt` reads a number back from its decimal text. */
  lemma ParseIntOfNat(n: nat)
    ensures ParseInt(NatToString(n)) == Some(n)
  {
    var s := NatToString(n);
    assert TrimStart(s) == s;
    assert s[..|s|] == s;
  }

  /** `String(n)` for an integer: a minus sign before the digits of a negative one. */
  function IntToString(n: int): (s: string)
    ensures forall c | c in s :: IsDigit(c) || c == '-'
  {
    if n < 0 then "-" + NatToString(-n) else NatToString(n)
  }

  /** `parseInt` reads any integer back from its decimal text. */
  lemma ParseIntOfInt(n: int)
    ensures ParseInt(IntToString(n)) == Some(n)
  {
    if n < 0 {
      var d := NatToString(-n);
      var s := "-" + d;
      assert TrimStart(s) == s;
      assert s[1..] == d && d[..|d|] == d;
    } else {
      ParseIntOfNat(n);
    }
  }

  /** `parseInt` is NaN exactly when, after whitespace and an optional sign, no digit follows. */
  lemma ParseIntNaN(s: string)
    ensures var t := TrimStart(s);
      var u := if |t| > 0 && (t[0] == '-' || t[0] == '+') then t[1..] else t;
      ParseInt(s) == None <==> (u == [] || !IsDigit(u[0]))
  {
  }

  /**
   * `isNaN(parseFloat(s))`: after leading whitespace and an optional sign, the text
   * starts neither with a digit, nor with '.' and a digit, nor with "Infinity".
   */
  predicate ParseFloatIsNaN(s: string) {
    var t := TrimStart(s);
    var u := if |t| > 0 && (t[0] == '-' || t[0] == '+') then t[1..] else t;
    !((|u| > 0 && IsDigit(u[0]))
      || (|u| > 1 && u[0] == '.' && IsDigit(u[1]))
      || StartsWith(u, "Infinity"))
  }

  /** `String(n).padStart(2, '0')` for a natural number. */
  function PadTwo(n: nat): (s: string)
    ensures |s| >= 2 && AllDigits(s) && DigitsValue(s) == n
    ensures n < 100 ==> |s| == 2
  {
    var d := NatToString(n);
    if |d| < 2 then
      var s := ['0'] + d;
      assert s[..|s| - 1] == ['0'] && s[|s| - 1] == d[0];
      assert DigitsValue(['0']) == 0 by { assert ['0'][..0] == []; }
      assert DigitsValue(d) == DigitValue(d[0]) by { assert d[..0] == []; }
      s
    else
      assert n < 100 ==> d == NatToString(n / 10) + [DigitChar(n % 10)] && NatToString(n / 10) == [DigitChar(n / 10)];
      d
  }

}
