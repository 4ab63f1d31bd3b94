/** The JavaScript string operations the plugin relies on, over `string`
    (a sequence of UTF-16 code units is modelled as a sequence of `char`). */
module Strings {
  import opened Wrappers

  /** `pat` occurs in `s` starting at index `i`. */
  predicate OccursAt(s: string, pat: string, i: nat) {
    i + |pat| <= |s| && s[i..i + |pat|] == pat
  }

  /** `s.includes(pat)` for a string `s`: `pat` occurs somewhere in `s`. */
  predicate Contains(s: string, pat: string) {
    exists i: nat | i <= |s| :: OccursAt(s, pat, i)
  }

  /** `s.endsWith(suffix)`; the regular expression `/\.js$/` (no `m` flag,
      so `$` is the end of input) is `EndsWith(s, ".js")`. */
  predicate EndsWith(s: string, suffix: string) {
    |suffix| <= |s| && s[|s| - |suffix|..] == suffix
  }

  /** The first index at or after `from` where `pat` occurs in `s`. */
  function IndexOfFrom(s: string, pat: string, from: nat): (r: Option<nat>)
    decreases |s| - from
    ensures r.Some? ==> from <= r.value && OccursAt(s, pat, r.value)
    ensures r.Some? ==> forall j: nat :: from <= j < r.value ==> !OccursAt(s, pat, j)
    ensures r.None? ==> forall j: nat :: from <= j ==> !OccursAt(s, pat, j)
  {
    if |s| < from + |pat| then None
    else if OccursAt(s, pat, from) then Some(from)
    else IndexOfFrom(s, pat, from + 1)
  }

  /** `s.indexOf(pat)`, with `None` for JavaScript's -1. */
  function IndexOf(s: string, pat: string): (r: Option<nat>)
    ensures r.Some? <==> Contains(s, pat)
    ensures r.Some? ==> OccursAt(s, pat, r.value)
    ensures r.Some? ==> forall j: nat :: j < r.value ==> !OccursAt(s, pat, j)
  {
    IndexOfFrom(s, pat, 0)
  }

  /** `s.replace(pat, rep)` with a string pattern: only the FIRST occurrence
      of `pat` is replaced; `s` is returned unchanged when `pat` does not
      occur. (`rep` is taken literally; the plugin only passes "".) */
  function ReplaceFirst(s: string, pat: string, rep: string): string
  {
    match IndexOf(s, pat)
    case None => s
    case Some(i) => s[..i] + rep + s[i + |pat|..]
  }

  /** Removing the first occurrence of `pat` and putting it back where it was
      gives the original string; when `pat` does not occur, nothing changes. */
  lemma RemoveFirstInverse(s: string, pat: string)
    ensures !Contains(s, pat) ==> ReplaceFirst(s, pat, "") == s
    ensures Contains(s, pat) ==>
      var r := ReplaceFirst(s, pat, "");
      var i := IndexOf(s, pat).value;
      |r| == |s| - |pat| && i <= |r| && r[..i] + pat + r[i..] == s
  {
    if Contains(s, pat) {
      var r := ReplaceFirst(s, pat, "");
      var i := IndexOf(s, pat).value;
      assert r == s[..i] + s[i + |pat|..];
      assert r[..i] == s[..i];
      assert r[i..] == s[i + |pat|..];
      assert s == s[..i] + s[i..i + |pat|] + s[i + |pat|..];
    }
  }

  /** `replace` with a string pattern rewrites only the first occurrence:
      every later occurrence that does not overlap it survives, shifted by
      the change in length. */
  lemma ReplaceFirstKeepsLater(s: string, pat: string, rep: string, j: nat)
    requires IndexOf(s, pat).Some? && IndexOf(s, pat).value + |pat| <= j
    requires OccursAt(s, pat, j)
    ensures OccursAt(ReplaceFirst(s, pat, rep), pat, j - |pat| + |rep|)
  {
    var i := IndexOf(s, pat).value;
    var r := ReplaceFirst(s, pat, rep);
    var k := j - |pat| + |rep|;
    assert r == s[..i] + rep + s[i + |pat|..];
    assert r[i + |rep|..] == s[i + |pat|..];
    assert r[k..k + |pat|] == s[i + |pat|..][j - i - |pat|..j - i] == s[j..j + |pat|];
  }

  /** Removing a pattern that ends a string and occurs nowhere earlier in it
      strips exactly that suffix: "[name].bundle.js" loses "[name]" only at
      its first place, and "background.bundle.js" loses ".bundle.js". */
  lemma RemoveFirstSuffix(x: string, pat: string)
    requires forall j: nat :: j < |x| ==> !OccursAt(x + pat, pat, j)
    ensures ReplaceFirst(x + pat, pat, "") == x
  {
    var s := x + pat;
    assert s[|x|..|x| + |pat|] == pat;
    assert OccursAt(s, pat, |x|);
    assert IndexOf(s, pat) == Some(|x|);
    assert s[..|x|] == x;
  }

  /** Removing the first occurrence of a pattern never lengthens a string. */
  lemma RemoveFirstShortens(s: string, pat: string)
    ensures |ReplaceFirst(s, pat, "")| <= |s|
    ensures ReplaceFirst(s, pat, "") == s <==> (!Contains(s, pat) || pat == "")
  {
    RemoveFirstInverse(s, pat);
  }

  // ---------------------------------------------------------------------
  // parseInt(text, 10)

  /** The characters `parseInt` skips at the start of its argument: the
      ECMAScript WhiteSpace and LineTerminator code points. */
  const JsWhiteSpace: set<char> := {
    '\t', '\n', '\U{000B}', '\U{000C}', '\r', ' ', '\U{00A0}', '\U{1680}',
    '\U{2000}', '\U{2001}', '\U{2002}', '\U{2003}', '\U{2004}', '\U{2005}',
    '\U{2006}', '\U{2007}', '\U{2008}', '\U{2009}', '\U{200A}', '\U{2028}',
    '\U{2029}', '\U{202F}', '\U{205F}', '\U{3000}', '\U{FEFF}'
  }

  predicate IsDigit(c: char) {
    '0' <= c <= '9'
  }

  function DigitValue(c: char): (d: nat)
    requires IsDigit(c)
    ensures d < 10
  {
    (c as int) - ('0' as int)
  }

  function DigitChar(d: nat): (c: char)
    requires d < 10
    ensures IsDigit(c) && DigitValue(c) == d
  {
    (('0' as int) + d) as char
  }

  predicate AllDigits(s: string) {
    forall i :: 0 <= i < |s| ==> IsDigit(s[i])
  }

  /** `s` without its leading white space. */
  function TrimStart(s: string): (r: string)
    ensures |r| <= |s| && r == s[|s| - |r|..]
    ensures r == [] || r[0] !in JsWhiteSpace
  {
    if s != [] && s[0] in JsWhiteSpace then TrimStart(s[1..]) else s
  }

  /** The longest prefix of `s` made of decimal digits. */
  function LeadingDigits(s: string): (r: string)
    ensures r <= s && AllDigits(r)
    ensures |r| == |s| || !IsDigit(s[|r|])
  {
    if s != [] && IsDigit(s[0]) then [s[0]] + LeadingDigits(s[1..]) else []
  }

  /** The value of a string of decimal digits, most significant first. */
  function DigitsValue(ds: string): nat
    requires AllDigits(ds)
  {
    if ds == [] then 0
    else 10 * DigitsValue(ds[..|ds| - 1]) + DigitValue(ds[|ds| - 1])
  }

  /** `parseInt(s, 10)`: skip leading white space, read an optional sign and
      then the longest run of decimal digits; `None` stands for `NaN`, which
      is the result when there is no digit. */
  function ParseInt(s: string): (r: Option<int>)
    ensures r.Some? <==>
      var t := TrimStart(s);
      var u := if t != [] && (t[0] == '+' || t[0] == '-') then t[1..] else t;
      u != [] && IsDigit(u[0])
  {
    var t := TrimStart(s);
    var negative := t != [] && t[0] == '-';
    var u := if t != [] && (t[0] == '+' || t[0] == '-') then t[1..] else t;
    var ds := LeadingDigits(u);
    if ds == [] then None
    else
      var v: int := DigitsValue(ds);
      Some(if negative then -v else v)
  }

  /** The decimal rendering of `n`, without leading zeros. */
  function Decimal(n: nat): (s: string)
    ensures s != [] && AllDigits(s)
  {
    if n < 10 then [DigitChar(n)] else Decimal(n / 10) + [DigitChar(n % 10)]
  }

  lemma {:induction false} DecimalValue(n: nat)
    ensures DigitsValue(Decimal(n)) == n
  {
    if n >= 10 {
      var s := Decimal(n);
      assert s[..|s| - 1] == Decimal(n / 10);
      DecimalValue(n / 10);
    }
  }

  lemma {:induction false} LeadingDigitsOfDigits(ds: string, rest: string)
    requires AllDigits(ds)
    requires rest == [] || !IsDigit(rest[0])
    ensures LeadingDigits(ds + rest) == ds
  {
    if ds != [] {
      assert (ds + rest)[1..] == ds[1..] + rest;
      LeadingDigitsOfDigits(ds[1..], rest);
    }
  }

  /** A digit is neither white space nor a sign. */
  lemma DigitIsNotBlankOrSign(c: char)
    requires IsDigit(c)
    ensures c !in JsWhiteSpace && c != '+' && c != '-'
  {
  }

  /** `parseInt` reads back the decimal rendering of a natural number,
      whatever non-digit text follows it. */
  lemma ParseIntDecimal(n: nat, rest: string)
    requires rest == [] || !IsDigit(rest[0])
    ensures ParseInt(Decimal(n) + rest) == Some(n)
  {
    var d := Decimal(n);
    var s := d + rest;
    assert s[0] == d[0] && IsDigit(d[0]);
    DigitIsNotBlankOrSign(s[0]);
    assert TrimStart(s) == s;
    LeadingDigitsOfDigits(d, rest);
    assert LeadingDigits(s) == d;
    DecimalValue(n);
  }

  // ---------------------------------------------------------------------
  // s.split(".")[0]

  /** The first element of `s.split(sep)` for a one-character separator:
      the text before the first `sep`, or all of `s`. */
  function BeforeFirst(s: string, sep: char): (r: string)
    ensures r <= s && sep !in r
    ensures |r| == |s| || s[|r|] == sep
  {
    if s == [] || s[0] == sep then [] else [s[0]] + BeforeFirst(s[1..], sep)
  }

  lemma {:induction false} BeforeFirstOf(x: string, sep: char, rest: string)
    requires sep !in x
    ensures BeforeFirst(x + [sep] + rest, sep) == x
  {
    if x != [] {
      assert (x + [sep] + rest)[1..] == x[1..] + [sep] + rest;
      BeforeFirstOf(x[1..], sep, rest);
    }
  }
}
