/**
 * Character classes and string operations the backend relies on: the
 * pieces of Python's `str` methods and `re` patterns used by the query
 * parser and the filter engine, written out for the fixed patterns only.
 */
module Text {

  /** An ASCII decimal digit: what `\d` and `str.isdigit` accept in this model. */
  predicate IsDigit(c: char) { '0' <= c <= '9' }

  /** A character of class `\w` (letters, digits and underscore; ASCII only). */
  predicate IsWordChar(c: char) {
    'a' <= c <= 'z' || 'A' <= c <= 'Z' || IsDigit(c) || c == '_'
  }

  /** The characters `str.isspace` (and hence `\s` and `str.strip()`) treat as whitespace. */
  predicate IsSpace(c: char) {
    c == ' ' || '\t' <= c <= '\r' || '\U{1C}' <= c <= '\U{1F}' || c == '\U{85}' || c == '\U{A0}'
    || c == '\U{1680}' || '\U{2000}' <= c <= '\U{200A}' || c == '\U{2028}' || c == '\U{2029}'
    || c == '\U{202F}' || c == '\U{205F}' || c == '\U{3000}'
  }

  function LowerChar(c: char): char {
    if 'A' <= c <= 'Z' then (c as int + 32) as char else c
  }

  /** `str.lower()` on ASCII letters; every other character is kept. */
  function Lower(s: string): (r: string)
    ensures |r| == |s|
    ensures forall i :: 0 <= i < |s| ==> r[i] == LowerChar(s[i])
  {
    seq(|s|, i requires 0 <= i < |s| => LowerChar(s[i]))
  }

  /** `str.capitalize()` on ASCII: first character upper case, the rest lower case. */
  function Capitalize(s: string): (r: string)
    ensures |r| == |s|
    ensures s != [] ==> r[1..] == Lower(s[1..])
    ensures s != [] && 'a' <= s[0] <= 'z' ==> r[0] as int == s[0] as int - 32
  {
    if s == [] then []
    else [if 'a' <= s[0] <= 'z' then (s[0] as int - 32) as char else s[0]] + Lower(s[1..])
  }

  /** `p` occurs in `s` starting at index `i`. */
  predicate StartsAt(s: string, i: int, p: string) {
    0 <= i && i + |p| <= |s| && s[i..i + |p|] == p
  }

  /** Python's `p in s` on strings: plain substring containment. */
  predicate Contains(s: string, p: string) {
    exists i :: 0 <= i <= |s| - |p| && StartsAt(s, i, p)
  }

  /** Establishes containment from a position where every character agrees. */
  lemma ContainsAt(s: string, p: string, i: nat)
    requires i + |p| <= |s|
    requires forall k :: 0 <= k < |p| ==> s[i + k] == p[k]
    ensures Contains(s, p)
  {
    assert StartsAt(s, i, p);
  }

  /** Containment is transitive: a string containing `p` contains everything `p` contains. */
  lemma ContainsTransitive(s: string, p: string, q: string)
    requires Contains(s, p) && Contains(p, q)
    ensures Contains(s, q)
  {
    var i :| 0 <= i <= |s| - |p| && StartsAt(s, i, p);
    var j :| 0 <= j <= |p| - |q| && StartsAt(p, j, q);
    assert p == s[i..i + |p|];
    assert q == p[j..j + |q|];
    forall k | 0 <= k < |q|
      ensures s[i + j + k] == q[k]
    {
      assert q[k] == p[j + k] == s[i..i + |p|][j + k];
    }
    ContainsAt(s, q, i + j);
  }

  /** Python's `str.isdigit()`: non-empty and all digits. */
  predicate IsDigitStr(s: string) {
    |s| > 0 && forall i :: 0 <= i < |s| ==> IsDigit(s[i])
  }

  predicate AllDigits(s: string) {
    forall i :: 0 <= i < |s| ==> IsDigit(s[i])
  }

  function DigitValue(c: char): nat
    requires IsDigit(c)
  {
    c as int - '0' as int
  }

  function DigitChar(d: nat): (c: char)
    requires d < 10
    ensures IsDigit(c) && DigitValue(c) == d
  {
    ('0' as int + d) as char
  }

  /** The decimal value of a string of digits, as `int()` reads it. */
  function DigitsValue(s: string): nat
    requires AllDigits(s)
    decreases |s|
  {
    if s == [] then 0 else DigitsValue(s[..|s| - 1]) * 10 + DigitValue(s[|s| - 1])
  }

  /** `str(n)` for a natural number. */
  function NatToString(n: nat): (r: string)
    ensures IsDigitStr(r)
    decreases n
  {
    if n < 10 then [DigitChar(n)] else NatToString(n / 10) + [DigitChar(n % 10)]
  }

  /** `str(n)` (or an f-string `{n}`) for any integer. */
  function IntToString(n: int): string {
    if n < 0 then "-" + NatToString(-n) else NatToString(n)
  }

  /** Reading back what `str` wrote gives the number, and a number below 1000 takes at most three digits. */
  lemma {:induction false} NatToStringRoundTrip(n: nat)
    ensures DigitsValue(NatToString(n)) == n
    ensures n < 1000 ==> |NatToString(n)| <= 3
    decreases n
  {
    var s := NatToString(n);
    if n >= 10 {
      NatToStringRoundTrip(n / 10);
      assert s[..|s| - 1] == NatToString(n / 10);
    }
  }

  /** The number of consecutive digits in `s` starting at index `j`. */
  function DigitRun(s: string, j: nat): (k: nat)
    ensures j + k <= |s| || k == 0
    ensures forall m :: j <= m < j + k ==> IsDigit(s[m])
    ensures j + k < |s| ==> !IsDigit(s[j + k])
    decreases |s| - j
  {
    if j < |s| && IsDigit(s[j]) then 1 + DigitRun(s, j + 1) else 0
  }

  function StripLeft(s: string): (r: string)
    ensures |r| <= |s| && r == s[|s| - |r|..]
    ensures r == [] || !IsSpace(r[0])
  {
    if s != [] && IsSpace(s[0]) then StripLeft(s[1..]) else s
  }

  function StripRight(s: string): (r: string)
    ensures |r| <= |s| && r == s[..|r|]
    ensures r == [] || !IsSpace(r[|r| - 1])
  {
    if s != [] && IsSpace(s[|s| - 1]) then StripRight(s[..|s| - 1]) else s
  }

  /** `str.strip()` with no argument: whitespace removed from both ends. */
  function Strip(s: string): string {
    StripRight(StripLeft(s))
  }

  /** A string that neither starts nor ends with whitespace is its own strip. */
  lemma StripUnchanged(s: string)
    requires s == [] || (!IsSpace(s[0]) && !IsSpace(s[|s| - 1]))
    ensures Strip(s) == s
  {
  }

  /** The number of times `c` occurs in `s` (`str.count` for one character). */
  function CountChar(s: string, c: char): nat {
    if s == [] then 0 else (if s[0] == c then 1 else 0) + CountChar(s[1..], c)
  }

  /** The index of the first `c` in `s`, or `|s|` when there is none. */
  function IndexOf(s: string, c: char): (k: nat)
    ensures k <= |s|
    ensures forall m :: 0 <= m < k ==> s[m] != c
    ensures k < |s| ==> s[k] == c
  {
    if s == [] then 0 else if s[0] == c then 0 else 1 + IndexOf(s[1..], c)
  }

  lemma CountCharZero(s: string, c: char)
    ensures CountChar(s, c) == 0 <==> c !in s
  {
    if s != [] {
      CountCharZero(s[1..], c);
      assert c in s <==> s[0] == c || c in s[1..];
    }
  }

  /** When `c` occurs exactly once, it splits `s` into two parts free of `c`. */
  lemma CountCharOnce(s: string, c: char)
    requires CountChar(s, c) == 1
    ensures IndexOf(s, c) < |s|
    ensures c !in s[..IndexOf(s, c)] && c !in s[IndexOf(s, c) + 1..]
  {
    if s[0] == c {
      CountCharZero(s[1..], c);
    } else {
      CountCharOnce(s[1..], c);
      assert s[1..][..IndexOf(s[1..], c)] == s[1..IndexOf(s, c)];
      assert s[1..][IndexOf(s[1..], c) + 1..] == s[IndexOf(s, c) + 1..];
    }
  }
}
