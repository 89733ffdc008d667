/**
 * Dedicated scanners for the fixed regular expressions of the query parser
 * and the age-filter interpreter. Each `...At` function says whether the
 * pattern matches starting exactly at index `i` and what it captures; since
 * every pattern here has at most one way of matching from a given index,
 * `re.search` is the leftmost index at which `...At` succeeds (`Search`).
 */
module Scan {
  import opened Wrappers
  import opened Text

  /** `\b` at index `i`: a word character on exactly one side. */
  predicate Boundary(s: string, i: int) {
    (0 < i <= |s| && IsWordChar(s[i - 1])) != (0 <= i < |s| && IsWordChar(s[i]))
  }

  /** `\bw\b` matches at index `i`. */
  predicate WholeWordAt(s: string, i: int, w: string) {
    StartsAt(s, i, w) && Boundary(s, i) && Boundary(s, i + |w|)
  }

  /** `re.search(r"\bw\b", s)` succeeds. */
  predicate ContainsWord(s: string, w: string) {
    exists i :: 0 <= i <= |s| - |w| && WholeWordAt(s, i, w)
  }

  /** A whole-word occurrence is in particular a substring occurrence. */
  lemma ContainsWordContains(s: string, w: string)
    requires ContainsWord(s, w)
    ensures Contains(s, w)
  {
    var i :| 0 <= i <= |s| - |w| && WholeWordAt(s, i, w);
    assert StartsAt(s, i, w);
  }

  /** The number of consecutive whitespace characters in `s` from index `j`. */
  function SpaceRun(s: string, j: nat): (k: nat)
    ensures j + k <= |s| || k == 0
    ensures forall m :: j <= m < j + k ==> IsSpace(s[m])
    ensures j + k < |s| ==> !IsSpace(s[j + k])
    decreases |s| - j
  {
    if j < |s| && IsSpace(s[j]) then 1 + SpaceRun(s, j + 1) else 0
  }

  /** The value of the `d` digits of `s` at index `j`, for `d` of 1 to 3. */
  function Number(s: string, j: nat, d: nat): (n: nat)
    requires 1 <= d <= 3 && j + d <= |s|
    requires forall m :: j <= m < j + d ==> IsDigit(s[m])
    ensures n == DigitsValue(s[j..j + d])
    ensures n < 1000
  {
    assert s[j..j + d][..d - 1] == s[j..j + d - 1];
    if d == 1 then
      assert s[j..j + 1][..0] == [];
      DigitValue(s[j])
    else if d == 2 then
      assert s[j..j + 1][..0] == [];
      assert s[j..j + 2][..1] == s[j..j + 1];
      assert DigitsValue(s[j..j + 1]) == DigitValue(s[j]);
      10 * DigitValue(s[j]) + DigitValue(s[j + 1])
    else
      assert s[j..j + 2][..1] == s[j..j + 1];
      assert s[j..j + 1][..0] == [];
      assert DigitsValue(s[j..j + 1]) == DigitValue(s[j]);
      assert DigitsValue(s[j..j + 2]) == 10 * DigitValue(s[j]) + DigitValue(s[j + 1]);
      100 * DigitValue(s[j]) + 10 * DigitValue(s[j + 1]) + DigitValue(s[j + 2])
  }

  function Min(a: int, b: int): int { if a <= b then a else b }
  function Max(a: int, b: int): int { if a <= b then b else a }

  /**
   * `(\d{1,3})` at index `j` with nothing required after it: the greedy
   * group takes the first three digits of a longer run.
   */
  function Capture(s: string, j: nat): (r: Option<nat>)
    ensures r.Some? <==> j < |s| && IsDigit(s[j])
    ensures r.Some? ==> r.value < 1000
    ensures r.Some? && DigitRun(s, j) <= 3 ==> r.value == DigitsValue(s[j..j + DigitRun(s, j)])
    ensures r.Some? && DigitRun(s, j) > 3 ==> r.value == DigitsValue(s[j..j + 3])
  {
    var d := DigitRun(s, j);
    if d == 0 then None else Some(Number(s, j, Min(3, d)))
  }

  /** `\s+(\d{1,3})` at index `j`: at least one whitespace, then a digit. */
  function SpacedNumber(s: string, j: nat): (r: Option<nat>)
    ensures r.Some? <==> SpaceRun(s, j) >= 1 && j + SpaceRun(s, j) < |s| && IsDigit(s[j + SpaceRun(s, j)])
    ensures r.Some? ==> r.value < 1000
  {
    var w := SpaceRun(s, j);
    if w == 0 then None else Capture(s, j + w)
  }

  /** `phrase\s+(\d{1,3})` at index `i`. */
  function PhraseAt(s: string, i: nat, phrase: string): (r: Option<nat>)
    ensures r.Some? ==> StartsAt(s, i, phrase) && r == SpacedNumber(s, i + |phrase|)
    ensures StartsAt(s, i, phrase) ==> r == SpacedNumber(s, i + |phrase|)
  {
    if StartsAt(s, i, phrase) then SpacedNumber(s, i + |phrase|) else None
  }

  /** `(?:and|to)` at index `c`: the index just after the connector. */
  function Connector(s: string, c: nat): (r: Option<nat>)
    ensures r.Some? <==> StartsAt(s, c, "and") || StartsAt(s, c, "to")
    ensures r.Some? ==> r.value <= |s|
  {
    if StartsAt(s, c, "and") then Some(c + 3)
    else if StartsAt(s, c, "to") then Some(c + 2)
    else None
  }

  /**
   * `between\s+(\d{1,3})\s+(?:and|to)\s+(\d{1,3})` at index `i`. The first
   * number must be a whole run of one to three digits, since whitespace has
   * to follow it; the second is captured greedily.
   */
  function BetweenAt(s: string, i: nat): (r: Option<(nat, nat)>)
    ensures r.Some? ==> StartsAt(s, i, "between") && r.value.0 < 1000 && r.value.1 < 1000
  {
    if !StartsAt(s, i, "between") then None
    else
      var w := SpaceRun(s, i + 7);
      var a := i + 7 + w;
      var d := DigitRun(s, a);
      if w == 0 || d == 0 || d > 3 then None
      else
        var w2 := SpaceRun(s, a + d);
        if w2 == 0 then None
        else
          match Connector(s, a + d + w2)
          case None => None
          case Some(m) =>
            match SpacedNumber(s, m)
            case None => None
            case Some(y) => Some((Number(s, a, d), y))
  }

  /** `(\d{1,3})\+` at index `i`: a run of one to three digits followed by `+`. */
  function PlusAt(s: string, i: nat): (r: Option<nat>)
    ensures r.Some? <==> 1 <= DigitRun(s, i) <= 3 && i + DigitRun(s, i) < |s| && s[i + DigitRun(s, i)] == '+'
    ensures r.Some? ==> r.value == DigitsValue(s[i..i + DigitRun(s, i)]) && r.value < 1000
  {
    var d := DigitRun(s, i);
    if 1 <= d <= 3 && i + d < |s| && s[i + d] == '+' then Some(Number(s, i, d)) else None
  }

  /** `age[d]?\s+(\d{1,3})` at index `i`: the optional `d` is taken whenever it is there. */
  function AgedAt(s: string, i: nat): (r: Option<nat>)
    ensures r.Some? ==> StartsAt(s, i, "age") && r.value < 1000
    ensures StartsAt(s, i, "aged") ==> r == SpacedNumber(s, i + 4)
    ensures StartsAt(s, i, "age") && !StartsAt(s, i, "aged") ==> r == SpacedNumber(s, i + 3)
  {
    assert StartsAt(s, i, "aged") ==> s[i..i + 3] == s[i..i + 4][..3];
    if !StartsAt(s, i, "age") then None
    else if i + 3 < |s| && s[i + 3] == 'd' then SpacedNumber(s, i + 4)
    else SpacedNumber(s, i + 3)
  }

  /** `re.search`: the match at the leftmost index from `from` to `last` where `at` succeeds. */
  function Search<T>(at: nat -> Option<T>, from: nat, last: nat): Option<T>
    decreases last + 1 - from
  {
    if from > last then None
    else if at(from).Some? then at(from)
    else Search(at, from + 1, last)
  }

  /** `Search` finds a match exactly when one exists, and it is the leftmost one. */
  lemma {:induction false} SearchLeftmost<T>(at: nat -> Option<T>, from: nat, last: nat)
    ensures Search(at, from, last).None? <==> forall i :: from <= i <= last ==> at(i).None?
    ensures Search(at, from, last).Some? ==>
      exists i :: from <= i <= last && at(i) == Search(at, from, last) && forall k :: from <= k < i ==> at(k).None?
    decreases last + 1 - from
  {
    if from <= last && at(from).None? {
      SearchLeftmost(at, from + 1, last);
      var r := Search(at, from, last);
      if r.Some? {
        var i :| from + 1 <= i <= last && at(i) == r && forall k :: from + 1 <= k < i ==> at(k).None?;
        assert forall k :: from <= k < i ==> at(k).None?;
      }
      assert (forall i :: from <= i <= last ==> at(i).None?) <==> (forall i :: from + 1 <= i <= last ==> at(i).None?);
    }
  }

  /** A match at `i` with none before it is what `Search` returns. */
  lemma {:induction false} SearchFinds<T>(at: nat -> Option<T>, from: nat, i: nat, last: nat)
    requires from <= i <= last && at(i).Some?
    requires forall k :: from <= k < i ==> at(k).None?
    ensures Search(at, from, last) == at(i)
    decreases i - from
  {
    if from < i {
      SearchFinds(at, from + 1, i, last);
    }
  }

  /** `re.search` of the between pattern; both numbers are below 1000. */
  function SearchBetween(s: string): (r: Option<(nat, nat)>)
    ensures r.Some? ==> r.value.0 < 1000 && r.value.1 < 1000
  {
    SearchLeftmost((i: nat) => BetweenAt(s, i), 0, |s|);
    Search((i: nat) => BetweenAt(s, i), 0, |s|)
  }

  /** `re.search` of `phrase\s+(\d{1,3})`. */
  function SearchPhrase(s: string, phrase: string): (r: Option<nat>)
    ensures r.Some? ==> r.value < 1000
  {
    SearchLeftmost((i: nat) => PhraseAt(s, i, phrase), 0, |s|);
    Search((i: nat) => PhraseAt(s, i, phrase), 0, |s|)
  }

  /** `re.search` of `(\d{1,3})\+`. */
  function SearchPlus(s: string): (r: Option<nat>)
    ensures r.Some? ==> r.value < 1000
  {
    SearchLeftmost((i: nat) => PlusAt(s, i), 0, |s|);
    Search((i: nat) => PlusAt(s, i), 0, |s|)
  }

  /** `re.search` of `age[d]?\s+(\d{1,3})`. */
  function SearchAged(s: string): (r: Option<nat>)
    ensures r.Some? ==> r.value < 1000
  {
    SearchLeftmost((i: nat) => AgedAt(s, i), 0, |s|);
    Search((i: nat) => AgedAt(s, i), 0, |s|)
  }
}
