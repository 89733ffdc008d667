/**
 * The age-filter mini-language (`_apply_age_filter`), the birth-date
 * sanity guard (`_validate_system_date_against_data`) and the filter
 * pipeline over the sample patients (`filter_patients`). The reference
 * date that the source reads from the wall clock is a parameter here.
 */
module FilterEngine {
  import opened Wrappers
  import opened Text
  import opened Dates
  import opened Data
  import opened Seqs
  import Scan

  // ---- Python's int() on a string ----

  /** An underscore at `i` with a digit on each side. */
  predicate Separator(t: string, i: int) {
    0 < i < |t| - 1 && t[i] == '_' && IsDigit(t[i - 1]) && IsDigit(t[i + 1])
  }

  /** Digits with single underscores between them, as `int(s, 10)` accepts after the sign. */
  predicate UnderscoredDigits(t: string) {
    && |t| >= 1 && IsDigit(t[0]) && IsDigit(t[|t| - 1])
    && forall i :: 0 <= i < |t| ==> IsDigit(t[i]) || Separator(t, i)
  }

  /** The digits of `t` with the underscores dropped. */
  function DropUnderscores(t: string): (r: string)
    ensures (forall i :: 0 <= i < |t| ==> IsDigit(t[i]) || t[i] == '_') ==> AllDigits(r)
    ensures AllDigits(t) ==> r == t
    decreases |t|
  {
    if t == [] then []
    else if t[0] == '_' then DropUnderscores(t[1..])
    else [t[0]] + DropUnderscores(t[1..])
  }

  /** The value of digits with single underscores between them. */
  function UnderscoredValue(t: string): nat
    requires UnderscoredDigits(t)
  {
    assert forall i :: 0 <= i < |t| ==> IsDigit(t[i]) || t[i] == '_';
    DigitsValue(DropUnderscores(t))
  }

  /**
   * `int(s)`: surrounding whitespace is ignored, one sign is allowed, and
   * `None` stands for the ValueError Python raises on anything else.
   */
  function PyInt(s: string): (r: Option<int>)
    ensures r.Some? ==> exists k :: 0 <= k < |s| && IsDigit(s[k])
  {
    var t := Strip(s);
    if |t| >= 1 && (t[0] == '+' || t[0] == '-') then
      var u := t[1..];
      if UnderscoredDigits(u) then
        var v: int := UnderscoredValue(u);
        Some(if t[0] == '-' then -v else v)
      else None
    else if UnderscoredDigits(t) then Some(UnderscoredValue(t))
    else None
  }

  /** On a plain digit string `int()` is the decimal value. */
  lemma PyIntDigits(s: string)
    requires IsDigitStr(s)
    ensures PyInt(s) == Some(DigitsValue(s))
  {
    StripUnchanged(s);
  }

  // ---- The age-filter language ----

  /** How an age-filter string is read. */
  datatype AgeTest =
    | Range(low: int, high: int)   // "L-H": L <= age <= H
    | Compare(op: string, n: nat)  // the anchored operator pattern: age op n
    | AtLeast(n: nat)              // "N+" with more than three digits
    | Exactly(n: nat)              // bare digits, more than three of them
    | PassThrough                  // anything else: no filtering

  /** The optional operator group `(>=|<=|>|<)?`: the operator and its length, `>=` when absent. */
  function OpPrefix(t: string): (r: (string, nat))
    ensures IsComparison(r.0) && r.1 <= 2 && r.1 <= |t|
    ensures r.1 > 0 ==> t[..r.1] == r.0
  {
    if |t| >= 2 && t[..2] == ">=" then (">=", 2)
    else if |t| >= 2 && t[..2] == "<=" then ("<=", 2)
    else if |t| >= 1 && t[0] == '>' then (">", 1)
    else if |t| >= 1 && t[0] == '<' then ("<", 1)
    else (">=", 0)
  }

  /**
   * `re.match(r"^(>=|<=|>|<)?\s*(\d{1,3})\+?$", t)`: the operator (`>=`
   * when the group is absent) and the number. Since `=` is neither a
   * space nor a digit, the longest operator is the only one that can lead
   * to a match; the digits must be a whole run of one to three, followed
   * by at most a `+` and the end of `t`.
   */
  function OperatorMatch(t: string): (r: Option<(string, nat)>)
    ensures r.Some? ==> IsComparison(r.value.0) && r.value.1 < 1000
  {
    var (op, p) := OpPrefix(t);
    var w := Scan.SpaceRun(t, p);
    var d := DigitRun(t, p + w);
    var e := p + w + d;
    if 1 <= d <= 3 && (e == |t| || (e + 1 == |t| && t[e] == '+')) then Some((op, Scan.Number(t, p + w, d)))
    else None
  }

  /** The message of the ValueError `int()` raises (Python's quoting of unusual characters aside). */
  function IntError(s: string): string {
    "invalid literal for int() with base 10: '" + s + "'"
  }

  /**
   * The range test of `_apply_age_filter`: exactly one `-`, digits before
   * it; the two sides of `split("-")`.
   */
  function RangeParts(f: string): (r: Option<(string, string)>)
    ensures r.Some? ==> f == r.value.0 + "-" + r.value.1 && IsDigitStr(r.value.0) && '-' !in r.value.1
    ensures r.Some? <==> CountChar(f, '-') == 1 && IsDigitStr(f[..IndexOf(f, '-')])
  {
    var k := IndexOf(f, '-');
    if CountChar(f, '-') == 1 && IsDigitStr(f[..k]) then
      CountCharOnce(f, '-');
      assert f == f[..k] + "-" + f[k + 1..];
      Some((f[..k], f[k + 1..]))
    else None
  }

  /**
   * How `_apply_age_filter` reads its filter string: a range when there is
   * exactly one `-` and digits before it, else the operator pattern on the
   * stripped string, else `N+`, else bare digits, else nothing. The right
   * side of a range goes through `int()`, which may raise.
   */
  function InterpretAgeFilter(f: string): (r: Result<AgeTest>)
    ensures r.Err? <==> RangeParts(f).Some? && PyInt(RangeParts(f).value.1).None?
    ensures r.Ok? && r.value.Compare? ==> IsComparison(r.value.op) && r.value.n < 1000
    ensures r.Ok? && r.value.AtLeast? ==> |f| >= 1 && f[|f| - 1] == '+' && IsDigitStr(f[..|f| - 1])
    ensures r.Ok? && r.value.Exactly? ==> IsDigitStr(f)
  {
    match RangeParts(f)
    case Some((low, high)) =>
      (match PyInt(high)
       case None => Err(IntError(high))
       case Some(h) => Ok(Range(DigitsValue(low), h)))
    case None =>
      match OperatorMatch(Strip(f))
      case Some((op, n)) => Ok(Compare(op, n))
      case None =>
        if |f| >= 1 && f[|f| - 1] == '+' && IsDigitStr(f[..|f| - 1]) then
          Ok(AtLeast(DigitsValue(f[..|f| - 1])))
        else if IsDigitStr(f) then
          Ok(Exactly(DigitsValue(f)))
        else Ok(PassThrough)
  }

  /** What the `ops` table of the source computes for one operator. */
  predicate Compares(op: string, age: int, n: int) {
    if op == ">" then age > n
    else if op == ">=" then age >= n
    else if op == "<" then age < n
    else age <= n
  }

  /** Whether a patient of age `age` passes the test. */
  predicate Satisfies(test: AgeTest, age: int) {
    match test
    case Range(low, high) => low <= age <= high
    case Compare(op, n) => Compares(op, age, n)
    case AtLeast(n) => age >= n
    case Exactly(n) => age == n
    case PassThrough => true
  }

  /** The condition of the comprehensions in `_apply_age_filter`. */
  predicate Selected(test: AgeTest, today: Date, p: Patient) {
    ParseIsoDate(p.birthDate).Some? && Satisfies(test, CalculateAge(p.birthDate, today))
  }

  function Keeps(test: AgeTest, today: Date): Patient -> bool {
    (p: Patient) => Selected(test, today, p)
  }

  /**
   * `_apply_age_filter(patients, f, today)`. Python's `calculate_age`
   * raises on a birth date it cannot parse, so every birth date must parse.
   */
  function ApplyAgeFilter(ps: seq<Patient>, f: string, today: Date): (r: Result<seq<Patient>>)
    requires forall p :: p in ps ==> ParseIsoDate(p.birthDate).Some?
    ensures r.Err? <==> InterpretAgeFilter(f).Err?
    ensures r.Ok? ==> IsSubsequence(r.value, ps)
    ensures r.Ok? ==> forall p :: p in r.value <==> p in ps && Selected(InterpretAgeFilter(f).value, today, p)
    ensures r.Ok? ==> forall p ::
      multiset(r.value)[p] == if Selected(InterpretAgeFilter(f).value, today, p) then multiset(ps)[p] else 0
    ensures r.Ok? && InterpretAgeFilter(f).value.PassThrough? ==> r.value == ps
  {
    match InterpretAgeFilter(f)
    case Err(msg) => Err(msg)
    case Ok(test) =>
      FilterContents(ps, Keeps(test, today));
      FilterIsSubsequence(ps, Keeps(test, today));
      if test.PassThrough? then
        SubsequenceReflexive(ps);
        Ok(ps)
      else Ok(Filter(ps, Keeps(test, today)))
  }

  // ---- The date guard ----

  /** No birth date is unparseable or after the reference date. */
  predicate DatesSane(today: Date, ps: seq<Patient>) {
    forall p :: p in ps ==> ParseIsoDate(p.birthDate).Some? && !Before(today, ParseIsoDate(p.birthDate).value)
  }

  /**
   * `_validate_system_date_against_data`: true exactly when every birth
   * date parses and none lies after `today`; it stops at the first that
   * fails.
   */
  method ValidateSystemDate(today: Date, ps: seq<Patient>) returns (ok: bool)
    ensures ok == DatesSane(today, ps)
  {
    for i := 0 to |ps|
      invariant forall j :: 0 <= j < i ==>
        ParseIsoDate(ps[j].birthDate).Some? && !Before(today, ParseIsoDate(ps[j].birthDate).value)
    {
      var bd := ParseIsoDate(ps[i].birthDate);
      if bd.None? || Before(today, bd.value) {
        return false;
      }
    }
    return true;
  }

  // ---- filter_patients ----

  /** The diagnosis filter: one code (from a query string) or a list of codes. */
  datatype DiagnosisFilter = Code(code: string) | Codes(codes: seq<string>)

  /** Python truthiness of an optional string. */
  predicate Given(f: Option<string>) {
    f.Some? && f.value != ""
  }

  predicate DiagnosisGiven(d: Option<DiagnosisFilter>) {
    d.Some? && (if d.value.Code? then d.value.code != "" else d.value.codes != [])
  }

  /** `{diagnosis_filter}` for a string, `set(diagnosis_filter)` for a list. */
  function CodeSet(d: DiagnosisFilter): set<string> {
    match d
    case Code(c) => {c}
    case Codes(cs) => set c | c in cs
  }

  predicate HasCondition(codes: set<string>, p: Patient) {
    exists i :: 0 <= i < |p.conditions| && p.conditions[i].code in codes
  }

  function HasGender(g: string): Patient -> bool {
    (p: Patient) => p.gender == g
  }

  function HasAnyCode(codes: set<string>): Patient -> bool {
    (p: Patient) => HasCondition(codes, p)
  }

  /** The patients `ps` after the gender filter and then the diagnosis filter. */
  function Prefiltered(ps: seq<Patient>, gender: Option<string>, diagnosis: Option<DiagnosisFilter>): seq<Patient> {
    var byGender := if Given(gender) then Filter(ps, HasGender(gender.value)) else ps;
    if DiagnosisGiven(diagnosis) then Filter(byGender, HasAnyCode(CodeSet(diagnosis.value))) else byGender
  }

  /**
   * The body of `filter_patients` on the list `ps`: gender, then
   * diagnosis, then age; the age filter is skipped when the guard fails on
   * what the first two filters left.
   */
  function FilterPipeline(ps: seq<Patient>, age: Option<string>, gender: Option<string>,
                          diagnosis: Option<DiagnosisFilter>, today: Date): (r: Result<seq<Patient>>)
    ensures r.Err? ==> Given(age) && InterpretAgeFilter(age.value).Err?
    ensures Given(age) && DatesSane(today, Prefiltered(ps, gender, diagnosis)) && InterpretAgeFilter(age.value).Err?
            ==> r.Err?
  {
    var pre := Prefiltered(ps, gender, diagnosis);
    if Given(age) && DatesSane(today, pre) then ApplyAgeFilter(pre, age.value, today) else Ok(pre)
  }

  /** `filter_patients(age, gender, diagnosis)`, with the reference date as a parameter. */
  function FilterPatients(age: Option<string>, gender: Option<string>, diagnosis: Option<DiagnosisFilter>, today: Date)
    : (r: Result<seq<Patient>>)
    ensures r.Err? ==> Given(age) && InterpretAgeFilter(age.value).Err?
    ensures Given(age) && DatesSane(today, Prefiltered(SamplePatients, gender, diagnosis)) && InterpretAgeFilter(age.value).Err?
            ==> r.Err?
  {
    FilterPipeline(SamplePatients, age, gender, diagnosis, today)
  }

  // ---- Properties of the pipeline ----

  /** A patient survives the first two filters exactly when it matches each filter that is given. */
  lemma PrefilteredMembers(ps: seq<Patient>, gender: Option<string>, diagnosis: Option<DiagnosisFilter>, p: Patient)
    ensures p in Prefiltered(ps, gender, diagnosis) <==>
      && p in ps
      && (Given(gender) ==> p.gender == gender.value)
      && (DiagnosisGiven(diagnosis) ==> HasCondition(CodeSet(diagnosis.value), p))
  {
    var byGender := if Given(gender) then Filter(ps, HasGender(gender.value)) else ps;
    if Given(gender) {
      FilterContents(ps, HasGender(gender.value));
    }
    if DiagnosisGiven(diagnosis) {
      FilterContents(byGender, HasAnyCode(CodeSet(diagnosis.value)));
    }
  }

  /** Both filters keep the order of the list they are given. */
  lemma PrefilteredSubsequence(ps: seq<Patient>, gender: Option<string>, diagnosis: Option<DiagnosisFilter>)
    ensures IsSubsequence(Prefiltered(ps, gender, diagnosis), ps)
  {
    var byGender := if Given(gender) then Filter(ps, HasGender(gender.value)) else ps;
    if Given(gender) {
      FilterIsSubsequence(ps, HasGender(gender.value));
    } else {
      SubsequenceReflexive(ps);
    }
    if DiagnosisGiven(diagnosis) {
      FilterIsSubsequence(byGender, HasAnyCode(CodeSet(diagnosis.value)));
      SubsequenceTransitive(Prefiltered(ps, gender, diagnosis), byGender, ps);
    }
  }

  /**
   * A patient is in the pipeline's result exactly when it passes the given gender and
   * diagnosis filters and, unless the age filter is absent or the guard
   * switched it off, the age test.
   */
  lemma PipelineMembers(ps: seq<Patient>, age: Option<string>, gender: Option<string>,
                        diagnosis: Option<DiagnosisFilter>, today: Date, p: Patient)
    requires FilterPipeline(ps, age, gender, diagnosis, today).Ok?
    ensures p in FilterPipeline(ps, age, gender, diagnosis, today).value <==>
      && p in ps
      && (Given(gender) ==> p.gender == gender.value)
      && (DiagnosisGiven(diagnosis) ==> HasCondition(CodeSet(diagnosis.value), p))
      && (Given(age) && DatesSane(today, Prefiltered(ps, gender, diagnosis)) ==>
            Selected(InterpretAgeFilter(age.value).value, today, p))
  {
    PrefilteredMembers(ps, gender, diagnosis, p);
  }

  /** The pipeline keeps the order of its input. */
  lemma PipelineSubsequence(ps: seq<Patient>, age: Option<string>, gender: Option<string>,
                            diagnosis: Option<DiagnosisFilter>, today: Date)
    requires FilterPipeline(ps, age, gender, diagnosis, today).Ok?
    ensures IsSubsequence(FilterPipeline(ps, age, gender, diagnosis, today).value, ps)
  {
    var pre := Prefiltered(ps, gender, diagnosis);
    PrefilteredSubsequence(ps, gender, diagnosis);
    if Given(age) && DatesSane(today, pre) {
      SubsequenceTransitive(FilterPipeline(ps, age, gender, diagnosis, today).value, pre, ps);
    }
  }

  /** What `filter_patients` returns is an order-preserving selection of well-formed sample records. */
  lemma FilterPatientsWellFormed(age: Option<string>, gender: Option<string>, diagnosis: Option<DiagnosisFilter>,
                                 today: Date)
    requires FilterPatients(age, gender, diagnosis, today).Ok?
    ensures IsSubsequence(FilterPatients(age, gender, diagnosis, today).value, SamplePatients)
    ensures forall p :: p in FilterPatients(age, gender, diagnosis, today).value ==> WellFormedPatient(p)
  {
    SamplePatientsWellFormed();
    var r := FilterPipeline(SamplePatients, age, gender, diagnosis, today);
    forall p | p in r.value
      ensures WellFormedPatient(p)
    {
      PipelineMembers(SamplePatients, age, gender, diagnosis, today, p);
    }
    PipelineSubsequence(SamplePatients, age, gender, diagnosis, today);
  }

  /** An empty string and an empty code list are falsy: they filter nothing. */
  lemma FalsyFiltersIgnored(ps: seq<Patient>, gender: Option<string>, diagnosis: Option<DiagnosisFilter>, today: Date)
    ensures FilterPipeline(ps, Some(""), gender, diagnosis, today) == FilterPipeline(ps, None, gender, diagnosis, today)
    ensures FilterPipeline(ps, None, Some(""), diagnosis, today) == FilterPipeline(ps, None, None, diagnosis, today)
    ensures FilterPipeline(ps, None, gender, Some(Code("")), today) == FilterPipeline(ps, None, gender, None, today)
    ensures FilterPipeline(ps, None, gender, Some(Codes([])), today) == FilterPipeline(ps, None, gender, None, today)
    ensures FilterPipeline(ps, None, None, None, today) == Ok(ps)
  {
  }

  /** When the guard fails, the age filter is skipped and the first two filters' result comes back. */
  lemma GuardSkipsAgeFilter(ps: seq<Patient>, age: Option<string>, gender: Option<string>,
                            diagnosis: Option<DiagnosisFilter>, today: Date)
    requires !DatesSane(today, Prefiltered(ps, gender, diagnosis))
    ensures FilterPipeline(ps, age, gender, diagnosis, today) == Ok(Prefiltered(ps, gender, diagnosis))
  {
  }

  /**
   * On the sample data the guard passes exactly when the reference date is
   * on or after the latest sample birth date: then it passes on every
   * selection of the sample, and before it, it fails on the whole sample.
   */
  lemma GuardOnSample(today: Date, ps: seq<Patient>)
    requires forall p :: p in ps ==> p in SamplePatients
    ensures !Before(today, LatestBirthDate) ==> DatesSane(today, ps)
    ensures Before(today, LatestBirthDate) ==> !DatesSane(today, SamplePatients)
  {
    SampleBirthDates();
    forall p | p in ps
      ensures BornBy(p, LatestBirthDate)
    {
      var i :| 0 <= i < |SamplePatients| && SamplePatients[i] == p;
    }
    if Before(today, LatestBirthDate) {
      assert SamplePatients[5] in SamplePatients;
    }
  }

  // ---- Properties of the age-filter language ----

  /** The operator prefixes the pattern accepts, with the empty one standing for `>=`. */
  predicate OperatorPrefix(pre: string) {
    pre == "" || IsComparison(pre)
  }

  /** One to three digits at `p`, then at most a `+` and the end: the pattern's tail matches them. */
  lemma DigitsTail(t: string, p: nat, s: string)
    requires IsDigitStr(s) && |s| <= 3 && p + |s| <= |t| && t[p..p + |s|] == s
    requires |t| == p + |s| || (|t| == p + |s| + 1 && t[|t| - 1] == '+')
    ensures Scan.SpaceRun(t, p) == 0 && DigitRun(t, p) == |s|
    ensures Scan.Number(t, p, |s|) == DigitsValue(s)
  {
    assert t[p] == s[0];
    assert forall m :: p <= m < p + |s| ==> t[m] == s[m - p];
  }

  /**
   * An operator prefix, one to three digits and an optional `+` match the
   * anchored operator pattern, and the pattern reads the operator (`>=`
   * when absent) and the value of the digits.
   */
  lemma OperatorMatchDigits(pre: string, s: string, plus: bool)
    requires OperatorPrefix(pre) && IsDigitStr(s) && |s| <= 3
    ensures OperatorMatch(pre + s + (if plus then "+" else ""))
         == Some((if pre == "" then ">=" else pre, DigitsValue(s)))
  {
    var t := pre + s + (if plus then "+" else "");
    assert t[..|pre|] == pre && t[|pre|..|pre| + |s|] == s;
    OperatorMatchAt(t, pre, s);
  }

  lemma OperatorMatchAt(t: string, pre: string, s: string)
    requires OperatorPrefix(pre) && IsDigitStr(s) && |s| <= 3
    requires |pre| + |s| <= |t| && t[..|pre|] == pre && t[|pre|..|pre| + |s|] == s
    requires |t| == |pre| + |s| || (|t| == |pre| + |s| + 1 && t[|t| - 1] == '+')
    ensures OperatorMatch(t) == Some((if pre == "" then ">=" else pre, DigitsValue(s)))
  {
    DigitsTail(t, |pre|, s);
    assert t[|pre|] == s[0];
    OpPrefixOf(pre, t);
    OperatorMatchTail(t, if pre == "" then ">=" else pre, |pre|, s);
  }

  lemma OperatorMatchTail(t: string, op: string, p: nat, s: string)
    requires OpPrefix(t) == (op, p) && IsDigitStr(s) && |s| <= 3
    requires Scan.SpaceRun(t, p) == 0 && DigitRun(t, p) == |s| && Scan.Number(t, p, |s|) == DigitsValue(s)
    requires |t| == p + |s| || (|t| == p + |s| + 1 && t[|t| - 1] == '+')
    ensures OperatorMatch(t) == Some((op, DigitsValue(s)))
  {
  }

  /** Before a digit, the operator group reads exactly the given prefix. */
  lemma OpPrefixOf(pre: string, t: string)
    requires OperatorPrefix(pre) && |pre| < |t| && t[..|pre|] == pre && IsDigit(t[|pre|])
    ensures OpPrefix(t) == (if pre == "" then ">=" else pre, |pre|)
  {
    if |pre| == 1 {
      assert t[0] == pre[0];
      assert t[..2][1] == t[1];
    } else if |pre| == 0 {
      assert t[0] == t[|pre|];
    }
  }

  /** No `-` means no range. */
  lemma NoDashNoRange(f: string)
    requires '-' !in f
    ensures RangeParts(f).None?
  {
    CountCharZero(f, '-');
  }

  /** A string that is not a range and matches the operator pattern reads as that comparison. */
  lemma ReadsAsComparison(f: string, op: string, n: nat)
    requires RangeParts(f).None? && OperatorMatch(Strip(f)) == Some((op, n))
    ensures InterpretAgeFilter(f) == Ok(Compare(op, n))
  {
  }

  /**
   * `>N`, `>=N`, `<N`, `<=N`, `N+` and bare `N` with one to three digits
   * all read as a comparison; the last two as `>= N`.
   */
  lemma ShortNumberIsComparison(pre: string, s: string, plus: bool)
    requires OperatorPrefix(pre) && IsDigitStr(s) && |s| <= 3
    ensures InterpretAgeFilter(pre + s + (if plus then "+" else ""))
         == Ok(Compare(if pre == "" then ">=" else pre, DigitsValue(s)))
  {
    var t := pre + s + (if plus then "+" else "");
    assert t[..|pre|] == pre && t[|pre|..|pre| + |s|] == s;
    ComparisonAt(t, pre, s);
    ReadsAsComparison(t, if pre == "" then ">=" else pre, DigitsValue(s));
  }

  lemma ComparisonAt(t: string, pre: string, s: string)
    requires OperatorPrefix(pre) && IsDigitStr(s) && |s| <= 3
    requires |pre| + |s| <= |t| && t[..|pre|] == pre && t[|pre|..|pre| + |s|] == s
    requires |t| == |pre| + |s| || (|t| == |pre| + |s| + 1 && t[|t| - 1] == '+')
    ensures RangeParts(t).None? && OperatorMatch(Strip(t)) == Some((if pre == "" then ">=" else pre, DigitsValue(s)))
  {
    OperatorMatchAt(t, pre, s);
    ComparisonShape(t, pre, s);
    NoDashNoRange(t);
    StripUnchanged(t);
  }

  lemma ComparisonShape(t: string, pre: string, s: string)
    requires OperatorPrefix(pre) && IsDigitStr(s) && |s| <= 3
    requires |pre| + |s| <= |t| && t[..|pre|] == pre && t[|pre|..|pre| + |s|] == s
    requires |t| == |pre| + |s| || (|t| == |pre| + |s| + 1 && t[|t| - 1] == '+')
    ensures '-' !in t && !IsSpace(t[0]) && !IsSpace(t[|t| - 1])
  {
    var p := |pre|;
    assert forall m :: 0 <= m < p ==> t[m] == pre[m];
    assert forall m :: p <= m < p + |s| ==> t[m] == s[m - p];
    assert '-' !in pre;
    assert forall m :: 0 <= m < |t| ==> t[m] != '-';
    assert t[p] == s[0];
    assert p > 0 ==> t[0] == pre[0];
  }

  /** `op + N` keeps exactly the patients whose age compares with N as `op` says, in their original order. */
  lemma ComparisonSelects(ps: seq<Patient>, op: string, s: string, today: Date, p: Patient)
    requires forall q :: q in ps ==> ParseIsoDate(q.birthDate).Some?
    requires IsComparison(op) && IsDigitStr(s) && |s| <= 3
    ensures ApplyAgeFilter(ps, op + s, today).Ok?
    ensures IsSubsequence(ApplyAgeFilter(ps, op + s, today).value, ps)
    ensures p in ApplyAgeFilter(ps, op + s, today).value <==>
      p in ps && Compares(op, CalculateAge(p.birthDate, today), DigitsValue(s))
  {
    assert op + s + "" == op + s;
    ShortNumberIsComparison(op, s, false);
  }

  /** Two filter strings read the same way select the same patients. */
  lemma SameReading(ps: seq<Patient>, f: string, g: string, today: Date)
    requires forall p :: p in ps ==> ParseIsoDate(p.birthDate).Some?
    requires InterpretAgeFilter(f) == InterpretAgeFilter(g)
    ensures ApplyAgeFilter(ps, f, today) == ApplyAgeFilter(ps, g, today)
  {
  }

  /** `">=N"`, `"N+"` and `"N"` select the same patients, for N of one to three digits. */
  lemma AtLeastSpellings(ps: seq<Patient>, s: string, today: Date)
    requires forall p :: p in ps ==> ParseIsoDate(p.birthDate).Some?
    requires IsDigitStr(s) && |s| <= 3
    ensures ApplyAgeFilter(ps, ">=" + s, today) == ApplyAgeFilter(ps, s + "+", today)
    ensures ApplyAgeFilter(ps, s + "+", today) == ApplyAgeFilter(ps, s, today)
  {
    assert ">=" + s + "" == ">=" + s;
    assert "" + s + "+" == s + "+";
    assert "" + s + "" == s;
    ShortNumberIsComparison(">=", s, false);
    ShortNumberIsComparison("", s, true);
    ShortNumberIsComparison("", s, false);
    SameReading(ps, ">=" + s, s + "+", today);
    SameReading(ps, s + "+", s, today);
  }

  /** Exact-age equality is reached only by a digit string longer than three characters. */
  lemma ExactAgeNeedsFourDigits(f: string)
    requires InterpretAgeFilter(f).Ok? && InterpretAgeFilter(f).value.Exactly?
    ensures IsDigitStr(f) && |f| >= 4
  {
    if |f| <= 3 {
      assert "" + f + "" == f;
      ShortNumberIsComparison("", f, false);
    }
  }

  /** `N+` with one to three digits reads as `>= N`. */
  lemma ShortPlusIsAtLeast(s: string)
    requires IsDigitStr(s) && |s| <= 3
    ensures InterpretAgeFilter(s + "+") == Ok(Compare(">=", DigitsValue(s)))
  {
    assert "" + s + "+" == s + "+";
    ShortNumberIsComparison("", s, true);
  }

  /** The `min_age` branch for `N+` is reached only with more than three digits. */
  lemma AtLeastNeedsFourDigits(s: string)
    requires InterpretAgeFilter(s + "+").Ok? && InterpretAgeFilter(s + "+").value.AtLeast?
    ensures IsDigitStr(s) && |s| >= 4
  {
    assert (s + "+")[..|s|] == s;
    assert IsDigitStr(s);
    if |s| <= 3 {
      ShortPlusIsAtLeast(s);
    }
  }

  /** `"L-H"` with digits on both sides reads as the range from L to H. */
  lemma DigitRangeIsRange(a: string, b: string)
    requires IsDigitStr(a) && IsDigitStr(b)
    ensures InterpretAgeFilter(a + "-" + b) == Ok(Range(DigitsValue(a), DigitsValue(b)))
  {
    assert '-' !in b;
    RangePartsOf(a, b);
    PyIntDigits(b);
  }

  /** `split("-")` of digits, one `-` and a dash-free rest gives back the two parts. */
  lemma RangePartsOf(a: string, b: string)
    requires IsDigitStr(a) && '-' !in b
    ensures RangeParts(a + "-" + b) == Some((a, b))
  {
    var f := a + "-" + b;
    assert f[|a|] == '-';
    assert '-' !in a;
    assert IndexOf(f, '-') == |a|;
    assert f[..|a|] == a && f[|a| + 1..] == b;
    CountCharOnceAt(a, b);
  }

  /** A string with one `-` between two dash-free parts has exactly one `-`. */
  lemma {:induction false} CountCharOnceAt(a: string, b: string)
    requires '-' !in a && '-' !in b
    ensures CountChar(a + "-" + b, '-') == 1
    decreases |a|
  {
    if a == [] {
      assert a + "-" + b == ['-'] + b;
      assert (['-'] + b)[1..] == b;
      CountCharZero(b, '-');
    } else {
      CountCharOnceAt(a[1..], b);
      assert (a + "-" + b)[1..] == a[1..] + "-" + b;
    }
  }

  /** A range keeps exactly the patients whose age lies within it, in their original order. */
  lemma RangeSelects(ps: seq<Patient>, a: string, b: string, today: Date, p: Patient)
    requires forall q :: q in ps ==> ParseIsoDate(q.birthDate).Some?
    requires IsDigitStr(a) && IsDigitStr(b)
    ensures ApplyAgeFilter(ps, a + "-" + b, today).Ok?
    ensures p in ApplyAgeFilter(ps, a + "-" + b, today).value <==>
      p in ps && DigitsValue(a) <= CalculateAge(p.birthDate, today) <= DigitsValue(b)
  {
    DigitRangeIsRange(a, b);
  }

  /** A reversed range keeps nobody. */
  lemma ReversedRangeIsEmpty(ps: seq<Patient>, a: string, b: string, today: Date)
    requires forall q :: q in ps ==> ParseIsoDate(q.birthDate).Some?
    requires IsDigitStr(a) && IsDigitStr(b) && DigitsValue(a) > DigitsValue(b)
    ensures ApplyAgeFilter(ps, a + "-" + b, today) == Ok([])
  {
    DigitRangeIsRange(a, b);
    FilterKeepsNone(ps, Keeps(Range(DigitsValue(a), DigitsValue(b)), today));
  }

  /** A filter string without any digit filters nothing. */
  lemma NoDigitsPassesThrough(ps: seq<Patient>, f: string, today: Date)
    requires forall q :: q in ps ==> ParseIsoDate(q.birthDate).Some?
    requires forall i :: 0 <= i < |f| ==> !IsDigit(f[i])
    ensures InterpretAgeFilter(f) == Ok(PassThrough)
    ensures ApplyAgeFilter(ps, f, today) == Ok(ps)
  {
    NoDigitsReading(f);
  }

  lemma NoDigitsReading(f: string)
    requires forall i :: 0 <= i < |f| ==> !IsDigit(f[i])
    ensures InterpretAgeFilter(f) == Ok(PassThrough)
  {
    NoDigitsNoRange(f);
    var t := Strip(f);
    assert t == StripLeft(f)[..|t|];
    NoDigitsNoOperator(t);
    if |f| >= 1 {
      assert !IsDigit(f[0]);
    }
  }

  lemma NoDigitsNoRange(f: string)
    requires forall i :: 0 <= i < |f| ==> !IsDigit(f[i])
    ensures RangeParts(f).None?
  {
    if RangeParts(f).Some? {
      assert false;
    }
  }

  lemma NoDigitsNoOperator(t: string)
    requires forall i :: 0 <= i < |t| ==> !IsDigit(t[i])
    ensures OperatorMatch(t).None?
  {
    var (op, p) := OpPrefix(t);
    assert DigitRun(t, p + Scan.SpaceRun(t, p)) == 0;
  }

  /** A range with nothing after the `-`, such as `"30-"`, is the ValueError of `int("")`. */
  lemma MissingUpperBoundFails(a: string)
    requires IsDigitStr(a)
    ensures InterpretAgeFilter(a + "-").Err?
  {
    assert a + "-" == a + "-" + "";
    RangePartsOf(a, "");
    assert PyInt("").None?;
  }
}
