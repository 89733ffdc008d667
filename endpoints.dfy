/**
 * The logic inside the `/query` and `/suggestions` endpoints: turning a
 * parsed age predicate back into a filter string, assembling the applied
 * filters and the response, and filtering the autocomplete suggestions.
 */
module Endpoints {
  import opened Wrappers
  import opened Text
  import opened Dates
  import opened Data
  import opened Seqs
  import opened QueryParser
  import opened FilterEngine

  // ---- /query ----

  /** `f"{v}"` for an optional integer: "None" when it is absent. */
  function OptionalIntText(v: Option<int>): string {
    match v
    case None => "None"
    case Some(n) => IntToString(n)
  }

  /**
   * The `age_filter` string `query_endpoint` derives from a parsed age
   * predicate: `"low-high"` for between, the operator followed by the age
   * for the four comparisons, `">="` and the age for any other operator,
   * and nothing when there is no age.
   */
  function TranslateAgeFilter(a: AgeFilter): Option<string> {
    if a.op == "between" then Some(OptionalIntText(a.low) + "-" + OptionalIntText(a.high))
    else if a.age.Some? then
      if IsComparison(a.op) then Some(a.op + IntToString(a.age.value))
      else Some(">=" + IntToString(a.age.value))
    else None
  }

  /** The two shapes a parsed age predicate takes. */
  predicate WellShaped(a: AgeFilter) {
    || (a.op == "between" && a.age.None? && a.low.Some? && a.high.Some? && 0 <= a.low.value <= a.high.value < 1000)
    || (IsComparison(a.op) && a.age.Some? && 0 <= a.age.value < 1000 && a.low.None? && a.high.None?)
  }

  /** Whether an age satisfies a parsed age predicate, as the query means it. */
  predicate Admits(a: AgeFilter, age: int)
    requires WellShaped(a)
  {
    if a.op == "between" then a.low.value <= age <= a.high.value else Compares(a.op, age, a.age.value)
  }

  /**
   * The string written for a parsed predicate is read back by the age
   * filter as a test that accepts exactly the ages the predicate admits.
   */
  lemma TranslationRoundTrip(a: AgeFilter)
    requires WellShaped(a)
    ensures TranslateAgeFilter(a).Some?
    ensures InterpretAgeFilter(TranslateAgeFilter(a).value).Ok?
    ensures forall age :: Satisfies(InterpretAgeFilter(TranslateAgeFilter(a).value).value, age) <==> Admits(a, age)
  {
    if a.op == "between" {
      var lo, hi := NatToString(a.low.value), NatToString(a.high.value);
      NatToStringRoundTrip(a.low.value);
      NatToStringRoundTrip(a.high.value);
      DigitRangeIsRange(lo, hi);
    } else {
      var s := NatToString(a.age.value);
      NatToStringRoundTrip(a.age.value);
      assert a.op + s + "" == a.op + s;
      ShortNumberIsComparison(a.op, s, false);
    }
  }

  /** `applied`: the filters `query_endpoint` passes on to `filter_patients`. */
  datatype AppliedFilters = AppliedFilters(
    ageFilter: Option<string>,
    genderFilter: Option<string>,
    diagnosisFilter: Option<seq<string>>)

  function Applied(filters: ParsedFilters): AppliedFilters {
    AppliedFilters(
      if filters.age.Some? then TranslateAgeFilter(filters.age.value) else None,
      if filters.gender.Some? && filters.gender.value != "" then filters.gender else None,
      if filters.diagnoses != [] then Some(filters.diagnoses) else None)
  }

  function DiagnosisArgument(codes: Option<seq<string>>): Option<DiagnosisFilter> {
    match codes
    case None => None
    case Some(cs) => Some(Codes(cs))
  }

  /** The body of a `/query` response; `confidenceScore` is in tenths. */
  datatype QueryResponse = QueryResponse(
    parsedFilters: ParsedFilters,
    appliedFilters: AppliedFilters,
    totalPatientsFound: nat,
    confidenceScore: int,
    resultsSample: seq<Patient>)

  /** What `query_endpoint` answers for parsed filters; an error from `filter_patients` becomes a 500. */
  function QueryAnswer(filters: ParsedFilters, today: Date): Result<QueryResponse> {
    var applied := Applied(filters);
    match FilterPatients(applied.ageFilter, applied.genderFilter, DiagnosisArgument(applied.diagnosisFilter), today)
    case Err(msg) => Err(msg)
    case Ok(matching) =>
      Ok(QueryResponse(filters, applied, |matching|, filters.confidence, Take(matching, 10)))
  }

  /** The message the request model gives for an empty `query`. */
  const EmptyQueryMessage := "String should have at least 1 character"

  /**
   * `query_endpoint`: the request model rejects an empty query; otherwise
   * the query is parsed, its filters applied, and the count and the first
   * ten matches returned.
   */
  method Query(query: string, today: Date) returns (r: Result<QueryResponse>)
    ensures query == "" ==> r == Err(EmptyQueryMessage)
    ensures query != "" ==> r == QueryAnswer(ParseSpec(query), today)
  {
    if query == "" {
      return Err(EmptyQueryMessage);
    }
    var filters := ParseQuery(query);
    r := QueryAnswer(filters, today);
  }

  /**
   * The error branch of `query_endpoint` is never taken: the filters the
   * parser produces are always accepted by `filter_patients`.
   */
  lemma QueryNeverFails(query: string, today: Date)
    ensures QueryAnswer(ParseSpec(query), today).Ok?
  {
    var filters := ParseSpec(query);
    ParsedAgeShape(query);
    if filters.age.Some? {
      TranslationRoundTrip(filters.age.value);
    }
  }

  /** A patient's age on `today` is one the parsed predicate admits. */
  predicate AgeAdmitted(a: AgeFilter, today: Date, p: Patient) {
    WellShaped(a) && ParseIsoDate(p.birthDate).Some? && Admits(a, CalculateAge(p.birthDate, today))
  }

  /** The patients `query_endpoint` counts for a query. */
  ghost function Matching(query: string, today: Date): seq<Patient> {
    var applied := Applied(ParseSpec(query));
    QueryNeverFails(query, today);
    FilterPatients(applied.ageFilter, applied.genderFilter, DiagnosisArgument(applied.diagnosisFilter), today).value
  }

  /**
   * The answer to a query reports the parsed and applied filters, the
   * number of matches and the first ten of them, in the order of the
   * sample list.
   */
  lemma QueryResponseShape(query: string, today: Date)
    ensures var filters := ParseSpec(query); var matching := Matching(query, today);
      && QueryAnswer(filters, today) == Ok(QueryResponse(filters, Applied(filters), |matching|, filters.confidence, Take(matching, 10)))
      && IsSubsequence(matching, SamplePatients)
      && |Take(matching, 10)| == if |matching| < 10 then |matching| else 10
  {
    var applied := Applied(ParseSpec(query));
    QueryNeverFails(query, today);
    PipelineSubsequence(SamplePatients, applied.ageFilter, applied.genderFilter,
                        DiagnosisArgument(applied.diagnosisFilter), today);
  }

  /** A parsed gender is "male" or "female", never an empty string. */
  lemma ParsedGenderValue(query: string)
    ensures ParseSpec(query).gender.Some? ==> ParseSpec(query).gender.value in {"male", "female"}
  {
    GenderKeywordsShape();
    GenderFromFirst(Lower(query), 0);
  }

  /** The test the translated string is read back as selects exactly the admitted ages. */
  lemma TranslatedSelects(a: AgeFilter, today: Date, p: Patient)
    requires WellShaped(a)
    ensures InterpretAgeFilter(TranslateAgeFilter(a).value).Ok?
    ensures Selected(InterpretAgeFilter(TranslateAgeFilter(a).value).value, today, p) <==> AgeAdmitted(a, today, p)
  {
    TranslationRoundTrip(a);
  }

  /**
   * For filters of the shapes the parser produces, a patient is among the
   * matches in `ps` exactly when it is in `ps`, of the gender, with one
   * of the diagnosis codes, and (unless the date guard switched the age
   * filter off) of an age the predicate admits.
   */
  lemma AppliedMatches(ps: seq<Patient>, filters: ParsedFilters, today: Date, p: Patient)
    requires filters.gender.Some? ==> filters.gender.value != ""
    requires filters.age.Some? ==> WellShaped(filters.age.value)
    ensures var applied := Applied(filters); var diag := DiagnosisArgument(applied.diagnosisFilter);
      var r := FilterPipeline(ps, applied.ageFilter, applied.genderFilter, diag, today);
      r.Ok? &&
      (p in r.value <==>
        && p in ps
        && (filters.gender.Some? ==> p.gender == filters.gender.value)
        && (filters.diagnoses != [] ==> exists i :: 0 <= i < |p.conditions| && p.conditions[i].code in filters.diagnoses)
        && (filters.age.Some? && DatesSane(today, Prefiltered(ps, applied.genderFilter, diag)) ==>
              AgeAdmitted(filters.age.value, today, p)))
  {
    var applied := Applied(filters);
    var diag := DiagnosisArgument(applied.diagnosisFilter);
    if filters.age.Some? {
      TranslatedSelects(filters.age.value, today, p);
    }
    PipelineMembers(ps, applied.ageFilter, applied.genderFilter, diag, today, p);
    AppliedDiagnoses(filters, p);
  }

  /** The applied diagnosis filter is given exactly when codes were parsed, and keeps a patient with one of them. */
  lemma AppliedDiagnoses(filters: ParsedFilters, p: Patient)
    ensures var diag := DiagnosisArgument(Applied(filters).diagnosisFilter);
      && (DiagnosisGiven(diag) <==> filters.diagnoses != [])
      && (DiagnosisGiven(diag) ==>
            (HasCondition(CodeSet(diag.value), p) <==>
             exists i :: 0 <= i < |p.conditions| && p.conditions[i].code in filters.diagnoses))
  {
    var diag := DiagnosisArgument(Applied(filters).diagnosisFilter);
    if filters.diagnoses != [] {
      assert CodeSet(diag.value) == set c | c in filters.diagnoses;
    }
  }

  /** `AppliedMatches` for the filters parsed from a query. */
  lemma QueryMatches(query: string, today: Date, p: Patient)
    ensures var filters := ParseSpec(query); var applied := Applied(filters);
      p in Matching(query, today) <==>
        && p in SamplePatients
        && (filters.gender.Some? ==> p.gender == filters.gender.value)
        && (filters.diagnoses != [] ==> exists i :: 0 <= i < |p.conditions| && p.conditions[i].code in filters.diagnoses)
        && (filters.age.Some? && DatesSane(today, Prefiltered(SamplePatients, applied.genderFilter,
                                                               DiagnosisArgument(applied.diagnosisFilter))) ==>
              AgeAdmitted(filters.age.value, today, p))
  {
    ParsedAgeShape(query);
    ParsedGenderValue(query);
    AppliedMatches(SamplePatients, ParseSpec(query), today, p);
  }

  // ---- /suggestions ----

  /** Whether the lower-cased suggestion `s` contains `needle`. */
  function Mentions(needle: string): string -> bool {
    (s: string) => Contains(Lower(s), needle)
  }

  /** `suggestions(q)` over the list `all`. */
  function SuggestFrom(all: seq<string>, q: string): seq<string> {
    if q == "" then Take(all, 8)
    else Take(Filter(all, Mentions(Lower(q))), 10)
  }

  /**
   * `suggestions(q)`: the first eight suggestions when `q` is empty, else
   * at most ten suggestions that contain `q`, compared case-insensitively,
   * in list order.
   */
  function Suggestions(q: string): seq<string> {
    SuggestFrom(QuerySuggestions, q)
  }

  /** An empty query text gives the first eight suggestions. */
  lemma EmptyQuerySuggestions()
    ensures Suggestions("") == QuerySuggestions[..8]
  {
  }

  /**
   * For a non-empty `q` at most ten suggestions are returned, every one
   * contains `q` ignoring case, and they keep the order of the list.
   */
  lemma SuggestionsMatch(all: seq<string>, q: string)
    requires q != ""
    ensures |SuggestFrom(all, q)| <= 10
    ensures var n := |Filter(all, Mentions(Lower(q)))|; |SuggestFrom(all, q)| == if n < 10 then n else 10
    ensures IsSubsequence(SuggestFrom(all, q), all)
    ensures forall s :: s in SuggestFrom(all, q) ==> s in all && Contains(Lower(s), Lower(q))
  {
    var m := Mentions(Lower(q));
    var matches := Filter(all, m);
    var r := Take(matches, 10);
    FilterContents(all, m);
    FilterIsSubsequence(all, m);
    PrefixIsSubsequence(matches, |r|);
    SubsequenceTransitive(r, matches, all);
    PrefixMembers(matches, |r|);
  }

  /** The elements of a prefix are elements of the whole. */
  lemma PrefixMembers<T>(s: seq<T>, n: nat)
    requires n <= |s|
    ensures forall x :: x in s[..n] ==> x in s
  {
  }

  /** When at most ten suggestions contain a non-empty `q`, all of them are returned. */
  lemma SuggestionsComplete(all: seq<string>, q: string)
    requires q != ""
    requires |Filter(all, Mentions(Lower(q)))| <= 10
    ensures forall s :: s in all && Contains(Lower(s), Lower(q)) ==> s in SuggestFrom(all, q)
  {
    var matches := Filter(all, Mentions(Lower(q)));
    FilterContents(all, Mentions(Lower(q)));
    assert SuggestFrom(all, q) == matches;
  }

  /**
   * The matching suggestion at index `i` of the list is returned exactly
   * when fewer than ten matching suggestions come before it, and then it
   * is at the position that counts them: the answer is the first ten
   * matches in list order.
   */
  lemma SuggestionsInOrder(all: seq<string>, q: string, i: nat)
    requires q != "" && i < |all| && Contains(Lower(all[i]), Lower(q))
    ensures var before := |Filter(all[..i], Mentions(Lower(q)))|; var r := SuggestFrom(all, q);
      && (before < 10 <==> before < |r|)
      && (before < 10 ==> r[before] == all[i])
  {
    var m := Mentions(Lower(q));
    var head := Filter(all[..i], m);
    assert all == all[..i] + ([all[i]] + all[i + 1..]);
    FilterAppend(all[..i], [all[i]] + all[i + 1..], m);
    FilterAppend([all[i]], all[i + 1..], m);
    assert Filter([all[i]], m) == [all[i]] by {
      assert [all[i]][1..] == [];
    }
    var matches := Filter(all, m);
    assert matches == head + ([all[i]] + Filter(all[i + 1..], m));
    assert matches[|head|] == all[i];
  }

  /** A prefix is a subsequence. */
  lemma {:induction false} PrefixIsSubsequence<T>(s: seq<T>, n: nat)
    requires n <= |s|
    ensures IsSubsequence(s[..n], s)
    decreases n
  {
    if n > 0 {
      PrefixIsSubsequence(s[1..], n - 1);
      assert s[..n][1..] == s[1..][..n - 1];
    }
  }
}
