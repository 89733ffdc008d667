/**
 * `/filters/options`: the fixed age-range and gender choices, and one
 * diagnosis choice per condition code of the sample records, ordered by
 * display name.
 */
module Options {
  import opened Wrappers
  import opened Text
  import opened Ordering
  import opened Data
  import opened Seqs
  import opened PyDict
  import opened FilterEngine

  /** A dropdown entry: its `label` (`caption` here) and its `value`. */
  datatype Choice = Choice(caption: string, value: string)

  const AgeRanges: seq<Choice> := [
    Choice("Under 30", "<30"), Choice("30-50", "30-50"), Choice("50-70", "50-70"), Choice("70+", "70+")]

  const Genders: seq<Choice> := [Choice("Male", "male"), Choice("Female", "female")]

  /**
   * Every age-range value is an age filter the interpreter reads as its
   * label says: under 30, from 30 to 50, from 50 to 70, 70 or older.
   */
  lemma AgeRangeValuesRead()
    ensures InterpretAgeFilter(AgeRanges[0].value) == Ok(Compare("<", 30))
    ensures InterpretAgeFilter(AgeRanges[1].value) == Ok(Range(30, 50))
    ensures InterpretAgeFilter(AgeRanges[2].value) == Ok(Range(50, 70))
    ensures InterpretAgeFilter(AgeRanges[3].value) == Ok(Compare(">=", 70))
  {
    assert AgeRanges[0].value == "<30" && AgeRanges[1].value == "30-50";
    assert AgeRanges[2].value == "50-70" && AgeRanges[3].value == "70+";
    UnderThirtyRead();
    ThirtyFiftyRead();
    FiftySeventyRead();
    SeventyPlusRead();
  }

  lemma UnderThirtyRead()
    ensures InterpretAgeFilter("<30") == Ok(Compare("<", 30))
  {
    AgeRangeDigits();
    assert "<" + "30" + "" == "<30";
    ShortNumberIsComparison("<", "30", false);
  }

  lemma SeventyPlusRead()
    ensures InterpretAgeFilter("70+") == Ok(Compare(">=", 70))
  {
    AgeRangeDigits();
    assert "" + "70" + "+" == "70+";
    ShortNumberIsComparison("", "70", true);
  }

  lemma ThirtyFiftyRead()
    ensures InterpretAgeFilter("30-50") == Ok(Range(30, 50))
  {
    AgeRangeDigits();
    assert "30" + "-" + "50" == "30-50";
    DigitRangeIsRange("30", "50");
  }

  lemma FiftySeventyRead()
    ensures InterpretAgeFilter("50-70") == Ok(Range(50, 70))
  {
    AgeRangeDigits();
    assert "50" + "-" + "70" == "50-70";
    DigitRangeIsRange("50", "70");
  }

  lemma AgeRangeDigits()
    ensures IsDigitStr("30") && DigitsValue("30") == 30
    ensures IsDigitStr("50") && DigitsValue("50") == 50
    ensures IsDigitStr("70") && DigitsValue("70") == 70
  {
    assert "30"[..1] == "3" && "50"[..1] == "5" && "70"[..1] == "7";
  }

  /** The gender values are the genders the records carry. */
  lemma GenderValuesOfSample()
    ensures forall p :: p in SamplePatients ==> exists c :: c in Genders && c.value == p.gender
  {
    SamplePatientsWellFormed();
    assert Genders[0].value == "male" && Genders[1].value == "female";
  }

  // ---- Diagnoses ----

  /** `all_conditions` after recording `cs`: `d[code] = display` for each in turn. */
  function Record(cs: seq<Condition>): seq<(string, string)>
    decreases |cs|
  {
    if cs == [] then [] else Put(Record(cs[..|cs| - 1]), cs[|cs| - 1].code, cs[|cs| - 1].display)
  }

  /** The display of the last condition in `cs` with code `code`. */
  function LastDisplay(cs: seq<Condition>, code: string): Option<string>
    decreases |cs|
  {
    if cs == [] then None
    else if cs[|cs| - 1].code == code then Some(cs[|cs| - 1].display)
    else LastDisplay(cs[..|cs| - 1], code)
  }

  /** `LastDisplay` is the display of a condition with that code after which none has it. */
  lemma {:induction false} LastDisplayIsLast(cs: seq<Condition>, code: string)
    ensures LastDisplay(cs, code).None? <==> forall i :: 0 <= i < |cs| ==> cs[i].code != code
    ensures LastDisplay(cs, code).Some? ==>
      exists i :: 0 <= i < |cs| && cs[i] == Condition(code, LastDisplay(cs, code).value)
        && forall j :: i < j < |cs| ==> cs[j].code != code
    decreases |cs|
  {
    if cs != [] {
      var init := cs[..|cs| - 1];
      LastDisplayIsLast(init, code);
      if cs[|cs| - 1].code != code && LastDisplay(init, code).Some? {
        var i :| 0 <= i < |init| && init[i] == Condition(code, LastDisplay(init, code).value)
          && forall j :: i < j < |init| ==> init[j].code != code;
        assert cs[i] == init[i];
      }
    }
  }

  /** Each code recorded holds the display of its last occurrence; codes are recorded once. */
  lemma {:induction false} RecordLatest(cs: seq<Condition>)
    ensures DistinctKeys(Record(cs))
    ensures forall code :: Lookup(Record(cs), code) == LastDisplay(cs, code)
    decreases |cs|
  {
    if cs != [] {
      var init := cs[..|cs| - 1];
      RecordLatest(init);
      PutSpec(Record(init), cs[|cs| - 1].code, cs[|cs| - 1].display);
    }
  }

  /** The sort key `x[1]`, the display. */
  function ByDisplay(): ((string, string)) -> string {
    (e: (string, string)) => e.1
  }

  function StringLt(): (string, string) -> bool {
    (a: string, b: string) => StrLt(a, b)
  }

  lemma StringLtOrder()
    ensures StrictTotalOrder(StringLt())
  {
    forall a: string
      ensures !StrLt(a, a)
    {
      StrLtIrreflexive(a);
    }
    forall a: string, b: string, c: string | StrLt(a, b) && StrLt(b, c)
      ensures StrLt(a, c)
    {
      StrLtTransitive(a, b, c);
    }
    forall a: string, b: string
      ensures a == b || StrLt(a, b) || StrLt(b, a)
    {
      StrLtTotal(a, b);
    }
  }

  /** `sorted(all_conditions.items(), key=lambda x: x[1])`. */
  function ByName(items: seq<(string, string)>): seq<(string, string)> {
    SortBy(items, ByDisplay(), StringLt())
  }

  /** One choice per (code, display) item: the display is the label, the code the value. */
  function Choices(items: seq<(string, string)>): (r: seq<Choice>)
    ensures |r| == |items|
    ensures forall i :: 0 <= i < |items| ==> r[i] == Choice(items[i].1, items[i].0)
  {
    seq(|items|, i requires 0 <= i < |items| => Choice(items[i].1, items[i].0))
  }

  /** The diagnosis choices for the records `ps`. */
  function DiagnosisChoicesOf(ps: seq<Patient>): seq<Choice> {
    Choices(ByName(Record(AllConditions(ps))))
  }

  /** Recording one more condition is one more `Put`. */
  lemma RecordStep(before: seq<Condition>, cs: seq<Condition>, j: nat)
    requires j < |cs|
    ensures Record(before + cs[..j + 1]) == Put(Record(before + cs[..j]), cs[j].code, cs[j].display)
  {
    var s := before + cs[..j + 1];
    assert s[..|s| - 1] == before + cs[..j];
    assert s[|s| - 1] == cs[j];
  }

  /** The loop of `filter_options` over every condition of every record, then the sort. */
  method DiagnosisChoices(ps: seq<Patient>) returns (choices: seq<Choice>)
    ensures choices == DiagnosisChoicesOf(ps)
  {
    var all: seq<(string, string)> := [];
    for i := 0 to |ps|
      invariant all == Record(AllConditions(ps[..i]))
    {
      var cs := ps[i].conditions;
      var before := AllConditions(ps[..i]);
      assert before + cs[..0] == before;
      for j := 0 to |cs|
        invariant all == Record(before + cs[..j])
      {
        RecordStep(before, cs, j);
        all := Put(all, cs[j].code, cs[j].display);
      }
      assert ps[..i + 1][..i] == ps[..i];
      assert cs[..|cs|] == cs;
    }
    assert ps[..|ps|] == ps;
    choices := Choices(ByName(all));
  }

  datatype OptionsResponse = OptionsResponse(ageRanges: seq<Choice>, genders: seq<Choice>, diagnoses: seq<Choice>)

  /** `filter_options`: the fixed choices and the diagnosis choices of the sample records. */
  method FilterOptions() returns (r: OptionsResponse)
    ensures r == OptionsResponse(AgeRanges, Genders, DiagnosisChoicesOf(SamplePatients))
  {
    var diagnoses := DiagnosisChoices(SamplePatients);
    r := OptionsResponse(AgeRanges, Genders, diagnoses);
  }

  // ---- Properties of the diagnosis choices ----

  /** A key occurs at most once among items with distinct keys. */
  lemma {:induction false} DistinctOnce<K, V>(d: seq<(K, V)>, x: (K, V))
    requires DistinctKeys(d)
    ensures multiset(d)[x] <= 1
    decreases |d|
  {
    if d != [] {
      assert d == [d[0]] + d[1..];
      DistinctOnce(d[1..], x);
      if d[0] == x {
        assert x !in d[1..];
      }
    }
  }

  /** An element at two positions occurs at least twice. */
  lemma Twice<T>(s: seq<T>, i: nat, j: nat)
    requires i < j < |s| && s[i] == s[j]
    ensures multiset(s)[s[i]] >= 2
  {
    assert s == s[..j] + s[j..];
    assert s[i] in s[..j];
    assert s[j..][0] == s[j];
  }

  /** A permutation of items with distinct keys has distinct keys. */
  lemma PermutedDistinct<K, V>(a: seq<(K, V)>, b: seq<(K, V)>)
    requires DistinctKeys(a) && multiset(a) == multiset(b)
    ensures DistinctKeys(b)
  {
    forall i, j | 0 <= i < j < |b|
      ensures b[i].0 != b[j].0
    {
      if b[i].0 == b[j].0 {
        assert b[i] in multiset(a) && b[j] in multiset(a);
        var i' :| 0 <= i' < |a| && a[i'] == b[i];
        var j' :| 0 <= j' < |a| && a[j'] == b[j];
        assert i' == j';
        Twice(b, i, j);
        DistinctOnce(a, b[i]);
        assert false;
      }
    }
  }

  /** In items with distinct keys, an item is what its key looks up. */
  lemma LookupMember<K, V>(d: seq<(K, V)>, k: nat)
    requires DistinctKeys(d) && k < |d|
    ensures Lookup(d, d[k].0) == Some(d[k].1)
  {
  }

  /** `code` is the value of one of the choices. */
  predicate Offered(r: seq<Choice>, code: string) {
    exists i :: 0 <= i < |r| && r[i].value == code
  }

  /** Some condition in `cs` has code `code`. */
  predicate Occurs(cs: seq<Condition>, code: string) {
    exists c :: c in cs && c.code == code
  }

  /** Sorting the recorded items keeps them all, in order of display, with codes still distinct. */
  lemma SortedRecord(cs: seq<Condition>)
    ensures var d := Record(cs); var sorted := ByName(d);
      && DistinctKeys(d) && DistinctKeys(sorted)
      && multiset(sorted) == multiset(d)
      && forall i, j :: 0 <= i < j < |sorted| ==> !StrLt(sorted[j].1, sorted[i].1)
  {
    var d := Record(cs);
    RecordLatest(cs);
    StringLtOrder();
    SortBySorted(d, ByDisplay(), StringLt());
    PermutedDistinct(d, ByName(d));
  }

  /** The diagnosis choices are ordered by label and no code is offered twice. */
  lemma DiagnosisChoicesOrdered(ps: seq<Patient>)
    ensures var r := DiagnosisChoicesOf(ps);
      && (forall i, j :: 0 <= i < j < |r| ==> StrLe(r[i].caption, r[j].caption))
      && (forall i, j :: 0 <= i < j < |r| ==> r[i].value != r[j].value)
  {
    var sorted := ByName(Record(AllConditions(ps)));
    var r := DiagnosisChoicesOf(ps);
    SortedRecord(AllConditions(ps));
    forall i, j | 0 <= i < j < |r|
      ensures StrLe(r[i].caption, r[j].caption)
    {
      StrLtTotal(sorted[i].1, sorted[j].1);
    }
  }

  /** Each code's label is the display of the last condition in `ps` with that code. */
  lemma DiagnosisChoicesLabels(ps: seq<Patient>)
    ensures var r := DiagnosisChoicesOf(ps);
      forall i :: 0 <= i < |r| ==> LastDisplay(AllConditions(ps), r[i].value) == Some(r[i].caption)
  {
    var cs := AllConditions(ps);
    var d := Record(cs);
    var sorted := ByName(d);
    var r := DiagnosisChoicesOf(ps);
    SortedRecord(cs);
    RecordLatest(cs);
    forall i | 0 <= i < |r|
      ensures LastDisplay(cs, r[i].value) == Some(r[i].caption)
    {
      assert sorted[i] in multiset(d);
      var k :| 0 <= k < |d| && d[k] == sorted[i];
      LookupMember(d, k);
    }
  }

  /** Exactly the codes of the conditions of `ps` are offered. */
  lemma DiagnosisChoicesCover(ps: seq<Patient>)
    ensures forall code :: Offered(DiagnosisChoicesOf(ps), code) <==> Occurs(AllConditions(ps), code)
  {
    var cs := AllConditions(ps);
    var d := Record(cs);
    var sorted := ByName(d);
    var r := DiagnosisChoicesOf(ps);
    SortedRecord(cs);
    RecordLatest(cs);
    forall code
      ensures Offered(r, code) <==> Occurs(cs, code)
    {
      LastDisplayIsLast(cs, code);
      if Occurs(cs, code) {
        var c :| c in cs && c.code == code;
        var m :| 0 <= m < |cs| && cs[m] == c;
        assert Lookup(d, code).Some?;
        var k :| 0 <= k < |d| && d[k].0 == code;
        assert d[k] in multiset(sorted);
        var i :| 0 <= i < |sorted| && sorted[i] == d[k];
        assert r[i].value == code;
      }
      if Offered(r, code) {
        var i :| 0 <= i < |r| && r[i].value == code;
        assert sorted[i] in multiset(d);
        var k :| 0 <= k < |d| && d[k] == sorted[i];
        LookupMember(d, k);
        var m :| 0 <= m < |cs| && cs[m] == Condition(code, LastDisplay(cs, code).value);
        assert cs[m] in cs;
      }
    }
  }
}
