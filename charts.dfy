/**
 * `/analytics/chart-data`: counts of the filtered patients by age group,
 * by gender and by condition, the conditions ranked by count.
 */
module Charts {
  import opened Wrappers
  import opened Text
  import opened Dates
  import opened Data
  import opened Seqs
  import opened PyDict
  import opened FilterEngine
  import Search

  // ---- Age groups ----

  /** The keys of `age_buckets`, in insertion order. */
  const AgeGroups: seq<string> := ["0-30", "31-50", "51-70", "71+"]

  /** The index in `AgeGroups` of the group an age falls in: at most 30, 50, 70, or older. */
  function AgeGroup(age: int): (g: nat)
    ensures g < 4
  {
    if age <= 30 then 0 else if age <= 50 then 1 else if age <= 70 then 2 else 3
  }

  /** The groups are consecutive age intervals: an older patient never falls in a younger group. */
  lemma AgeGroupMonotone(a: int, b: int)
    requires a <= b
    ensures AgeGroup(a) <= AgeGroup(b)
  {
  }

  /** The lowest and highest group are exactly the ages up to 30 and above 70. */
  lemma AgeGroupBounds(age: int)
    ensures AgeGroup(age) == 0 <==> age <= 30
    ensures AgeGroup(age) == 3 <==> age > 70
  {
  }

  /** Every birth date parses, so every age can be computed. */
  predicate Dated(ps: seq<Patient>) {
    forall i :: 0 <= i < |ps| ==> ParseIsoDate(ps[i].birthDate).Some?
  }

  /** How many of `ps` fall in age group `g` on `today`. */
  function GroupCount(ps: seq<Patient>, today: Date, g: nat): nat
    requires Dated(ps)
    decreases |ps|
  {
    if ps == [] then 0
    else
      var last := ps[|ps| - 1];
      GroupCount(ps[..|ps| - 1], today, g) + if AgeGroup(CalculateAge(last.birthDate, today)) == g then 1 else 0
  }

  /** The four age-group counts add up to the number of patients. */
  lemma {:induction false} GroupsPartition(ps: seq<Patient>, today: Date)
    requires Dated(ps)
    ensures GroupCount(ps, today, 0) + GroupCount(ps, today, 1) + GroupCount(ps, today, 2) + GroupCount(ps, today, 3) == |ps|
    decreases |ps|
  {
    if ps != [] {
      GroupsPartition(ps[..|ps| - 1], today);
    }
  }

  // ---- Genders ----

  /** How many of `ps` have gender `g`. */
  function GenderCount(ps: seq<Patient>, g: string): nat
    decreases |ps|
  {
    if ps == [] then 0 else GenderCount(ps[..|ps| - 1], g) + if ps[|ps| - 1].gender == g then 1 else 0
  }

  /** Every gender is a key of `gender_dist`. */
  predicate Gendered(ps: seq<Patient>) {
    forall i :: 0 <= i < |ps| ==> ps[i].gender == "male" || ps[i].gender == "female"
  }

  /** When every gender is "male" or "female", the two counts add up to the number of patients. */
  lemma {:induction false} GendersPartition(ps: seq<Patient>)
    requires Gendered(ps)
    ensures GenderCount(ps, "male") + GenderCount(ps, "female") == |ps|
    decreases |ps|
  {
    if ps != [] {
      GendersPartition(ps[..|ps| - 1]);
    }
  }

  // ---- Conditions ----

  /** How many of `cs` have display `x`. */
  function DisplayCount(cs: seq<Condition>, x: string): nat
    decreases |cs|
  {
    if cs == [] then 0 else DisplayCount(cs[..|cs| - 1], x) + if cs[|cs| - 1].display == x then 1 else 0
  }

  /** `condition_counts` after counting `cs`: `d[x] = d.get(x, 0) + 1` for each display in turn. */
  function Tally(cs: seq<Condition>): seq<(string, int)>
    decreases |cs|
  {
    if cs == [] then []
    else
      var d := Tally(cs[..|cs| - 1]);
      var x := cs[|cs| - 1].display;
      Put(d, x, Get(d, x, 0) + 1)
  }

  /**
   * The tally has one entry per display that occurs, holding the number
   * of its occurrences; a display that does not occur has no entry.
   */
  lemma {:induction false} TallyCounts(cs: seq<Condition>)
    ensures DistinctKeys(Tally(cs))
    ensures forall x :: Lookup(Tally(cs), x) == if DisplayCount(cs, x) == 0 then None else Some(DisplayCount(cs, x))
    decreases |cs|
  {
    if cs != [] {
      var init := cs[..|cs| - 1];
      var d := Tally(init);
      var y := cs[|cs| - 1].display;
      TallyCounts(init);
      PutSpec(d, y, Get(d, y, 0) + 1);
      forall x
        ensures Lookup(Tally(cs), x) == if DisplayCount(cs, x) == 0 then None else Some(DisplayCount(cs, x))
      {
        if x == y {
          assert Get(d, y, 0) == DisplayCount(init, y);
        } else {
          assert Lookup(Tally(cs), x) == Lookup(d, x);
        }
      }
    }
  }

  /** The sort key `-count`. */
  function NegCount(): ((string, int)) -> int {
    (e: (string, int)) => -e.1
  }

  function IntLt(): (int, int) -> bool {
    (a: int, b: int) => a < b
  }

  lemma IntLtOrder()
    ensures StrictTotalOrder(IntLt())
  {
  }

  /** `sorted(items, key=lambda x: -x[1])`. */
  function Ranked(items: seq<(string, int)>): seq<(string, int)> {
    SortBy(items, NegCount(), IntLt())
  }

  /**
   * Ranking orders the entries by count, largest first, keeps every
   * entry, and leaves entries with equal counts in their input order.
   */
  lemma Ranking(items: seq<(string, int)>, n: int)
    ensures forall i, j :: 0 <= i < j < |Ranked(items)| ==> Ranked(items)[i].1 >= Ranked(items)[j].1
    ensures multiset(Ranked(items)) == multiset(items)
    ensures Filter(Ranked(items), KeyIs(NegCount(), -n)) == Filter(items, KeyIs(NegCount(), -n))
  {
    IntLtOrder();
    SortBySorted(items, NegCount(), IntLt());
    SortByStable(items, NegCount(), IntLt(), -n);
  }

  // ---- The endpoint ----

  datatype ChartResponse = ChartResponse(
    ageDistribution: seq<(string, nat)>,
    genderDistribution: seq<(string, nat)>,
    conditionDistribution: seq<(string, int)>,
    totalPatients: nat)

  /** The first loop of `chart_data`: the patients in each age group. */
  method CountAgeGroups(ps: seq<Patient>, today: Date) returns (groups: seq<nat>)
    requires Dated(ps)
    ensures |groups| == 4
    ensures forall g :: 0 <= g < 4 ==> groups[g] == GroupCount(ps, today, g)
  {
    groups := [0, 0, 0, 0];
    for i := 0 to |ps|
      invariant |groups| == 4
      invariant forall g :: 0 <= g < 4 ==> groups[g] == GroupCount(ps[..i], today, g)
    {
      assert ps[..i + 1][..i] == ps[..i];
      var g := AgeGroup(CalculateAge(ps[i].birthDate, today));
      groups := groups[g := groups[g] + 1];
    }
    assert ps[..|ps|] == ps;
  }

  /** The second loop: `gender_dist[p["gender"]] += 1`, which needs every gender to be a key. */
  method CountGenders(ps: seq<Patient>) returns (male: nat, female: nat)
    requires Gendered(ps)
    ensures male == GenderCount(ps, "male") && female == GenderCount(ps, "female")
  {
    male, female := 0, 0;
    for i := 0 to |ps|
      invariant male == GenderCount(ps[..i], "male") && female == GenderCount(ps[..i], "female")
    {
      assert ps[..i + 1][..i] == ps[..i];
      if ps[i].gender == "male" {
        male := male + 1;
      } else {
        female := female + 1;
      }
    }
    assert ps[..|ps|] == ps;
  }

  /** The third loop: `condition_counts`, over every condition of every patient in turn. */
  method CountConditions(ps: seq<Patient>) returns (counts: seq<(string, int)>)
    ensures counts == Tally(AllConditions(ps))
  {
    counts := [];
    for i := 0 to |ps|
      invariant counts == Tally(AllConditions(ps[..i]))
    {
      var cs := ps[i].conditions;
      var before := AllConditions(ps[..i]);
      assert before + cs[..0] == before;
      for j := 0 to |cs|
        invariant counts == Tally(before + cs[..j])
      {
        var x := cs[j].display;
        TallyStep(before, cs, j);
        counts := Put(counts, x, Get(counts, x, 0) + 1);
      }
      assert ps[..i + 1][..i] == ps[..i];
      assert cs[..|cs|] == cs;
    }
    assert ps[..|ps|] == ps;
  }

  /**
   * The counting loops of `chart_data` over the filtered patients `ps`:
   * the age groups in the order of `AgeGroups`, "Male" before "Female",
   * and the condition tally ranked by count.
   */
  method Chart(ps: seq<Patient>, today: Date) returns (resp: ChartResponse)
    requires Dated(ps) && Gendered(ps)
    ensures |resp.ageDistribution| == 4
    ensures forall g :: 0 <= g < 4 ==> resp.ageDistribution[g] == (AgeGroups[g], GroupCount(ps, today, g))
    ensures resp.genderDistribution == [("Male", GenderCount(ps, "male")), ("Female", GenderCount(ps, "female"))]
    ensures resp.conditionDistribution == Ranked(Tally(AllConditions(ps)))
    ensures resp.totalPatients == |ps|
  {
    var groups := CountAgeGroups(ps, today);
    var male, female := CountGenders(ps);
    var counts := CountConditions(ps);
    Search.CapitalizedGenders();
    resp := ChartResponse(
      [(AgeGroups[0], groups[0]), (AgeGroups[1], groups[1]), (AgeGroups[2], groups[2]), (AgeGroups[3], groups[3])],
      [(Capitalize("male"), male), (Capitalize("female"), female)],
      Ranked(counts),
      |ps|);
  }

  /** Counting one more condition is one more `Put`. */
  lemma TallyStep(before: seq<Condition>, cs: seq<Condition>, j: nat)
    requires j < |cs|
    ensures var d := Tally(before + cs[..j]); var x := cs[j].display;
      Tally(before + cs[..j + 1]) == Put(d, x, Get(d, x, 0) + 1)
  {
    var s := before + cs[..j + 1];
    assert s[..|s| - 1] == before + cs[..j];
    assert s[|s| - 1] == cs[j];
  }

  /** Every record `filter_patients` returns can be counted. */
  lemma FilteredCountable(age: Option<string>, gender: Option<string>, diagnosis: Option<DiagnosisFilter>, today: Date)
    requires FilterPatients(age, gender, diagnosis, today).Ok?
    ensures Dated(FilterPatients(age, gender, diagnosis, today).value)
    ensures Gendered(FilterPatients(age, gender, diagnosis, today).value)
  {
    FilterPatientsWellFormed(age, gender, diagnosis, today);
    AllCountable(FilterPatients(age, gender, diagnosis, today).value);
  }

  lemma AllCountable(ps: seq<Patient>)
    requires forall p :: p in ps ==> WellFormedPatient(p)
    ensures Dated(ps) && Gendered(ps)
  {
    forall i | 0 <= i < |ps|
      ensures WellFormedPatient(ps[i])
    {
      assert ps[i] in ps;
    }
  }

  /**
   * `chart_data`: an age filter the interpreter cannot read is an error;
   * otherwise the counts over the filtered patients.
   */
  method ChartData(age: Option<string>, gender: Option<string>, diagnosis: Option<string>, today: Date)
    returns (r: Result<ChartResponse>)
    ensures FilterPatients(age, gender, Search.CodeArgument(diagnosis), today).Err? ==>
      r == Err(FilterPatients(age, gender, Search.CodeArgument(diagnosis), today).message)
    ensures FilterPatients(age, gender, Search.CodeArgument(diagnosis), today).Ok? ==>
      (FilteredCountable(age, gender, Search.CodeArgument(diagnosis), today);
      var ps := FilterPatients(age, gender, Search.CodeArgument(diagnosis), today).value;
      && r.Ok?
      && |r.value.ageDistribution| == 4
      && (forall g :: 0 <= g < 4 ==> r.value.ageDistribution[g] == (AgeGroups[g], GroupCount(ps, today, g)))
      && r.value.genderDistribution == [("Male", GenderCount(ps, "male")), ("Female", GenderCount(ps, "female"))]
      && r.value.conditionDistribution == Ranked(Tally(AllConditions(ps)))
      && r.value.totalPatients == |ps|)
  {
    var filtered := FilterPatients(age, gender, Search.CodeArgument(diagnosis), today);
    if filtered.Err? {
      return Err(filtered.message);
    }
    FilteredCountable(age, gender, Search.CodeArgument(diagnosis), today);
    var resp := Chart(filtered.value, today);
    r := Ok(resp);
  }
}
