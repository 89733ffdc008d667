/**
 * The static tables of the backend: the fifteen sample patients and the
 * keyword tables that drive the query parser. Python dictionaries keep
 * insertion order, so each table is a sequence of (key, value) pairs in
 * the order the source lists them.
 */
module Data {
  import opened Wrappers
  import opened Text
  import opened Dates

  datatype Condition = Condition(code: string, display: string)

  datatype HumanName = HumanName(given: seq<string>, family: string)

  /** A sample record: `id`, `name`, `gender`, `birthDate`, `conditions`, `medications`. */
  datatype Patient = Patient(
    id: string,
    name: HumanName,
    gender: string,
    birthDate: string,
    conditions: seq<Condition>,
    medications: seq<string>)

  const SamplePatients: seq<Patient> := [
    Patient("patient-001", HumanName(["Alice"], "Smith"), "female", "1965-04-12",
      [Condition("E11", "Type 2 diabetes mellitus"), Condition("E78.5", "Hyperlipidemia")],
      ["Metformin", "Atorvastatin"]),
    Patient("patient-002", HumanName(["Bob"], "Johnson"), "male", "1975-11-02",
      [Condition("I10", "Essential hypertension")],
      ["Lisinopril"]),
    Patient("patient-003", HumanName(["Carol"], "Nguyen"), "female", "1958-06-25",
      [Condition("E11", "Type 2 diabetes mellitus"), Condition("I10", "Essential hypertension")],
      ["Metformin", "Amlodipine"]),
    Patient("patient-004", HumanName(["David"], "Lee"), "male", "1988-02-14",
      [Condition("J45", "Asthma")],
      ["Albuterol"]),
    Patient("patient-005", HumanName(["Eve"], "Martinez"), "female", "1948-01-12",
      [Condition("E10", "Type 1 diabetes mellitus"), Condition("I50", "Heart failure")],
      ["Insulin", "Furosemide"]),
    Patient("patient-006", HumanName(["Frank"], "Chen"), "male", "1992-08-30",
      [Condition("F41.1", "Generalized anxiety disorder")],
      ["Sertraline"]),
    Patient("patient-007", HumanName(["Grace"], "Williams"), "female", "1970-03-15",
      [Condition("E11", "Type 2 diabetes mellitus"), Condition("M81", "Osteoporosis")],
      ["Metformin", "Alendronate"]),
    Patient("patient-008", HumanName(["Henry"], "Kumar"), "male", "1982-09-20",
      [Condition("J44", "COPD (Chronic obstructive pulmonary disease)"), Condition("I10", "Essential hypertension")],
      ["Tiotropium", "Losartan"]),
    Patient("patient-009", HumanName(["Isabel"], "Rodriguez"), "female", "1955-12-08",
      [Condition("I25", "Chronic ischemic heart disease"), Condition("E78.5", "Hyperlipidemia")],
      ["Aspirin", "Metoprolol", "Rosuvastatin"]),
    Patient("patient-010", HumanName(["Jack"], "Thompson"), "male", "1968-05-17",
      [Condition("N18", "Chronic kidney disease")],
      ["Erythropoietin", "Calcium carbonate"]),
    Patient("patient-011", HumanName(["Karen"], "White"), "female", "1978-11-23",
      [Condition("M05", "Rheumatoid arthritis"), Condition("F41.1", "Generalized anxiety disorder")],
      ["Methotrexate", "Prednisone", "Escitalopram"]),
    Patient("patient-012", HumanName(["Leonard"], "Brown"), "male", "1945-03-30",
      [Condition("G30", "Alzheimer's disease"), Condition("I10", "Essential hypertension")],
      ["Donepezil", "Amlodipine"]),
    Patient("patient-013", HumanName(["Maria"], "Garcia"), "female", "1990-07-14",
      [Condition("K21", "Gastroesophageal reflux disease (GERD)")],
      ["Omeprazole"]),
    Patient("patient-014", HumanName(["Nathan"], "Park"), "male", "1963-01-25",
      [Condition("C50", "Breast cancer (male)"), Condition("F33", "Major depressive disorder")],
      ["Tamoxifen", "Sertraline"]),
    Patient("patient-015", HumanName(["Olivia"], "Anderson"), "female", "1985-06-09",
      [Condition("E03", "Hypothyroidism"), Condition("D50", "Iron deficiency anemia")],
      ["Levothyroxine", "Ferrous sulfate"])
  ]

  /**
   * Diagnosis phrase to diagnosis codes, in the order of the source table;
   * the groups follow its headings.
   */
  const DiabetesKeywords: seq<(string, seq<string>)> := [
    ("type 2 diabetes", ["E11"]),
    ("type ii diabetes", ["E11"]),
    ("t2dm", ["E11"]),
    ("type 1 diabetes", ["E10"]),
    ("type i diabetes", ["E10"]),
    ("t1dm", ["E10"]),
    ("diabetes mellitus", ["E11", "E10"]),
    ("diabetic", ["E11", "E10"]),
    ("diabetes", ["E11", "E10"])
  ]

  const CardiovascularKeywords: seq<(string, seq<string>)> := [
    ("hypertension", ["I10"]),
    ("high blood pressure", ["I10"]),
    ("htn", ["I10"]),
    ("heart failure", ["I50"]),
    ("chf", ["I50"]),
    ("congestive heart failure", ["I50"]),
    ("hyperlipidemia", ["E78.5"]),
    ("high cholesterol", ["E78.5"]),
    ("ischemic heart disease", ["I25"]),
    ("coronary artery disease", ["I25"]),
    ("cad", ["I25"]),
    ("ihd", ["I25"])
  ]

  const RespiratoryKeywords: seq<(string, seq<string>)> := [
    ("asthma", ["J45"]),
    ("copd", ["J44"]),
    ("chronic obstructive pulmonary disease", ["J44"])
  ]

  const MentalHealthKeywords: seq<(string, seq<string>)> := [
    ("anxiety", ["F41.1"]),
    ("generalized anxiety disorder", ["F41.1"]),
    ("gad", ["F41.1"]),
    ("depression", ["F33"]),
    ("major depressive disorder", ["F33"]),
    ("mdd", ["F33"])
  ]

  const MusculoskeletalKeywords: seq<(string, seq<string>)> := [
    ("osteoporosis", ["M81"]),
    ("rheumatoid arthritis", ["M05"]),
    ("ra", ["M05"]),
    ("arthritis", ["M05"])
  ]

  const NeurologicalKeywords: seq<(string, seq<string>)> := [
    ("alzheimer", ["G30"]),
    ("alzheimer's disease", ["G30"]),
    ("dementia", ["G30"])
  ]

  const RenalKeywords: seq<(string, seq<string>)> := [
    ("kidney disease", ["N18"]),
    ("chronic kidney disease", ["N18"]),
    ("ckd", ["N18"])
  ]

  const GastrointestinalKeywords: seq<(string, seq<string>)> := [
    ("gerd", ["K21"]),
    ("acid reflux", ["K21"]),
    ("gastroesophageal reflux", ["K21"])
  ]

  const OncologyKeywords: seq<(string, seq<string>)> := [
    ("cancer", ["C50"]),
    ("breast cancer", ["C50"])
  ]

  const EndocrineKeywords: seq<(string, seq<string>)> := [
    ("hypothyroidism", ["E03"]),
    ("thyroid", ["E03"])
  ]

  const HematologyKeywords: seq<(string, seq<string>)> := [
    ("anemia", ["D50"]),
    ("iron deficiency", ["D50"])
  ]

  const DiagnosisKeywords: seq<(string, seq<string>)> :=
    DiabetesKeywords + CardiovascularKeywords + RespiratoryKeywords + MentalHealthKeywords
    + MusculoskeletalKeywords + NeurologicalKeywords + RenalKeywords + GastrointestinalKeywords
    + OncologyKeywords + EndocrineKeywords + HematologyKeywords

  /** Gender word to canonical gender. */
  const GenderKeywords: seq<(string, string)> := [
    ("male", "male"),
    ("man", "male"),
    ("men", "male"),
    ("m", "male"),
    ("female", "female"),
    ("woman", "female"),
    ("women", "female"),
    ("f", "female")
  ]

  /** Age phrase to comparison operator. */
  const AgeOperators: seq<(string, string)> := [
    ("over", ">"),
    ("older than", ">"),
    ("greater than", ">"),
    ("above", ">"),
    ("at least", ">="),
    ("under", "<"),
    ("younger than", "<"),
    ("less than", "<"),
    ("below", "<")
  ]

  /** Canned queries offered for autocompletion. */
  const QuerySuggestions: seq<string> := [
    "Show me all diabetic patients over 50",
    "List female patients older than 60 with hypertension",
    "Patients between 40 and 70 with asthma",
    "Male patients under 35",
    "Patients aged 75+ with diabetes",
    "Women with heart failure",
    "Patients with COPD over 60",
    "Female patients with rheumatoid arthritis",
    "Patients with anxiety under 40",
    "Patients with Alzheimer's disease over 70",
    "Male patients with kidney disease",
    "Patients with GERD",
    "Female patients with thyroid disease"
  ]

  /** The operators an age predicate may carry. */
  predicate IsComparison(op: string) {
    op == ">" || op == ">=" || op == "<" || op == "<="
  }

  /** What every sample record satisfies and the endpoints rely on. */
  predicate WellFormedPatient(p: Patient) {
    && (p.gender == "male" || p.gender == "female")
    && ParseIsoDate(p.birthDate).Some?
    && |p.name.given| > 0
    && |p.conditions| > 0
  }

  /**
   * Every gender keyword maps to "male" or "female", and the four male
   * keywords come before the four female ones.
   */
  lemma GenderKeywordsShape()
    ensures |GenderKeywords| == 8
    ensures forall i :: 0 <= i < 4 ==> GenderKeywords[i].1 == "male"
    ensures forall i :: 4 <= i < 8 ==> GenderKeywords[i].1 == "female"
  {
  }

  /** Every age phrase maps to one of the four comparisons; "over" is first and "under" comes later. */
  lemma AgeOperatorsShape()
    ensures forall i :: 0 <= i < |AgeOperators| ==> IsComparison(AgeOperators[i].1)
    ensures AgeOperators[0] == ("over", ">") && AgeOperators[5] == ("under", "<")
  {
  }

  /** Every diagnosis phrase maps to at least one code. */
  lemma DiagnosisKeywordsNonEmpty()
    ensures |DiagnosisKeywords| == 49
    ensures forall i :: 0 <= i < |DiagnosisKeywords| ==> |DiagnosisKeywords[i].1| > 0
  {
  }

  /** The fifteen sample ids are pairwise distinct. */
  lemma SampleIdsDistinct()
    ensures |SamplePatients| == 15
    ensures forall i, j :: 0 <= i < j < |SamplePatients| ==> SamplePatients[i].id != SamplePatients[j].id
  {
    forall i, j | 0 <= i < j < |SamplePatients|
      ensures SamplePatients[i].id != SamplePatients[j].id
    {
      assert SamplePatients[i].id[9..] != SamplePatients[j].id[9..];
    }
  }

  /** The latest birth date among the sample patients (record 6, "1992-08-30"). */
  const LatestBirthDate := Date(1992, 8, 30)

  /** The birth date of `p` parses and is not after `d`. */
  predicate BornBy(p: Patient, d: Date) {
    ParseIsoDate(p.birthDate).Some? && !Before(d, ParseIsoDate(p.birthDate).value)
  }

  /**
   * The birth dates of the sample patients, two records at a time, are
   * valid `%Y-%m-%d` dates no later than the latest one.
   */
  lemma BirthDates0()
    ensures forall i :: 0 <= i < 2 ==> BornBy(SamplePatients[i], LatestBirthDate)
  {
    assert BornBy(SamplePatients[0], LatestBirthDate);
    assert BornBy(SamplePatients[1], LatestBirthDate);
  }

  lemma BirthDates1()
    ensures forall i :: 2 <= i < 4 ==> BornBy(SamplePatients[i], LatestBirthDate)
  {
    assert BornBy(SamplePatients[2], LatestBirthDate);
    assert BornBy(SamplePatients[3], LatestBirthDate);
  }

  lemma BirthDates2()
    ensures forall i :: 4 <= i < 6 ==> BornBy(SamplePatients[i], LatestBirthDate)
  {
    assert BornBy(SamplePatients[4], LatestBirthDate);
    assert BornBy(SamplePatients[5], LatestBirthDate);
  }

  lemma BirthDates3()
    ensures forall i :: 6 <= i < 8 ==> BornBy(SamplePatients[i], LatestBirthDate)
  {
    assert BornBy(SamplePatients[6], LatestBirthDate);
    assert BornBy(SamplePatients[7], LatestBirthDate);
  }

  lemma BirthDates4()
    ensures forall i :: 8 <= i < 10 ==> BornBy(SamplePatients[i], LatestBirthDate)
  {
    assert BornBy(SamplePatients[8], LatestBirthDate);
    assert BornBy(SamplePatients[9], LatestBirthDate);
  }

  lemma BirthDates5()
    ensures forall i :: 10 <= i < 12 ==> BornBy(SamplePatients[i], LatestBirthDate)
  {
    assert BornBy(SamplePatients[10], LatestBirthDate);
    assert BornBy(SamplePatients[11], LatestBirthDate);
  }

  lemma BirthDates6()
    ensures forall i :: 12 <= i < 14 ==> BornBy(SamplePatients[i], LatestBirthDate)
  {
    assert BornBy(SamplePatients[12], LatestBirthDate);
    assert BornBy(SamplePatients[13], LatestBirthDate);
  }

  lemma BirthDates7()
    ensures forall i :: 14 <= i < 15 ==> BornBy(SamplePatients[i], LatestBirthDate)
  {
    assert BornBy(SamplePatients[14], LatestBirthDate);
  }

  /** Every sample patient is well formed. */
  lemma SamplePatientsWellFormed()
    ensures forall p :: p in SamplePatients ==> WellFormedPatient(p)
  {
    SampleBirthDates();
    forall i | 0 <= i < |SamplePatients|
      ensures WellFormedPatient(SamplePatients[i])
    {
      assert BornBy(SamplePatients[i], LatestBirthDate);
    }
  }

  /** Every sample birth date parses and none is after `LatestBirthDate`, which one of them is. */
  lemma SampleBirthDates()
    ensures forall i :: 0 <= i < |SamplePatients| ==> BornBy(SamplePatients[i], LatestBirthDate)
    ensures ParseIsoDate(SamplePatients[5].birthDate) == Some(LatestBirthDate)
  {
    BirthDates0();
    BirthDates1();
    BirthDates2();
    BirthDates3();
    BirthDates4();
    BirthDates5();
    BirthDates6();
    BirthDates7();
  }

  lemma QuerySuggestionsCount()
    ensures |QuerySuggestions| == 13
  {
  }

  /** The conditions of all records, record by record, in list order. */
  function AllConditions(ps: seq<Patient>): seq<Condition>
    decreases |ps|
  {
    if ps == [] then [] else AllConditions(ps[..|ps| - 1]) + ps[|ps| - 1].conditions
  }
}
