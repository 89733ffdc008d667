/**
 * The rule-based free-text query parser: gender, diagnosis codes and an age
 * predicate extracted from a lower-cased query, plus a confidence score in
 * tenths. `ParseQuery` follows the loops of the source step by step and is
 * proved equal to the specification `ParseSpec`; the lemmas below state the
 * precedence rules about `ParseSpec`.
 */
module QueryParser {
  import opened Wrappers
  import opened Text
  import opened Ordering
  import opened Scan
  import opened Data

  /** The parsed age predicate: `op` with `age`, or "between" with `low` and `high`. */
  datatype AgeFilter = AgeFilter(op: string, age: Option<int>, low: Option<int>, high: Option<int>)

  /** The parser's result; `confidence` counts tenths (4 means 0.4). */
  datatype ParsedFilters = ParsedFilters(
    rawText: string,
    age: Option<AgeFilter>,
    diagnoses: seq<string>,
    gender: Option<string>,
    confidence: int)

  // ----- Diabetes -----

  /** The terms whose presence makes a query a diabetes query. */
  const DiabetesTerms: seq<string> := [
    "diabetes", "diabetic", "type 1 diabetes", "type i diabetes", "t1dm",
    "type 2 diabetes", "type ii diabetes", "t2dm", "diabetes mellitus"
  ]

  /** Keys of the diagnosis table that count as diabetes keys besides those containing "diabetes". */
  const DiabetesSynonyms: seq<string> := [
    "t1dm", "t2dm", "type 1 diabetes", "type i diabetes", "type 2 diabetes",
    "type ii diabetes", "diabetes mellitus", "diabetic"
  ]

  /** `is_diabetes_query`: some diabetes term is a substring of the text. */
  predicate IsDiabetesQuery(text: string) {
    exists k :: 0 <= k < |DiabetesTerms| && Contains(text, DiabetesTerms[k])
  }

  /** Each diabetes term is one of four short terms or contains "diabetes". */
  lemma DiabetesTermReduces(k: nat)
    requires k < |DiabetesTerms|
    ensures var t := DiabetesTerms[k];
      t == "diabetes" || t == "diabetic" || t == "t1dm" || t == "t2dm" || Contains(t, "diabetes")
  {
    if k == 2 {
      ContainsAt("type 1 diabetes", "diabetes", 7);
    } else if k == 3 {
      ContainsAt("type i diabetes", "diabetes", 7);
    } else if k == 5 {
      ContainsAt("type 2 diabetes", "diabetes", 7);
    } else if k == 6 {
      ContainsAt("type ii diabetes", "diabetes", 8);
    } else if k == 8 {
      ContainsAt("diabetes mellitus", "diabetes", 0);
    }
  }

  /**
   * Four of the nine terms decide the question: every longer term contains
   * "diabetes".
   */
  lemma DiabetesQueryCore(text: string)
    ensures IsDiabetesQuery(text) <==>
      Contains(text, "diabetes") || Contains(text, "diabetic") || Contains(text, "t1dm") || Contains(text, "t2dm")
  {
    if IsDiabetesQuery(text) {
      var k :| 0 <= k < |DiabetesTerms| && Contains(text, DiabetesTerms[k]);
      DiabetesTermReduces(k);
      if Contains(DiabetesTerms[k], "diabetes") {
        ContainsTransitive(text, DiabetesTerms[k], "diabetes");
      }
    }
    assert Contains(text, "diabetes") ==> Contains(text, DiabetesTerms[0]);
    assert Contains(text, "diabetic") ==> Contains(text, DiabetesTerms[1]);
    assert Contains(text, "t1dm") ==> Contains(text, DiabetesTerms[4]);
    assert Contains(text, "t2dm") ==> Contains(text, DiabetesTerms[7]);
  }

  /** The key test of `get_diabetes_codes`. */
  predicate IsDiabetesKey(key: string) {
    Contains(key, "diabetes") || key in DiabetesSynonyms
  }

  /** The union of the code lists of the table entries whose key passes `keep`. */
  function KeyCodes(table: seq<(string, seq<string>)>, keep: string -> bool): set<string> {
    set k, c | 0 <= k < |table| && keep(table[k].0) && c in table[k].1 :: c
  }

  /** Adding one more table entry adds its codes exactly when its key passes. */
  lemma KeyCodesSnoc(table: seq<(string, seq<string>)>, keep: string -> bool, i: nat)
    requires i < |table|
    ensures KeyCodes(table[..i + 1], keep)
      == KeyCodes(table[..i], keep) + (if keep(table[i].0) then Elems(table[i].1) else {})
  {
    var prefix := table[..i + 1];
    assert prefix[..i] == table[..i];
    forall c | c in KeyCodes(prefix, keep)
      ensures c in KeyCodes(table[..i], keep) + (if keep(table[i].0) then Elems(table[i].1) else {})
    {
      var k :| 0 <= k < |prefix| && keep(prefix[k].0) && c in prefix[k].1;
      if k < i {
        assert table[..i][k] == prefix[k];
      }
    }
    forall c | c in KeyCodes(table[..i], keep)
      ensures c in KeyCodes(prefix, keep)
    {
      var k :| 0 <= k < i && keep(table[..i][k].0) && c in table[..i][k].1;
      assert prefix[k] == table[..i][k];
    }
    if keep(table[i].0) {
      forall c | c in table[i].1 ensures c in KeyCodes(prefix, keep) {
        assert prefix[i] == table[i];
      }
    }
  }

  /** The union distributes over concatenation of tables. */
  lemma KeyCodesAppend(a: seq<(string, seq<string>)>, b: seq<(string, seq<string>)>, keep: string -> bool)
    ensures KeyCodes(a + b, keep) == KeyCodes(a, keep) + KeyCodes(b, keep)
  {
    var ab := a + b;
    forall c | c in KeyCodes(ab, keep)
      ensures c in KeyCodes(a, keep) + KeyCodes(b, keep)
    {
      var k :| 0 <= k < |ab| && keep(ab[k].0) && c in ab[k].1;
      if k >= |a| {
        assert ab[k] == b[k - |a|];
      }
    }
    forall c | c in KeyCodes(a, keep) + KeyCodes(b, keep)
      ensures c in KeyCodes(ab, keep)
    {
      if c in KeyCodes(a, keep) {
        var k :| 0 <= k < |a| && keep(a[k].0) && c in a[k].1;
        assert ab[k] == a[k];
      } else {
        var k :| 0 <= k < |b| && keep(b[k].0) && c in b[k].1;
        assert ab[|a| + k] == b[k];
      }
    }
  }

  /** The codes `get_diabetes_codes` collects, before the fallback. */
  function DiabetesKeyCodes(table: seq<(string, seq<string>)>): set<string> {
    KeyCodes(table, IsDiabetesKey)
  }

  /** The set `get_diabetes_codes` sorts: the collected codes, or E10 and E11 when there are none. */
  function DiabetesCodeSet(): (r: set<string>)
    ensures r != {}
    ensures DiabetesKeyCodes(DiagnosisKeywords) != {} ==> r == DiabetesKeyCodes(DiagnosisKeywords)
  {
    var codes := DiabetesKeyCodes(DiagnosisKeywords);
    if codes == {} then {"E10", "E11"} else codes
  }

  /** `get_diabetes_codes`: collects the codes of every diabetes key, falls back to E10/E11, and sorts. */
  method GetDiabetesCodes() returns (codes: seq<string>)
    ensures codes == SortedSet(DiabetesCodeSet())
    ensures codes != [] && StrictlySorted(codes)
  {
    var found: set<string> := {};
    var i := 0;
    while i < |DiagnosisKeywords|
      invariant 0 <= i <= |DiagnosisKeywords|
      invariant found == DiabetesKeyCodes(DiagnosisKeywords[..i])
    {
      var key := DiagnosisKeywords[i].0;
      if Contains(key, "diabetes") || key in DiabetesSynonyms {
        found := found + Elems(DiagnosisKeywords[i].1);
      }
      KeyCodesSnoc(DiagnosisKeywords, IsDiabetesKey, i);
      i := i + 1;
    }
    assert DiagnosisKeywords[..i] == DiagnosisKeywords;
    if found == {} {
      found := found + {"E10", "E11"};
    }
    assert found == DiabetesCodeSet();
    codes := SortStrings(found);
    assert Elems(codes) != {};
  }

  /** A key without one of the characters of "diabetes" does not contain it. */
  lemma NotDiabetesByChar(key: string, c: char)
    requires c in "diabetes" && c !in key
    ensures !Contains(key, "diabetes")
  {
  }

  /** No key outside the diabetes group is a diabetes key, group by group. */
  lemma CardiovascularKeysNotDiabetes()
    ensures forall k :: 0 <= k < |CardiovascularKeywords| ==> !Contains(CardiovascularKeywords[k].0, "diabetes")
    ensures forall k :: 0 <= k < |CardiovascularKeywords| ==> CardiovascularKeywords[k].0 !in DiabetesSynonyms
  {
    CardiovascularKeysNotSynonyms();
    CardiovascularFirstHalf();
    CardiovascularSecondHalf();
  }

  lemma CardiovascularFirstHalf()
    ensures forall k :: 0 <= k < 6 ==> !Contains(CardiovascularKeywords[k].0, "diabetes")
  {
    NotDiabetesByChar("hypertension", 'b');
    NotDiabetesByChar("high blood pressure", 'a');
    NotDiabetesByChar("heart failure", 'b');
    NotDiabetesByChar("congestive heart failure", 'b');
  }

  lemma CardiovascularSecondHalf()
    ensures forall k :: 6 <= k < |CardiovascularKeywords| ==> !Contains(CardiovascularKeywords[k].0, "diabetes")
  {
    NotDiabetesByChar("hyperlipidemia", 'b');
    NotDiabetesByChar("high cholesterol", 'b');
    NotDiabetesByChar("ischemic heart disease", 'b');
    NotDiabetesByChar("coronary artery disease", 'b');
  }

  lemma CardiovascularKeysNotSynonyms()
    ensures forall k :: 0 <= k < |CardiovascularKeywords| ==> CardiovascularKeywords[k].0 !in DiabetesSynonyms
  {
  }

  lemma RespiratoryKeysNotDiabetes()
    ensures forall k :: 0 <= k < |RespiratoryKeywords| ==> !Contains(RespiratoryKeywords[k].0, "diabetes")
    ensures forall k :: 0 <= k < |RespiratoryKeywords| ==> RespiratoryKeywords[k].0 !in DiabetesSynonyms
  {
    ChronicObstructiveNotDiabetes();
  }

  lemma MentalHealthKeysNotDiabetes()
    ensures forall k :: 0 <= k < |MentalHealthKeywords| ==> !Contains(MentalHealthKeywords[k].0, "diabetes")
    ensures forall k :: 0 <= k < |MentalHealthKeywords| ==> MentalHealthKeywords[k].0 !in DiabetesSynonyms
  {
    NotDiabetesByChar("generalized anxiety disorder", 'b');
    NotDiabetesByChar("depression", 'b');
    NotDiabetesByChar("major depressive disorder", 'b');
  }

  lemma MusculoskeletalKeysNotDiabetes()
    ensures forall k :: 0 <= k < |MusculoskeletalKeywords| ==> !Contains(MusculoskeletalKeywords[k].0, "diabetes")
    ensures forall k :: 0 <= k < |MusculoskeletalKeywords| ==> MusculoskeletalKeywords[k].0 !in DiabetesSynonyms
  {
    NotDiabetesByChar("osteoporosis", 'b');
    NotDiabetesByChar("rheumatoid arthritis", 'b');
    NotDiabetesByChar("arthritis", 'b');
  }

  lemma NeurologicalKeysNotDiabetes()
    ensures forall k :: 0 <= k < |NeurologicalKeywords| ==> !Contains(NeurologicalKeywords[k].0, "diabetes")
    ensures forall k :: 0 <= k < |NeurologicalKeywords| ==> NeurologicalKeywords[k].0 !in DiabetesSynonyms
  {
    NotDiabetesByChar("alzheimer", 'b');
    NotDiabetesByChar("alzheimer's disease", 'b');
    NotDiabetesByChar("dementia", 'b');
  }

  lemma RenalKeysNotDiabetes()
    ensures forall k :: 0 <= k < |RenalKeywords| ==> !Contains(RenalKeywords[k].0, "diabetes")
    ensures forall k :: 0 <= k < |RenalKeywords| ==> RenalKeywords[k].0 !in DiabetesSynonyms
  {
    NotDiabetesByChar("kidney disease", 'b');
    NotDiabetesByChar("chronic kidney disease", 'b');
  }

  lemma GastrointestinalKeysNotDiabetes()
    ensures forall k :: 0 <= k < |GastrointestinalKeywords| ==> !Contains(GastrointestinalKeywords[k].0, "diabetes")
    ensures forall k :: 0 <= k < |GastrointestinalKeywords| ==> GastrointestinalKeywords[k].0 !in DiabetesSynonyms
  {
    NotDiabetesByChar("acid reflux", 'b');
    NotDiabetesByChar("gastroesophageal reflux", 'b');
  }

  lemma OncologyKeysNotDiabetes()
    ensures forall k :: 0 <= k < |OncologyKeywords| ==> !Contains(OncologyKeywords[k].0, "diabetes")
    ensures forall k :: 0 <= k < |OncologyKeywords| ==> OncologyKeywords[k].0 !in DiabetesSynonyms
  {
    NotDiabetesByChar("breast cancer", 'd');
  }

  lemma EndocrineKeysNotDiabetes()
    ensures forall k :: 0 <= k < |EndocrineKeywords| ==> !Contains(EndocrineKeywords[k].0, "diabetes")
    ensures forall k :: 0 <= k < |EndocrineKeywords| ==> EndocrineKeywords[k].0 !in DiabetesSynonyms
  {
    NotDiabetesByChar("hypothyroidism", 'b');
  }

  lemma HematologyKeysNotDiabetes()
    ensures forall k :: 0 <= k < |HematologyKeywords| ==> !Contains(HematologyKeywords[k].0, "diabetes")
    ensures forall k :: 0 <= k < |HematologyKeywords| ==> HematologyKeywords[k].0 !in DiabetesSynonyms
  {
    NotDiabetesByChar("iron deficiency", 'b');
  }

  /** The one non-diabetes key holding every letter of "diabetes". */
  lemma ChronicObstructiveNotDiabetes()
    ensures !Contains("chronic obstructive pulmonary disease", "diabetes")
  {
    var key := "chronic obstructive pulmonary disease";
    forall i | 0 <= i <= |key| - 8
      ensures !StartsAt(key, i, "diabetes")
    {
      assert key[i..i + 8][0] == key[i] && key[i..i + 8][1] == key[i + 1];
    }
  }

  /** A table none of whose keys passes contributes no codes. */
  lemma KeyCodesNone(table: seq<(string, seq<string>)>, keep: string -> bool)
    requires forall k :: 0 <= k < |table| ==> !keep(table[k].0)
    ensures KeyCodes(table, keep) == {}
  {
  }

  lemma CardiovascularNoDiabetesCodes()
    ensures KeyCodes(CardiovascularKeywords, IsDiabetesKey) == {}
  {
    CardiovascularKeysNotDiabetes();
    KeyCodesNone(CardiovascularKeywords, IsDiabetesKey);
  }

  lemma RespiratoryNoDiabetesCodes()
    ensures KeyCodes(RespiratoryKeywords, IsDiabetesKey) == {}
  {
    RespiratoryKeysNotDiabetes();
    KeyCodesNone(RespiratoryKeywords, IsDiabetesKey);
  }

  lemma MentalHealthNoDiabetesCodes()
    ensures KeyCodes(MentalHealthKeywords, IsDiabetesKey) == {}
  {
    MentalHealthKeysNotDiabetes();
    KeyCodesNone(MentalHealthKeywords, IsDiabetesKey);
  }

  lemma MusculoskeletalNoDiabetesCodes()
    ensures KeyCodes(MusculoskeletalKeywords, IsDiabetesKey) == {}
  {
    MusculoskeletalKeysNotDiabetes();
    KeyCodesNone(MusculoskeletalKeywords, IsDiabetesKey);
  }

  lemma NeurologicalNoDiabetesCodes()
    ensures KeyCodes(NeurologicalKeywords, IsDiabetesKey) == {}
  {
    NeurologicalKeysNotDiabetes();
    KeyCodesNone(NeurologicalKeywords, IsDiabetesKey);
  }

  lemma RenalNoDiabetesCodes()
    ensures KeyCodes(RenalKeywords, IsDiabetesKey) == {}
  {
    RenalKeysNotDiabetes();
    KeyCodesNone(RenalKeywords, IsDiabetesKey);
  }

  lemma GastrointestinalNoDiabetesCodes()
    ensures KeyCodes(GastrointestinalKeywords, IsDiabetesKey) == {}
  {
    GastrointestinalKeysNotDiabetes();
    KeyCodesNone(GastrointestinalKeywords, IsDiabetesKey);
  }

  lemma OncologyNoDiabetesCodes()
    ensures KeyCodes(OncologyKeywords, IsDiabetesKey) == {}
  {
    OncologyKeysNotDiabetes();
    KeyCodesNone(OncologyKeywords, IsDiabetesKey);
  }

  lemma EndocrineNoDiabetesCodes()
    ensures KeyCodes(EndocrineKeywords, IsDiabetesKey) == {}
  {
    EndocrineKeysNotDiabetes();
    KeyCodesNone(EndocrineKeywords, IsDiabetesKey);
  }

  lemma HematologyNoDiabetesCodes()
    ensures KeyCodes(HematologyKeywords, IsDiabetesKey) == {}
  {
    HematologyKeysNotDiabetes();
    KeyCodesNone(HematologyKeywords, IsDiabetesKey);
  }

  /** The first five groups of the table contribute exactly E10 and E11. */
  lemma DiabetesCodesFirstGroups()
    ensures KeyCodes(DiabetesKeywords + CardiovascularKeywords + RespiratoryKeywords + MentalHealthKeywords + MusculoskeletalKeywords + NeurologicalKeywords, IsDiabetesKey) == {"E10", "E11"}
  {
    DiabetesGroupCodes();
    CardiovascularNoDiabetesCodes();
    KeyCodesAppend(DiabetesKeywords, CardiovascularKeywords, IsDiabetesKey);
    RespiratoryNoDiabetesCodes();
    KeyCodesAppend(DiabetesKeywords + CardiovascularKeywords, RespiratoryKeywords, IsDiabetesKey);
    MentalHealthNoDiabetesCodes();
    KeyCodesAppend(DiabetesKeywords + CardiovascularKeywords + RespiratoryKeywords, MentalHealthKeywords, IsDiabetesKey);
    MusculoskeletalNoDiabetesCodes();
    KeyCodesAppend(DiabetesKeywords + CardiovascularKeywords + RespiratoryKeywords + MentalHealthKeywords, MusculoskeletalKeywords, IsDiabetesKey);
    NeurologicalNoDiabetesCodes();
    KeyCodesAppend(DiabetesKeywords + CardiovascularKeywords + RespiratoryKeywords + MentalHealthKeywords + MusculoskeletalKeywords, NeurologicalKeywords, IsDiabetesKey);
  }

  /** `get_diabetes_codes()` is exactly ["E10", "E11"]. */
  lemma DiabetesCodesValue()
    ensures DiabetesCodeSet() == {"E10", "E11"}
    ensures SortedSet(DiabetesCodeSet()) == ["E10", "E11"]
  {
    DiabetesCodesFirstGroups();
    RenalNoDiabetesCodes();
    KeyCodesAppend(DiabetesKeywords + CardiovascularKeywords + RespiratoryKeywords + MentalHealthKeywords + MusculoskeletalKeywords + NeurologicalKeywords, RenalKeywords, IsDiabetesKey);
    GastrointestinalNoDiabetesCodes();
    KeyCodesAppend(DiabetesKeywords + CardiovascularKeywords + RespiratoryKeywords + MentalHealthKeywords + MusculoskeletalKeywords + NeurologicalKeywords + RenalKeywords, GastrointestinalKeywords, IsDiabetesKey);
    OncologyNoDiabetesCodes();
    KeyCodesAppend(DiabetesKeywords + CardiovascularKeywords + RespiratoryKeywords + MentalHealthKeywords + MusculoskeletalKeywords + NeurologicalKeywords + RenalKeywords + GastrointestinalKeywords, OncologyKeywords, IsDiabetesKey);
    EndocrineNoDiabetesCodes();
    KeyCodesAppend(DiabetesKeywords + CardiovascularKeywords + RespiratoryKeywords + MentalHealthKeywords + MusculoskeletalKeywords + NeurologicalKeywords + RenalKeywords + GastrointestinalKeywords + OncologyKeywords, EndocrineKeywords, IsDiabetesKey);
    HematologyNoDiabetesCodes();
    KeyCodesAppend(DiabetesKeywords + CardiovascularKeywords + RespiratoryKeywords + MentalHealthKeywords + MusculoskeletalKeywords + NeurologicalKeywords + RenalKeywords + GastrointestinalKeywords + OncologyKeywords + EndocrineKeywords, HematologyKeywords, IsDiabetesKey);
    assert DiabetesKeyCodes(DiagnosisKeywords) == {"E10", "E11"};
    assert StrLt("E10", "E11");
    SortedUnique(SortedSet({"E10", "E11"}), ["E10", "E11"]);
  }

  /** The diabetes group itself contributes E10 and E11. */
  lemma DiabetesGroupCodes()
    ensures KeyCodes(DiabetesKeywords, IsDiabetesKey) == {"E10", "E11"}
  {
    assert 0 < |DiabetesKeywords| && IsDiabetesKey(DiabetesKeywords[0].0) && "E11" in DiabetesKeywords[0].1;
    assert 3 < |DiabetesKeywords| && IsDiabetesKey(DiabetesKeywords[3].0) && "E10" in DiabetesKeywords[3].1;
    assert forall k :: 0 <= k < |DiabetesKeywords| ==> Elems(DiabetesKeywords[k].1) <= {"E10", "E11"};
  }

  // ----- Diagnoses -----

  /** The union of the codes of every diagnosis key that is a substring of the text. */
  function MatchedCodes(text: string, table: seq<(string, seq<string>)>): set<string> {
    KeyCodes(table, InText(text))
  }

  /** The key test of the diagnosis loop: the key is a substring of the text. */
  function InText(text: string): string -> bool {
    (key: string) => Contains(text, key)
  }

  /** The set of codes the parser sorts. */
  function DiagnosisSet(text: string): set<string> {
    if IsDiabetesQuery(text) then DiabetesCodeSet() else MatchedCodes(text, DiagnosisKeywords)
  }

  // ----- Gender -----

  /** The value of the first gender keyword, from entry `i` on, that is a whole word of the text. */
  function GenderFrom(text: string, i: nat): Option<string>
    decreases |GenderKeywords| - i
  {
    if i >= |GenderKeywords| then None
    else if ContainsWord(text, GenderKeywords[i].0) then Some(GenderKeywords[i].1)
    else GenderFrom(text, i + 1)
  }

  /** `GenderFrom` returns the value of the first keyword that occurs, and none only when none occurs. */
  lemma {:induction false} GenderFromFirst(text: string, i: nat)
    requires i <= |GenderKeywords|
    ensures GenderFrom(text, i).None? <==>
      forall k :: i <= k < |GenderKeywords| ==> !ContainsWord(text, GenderKeywords[k].0)
    ensures GenderFrom(text, i).Some? ==>
      exists k :: i <= k < |GenderKeywords| && ContainsWord(text, GenderKeywords[k].0)
        && GenderFrom(text, i).value == GenderKeywords[k].1
        && forall j :: i <= j < k ==> !ContainsWord(text, GenderKeywords[j].0)
    decreases |GenderKeywords| - i
  {
    if i < |GenderKeywords| {
      var w := GenderKeywords[i];
      if ContainsWord(text, w.0) {
        assert GenderFrom(text, i) == Some(w.1);
      } else {
        assert GenderFrom(text, i) == GenderFrom(text, i + 1);
        GenderFromFirst(text, i + 1);
        if GenderFrom(text, i).Some? {
          var k :| i + 1 <= k < |GenderKeywords| && ContainsWord(text, GenderKeywords[k].0)
            && GenderFrom(text, i + 1).value == GenderKeywords[k].1
            && forall j :: i + 1 <= j < k ==> !ContainsWord(text, GenderKeywords[j].0);
          assert forall j :: i <= j < k ==> !ContainsWord(text, GenderKeywords[j].0);
        }
      }
    }
  }

  // ----- Age -----

  /** The predicate of the first age phrase, from entry `i` of the table on, that is followed by a number. */
  function PhraseFrom(text: string, i: nat): (r: Option<AgeFilter>)
    ensures r.Some? ==> exists k :: i <= k < |AgeOperators| && r.value.op == AgeOperators[k].1
    ensures r.Some? ==> r.value.age.Some? && 0 <= r.value.age.value < 1000 && r.value.low.None? && r.value.high.None?
    decreases |AgeOperators| - i
  {
    if i >= |AgeOperators| then None
    else
      match SearchPhrase(text, AgeOperators[i].0)
      case Some(n) =>
        Some(AgeFilter(AgeOperators[i].1, Some(n), None, None))
      case None => PhraseFrom(text, i + 1)
  }

  /** The two fallback patterns, tried in this order. */
  datatype AgePattern = NPlus | AgedN

  const AgePatterns: seq<AgePattern> := [NPlus, AgedN]

  function SearchPattern(text: string, p: AgePattern): Option<nat> {
    match p
    case NPlus => SearchPlus(text)
    case AgedN => SearchAged(text)
  }

  /** The ">=" predicate of the first fallback pattern, from entry `i` on, that matches. */
  function PatternFrom(text: string, i: nat): (r: Option<AgeFilter>)
    ensures r.Some? ==> r.value.op == ">=" && r.value.age.Some? && 0 <= r.value.age.value < 1000
    ensures r.Some? ==> r.value.low.None? && r.value.high.None?
    decreases |AgePatterns| - i
  {
    if i >= |AgePatterns| then None
    else
      match SearchPattern(text, AgePatterns[i])
      case Some(n) => Some(AgeFilter(">=", Some(n), None, None))
      case None => PatternFrom(text, i + 1)
  }

  /** The age predicate: a between match, else an age phrase, else a fallback pattern. */
  function AgeSpec(text: string): Option<AgeFilter> {
    match SearchBetween(text)
    case Some((x, y)) => Some(AgeFilter("between", None, Some(Min(x, y)), Some(Max(x, y))))
    case None =>
      var phrase := PhraseFrom(text, 0);
      if phrase.Some? then phrase else PatternFrom(text, 0)
  }

  // ----- Confidence and the whole parser -----

  /** `min(1.0, 0.4 + 0.2 * found)` in tenths. */
  function Confidence(found: nat): int {
    Min(10, 4 + 2 * found)
  }

  function Found(age: Option<AgeFilter>, diagnoses: seq<string>, gender: Option<string>): nat {
    (if age.Some? then 1 else 0) + (if diagnoses != [] then 1 else 0) + (if gender.Some? then 1 else 0)
  }

  /** What `parse_query` returns. */
  ghost function ParseSpec(query: string): ParsedFilters {
    var text := Lower(query);
    var age := AgeSpec(text);
    var diagnoses := SortedSet(DiagnosisSet(text));
    var gender := GenderFrom(text, 0);
    ParsedFilters(query, age, diagnoses, gender, Confidence(Found(age, diagnoses, gender)))
  }

  /** Gender detection of `parse_query`: the first keyword that occurs as a whole word. */
  method DetectGender(text: string) returns (gender: Option<string>)
    ensures gender == GenderFrom(text, 0)
  {
    gender := None;
    var i := 0;
    while i < |GenderKeywords|
      invariant 0 <= i <= |GenderKeywords|
      invariant gender.None? && GenderFrom(text, 0) == GenderFrom(text, i)
    {
      if ContainsWord(text, GenderKeywords[i].0) {
        gender := Some(GenderKeywords[i].1);
        break;
      }
      i := i + 1;
    }
  }

  /** Diagnosis detection of `parse_query`: the diabetes codes alone, or the codes of every matching key, sorted. */
  method DetectDiagnoses(text: string) returns (diagnoses: seq<string>)
    ensures diagnoses == SortedSet(DiagnosisSet(text))
  {
    var diagnosed: set<string> := {};
    if IsDiabetesQuery(text) {
      var codes := GetDiabetesCodes();
      diagnosed := diagnosed + Elems(codes);
      assert diagnosed == DiabetesCodeSet();
    } else {
      var j := 0;
      while j < |DiagnosisKeywords|
        invariant 0 <= j <= |DiagnosisKeywords|
        invariant diagnosed == MatchedCodes(text, DiagnosisKeywords[..j])
      {
        if Contains(text, DiagnosisKeywords[j].0) {
          diagnosed := diagnosed + Elems(DiagnosisKeywords[j].1);
        }
        KeyCodesSnoc(DiagnosisKeywords, InText(text), j);
        j := j + 1;
      }
      assert DiagnosisKeywords[..j] == DiagnosisKeywords;
    }
    diagnoses := SortStrings(diagnosed);
  }

  /** Age detection of `parse_query`: between, else the phrases in table order, else the two patterns. */
  method DetectAge(text: string) returns (age: Option<AgeFilter>)
    ensures age == AgeSpec(text)
  {
    age := None;
    var between := SearchBetween(text);
    if between.Some? {
      var (low, high) := between.value;
      age := Some(AgeFilter("between", None, Some(Min(low, high)), Some(Max(low, high))));
    } else {
      var k := 0;
      while k < |AgeOperators|
        invariant 0 <= k <= |AgeOperators|
        invariant age.None? && PhraseFrom(text, 0) == PhraseFrom(text, k)
      {
        var m := SearchPhrase(text, AgeOperators[k].0);
        if m.Some? {
          age := Some(AgeFilter(AgeOperators[k].1, Some(m.value), None, None));
          break;
        }
        k := k + 1;
      }
      if age.None? {
        var p := 0;
        while p < |AgePatterns|
          invariant 0 <= p <= |AgePatterns|
          invariant age.None? && PatternFrom(text, 0) == PatternFrom(text, p)
        {
          var m := SearchPattern(text, AgePatterns[p]);
          if m.Some? {
            age := Some(AgeFilter(">=", Some(m.value), None, None));
            break;
          }
          p := p + 1;
        }
      }
    }
  }

  /** `parse_query`. */
  method ParseQuery(query: string) returns (r: ParsedFilters)
    ensures r == ParseSpec(query)
  {
    var text := Lower(query);
    var gender := DetectGender(text);
    var diagnoses := DetectDiagnoses(text);
    var age := DetectAge(text);
    var found := Found(age, diagnoses, gender);
    r := ParsedFilters(query, age, diagnoses, gender, Confidence(found));
  }

  // ----- Properties of the parser -----

  /**
   * Gender: "male" exactly when one of the four male keywords occurs as a
   * whole word, "female" when none of those does but a female keyword does,
   * and nothing otherwise. So a text with both kinds parses as "male".
   */
  lemma ParsedGender(query: string)
    ensures var r := ParseSpec(query); var text := Lower(query);
      && (r.gender == Some("male") <==> exists k :: 0 <= k < 4 && ContainsWord(text, GenderKeywords[k].0))
      && (r.gender == Some("female") <==>
            (forall k :: 0 <= k < 4 ==> !ContainsWord(text, GenderKeywords[k].0))
            && exists k :: 4 <= k < 8 && ContainsWord(text, GenderKeywords[k].0))
      && (r.gender.None? <==> forall k :: 0 <= k < |GenderKeywords| ==> !ContainsWord(text, GenderKeywords[k].0))
  {
    var text := Lower(query);
    GenderKeywordsShape();
    GenderFromFirst(text, 0);
    var g := GenderFrom(text, 0);
    if g.Some? {
      var k :| 0 <= k < |GenderKeywords| && ContainsWord(text, GenderKeywords[k].0)
        && g.value == GenderKeywords[k].1
        && forall j :: 0 <= j < k ==> !ContainsWord(text, GenderKeywords[j].0);
      if k < 4 {
        assert g == Some("male");
        assert g != Some("female");
      } else {
        assert g == Some("female");
        assert forall j :: 0 <= j < 4 ==> !ContainsWord(text, GenderKeywords[j].0);
      }
    }
  }

  /** Membership in a sorted set is membership in the set. */
  lemma InSortedSet(s: set<string>, c: string)
    ensures c in SortedSet(s) <==> c in s
  {
    assert c in SortedSet(s) <==> c in Elems(SortedSet(s));
  }

  /**
   * Diagnoses: strictly ascending; exactly ["E10", "E11"] for a diabetes
   * query whatever else it mentions; otherwise every code of every key that
   * is a plain substring of the text, and nothing else.
   */
  lemma ParsedDiagnoses(query: string)
    ensures var r := ParseSpec(query); var text := Lower(query);
      && StrictlySorted(r.diagnoses)
      && (IsDiabetesQuery(text) ==> r.diagnoses == ["E10", "E11"])
      && (!IsDiabetesQuery(text) ==> forall c :: c in r.diagnoses <==>
            exists k :: 0 <= k < |DiagnosisKeywords| && Contains(text, DiagnosisKeywords[k].0) && c in DiagnosisKeywords[k].1)
  {
    var text := Lower(query);
    DiabetesCodesValue();
    if !IsDiabetesQuery(text) {
      forall c ensures c in ParseSpec(query).diagnoses <==> c in MatchedCodes(text, DiagnosisKeywords) {
        InSortedSet(MatchedCodes(text, DiagnosisKeywords), c);
      }
    }
  }

  /** The phrase table is scanned in order: the first phrase followed by a number decides. */
  lemma PhraseFromFirst(text: string, i: nat)
    requires i <= |AgeOperators|
    ensures PhraseFrom(text, i).None? <==>
      forall k :: i <= k < |AgeOperators| ==> SearchPhrase(text, AgeOperators[k].0).None?
    ensures forall k ::
      (i <= k < |AgeOperators| && SearchPhrase(text, AgeOperators[k].0).Some?
        && (forall j :: i <= j < k ==> SearchPhrase(text, AgeOperators[j].0).None?))
      ==> PhraseFrom(text, i) == Some(AgeFilter(AgeOperators[k].1, SearchPhrase(text, AgeOperators[k].0), None, None))
  {
    PhraseFromNone(text, i);
    forall k | i <= k < |AgeOperators| && SearchPhrase(text, AgeOperators[k].0).Some?
        && (forall j :: i <= j < k ==> SearchPhrase(text, AgeOperators[j].0).None?)
      ensures PhraseFrom(text, i) == Some(AgeFilter(AgeOperators[k].1, SearchPhrase(text, AgeOperators[k].0), None, None))
    {
      PhraseFromFound(text, i, k);
    }
  }

  /** `PhraseFrom` finds nothing exactly when no phrase from entry `i` on is followed by a number. */
  lemma {:induction false} PhraseFromNone(text: string, i: nat)
    requires i <= |AgeOperators|
    ensures PhraseFrom(text, i).None? <==>
      forall k :: i <= k < |AgeOperators| ==> SearchPhrase(text, AgeOperators[k].0).None?
    decreases |AgeOperators| - i
  {
    if i < |AgeOperators| && SearchPhrase(text, AgeOperators[i].0).None? {
      PhraseFromNone(text, i + 1);
    }
  }

  /** The first entry from `i` on whose phrase is followed by a number gives the predicate. */
  lemma {:induction false} PhraseFromFound(text: string, i: nat, k: nat)
    requires i <= k < |AgeOperators| && SearchPhrase(text, AgeOperators[k].0).Some?
    requires forall j :: i <= j < k ==> SearchPhrase(text, AgeOperators[j].0).None?
    ensures PhraseFrom(text, i) == Some(AgeFilter(AgeOperators[k].1, SearchPhrase(text, AgeOperators[k].0), None, None))
    decreases k - i
  {
    if i < k {
      assert SearchPhrase(text, AgeOperators[i].0).None?;
      PhraseFromFound(text, i + 1, k);
    }
  }

  /** With no between match, the first age phrase in table order that is followed by a number gives (op, N). */
  lemma ParsedAgePhrase(query: string, k: nat)
    requires var text := Lower(query);
      && SearchBetween(text).None?
      && k < |AgeOperators| && SearchPhrase(text, AgeOperators[k].0).Some?
      && forall j :: 0 <= j < k ==> SearchPhrase(text, AgeOperators[j].0).None?
    ensures var text := Lower(query);
      ParseSpec(query).age == Some(AgeFilter(AgeOperators[k].1, SearchPhrase(text, AgeOperators[k].0), None, None))
  {
    PhraseFromFirst(Lower(query), 0);
  }

  /** "over" is the first phrase: with no between match, "over N" anywhere gives ">" even if "under M" is present. */
  lemma OverBeatsUnder(query: string)
    requires SearchBetween(Lower(query)).None? && SearchPhrase(Lower(query), "over").Some?
    ensures ParseSpec(query).age.Some? && ParseSpec(query).age.value.op == ">"
  {
    AgeOperatorsShape();
    ParsedAgePhrase(query, 0);
  }

  /** The leftmost between match wins over everything else, normalised so that low <= high. */
  lemma ParsedAgeBetween(query: string, i: nat, x: nat, y: nat)
    requires var text := Lower(query);
      i <= |text| && BetweenAt(text, i) == Some((x, y))
      && forall k :: 0 <= k < i ==> BetweenAt(text, k).None?
    ensures ParseSpec(query).age == Some(AgeFilter("between", None, Some(Min(x, y)), Some(Max(x, y))))
    ensures Min(x, y) <= Max(x, y) && {x, y} == {Min(x, y), Max(x, y)}
  {
    var text := Lower(query);
    SearchFinds((j: nat) => BetweenAt(text, j), 0, i, |text|);
  }

  /**
   * With no between match and no phrase match, `N+` is tried before
   * `age(d) N`, and both give ">="; with neither there is no age predicate.
   */
  lemma ParsedAgeFallback(query: string)
    requires var text := Lower(query);
      SearchBetween(text).None? && forall k :: 0 <= k < |AgeOperators| ==> SearchPhrase(text, AgeOperators[k].0).None?
    ensures var text := Lower(query); var age := ParseSpec(query).age;
      && (SearchPlus(text).Some? ==> age == Some(AgeFilter(">=", SearchPlus(text), None, None)))
      && (SearchPlus(text).None? && SearchAged(text).Some? ==> age == Some(AgeFilter(">=", SearchAged(text), None, None)))
      && (SearchPlus(text).None? && SearchAged(text).None? ==> age.None?)
  {
    PhraseFromFirst(Lower(query), 0);
  }

  /**
   * Every parsed age predicate has one of two shapes: "between" with
   * 0 <= low <= high < 1000, or one of the four comparisons with an age
   * below 1000. So the ">=" fallback of the translation is never needed.
   */
  lemma ParsedAgeShape(query: string)
    ensures var age := ParseSpec(query).age;
      age.Some? ==>
        || (age.value.op == "between" && age.value.age.None? && age.value.low.Some? && age.value.high.Some?
            && 0 <= age.value.low.value <= age.value.high.value < 1000)
        || (IsComparison(age.value.op) && age.value.age.Some? && 0 <= age.value.age.value < 1000
            && age.value.low.None? && age.value.high.None?)
  {
    AgeSpecShape(Lower(query));
  }

  lemma AgeSpecShape(text: string)
    ensures var age := AgeSpec(text);
      age.Some? ==>
        || (age.value.op == "between" && age.value.age.None? && age.value.low.Some? && age.value.high.Some?
            && 0 <= age.value.low.value <= age.value.high.value < 1000)
        || (IsComparison(age.value.op) && age.value.age.Some? && 0 <= age.value.age.value < 1000
            && age.value.low.None? && age.value.high.None?)
  {
    if SearchBetween(text).None? {
      var phrase := PhraseFrom(text, 0);
      if phrase.Some? {
        AgeOperatorsShape();
        var k :| 0 <= k < |AgeOperators| && phrase.value.op == AgeOperators[k].1;
        assert IsComparison(phrase.value.op);
      }
    }
  }

  /**
   * Confidence is 0.4 plus 0.2 for each of age, diagnoses and gender that
   * was found: always one of 0.4, 0.6, 0.8, 1.0, the top value exactly when
   * all three were found, the bottom exactly when none was. The raw text is
   * the query unchanged.
   */
  lemma ParsedConfidence(query: string)
    ensures var r := ParseSpec(query);
      && r.rawText == query
      && r.confidence in {4, 6, 8, 10}
      && r.confidence == 4 + 2 * ((if r.age.Some? then 1 else 0) + (if r.diagnoses != [] then 1 else 0)
                                  + (if r.gender.Some? then 1 else 0))
      && (r.confidence == 10 <==> r.age.Some? && r.diagnoses != [] && r.gender.Some?)
      && (r.confidence == 4 <==> r.age.None? && r.diagnoses == [] && r.gender.None?)
  {
  }

  /** An empty query finds nothing: no age, no diagnoses, no gender, confidence 0.4. */
  lemma EmptyQuery()
    ensures ParseSpec("") == ParsedFilters("", None, [], None, 4)
  {
    var text := Lower("");
    assert text == "";
    GenderFromFirst(text, 0);
    assert forall k :: 0 <= k < |GenderKeywords| ==> |GenderKeywords[k].0| > 0;
    assert GenderFrom(text, 0).None?;
    assert !IsDiabetesQuery(text) by {
      assert forall k :: 0 <= k < |DiabetesTerms| ==> |DiabetesTerms[k]| > 0;
    }
    EmptyTextMatchesNoKey();
    assert SortedSet({}) == [];
    EmptyTextNoAge();
  }

  /** No age pattern matches the empty text. */
  lemma EmptyTextNoAge()
    ensures AgeSpec("") == None
  {
    PhraseFromFirst("", 0);
    assert forall k :: 0 <= k < |AgeOperators| ==> SearchPhrase("", AgeOperators[k].0).None? by {
      assert forall k :: 0 <= k < |AgeOperators| ==> |AgeOperators[k].0| > 0;
    }
  }

  /** No diagnosis key is a substring of the empty text. */
  lemma EmptyTextMatchesNoKey()
    ensures MatchedCodes("", DiagnosisKeywords) == {}
  {
    assert forall k :: 0 <= k < |DiagnosisKeywords| ==> |DiagnosisKeywords[k].0| > 0;
    KeyCodesNone(DiagnosisKeywords, InText(""));
  }

  /** The between pattern matches "between 70 and 40" at its start. */
  lemma BetweenMatchAtStart()
    ensures BetweenAt("between 70 and 40", 0) == Some((70, 40))
  {
    var s := "between 70 and 40";
    BetweenFirstNumber();
    BetweenConnector();
    BetweenSecondNumber();
    assert StartsAt(s, 0, "between");
  }

  lemma BetweenConnector()
    ensures StartsAt("between 70 and 40", 0, "between") && Connector("between 70 and 40", 11) == Some(14)
  {
    var s := "between 70 and 40";
    assert s[0..7] == "between";
    assert s[11..14] == "and";
  }

  lemma BetweenFirstNumber()
    ensures var s := "between 70 and 40";
      SpaceRun(s, 7) == 1 && DigitRun(s, 8) == 2 && SpaceRun(s, 10) == 1 && Number(s, 8, 2) == 70
  {
    var s := "between 70 and 40";
    assert SpaceRun(s, 8) == 0;
    assert DigitRun(s, 10) == 0 && DigitRun(s, 9) == 1;
    assert SpaceRun(s, 11) == 0;
  }

  lemma BetweenSecondNumber()
    ensures SpacedNumber("between 70 and 40", 14) == Some(40)
  {
    var s := "between 70 and 40";
    assert SpaceRun(s, 15) == 0 && SpaceRun(s, 14) == 1;
    assert DigitRun(s, 17) == 0 && DigitRun(s, 16) == 1 && DigitRun(s, 15) == 2;
  }

  /** "between 70 and 40" is normalised to 40..70. */
  lemma BetweenNormalised()
    ensures AgeSpec("between 70 and 40") == Some(AgeFilter("between", None, Some(40), Some(70)))
  {
    BetweenMatchAtStart();
  }

  /** "over 1234": the three-digit group has no trailing boundary, so it captures 123. */
  lemma OverCapturesThreeDigits()
    ensures AgeSpec("over 1234") == Some(AgeFilter(">", Some(123), None, None))
  {
    NoBetweenInOver();
    OverPhraseCaptures();
    AgeOperatorsShape();
    assert PhraseFrom("over 1234", 0) == Some(AgeFilter(">", Some(123), None, None));
  }

  lemma NoBetweenInOver()
    ensures SearchBetween("over 1234").None?
  {
    var s := "over 1234";
    forall i: nat | i <= |s| ensures BetweenAt(s, i).None? {
      assert i + 7 <= |s| ==> s[i..i + 7][0] == s[i];
      assert 'b' !in s;
    }
    SearchLeftmost((i: nat) => BetweenAt(s, i), 0, |s|);
  }

  lemma OverPhraseCaptures()
    ensures SearchPhrase("over 1234", "over") == Some(123)
  {
    var s := "over 1234";
    assert SpaceRun(s, 5) == 0 && SpaceRun(s, 4) == 1;
    assert DigitRun(s, 9) == 0 && DigitRun(s, 8) == 1 && DigitRun(s, 7) == 2;
    assert DigitRun(s, 6) == 3 && DigitRun(s, 5) == 4;
    assert PhraseAt(s, 0, "over") == Some(123);
    SearchFinds((i: nat) => PhraseAt(s, i, "over"), 0, 0, |s|);
  }
}
