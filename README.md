# ai-on-fhir backend: the rule-based query pipeline in Dafny

This project models the part of the ai-on-fhir backend that turns a
clinician's free-text question into patient filters and answers it over a
fixed sample cohort. The modelled code is `backend/main.py` together with
the constant tables of `backend/data.py`. It covers:

- the calendar age of a patient on a reference date (`calculate_age`);
- the query parser (`parse_query`, `is_diabetes_query`,
  `get_diabetes_codes`). It finds at most one gender by whole-word
  keyword. It finds a sorted set of diagnosis codes, and a diabetes term
  overrides every other keyword. It finds an age predicate by a strict
  precedence: between, then the phrases in table order, then `N+`, then
  `age(d) N`. It also scores the parse's confidence;
- the small age-filter language and the filter engine
  (`_apply_age_filter`, `_validate_system_date_against_data`,
  `filter_patients`). The gender, diagnosis and age filters each keep an
  order-preserving subsequence. A date-sanity guard switches the age
  filter off;
- the logic inside the endpoints:
  - the translation of a parsed age predicate back into the filter
    language, and the query answer (`/query`);
  - suggestion filtering (`/suggestions`);
  - age buckets, gender counts and the condition ranking (`/analytics/chart-data`);
  - table rows and pagination (`/patients/search`);
  - the dropdown options (`/filters/options`).

Modules, one per concern:

- `Wrappers`: `Option` and `Result`.
- `Text`: ASCII `lower`, `capitalize`, `strip`, `isdigit`, substring search and digit strings.
- `Ordering`: Python's code-point string order and `sorted` of a set of strings.
- `Seqs`: order-preserving filters, slicing and a stable sort by key.
- `PyDict`: a Python dict as its items in insertion order.
- `Dates`: `%Y-%m-%d` parsing and the age computation.
- `Data`: the tables of `data.py`.
- `Scan`: dedicated scanners for the fixed regular expressions of the parser, and `re.search` as the leftmost match.
- `QueryParser`: `parse_query`.
- `FilterEngine`: the age-filter language and `filter_patients`.
- `Endpoints`: `/query` and `/suggestions`.
- `Search`: `/patients/search`.
- `Charts`: `/analytics/chart-data`.
- `Options`: `/filters/options`.

Where the source works step by step, the model is a method with loop
invariants, proved equal to a specification function. This applies to the
parser's detection loops, `get_diabetes_codes`, the date guard, the chart
counters, the table-row loop and the dropdown loop. The rest is functions
and lemmas. The reference date `today` is a parameter everywhere the
source reads the clock. The confidence score is an integer count of
tenths: 4 stands for 0.4 and 10 for 1.0.

The code is followed where it differs from what its comments suggest:

- A bare one-to-three-digit age filter such as `"60"` matches the
  operator pattern, so it means `>= 60`. The exact-age branch is reached
  only by digit strings of four or more characters.
- The `\d{1,3}` groups of the parser have no trailing boundary, so
  `"over 1234"` captures 123.
- `get_diabetes_codes` gives both E10 and E11 for every diabetes query,
  including "type 1 diabetes".
- An age filter whose range has a non-numeric right side, such as `"30-"`
  or `"30-abc"`, makes `int()` raise. The model returns an error result
  for it instead of forbidding the input, because the filter strings of
  `/analytics/chart-data` and `/patients/search` come straight from the
  caller.

## Model

| member | source | states |
|---|---|---|
| Dates.ParseIsoDate | backend/main.py:155 | whatever `strptime(…, "%Y-%m-%d")` accepts is a calendar-valid date (leap years included) |
| Dates.IsoRoundTrip | backend/main.py:155 | a valid date written as zero-padded `YYYY-MM-DD` is read back by `strptime` as that same year, month and day |
| Dates.AgeIsCompletedYears | backend/main.py:151-162 | the computed age is the one number `a` such that the reference date is on or after the `a`-th birthday and before the `a+1`-th |
| Dates.AgeNonNegative | backend/main.py:151-162 | a birth date on or before the reference date gives an age of at least 0 |
| Dates.AgeMonotone | backend/main.py:151-162 | a later reference date never gives a smaller age |
| Data.GenderKeywordsShape | backend/data.py:229-238 | eight keywords: the first four map to "male", the last four to "female" |
| Data.AgeOperatorsShape | backend/data.py:242-252 | every phrase maps to one of `>`, `>=`, `<`, `<=`; "over" (`>`) is first and "under" (`<`) comes later |
| Data.DiagnosisKeywordsNonEmpty | backend/data.py:164-225 | 49 keys, each mapping to a non-empty code list |
| Data.SampleIdsDistinct | backend/data.py:7-160 | 15 sample records with pairwise distinct ids |
| Data.SamplePatientsWellFormed | backend/data.py:7-160 | every sample record has gender male or female, a valid birth date, a non-empty given-name list and at least one condition |
| Data.SampleBirthDates | backend/data.py:7-160 | every sample birth date parses and is no later than 1992-08-30, which is one record's birth date |
| Data.QuerySuggestionsCount | backend/data.py:256-270 | there are 13 suggestions |
| QueryParser.DiabetesQueryCore | backend/main.py:165-178 | a text is a diabetes query exactly when it contains "diabetes", "diabetic", "t1dm" or "t2dm", since every longer term contains "diabetes" |
| QueryParser.DiabetesTermReduces | backend/main.py:167-177 | each of the nine terms is one of four short terms or contains "diabetes" |
| QueryParser.DiabetesCodeSet | backend/main.py:181-199 | the collected set is never empty; when some key qualifies it is exactly the union of the qualifying keys' codes |
| QueryParser.GetDiabetesCodes | backend/main.py:181-199 | the loop over the table yields the sorted, duplicate-free, non-empty list of the collected set |
| QueryParser.KeyCodesAppend | backend/main.py:184-195 | the collected codes of a concatenated table are the union of the two parts' codes |
| QueryParser.DiabetesCodesValue | backend/main.py:181-199 | over the real table the result is exactly ["E10", "E11"] |
| QueryParser.DiabetesGroupCodes | backend/data.py:165-174 | the diabetes group of the table contributes exactly E10 and E11 |
| QueryParser.CardiovascularNoDiabetesCodes | backend/data.py:175-225 | no key of the cardiovascular group passes the diabetes-key test; the same holds for the respiratory, mental-health, musculoskeletal, neurological, renal, gastrointestinal, oncology, endocrine and hematology groups (the `…NoDiabetesCodes` lemmas) |
| QueryParser.DetectGender | backend/main.py:213-217 | the loop with `break` returns the value of the first keyword in table order that occurs as a whole word |
| QueryParser.GenderFromFirst | backend/main.py:213-217 | no gender exactly when no keyword occurs; otherwise the value of some occurring keyword none of whose predecessors occurs |
| QueryParser.ParsedGender | backend/main.py:213-217 | "male" exactly when a male keyword occurs as a whole word, "female" exactly when none does but a female one does, and nothing otherwise |
| QueryParser.DetectDiagnoses | backend/main.py:219-230 | the loop yields the sorted list of the diabetes codes for a diabetes query, or else of the codes of every key that is a substring |
| QueryParser.ParsedDiagnoses | backend/main.py:219-230 | the diagnoses are strictly ascending; they are ["E10", "E11"] for any diabetes query; otherwise a code is present exactly when some key containing it is a substring of the text |
| QueryParser.DetectAge | backend/main.py:232-252 | the between, phrase and fallback loops with `break` compute the precedence-ordered age predicate |
| QueryParser.ParsedAgeBetween | backend/main.py:233-236 | the leftmost between match wins over everything else, normalised to low = min and high = max |
| QueryParser.BetweenNormalised | backend/main.py:233-236 | "between 70 and 40" parses as between 40 and 70 |
| QueryParser.PhraseFromFirst | backend/main.py:238-244 | the phrases are tried in table order: none matches exactly when no phrase is followed by a number, and the first one that is gives its operator and number |
| QueryParser.ParsedAgePhrase | backend/main.py:238-244 | with no between match, the first phrase in table order followed by a number gives (op, N) |
| QueryParser.OverBeatsUnder | backend/main.py:238-244 | with no between match, "over N" anywhere gives `>` even when an "under" phrase is present too |
| QueryParser.OverCapturesThreeDigits | backend/main.py:240 | "over 1234" parses as `> 123`: the digit group stops after three digits |
| QueryParser.ParsedAgeFallback | backend/main.py:246-252 | with no between and no phrase match, `N+` is tried before `age(d) N`; both give `>=`, and with neither there is no age |
| QueryParser.ParsedAgeShape | backend/main.py:232-252 | a parsed age is either "between" with 0 <= low <= high < 1000 or one of the four comparisons with an age below 1000 |
| QueryParser.ParseQuery | backend/main.py:202-261 | the imperative parser equals the specification of the parse |
| QueryParser.ParsedConfidence | backend/main.py:254-258 | the raw text is the query unchanged; confidence is one of 0.4, 0.6, 0.8, 1.0, with 0.4 plus 0.2 per part found (the cap at 1.0 never cuts in), the top value exactly when all three parts were found and the bottom exactly when none was |
| QueryParser.EmptyQuery | backend/main.py:202-261 | the empty text parses to no age, no diagnoses, no gender and confidence 0.4 |
| Scan.ContainsWordContains | backend/main.py:215 | a whole-word occurrence is also a substring occurrence |
| Scan.SearchLeftmost | backend/main.py:233 | a search finds a match exactly when one exists, and what it finds is the leftmost match |
| Scan.BetweenAt | backend/main.py:233 | a between match starts with "between" and both numbers are below 1000 |
| Scan.PhraseAt | backend/main.py:240 | a phrase match is the phrase followed by whitespace and a number |
| Scan.PlusAt | backend/main.py:248 | `N+` matches exactly a run of one to three digits followed by `+`, and its value is those digits |
| Scan.AgedAt | backend/main.py:248 | the optional `d` of `age[d]` is taken whenever it is present |
| Text.Lower | backend/main.py:204 | lower-casing keeps the length and maps each character on its own |
| FilterEngine.PyInt | backend/main.py:291 | `int()` succeeds only on text holding a digit |
| FilterEngine.PyIntDigits | backend/main.py:291 | on a digit string `int()` gives its decimal value |
| FilterEngine.RangeParts | backend/main.py:289-290 | the range branch is taken exactly when there is one `-` with digits before it, and the two parts rebuild the string around it |
| FilterEngine.InterpretAgeFilter | backend/main.py:286-327 | the reading fails exactly on a range whose right side `int()` rejects; comparisons carry one of the four operators and a value below 1000; `N+` and exact readings need the digit shapes the source checks |
| FilterEngine.ApplyAgeFilter | backend/main.py:286-327 | fails exactly when the reading fails; otherwise the result is an order-preserving subsequence of the input that keeps every copy of each patient the reading selects and no other; an unrecognised string returns the input unchanged |
| FilterEngine.ComparisonSelects | backend/main.py:297-311 | `op` followed by one to three digits keeps exactly the patients whose age compares with N as `op` says, in order |
| FilterEngine.ShortNumberIsComparison | backend/main.py:298-301 | an operator prefix (or none, meaning `>=`), one to three digits and an optional `+` read as that comparison |
| FilterEngine.AtLeastSpellings | backend/main.py:298-325 | `>=N`, `N+` and `N` select the same patients for N of one to three digits |
| FilterEngine.ExactAgeNeedsFourDigits | backend/main.py:320-325 | the exact-age reading is reached only by a digit string of four or more characters |
| FilterEngine.ShortPlusIsAtLeast | backend/main.py:314-319 | `N+` with one to three digits reads as `>= N` through the operator pattern |
| FilterEngine.AtLeastNeedsFourDigits | backend/main.py:314-319 | the `min_age` branch is reached only with four or more digits |
| FilterEngine.DigitRangeIsRange | backend/main.py:289-291 | `L-H` with digits on both sides reads as the range from L to H |
| FilterEngine.RangeSelects | backend/main.py:289-295 | a range keeps exactly the patients with L <= age <= H, in order |
| FilterEngine.ReversedRangeIsEmpty | backend/main.py:289-295 | a range with L > H keeps nobody |
| FilterEngine.NoDigitsPassesThrough | backend/main.py:327 | a filter string without digits reads as pass-through and returns the input unchanged |
| FilterEngine.MissingUpperBoundFails | backend/main.py:291 | `"30-"` is the `int("")` error |
| FilterEngine.ValidateSystemDate | backend/main.py:264-283 | the loop with early return answers whether every birth date parses and none is after the reference date |
| FilterEngine.FilterPatients | backend/main.py:330-359 | an error only when an age filter is given and its reading fails; when the date guard passes, such a filter always gives an error (if and only if) |
| FilterEngine.PrefilteredMembers | backend/main.py:338-348 | a patient survives the gender and diagnosis filters exactly when it matches each given filter; a single code is the singleton set |
| FilterEngine.PipelineMembers | backend/main.py:330-359 | membership in the result: in the input, the right gender, a condition with a listed code, and the age test whenever an age filter is given and the guard passes |
| FilterEngine.PipelineSubsequence | backend/main.py:330-359 | the result keeps the input's order |
| FilterEngine.FilterPatientsWellFormed | backend/main.py:330-359 | the result is an order-preserving selection of well-formed sample records |
| FilterEngine.FalsyFiltersIgnored | backend/main.py:339-351 | an empty string or an empty code list filters nothing, and no filters return the whole input |
| FilterEngine.GuardSkipsAgeFilter | backend/main.py:350-355 | when some remaining birth date is after the reference date, the gender and diagnosis result comes back unfiltered by age |
| FilterEngine.GuardOnSample | backend/main.py:264-283 | on sample records the guard passes exactly for reference dates on or after 1992-08-30 |
| Endpoints.TranslationRoundTrip | backend/main.py:379-391 | a well-shaped parsed predicate translates to a string that reads back without error and admits exactly the ages the predicate admits |
| Endpoints.TranslatedSelects | backend/main.py:379-391 | the translated string selects a patient exactly when the parsed predicate admits its age |
| Endpoints.AppliedMatches | backend/main.py:379-406 | the applied filters never fail, and keep a patient exactly when it has the parsed gender, one of the parsed codes, and (when the guard passes) an admitted age |
| Endpoints.AppliedDiagnoses | backend/main.py:396-398 | the diagnosis filter is applied exactly when codes were parsed, and keeps a patient holding any of them |
| Endpoints.ParsedGenderValue | backend/main.py:393-394 | a parsed gender is "male" or "female" |
| Endpoints.QueryMatches | backend/main.py:373-406 | the matching patients of a query are exactly the sample records meeting its parsed filters |
| Endpoints.Query | backend/main.py:373-420 | an empty query is the validation error; otherwise the answer of the parsed query |
| Endpoints.QueryNeverFails | backend/main.py:400-410 | the 500 branch is unreachable for parsed filters |
| Endpoints.QueryResponseShape | backend/main.py:412-420 | the answer reports the parse, the number of matches, the confidence, and the first ten matches as a subsequence of the sample |
| Endpoints.EmptyQuerySuggestions | backend/main.py:426-427 | an empty query text returns the first eight suggestions |
| Endpoints.SuggestionsMatch | backend/main.py:429-431 | min(10, number of matches) results, in list order, each containing the query text case-insensitively |
| Endpoints.SuggestionsInOrder | backend/main.py:429-431 | a matching suggestion is returned exactly when fewer than ten matches precede it, at the position that counts them: the first ten matches in list order |
| Endpoints.SuggestionsComplete | backend/main.py:429-431 | when at most ten suggestions match, all of them are returned |
| Search.TableRows | backend/main.py:493-507 | one row per record, in order, each the formatting of its record |
| Search.WellFormedRow | backend/main.py:499-504 | a well-formed record can be formatted; its row shows "Male" or "Female" and its first condition, never "None" |
| Search.TotalPagesCeiling | backend/main.py:521 | the page count is the ceiling of total / limit, zero exactly when there are no results |
| Search.PageSliceContents | backend/main.py:511-513 | a page holds min(limit, max(0, total - start)) rows, the rows from start on |
| Search.RowOnItsPage | backend/main.py:508-521 | row i is at position i mod limit of page i div limit + 1, which is one of the counted pages |
| Search.Paginate | backend/main.py:493-523 | the response holds the page's rows and the page arithmetic for the filtered records |
| Search.SearchPatients | backend/main.py:482-523 | page below 1 or limit outside 1..50 is a validation error; a failing filter is passed on; otherwise the page of rows with the pagination totals |
| Charts.AgeGroup | backend/main.py:447-454 | every age falls into one of the four buckets |
| Charts.AgeGroupMonotone | backend/main.py:447-454 | an older patient never falls into a younger bucket |
| Charts.AgeGroupBounds | backend/main.py:447-454 | the first bucket is exactly age <= 30, the last exactly age > 70 |
| Charts.GroupsPartition | backend/main.py:444-454 | the four bucket counts sum to the number of patients |
| Charts.GendersPartition | backend/main.py:457-459 | on male and female records the two gender counts sum to the number of patients |
| Charts.TallyCounts | backend/main.py:462-465 | the tally has one entry per display and holds the number of conditions with that display |
| Charts.Ranking | backend/main.py:474-477 | the ranking is a permutation of the tally, in non-increasing count order, keeping tallied order among equal counts |
| Charts.CountAgeGroups | backend/main.py:443-454 | the bucket loop counts each bucket |
| Charts.CountGenders | backend/main.py:456-459 | the gender loop counts each gender |
| Charts.CountConditions | backend/main.py:461-465 | the nested loop builds the tally of every condition display in order |
| Charts.Chart | backend/main.py:443-479 | the response holds the bucket counts, the capitalised gender counts, the ranked tally and the total |
| Charts.ChartData | backend/main.py:434-479 | a failing filter is passed on; otherwise the chart of the filtered records |
| Options.AgeRangeValuesRead | backend/main.py:535-540 | the four age-range values read as `< 30`, 30 to 50, 50 to 70 and `>= 70` |
| Options.GenderValuesOfSample | backend/main.py:541-544 | every sample record's gender is one of the offered gender values |
| Options.RecordLatest | backend/main.py:529-532 | the recorded dict has one entry per code, holding the display of that code's last occurrence |
| Options.LastDisplayIsLast | backend/main.py:529-532 | that display belongs to an occurrence of the code that no later occurrence follows |
| Options.DiagnosisChoices | backend/main.py:529-548 | the nested loop and the sort produce the diagnosis options |
| Options.FilterOptions | backend/main.py:526-549 | the response holds the fixed age ranges, the fixed genders and the diagnosis options of the sample |
| Options.SortedRecord | backend/main.py:545-548 | the sorted options are a permutation of the dict items, ordered by display, with distinct codes |
| Options.DiagnosisChoicesOrdered | backend/main.py:545-548 | the options are ordered by caption and their codes are distinct |
| Options.DiagnosisChoicesLabels | backend/main.py:545-548 | each option's caption is the last display recorded for its code |
| Options.DiagnosisChoicesCover | backend/main.py:529-548 | a code is offered exactly when some condition carries it |
| PyDict.PutSpec | backend/main.py:465 | after `d[k] = v`, k holds v, every other key keeps its value, an existing key keeps its place and a new key comes last |
| Seqs.SortBySorted | backend/main.py:476 | the sort by key is ordered and a permutation |
| Seqs.SortByStable | backend/main.py:476 | the sort keeps the input order among elements with equal keys |
| Ordering.SortStrings | backend/main.py:199 | selecting the least remaining element builds `sorted` of the set |
| Ordering.SortedSet | backend/main.py:230 | the sorted list is strictly ascending and holds exactly the set's elements |

## Left out

- The HTTP layer: the FastAPI app, CORS, the pydantic models and the conversion of exceptions into HTTP errors. Validation messages are approximated by plain strings. An exception inside a chart or search request is an `Err` result.
- The `/health` endpoint, which only reports a constant count and whether spaCy loaded.
- spaCy loading: `parse_query` never uses the loaded model.
- Logging calls.
- The wall clock: `date.today()` is the `today` parameter. The source reads the clock separately in `filter_patients`, `chart_data` and `search_patients`; the model uses one date per request.
- Floating point: the confidence score is integer tenths.
- Python's general regular-expression engine: the fixed patterns are written as dedicated scanners.
- Unicode: `lower()`, `capitalize()`, `isdigit()`, `\d` and `\w` are modelled on ASCII only. `int()` accepts a sign, surrounding whitespace and single underscores, but not non-ASCII digits.
- FilterEngine.IntError: the message quotes the offending text plainly, without Python's escaping of unusual characters.
- `p.get("medications", [])` and `p.get("conditions", [])`: the record type always has these fields.
- Charts.Chart: a gender other than "male" or "female" would raise a `KeyError` in the source; the model requires male and female records, which every filtered sample record is (`Charts.FilteredCountable`).
- Dates.CalculateAge: a birth date `strptime` rejects makes the source raise; the model requires a parseable date, which every sample record has.
- The option field for the `label` key is named `caption`, since `label` is a reserved word in Dafny.
- The frontend (`frontend/lib/api-service.ts`, `frontend/lib/hooks.ts`): network and UI code.
