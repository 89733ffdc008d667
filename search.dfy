/**
 * `/patients/search`: the filtered patients formatted as table rows, then
 * cut into pages of `limit` rows.
 */
module Search {
  import opened Wrappers
  import opened Text
  import opened Dates
  import opened Data
  import opened Seqs
  import opened FilterEngine

  /** One table row. */
  datatype Row = Row(
    id: string,
    name: string,
    age: int,
    gender: string,
    primaryCondition: string,
    medications: string)

  /** `sep.join(xs)`. */
  function Join(xs: seq<string>, sep: string): string
    decreases |xs|
  {
    if xs == [] then ""
    else if |xs| == 1 then xs[0]
    else Join(xs[..|xs| - 1], sep) + sep + xs[|xs| - 1]
  }

  /** What formatting a record needs: a first given name and a birth date that parses. */
  predicate Formattable(p: Patient) {
    |p.name.given| > 0 && ParseIsoDate(p.birthDate).Some?
  }

  /**
   * The row for one record: first given name and family name, age on
   * `today`, capitalised gender, the first condition's display (or
   * "None"), and the medications joined by ", ".
   */
  function RowOf(p: Patient, today: Date): Row
    requires Formattable(p)
  {
    Row(p.id, p.name.given[0] + " " + p.name.family, CalculateAge(p.birthDate, today), Capitalize(p.gender),
        if p.conditions != [] then p.conditions[0].display else "None",
        Join(p.medications, ", "))
  }

  /**
   * A well-formed record can be formatted; its row shows "Male" or
   * "Female" and the display of its first condition, never the "None"
   * fallback.
   */
  lemma WellFormedRow(p: Patient, today: Date)
    requires WellFormedPatient(p)
    ensures Formattable(p)
    ensures RowOf(p, today).gender == (if p.gender == "male" then "Male" else "Female")
    ensures RowOf(p, today).primaryCondition == p.conditions[0].display
  {
    CapitalizedGenders();
  }

  lemma CapitalizedGenders()
    ensures Capitalize("male") == "Male" && Capitalize("female") == "Female"
  {
    assert Lower("ale") == "ale";
    assert Lower("emale") == "emale";
  }

  /** The loop of `search_patients` that appends one row per record, in order. */
  method TableRows(ps: seq<Patient>, today: Date) returns (rows: seq<Row>)
    requires forall p :: p in ps ==> Formattable(p)
    ensures |rows| == |ps|
    ensures forall i :: 0 <= i < |ps| ==> rows[i] == RowOf(ps[i], today)
  {
    rows := [];
    for i := 0 to |ps|
      invariant |rows| == i
      invariant forall j :: 0 <= j < i ==> rows[j] == RowOf(ps[j], today)
    {
      rows := rows + [RowOf(ps[i], today)];
    }
  }

  // ---- Pagination ----

  /** `(total + limit - 1) // limit`. */
  function TotalPages(total: nat, limit: nat): nat
    requires limit >= 1
  {
    (total + limit - 1) / limit
  }

  /** `(page - 1) * limit`, the index of the first row of a page. */
  function PageStart(page: nat, limit: nat): (start: nat)
    requires page >= 1
    ensures start == (page - 1) * limit
  {
    (page - 1) * limit
  }

  /** `rows[start:start + limit]`, clipped as Python slices are. */
  function PageSlice<T>(rows: seq<T>, page: nat, limit: nat): seq<T>
    requires page >= 1 && limit >= 1
  {
    var start := PageStart(page, limit);
    var end := start + limit;
    if start >= |rows| then [] else rows[start..if end < |rows| then end else |rows|]
  }

  /** The page count is the ceiling of `total / limit`. */
  lemma TotalPagesCeiling(total: nat, limit: nat)
    requires limit >= 1
    ensures TotalPages(total, limit) * limit >= total
    ensures TotalPages(total, limit) > 0 ==> (TotalPages(total, limit) - 1) * limit < total
    ensures TotalPages(total, limit) == 0 <==> total == 0
  {
    var n := total + limit - 1;
    var q := n / limit;
    assert n == q * limit + n % limit;
    assert q * limit + limit > total;
    if q > 0 {
      assert (q - 1) * limit == q * limit - limit;
    }
  }

  /**
   * A page holds `min(limit, max(0, total - start))` rows, and they are
   * the rows from `start` on.
   */
  lemma PageSliceContents<T>(rows: seq<T>, page: nat, limit: nat)
    requires page >= 1 && limit >= 1
    ensures var start := PageStart(page, limit); var r := PageSlice(rows, page, limit);
      && |r| == Scan.Min(limit, Scan.Max(0, |rows| - start))
      && forall k :: 0 <= k < |r| ==> r[k] == rows[start + k]
  {
  }

  /**
   * Row `i` is at position `i % limit` of page `i / limit + 1`, and that
   * page is one of the `TotalPages` pages.
   */
  lemma RowOnItsPage<T>(rows: seq<T>, limit: nat, i: nat)
    requires limit >= 1 && i < |rows|
    ensures var page := i / limit + 1;
      && page <= TotalPages(|rows|, limit)
      && i % limit < |PageSlice(rows, page, limit)|
      && PageSlice(rows, page, limit)[i % limit] == rows[i]
  {
    var q := i / limit;
    assert i == q * limit + i % limit;
    PageSliceContents(rows, q + 1, limit);
    TotalPagesCeiling(|rows|, limit);
    var t := TotalPages(|rows|, limit);
    if t < q + 1 {
      MulMonotone(t, q, limit);
      assert false;
    }
  }

  lemma MulMonotone(a: nat, b: nat, c: nat)
    requires a <= b
    ensures a * c <= b * c
  {
  }

  // ---- The endpoint ----

  datatype Pagination = Pagination(page: nat, limit: nat, totalResults: nat, totalPages: nat)

  datatype SearchResponse = SearchResponse(data: seq<Row>, pagination: Pagination)

  /** The message for a query parameter outside its declared bounds. */
  function BoundMessage(name: string, bound: string, below: bool): string {
    name + ": Input should be " + (if below then "greater" else "less") + " than or equal to " + bound
  }

  /**
   * The formatting loop and the pagination of `search_patients` on the
   * filtered records `ps`.
   */
  method Paginate(ps: seq<Patient>, page: nat, limit: nat, today: Date) returns (resp: SearchResponse)
    requires page >= 1 && limit >= 1
    requires forall p :: p in ps ==> Formattable(p)
    ensures resp.pagination == Pagination(page, limit, |ps|, TotalPages(|ps|, limit))
    ensures |resp.data| == Scan.Min(limit, Scan.Max(0, |ps| - PageStart(page, limit)))
    ensures forall k :: 0 <= k < |resp.data| ==>
      PageStart(page, limit) + k < |ps| && resp.data[k] == RowOf(ps[PageStart(page, limit) + k], today)
  {
    var rows := TableRows(ps, today);
    PageSliceContents(rows, page, limit);
    resp := SearchResponse(PageSlice(rows, page, limit), Pagination(page, limit, |rows|, TotalPages(|rows|, limit)));
  }

  /**
   * `search_patients`: `page` must be at least 1 and `limit` from 1 to
   * 50; an age filter the interpreter cannot read is an error; otherwise
   * the page of rows and the page arithmetic.
   */
  method SearchPatients(age: Option<string>, gender: Option<string>, diagnosis: Option<string>,
                        page: int, limit: int, today: Date) returns (r: Result<SearchResponse>)
    ensures page < 1 ==> r == Err(BoundMessage("page", "1", true))
    ensures page >= 1 && limit < 1 ==> r == Err(BoundMessage("limit", "1", true))
    ensures page >= 1 && limit > 50 ==> r == Err(BoundMessage("limit", "50", false))
    ensures page >= 1 && 1 <= limit <= 50 && FilterPatients(age, gender, CodeArgument(diagnosis), today).Err? ==>
      r == Err(FilterPatients(age, gender, CodeArgument(diagnosis), today).message)
    ensures page >= 1 && 1 <= limit <= 50 && FilterPatients(age, gender, CodeArgument(diagnosis), today).Ok? ==>
      (FilteredFormattable(age, gender, CodeArgument(diagnosis), today);
      var ps := FilterPatients(age, gender, CodeArgument(diagnosis), today).value;
      && r.Ok?
      && r.value.pagination == Pagination(page, limit, |ps|, TotalPages(|ps|, limit))
      && |r.value.data| == Scan.Min(limit, Scan.Max(0, |ps| - PageStart(page, limit)))
      && forall k :: 0 <= k < |r.value.data| ==>
           PageStart(page, limit) + k < |ps| && r.value.data[k] == RowOf(ps[PageStart(page, limit) + k], today))
  {
    if page < 1 {
      return Err(BoundMessage("page", "1", true));
    }
    if limit < 1 {
      return Err(BoundMessage("limit", "1", true));
    }
    if limit > 50 {
      return Err(BoundMessage("limit", "50", false));
    }
    var filtered := FilterPatients(age, gender, CodeArgument(diagnosis), today);
    if filtered.Err? {
      return Err(filtered.message);
    }
    FilteredFormattable(age, gender, CodeArgument(diagnosis), today);
    var resp := Paginate(filtered.value, page, limit, today);
    r := Ok(resp);
  }

  /** Every record `filter_patients` returns can be formatted. */
  lemma FilteredFormattable(age: Option<string>, gender: Option<string>, diagnosis: Option<DiagnosisFilter>, today: Date)
    requires FilterPatients(age, gender, diagnosis, today).Ok?
    ensures var ps := FilterPatients(age, gender, diagnosis, today).value;
      forall i :: 0 <= i < |ps| ==> Formattable(ps[i])
  {
    FilterPatientsWellFormed(age, gender, diagnosis, today);
    AllFormattable(FilterPatients(age, gender, diagnosis, today).value);
  }

  lemma AllFormattable(ps: seq<Patient>)
    requires forall p :: p in ps ==> WellFormedPatient(p)
    ensures forall i :: 0 <= i < |ps| ==> Formattable(ps[i])
  {
    forall i | 0 <= i < |ps|
      ensures Formattable(ps[i])
    {
      assert ps[i] in ps;
    }
  }

  /** A query-string diagnosis filter is a single code. */
  function CodeArgument(diagnosis: Option<string>): Option<DiagnosisFilter> {
    match diagnosis
    case None => None
    case Some(c) => Some(Code(c))
  }
}
