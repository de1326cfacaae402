/** The JSON endpoints of the web application: the filtered tender listing,
    one tender's details, the dashboard statistics and the two filter
    enumerations. Request arguments, the clock and the row order of
    unordered queries are parameters; a handler that raises answers 500. */
module Routes {
  import opened Wrappers
  import opened Text
  import opened Dates
  import opened Models
  import opened Sorting

  /** The listing's single page: page 1 of 300 rows, whatever the request says. */
  const PerPage: nat := 300

  const TopOrganizations: nat := 10
  const LatestLogs: nat := 5
  const StatsWindowDays: nat := 30

  /** The HTTP status of an error response. */
  type Status = int

  /** The query arguments `api_tenders` reads; an absent argument is `''`. */
  datatype Params = Params(search: string, organization: string, tenderType: string,
                           dateFrom: string, dateTo: string)

  /** `column ILIKE '%needle%'` (with the needle's own characters taken
      literally); a NULL column never matches. */
  predicate ILike(column: Option<string>, needle: string) {
    column.Some? && Contains(Lower(column.value), Lower(needle))
  }

  /** The filters `api_tenders` applies once the arguments are read. A date
      argument that `strptime` rejects adds no filter. */
  datatype Filter = Filter(search: string, organization: string, tenderType: string,
                           from: Option<DateTime>, until: Option<DateTime>)

  /** Reading the arguments: `date_to` becomes the midnight after it, and
      9999-12-31 has none, so `datetime` raises and the handler answers 500. */
  function ParseFilter(p: Params): (r: Result<Filter, Status>)
    ensures r.Err? <==> ParseYmd(p.dateTo) == Some(Date(9999, 12, 31))
    ensures r.Err? ==> r.error == 500
    ensures r.Ok? ==> (r.value.from.Some? <==> ParseYmd(p.dateFrom).Some?)
    ensures r.Ok? ==> (r.value.until.Some? <==> ParseYmd(p.dateTo).Some?)
  {
    var from := match ParseYmd(p.dateFrom)
      case None => None
      case Some(d) => Some(Midnight(d));
    match ParseYmd(p.dateTo)
    case None => Ok(Filter(p.search, p.organization, p.tenderType, from, None))
    case Some(d) =>
      match NextDay(d)
      case None => Err(500)
      case Some(n) => Ok(Filter(p.search, p.organization, p.tenderType, from, Some(Midnight(n))))
  }

  /** The `date_to` filter as written: `publication_date <= date_to + 1 day`. */
  predicate UntilAsWritten(pd: Option<DateTime>, until: DateTime) {
    pd.Some? && NotAfter(pd.value, until)
  }

  /** The `date_to` filter as intended: `publication_date < date_to + 1 day`. */
  predicate Until(pd: Option<DateTime>, until: DateTime) {
    pd.Some? && Before(pd.value, until)
  }

  /** The filters other than `date_to`. An empty argument adds no filter. */
  predicate KeepTexts(t: Tender, f: Filter) {
    && (f.search == [] || ILike(t.tenderTitle, f.search) || ILike(t.referenceNumber, f.search)
        || ILike(t.organization, f.search))
    && (f.organization == [] || ILike(t.organization, f.organization))
    && (f.tenderType == [] || ILike(t.tenderType, f.tenderType))
    && (f.from.Some? ==> t.publicationDate.Some? && NotAfter(f.from.value, t.publicationDate.value))
  }

  /** A row the listing keeps, as written: the `date_to` bound is inclusive. */
  predicate Keep(t: Tender, f: Filter) {
    KeepTexts(t, f) && (f.until.Some? ==> UntilAsWritten(t.publicationDate, f.until.value))
  }

  /** A row the listing would keep with the strict `date_to` bound. */
  predicate KeepCorrected(t: Tender, f: Filter) {
    KeepTexts(t, f) && (f.until.Some? ==> Until(t.publicationDate, f.until.value))
  }

  /** The text and `date_from` filters stated on the request: each non-empty
      text argument occurs case-insensitively in its column, the row was
      published on or after `date_from`'s day, and a `date_from` that does not
      parse changes nothing. */
  predicate TextArguments(t: Tender, p: Params) {
    && (p.search == [] || ILike(t.tenderTitle, p.search) || ILike(t.referenceNumber, p.search)
        || ILike(t.organization, p.search))
    && (p.organization == [] || ILike(t.organization, p.organization))
    && (p.tenderType == [] || ILike(t.tenderType, p.tenderType))
    && (ParseYmd(p.dateFrom).Some? ==>
          t.publicationDate.Some? && !DateBefore(t.publicationDate.value.date, ParseYmd(p.dateFrom).value))
  }

  lemma KeepTextsMeansArguments(t: Tender, p: Params)
    requires ValidTender(t) && ParseFilter(p).Ok?
    ensures KeepTexts(t, ParseFilter(p).value) <==> TextArguments(t, p)
  {
    if t.publicationDate.Some? {
      var pd := t.publicationDate.value;
      BeforeIsStrictTotalOrder(pd, pd, pd);
    }
  }

  /** The corrected filter, stated on the request: the text and `date_from`
      arguments as above, and the row was published on or before `date_to`'s
      day, so a `date_to` that does not parse changes nothing. */
  lemma KeepMeansArguments(t: Tender, p: Params)
    requires ValidTender(t) && ParseFilter(p).Ok?
    ensures KeepCorrected(t, ParseFilter(p).value) <==>
      && TextArguments(t, p)
      && (ParseYmd(p.dateTo).Some? ==>
            t.publicationDate.Some? && !DateBefore(ParseYmd(p.dateTo).value, t.publicationDate.value.date))
  {
    var f := ParseFilter(p).value;
    KeepTextsMeansArguments(t, p);
    if t.publicationDate.Some? && ParseYmd(p.dateTo).Some? {
      var pd := t.publicationDate.value;
      var d := ParseYmd(p.dateTo).value;
      var n := NextDay(d).value;
      BeforeIsStrictTotalOrder(pd, pd, pd);
      NextDayIsSuccessor(d, pd.date);
      assert f.until == Some(Midnight(n));
      assert Before(pd, Midnight(n)) <==> DateBefore(pd.date, n);
    }
  }

  /** The filter as written, stated on the request: the text and `date_from`
      arguments as above, and the row was published on or before `date_to`'s
      day or exactly at 00:00 of the day after it. */
  lemma KeepAsWrittenMeansArguments(t: Tender, p: Params)
    requires ValidTender(t) && ParseFilter(p).Ok?
    ensures ParseYmd(p.dateTo).Some? ==> NextDay(ParseYmd(p.dateTo).value).Some?
    ensures Keep(t, ParseFilter(p).value) <==>
      && TextArguments(t, p)
      && (ParseYmd(p.dateTo).Some? ==>
            t.publicationDate.Some?
            && (!DateBefore(ParseYmd(p.dateTo).value, t.publicationDate.value.date)
                || t.publicationDate.value == Midnight(NextDay(ParseYmd(p.dateTo).value).value)))
  {
    var f := ParseFilter(p).value;
    KeepTextsMeansArguments(t, p);
    if t.publicationDate.Some? && ParseYmd(p.dateTo).Some? {
      var pd := t.publicationDate.value;
      var d := ParseYmd(p.dateTo).value;
      var n := NextDay(d).value;
      BeforeIsStrictTotalOrder(pd, pd, pd);
      NextDayIsSuccessor(d, pd.date);
      assert f.until == Some(Midnight(n));
      assert Before(pd, Midnight(n)) <==> DateBefore(pd.date, n);
    }
  }

  /** The as-written `date_to` filter also keeps a row published at 00:00 of
      the day after `date_to`, which the intended filter drops; on every other
      row the two agree. */
  lemma UntilAsWrittenKeepsNextMidnight(d: Date, pd: Option<DateTime>)
    requires ValidDate(d) && NextDay(d).Some?
    ensures var until := Midnight(NextDay(d).value);
      && UntilAsWritten(Some(until), until) && !Until(Some(until), until)
      && (pd != Some(until) ==> (UntilAsWritten(pd, until) <==> Until(pd, until)))
  {
  }

  /** `ORDER BY publication_date DESC`: newest first, and NULL (which
      PostgreSQL ranks above every value) before everything. */
  predicate NewerFirst(a: Tender, b: Tender) {
    a.publicationDate.None? || (b.publicationDate.Some? && NotAfter(b.publicationDate.value, a.publicationDate.value))
  }

  lemma NewerFirstIsTotalPreorder()
    ensures TotalPreorder(NewerFirst)
  {
    forall a: DateTime, b: DateTime, c: DateTime {
      BeforeIsStrictTotalOrder(a, b, c);
    }
  }

  /** The listing's JSON body, with the rows before `to_dict`. */
  datatype Page = Page(tenders: seq<Tender>, total: nat, pages: nat, currentPage: nat)

  /** The rows that pass the filter, in row order. */
  function Matching(store: Store, rows: seq<string>, f: Filter): (r: seq<Tender>)
    requires forall i :: 0 <= i < |rows| ==> rows[i] in store
    ensures forall i :: 0 <= i < |r| ==> Keep(r[i], f) && exists k :: k in rows && store[k] == r[i]
    ensures forall i :: 0 <= i < |rows| && Keep(store[rows[i]], f) ==> store[rows[i]] in r
    ensures |r| <= |rows|
  {
    if rows == [] then []
    else
      var rest := Matching(store, rows[1..], f);
      assert forall k :: k in rows[1..] ==> k in rows;
      if Keep(store[rows[0]], f) then [store[rows[0]]] + rest else rest
  }

  /** Over distinct ids of a well-keyed store, no tender matches twice. */
  lemma {:induction false} MatchingKeysApart(store: Store, rows: seq<string>, f: Filter)
    requires forall i :: 0 <= i < |rows| ==> rows[i] in store
    requires Distinct(rows) && WellKeyed(store)
    ensures KeysApart(Matching(store, rows, f), IdOf)
  {
    if rows != [] {
      assert Distinct(rows[1..]) && rows[0] !in rows[1..];
      MatchingKeysApart(store, rows[1..], f);
      MatchingIdsFrom(store, rows[1..], f);
    }
  }

  /** Over a well-keyed store, each matching row's id is one of `rows`. */
  lemma MatchingIdsFrom(store: Store, rows: seq<string>, f: Filter)
    requires forall i :: 0 <= i < |rows| ==> rows[i] in store
    requires WellKeyed(store)
    ensures forall i :: 0 <= i < |Matching(store, rows, f)| ==> IdOf(Matching(store, rows, f)[i]) in rows
  {
    var m := Matching(store, rows, f);
    forall i | 0 <= i < |m| ensures IdOf(m[i]) in rows {
      var k :| k in rows && store[k] == m[i];
    }
  }

  /** The ids among `rows` whose stored row passes the filter. */
  function KeptIds(store: Store, rows: seq<string>, f: Filter): set<string> {
    set k | k in rows && k in store && Keep(store[k], f)
  }

  /** Over distinct ids, the matching rows are as many as the ids they come from. */
  lemma {:induction false} MatchingCount(store: Store, rows: seq<string>, f: Filter)
    requires forall i :: 0 <= i < |rows| ==> rows[i] in store
    requires Distinct(rows)
    ensures |Matching(store, rows, f)| == |KeptIds(store, rows, f)|
    decreases |rows|
  {
    if rows != [] {
      var rest := rows[1..];
      DistinctTail(rows);
      MatchingCount(store, rest, f);
      assert forall k :: k in rows <==> k == rows[0] || k in rest;
      if Keep(store[rows[0]], f) {
        assert KeptIds(store, rows, f) == KeptIds(store, rest, f) + {rows[0]};
      } else {
        assert KeptIds(store, rows, f) == KeptIds(store, rest, f);
      }
    }
  }

  /** The listing's `total` counts the stored rows that pass the filter. */
  lemma MatchingCountsKept(store: Store, rows: seq<string>, f: Filter)
    requires Enumerates(rows, store.Keys)
    ensures |Matching(store, rows, f)| == |set k | k in store && Keep(store[k], f)|
  {
    assert Distinct(rows);
    MatchingCount(store, rows, f);
    assert KeptIds(store, rows, f) == set k | k in store && Keep(store[k], f);
  }

  /** Flask-SQLAlchemy's page count: `ceil(total / per_page)`. */
  function PageCount(total: nat): (n: nat)
    ensures (n - 1) * PerPage < total <= n * PerPage
    ensures n == 0 <==> total == 0
  {
    (total + PerPage - 1) / PerPage
  }

  /** `api_tenders`: the newest 300 matching rows, the number that match and
      the number of pages; 500 when `date_to` is the last representable day. */
  function ApiTenders(store: Store, rows: seq<string>, p: Params): (r: Result<Page, Status>)
    requires Enumerates(rows, store.Keys)
    ensures r.Err? <==> ParseYmd(p.dateTo) == Some(Date(9999, 12, 31))
    ensures r.Err? ==> r.error == 500
    ensures r.Ok? ==> (&& r.value.currentPage == 1
      && r.value.total == |set k | k in store && Keep(store[k], ParseFilter(p).value)|
      && |r.value.tenders| == Min(PerPage, r.value.total)
      && SortedBy(r.value.tenders, NewerFirst)
      && (forall i :: 0 <= i < |r.value.tenders| ==>
            r.value.tenders[i] in store.Values && Keep(r.value.tenders[i], ParseFilter(p).value))
      && (r.value.total <= PerPage ==> forall k :: k in store && Keep(store[k], ParseFilter(p).value) ==>
            store[k] in r.value.tenders)
      && (forall k :: k in store && Keep(store[k], ParseFilter(p).value) && store[k] !in r.value.tenders ==>
            forall i :: 0 <= i < |r.value.tenders| ==> NewerFirst(r.value.tenders[i], store[k]))
      && (r.value.pages - 1) * PerPage < r.value.total <= r.value.pages * PerPage)
    ensures r.Ok? ==> multiset(r.value.tenders) <= multiset(Matching(store, rows, ParseFilter(p).value))
    ensures r.Ok? && WellKeyed(store) ==> KeysApart(r.value.tenders, IdOf)
  {
    match ParseFilter(p)
    case Err(e) => Err(e)
    case Ok(f) =>
      MatchingCountsKept(store, rows, f);
      var total := |Matching(store, rows, f)|;
      Ok(Page(Newest(store, rows, f), total, PageCount(total), 1))
  }

  /** The first page of the listing: the newest 300 rows that pass the filter;
      all of them when at most 300 pass, and otherwise none left out is newer
      than one shown. */
  function Newest(store: Store, rows: seq<string>, f: Filter): (top: seq<Tender>)
    requires Enumerates(rows, store.Keys)
    ensures |top| == Min(PerPage, |Matching(store, rows, f)|) && SortedBy(top, NewerFirst)
    ensures forall i :: 0 <= i < |top| ==> top[i] in store.Values && Keep(top[i], f)
    ensures |Matching(store, rows, f)| <= PerPage ==>
      forall k :: k in store && Keep(store[k], f) ==> store[k] in top
    ensures forall k :: k in store && Keep(store[k], f) && store[k] !in top ==>
      forall i :: 0 <= i < |top| ==> NewerFirst(top[i], store[k])
    ensures multiset(top) <= multiset(Matching(store, rows, f))
    ensures WellKeyed(store) ==> KeysApart(top, IdOf)
  {
    var matching := Matching(store, rows, f);
    NewerFirstIsTotalPreorder();
    var top := TopBy(matching, NewerFirst, PerPage);
    assert WellKeyed(store) ==> KeysApart(top, IdOf) by {
      if WellKeyed(store) {
        MatchingKeysApart(store, rows, f);
        SubMultisetKeysApart(top, matching, IdOf);
      }
    }
    KeptAreFromStore(store, matching, f, top);
    MatchingHasAll(store, rows, f);
    if |matching| <= PerPage then
      SameElements(matching, top);
      top
    else
      top
  }

  lemma KeptAreFromStore(store: Store, matching: seq<Tender>, f: Filter, top: seq<Tender>)
    requires forall i :: 0 <= i < |matching| ==> matching[i] in store.Values && Keep(matching[i], f)
    requires multiset(top) <= multiset(matching)
    ensures forall i :: 0 <= i < |top| ==> top[i] in store.Values && Keep(top[i], f)
  {
    forall i | 0 <= i < |top| ensures top[i] in store.Values && Keep(top[i], f) {
      assert top[i] in multiset(matching);
    }
  }

  /** Every stored row that passes the filter is among the matching rows. */
  lemma MatchingHasAll(store: Store, rows: seq<string>, f: Filter)
    requires Enumerates(rows, store.Keys)
    ensures forall k :: k in store && Keep(store[k], f) ==> store[k] in Matching(store, rows, f)
  {
    forall k | k in store && Keep(store[k], f) ensures store[k] in Matching(store, rows, f) {
      var i :| 0 <= i < |rows| && rows[i] == k;
    }
  }

  lemma SameElements<T>(a: seq<T>, b: seq<T>)
    requires multiset(a) == multiset(b)
    ensures forall x :: x in a ==> x in b
  {
    forall x | x in a ensures x in b {
      assert x in multiset(b);
    }
  }

  /** An argument `strptime` rejects is ignored, as if it had not been sent. */
  lemma MalformedDatesAreIgnored(store: Store, rows: seq<string>, p: Params)
    requires Enumerates(rows, store.Keys)
    ensures ParseYmd(p.dateFrom).None? ==> ApiTenders(store, rows, p) == ApiTenders(store, rows, p.(dateFrom := []))
    ensures ParseYmd(p.dateTo).None? ==> ApiTenders(store, rows, p) == ApiTenders(store, rows, p.(dateTo := []))
  {
    assert ParseYmd([]).None?;
    if ParseYmd(p.dateFrom).None? {
      assert ParseFilter(p) == ParseFilter(p.(dateFrom := []));
    }
    if ParseYmd(p.dateTo).None? {
      assert ParseFilter(p) == ParseFilter(p.(dateTo := []));
    }
  }

  /** The body of a 404 or 500 answer is `{"error": …}`; only the status is modelled. */
  function ApiTenderDetails(store: Store, id: string): (r: Result<TenderDict, Status>)
    requires forall k :: k in store ==> ValidTender(store[k])
    ensures r.Err? <==> id !in store
    ensures r.Err? ==> r.error == 404
    ensures r.Ok? ==> r.value == TenderToDict(store[id])
  {
    if id in store then Ok(TenderToDict(store[id])) else Err(404)
  }

  /** On a well-keyed table the details are those of the requested tender. */
  lemma DetailsAreOfRequestedTender(store: Store, id: string)
    requires WellKeyed(store) && forall k :: k in store ==> ValidTender(store[k])
    requires ApiTenderDetails(store, id).Ok?
    ensures ApiTenderDetails(store, id).value.tenderId == id
  {
  }

  /** The non-NULL values of a column, in row order. */
  function NonNull(values: seq<Option<string>>): (r: seq<string>)
    ensures forall x :: x in r <==> Some(x) in values
  {
    if values == [] then []
    else
      var rest := NonNull(values[1..]);
      assert forall v :: v in values <==> v == values[0] || v in values[1..];
      if values[0].Some? then [values[0].value] + rest else rest
  }

  /** Strictly ascending in code-point order, hence without repeats. */
  predicate Ascending(s: seq<string>) {
    forall i, j :: 0 <= i < j < |s| ==> StrLe(s[i], s[j]) && s[i] != s[j]
  }

  /** In a sorted list whose first two values differ, the first value lies
      strictly below every later one. */
  lemma SortedHeadBelow(s: seq<string>, x: string)
    requires SortedBy(s, StrLe) && |s| >= 2 && s[0] != s[1] && x in s[1..]
    ensures StrLe(s[0], x) && s[0] != x
  {
    var m :| 1 <= m < |s| && s[m] == x;
    if s[0] == x {
      assert StrLe(s[1], s[m]);
      StrLeAntisymmetric(s[0], s[1]);
    }
  }

  /** Collapsing runs of equal values in a sorted list: `DISTINCT`. */
  function Collapse(s: seq<string>): (r: seq<string>)
    requires SortedBy(s, StrLe)
    ensures Ascending(r)
    ensures forall x :: x in r <==> x in s
  {
    if |s| <= 1 then s
    else
      var rest := Collapse(s[1..]);
      if s[0] == s[1] then rest
      else
        assert forall j :: 0 <= j < |rest| ==> StrLe(s[0], rest[j]) && s[0] != rest[j] by {
          forall j | 0 <= j < |rest| ensures StrLe(s[0], rest[j]) && s[0] != rest[j] {
            SortedHeadBelow(s, rest[j]);
          }
        }
        [s[0]] + rest
  }

  /** Dropping the falsy (empty) values keeps the list ascending. */
  function NonEmpty(s: seq<string>): (r: seq<string>)
    requires Ascending(s)
    ensures Ascending(r)
    ensures forall x :: x in r <==> x in s && x != []
  {
    if s == [] then []
    else
      var rest := NonEmpty(s[1..]);
      assert forall j :: 0 <= j < |rest| ==> StrLe(s[0], rest[j]) && s[0] != rest[j] by {
        forall j | 0 <= j < |rest| ensures StrLe(s[0], rest[j]) && s[0] != rest[j] {
          assert rest[j] in s[1..];
          var m :| 0 <= m < |s[1..]| && s[1..][m] == rest[j];
          assert s[m + 1] == rest[j];
        }
      }
      if s[0] == [] then rest else [s[0]] + rest
  }

  /** `SELECT DISTINCT column … WHERE column IS NOT NULL ORDER BY column`, then
      `[v for v in rows if v]`. */
  function DistinctSorted(values: seq<Option<string>>): (r: seq<string>)
    ensures Ascending(r)
    ensures forall x :: x in r <==> x != [] && Some(x) in values
  {
    StrLeIsTotalPreorder();
    var present := NonNull(values);
    var sorted := Sort(present, StrLe);
    assert forall x :: x in sorted <==> x in multiset(present);
    NonEmpty(Collapse(sorted))
  }

  function Organizations(store: Store, rows: seq<string>): seq<Option<string>>
    requires forall i :: 0 <= i < |rows| ==> rows[i] in store
  {
    seq(|rows|, i requires 0 <= i < |rows| => store[rows[i]].organization)
  }

  function TenderTypes(store: Store, rows: seq<string>): seq<Option<string>>
    requires forall i :: 0 <= i < |rows| ==> rows[i] in store
  {
    seq(|rows|, i requires 0 <= i < |rows| => store[rows[i]].tenderType)
  }

  /** `api_organizations`: every organization some tender names, once, sorted. */
  function ApiOrganizations(store: Store, rows: seq<string>): (r: seq<string>)
    requires Enumerates(rows, store.Keys)
    ensures Ascending(r)
    ensures forall x :: x in r <==> x != [] && exists k :: k in store && store[k].organization == Some(x)
  {
    var values := Organizations(store, rows);
    forall x | exists k :: k in store && store[k].organization == Some(x) ensures Some(x) in values {
      var k :| k in store && store[k].organization == Some(x);
      var i :| 0 <= i < |rows| && rows[i] == k;
      assert values[i] == Some(x);
    }
    DistinctSorted(values)
  }

  /** `api_tender_types`: every tender type some tender has, once, sorted. */
  function ApiTenderTypes(store: Store, rows: seq<string>): (r: seq<string>)
    requires Enumerates(rows, store.Keys)
    ensures Ascending(r)
    ensures forall x :: x in r <==> x != [] && exists k :: k in store && store[k].tenderType == Some(x)
  {
    var values := TenderTypes(store, rows);
    forall x | exists k :: k in store && store[k].tenderType == Some(x) ensures Some(x) in values {
      var k :| k in store && store[k].tenderType == Some(x);
      var i :| 0 <= i < |rows| && rows[i] == k;
      assert values[i] == Some(x);
    }
    DistinctSorted(values)
  }

  /** One row of a `GROUP BY … count(id)` result. */
  datatype Group<T> = Group(key: T, count: nat)

  /** The count of the group with key `x`, 0 when there is none. */
  function CountOf<T(==)>(gs: seq<Group<T>>, x: T): nat {
    if gs == [] then 0 else (if gs[0].key == x then gs[0].count else 0) + CountOf(gs[1..], x)
  }

  function Total<T>(gs: seq<Group<T>>): nat {
    if gs == [] then 0 else gs[0].count + Total(gs[1..])
  }

  predicate DistinctKeys<T(==)>(gs: seq<Group<T>>) {
    forall i, j :: 0 <= i < j < |gs| ==> gs[i].key != gs[j].key
  }

  function KeyOf<T>(g: Group<T>): T {
    g.key
  }

  /** Counting one more row with key `x`. */
  function AddTo<T(==,!new)>(gs: seq<Group<T>>, x: T): (r: seq<Group<T>>)
    requires DistinctKeys(gs) && forall i :: 0 <= i < |gs| ==> gs[i].count > 0
    ensures DistinctKeys(r) && forall i :: 0 <= i < |r| ==> r[i].count > 0
    ensures forall y :: CountOf(r, y) == CountOf(gs, y) + (if y == x then 1 else 0)
    ensures Total(r) == Total(gs) + 1
    ensures forall i :: 0 <= i < |r| ==> r[i].key == x || exists j :: 0 <= j < |gs| && gs[j].key == r[i].key
  {
    if gs == [] then [Group(x, 1)]
    else if gs[0].key == x then
      assert forall y :: y != x ==> CountOf(gs[1..], y) == CountOf(gs, y);
      [gs[0].(count := gs[0].count + 1)] + gs[1..]
    else
      var rest := AddTo(gs[1..], x);
      assert forall i :: 0 <= i < |rest| ==> rest[i].key != gs[0].key by {
        forall i | 0 <= i < |rest| ensures rest[i].key != gs[0].key {
          if rest[i].key != x {
            var j :| 0 <= j < |gs[1..]| && gs[1..][j].key == rest[i].key;
            assert gs[j + 1].key == rest[i].key;
          }
        }
      }
      var r := [gs[0]] + rest;
      assert r[1..] == rest;
      r
  }

  /** `GROUP BY key` with `count(id)`: one group per distinct key, counting
      the rows that have it, and together counting every row. */
  function GroupBy<T(==,!new)>(keys: seq<T>): (r: seq<Group<T>>)
    ensures DistinctKeys(r) && forall i :: 0 <= i < |r| ==> r[i].count > 0
    ensures forall x :: CountOf(r, x) == multiset(keys)[x]
    ensures Total(r) == |keys|
    ensures forall i :: 0 <= i < |r| ==> r[i].key in keys
  {
    if keys == [] then []
    else
      var init := keys[..|keys| - 1];
      assert keys == init + [keys[|keys| - 1]];
      AddTo(GroupBy(init), keys[|keys| - 1])
  }

  /** With distinct keys, `CountOf` reads a group's own count. */
  lemma {:induction false} CountOfMember<T>(gs: seq<Group<T>>, i: int)
    requires DistinctKeys(gs) && 0 <= i < |gs|
    ensures CountOf(gs, gs[i].key) == gs[i].count
  {
    if i > 0 {
      CountOfMember(gs[1..], i - 1);
      assert gs[1..][i - 1] == gs[i];
    } else {
      CountOfAbsent(gs[1..], gs[0].key);
    }
  }

  lemma {:induction false} CountOfAbsent<T>(gs: seq<Group<T>>, x: T)
    requires forall i :: 0 <= i < |gs| ==> gs[i].key != x
    ensures CountOf(gs, x) == 0
  {
    if gs != [] {
      CountOfAbsent(gs[1..], x);
    }
  }

  /** A key that is counted has its group. */
  lemma CountedHasGroup<T>(gs: seq<Group<T>>, x: T) returns (i: int)
    requires DistinctKeys(gs) && CountOf(gs, x) > 0
    ensures 0 <= i < |gs| && gs[i] == Group(x, CountOf(gs, x))
  {
    if forall j :: 0 <= j < |gs| ==> gs[j].key != x {
      CountOfAbsent(gs, x);
    }
    i :| 0 <= i < |gs| && gs[i].key == x;
    CountOfMember(gs, i);
  }

  /** `GROUP BY` yields one group per distinct value. */
  lemma GroupByCount<T(!new)>(values: seq<T>)
    ensures |GroupBy(values)| == |set v | v in values|
  {
    var gs := GroupBy(values);
    var ks := seq(|gs|, i requires 0 <= i < |gs| => gs[i].key);
    assert Distinct(ks);
    DistinctCard(ks);
    forall v | v in values ensures v in ks {
      assert multiset(values)[v] > 0;
      var i := CountedHasGroup(gs, v);
      assert ks[i] == v;
    }
    forall v | v in ks ensures v in values {
      var i :| 0 <= i < |ks| && ks[i] == v;
      assert gs[i].key in values;
    }
    assert (set v | v in ks) == (set v | v in values);
  }

  /** Groups with more rows first: `ORDER BY count DESC`. */
  predicate MoreRows<T>(a: Group<T>, b: Group<T>) {
    a.count >= b.count
  }

  /** The `(type, count)` rows of the stats query: one per distinct
      `tender_type`, NULL included, each counting the tenders that have it. */
  function TypeCounts(store: Store, rows: seq<string>): (r: seq<Group<Option<string>>>)
    requires Enumerates(rows, store.Keys)
    ensures DistinctKeys(r) && forall i :: 0 <= i < |r| ==> r[i].count > 0
    ensures forall v :: CountOf(r, v) == multiset(TenderTypes(store, rows))[v]
    ensures Total(r) == |store|
  {
    EnumeratesSize(rows, store.Keys);
    GroupBy(TenderTypes(store, rows))
  }

  /** `GROUP BY key ORDER BY count DESC LIMIT n`: at most `n` groups, the
      largest first, each counting the rows with its key; a key left out has
      no more rows than any listed one. */
  function TopGroups<T(==,!new)>(values: seq<T>, n: nat): (r: seq<Group<T>>)
    ensures |r| == Min(n, |set v | v in values|)
    ensures SortedBy(r, MoreRows)
    ensures forall i :: 0 <= i < |r| ==> r[i].count == multiset(values)[r[i].key] > 0
    ensures forall v :: multiset(values)[v] > 0 && (forall i :: 0 <= i < |r| ==> r[i].key != v) ==>
      forall i :: 0 <= i < |r| ==> r[i].count >= multiset(values)[v]
    ensures DistinctKeys(r)
  {
    var groups := GroupBy(values);
    assert TotalPreorder(MoreRows<T>);
    var top := TopBy(groups, MoreRows, n);
    TopGroupsApart(groups, top);
    GroupByCount(values);
    TopGroupsCounted(values, groups, top);
    TopGroupsLargest(values, groups, top);
    top
  }

  /** Groups taken from groups with distinct keys have distinct keys. */
  lemma TopGroupsApart<T>(groups: seq<Group<T>>, top: seq<Group<T>>)
    requires DistinctKeys(groups) && multiset(top) <= multiset(groups)
    ensures DistinctKeys(top)
  {
    assert KeysApart(groups, KeyOf);
    SubMultisetKeysApart(top, groups, KeyOf);
    assert forall i, j :: 0 <= i < j < |top| ==> KeyOf(top[i]) != KeyOf(top[j]);
  }

  lemma TopGroupsCounted<T>(values: seq<T>, groups: seq<Group<T>>, top: seq<Group<T>>)
    requires DistinctKeys(groups) && forall i :: 0 <= i < |groups| ==> groups[i].count > 0
    requires forall x :: CountOf(groups, x) == multiset(values)[x]
    requires multiset(top) <= multiset(groups)
    ensures forall i :: 0 <= i < |top| ==> top[i].count == multiset(values)[top[i].key] > 0
  {
    forall i | 0 <= i < |top| ensures top[i].count == multiset(values)[top[i].key] > 0 {
      assert top[i] in multiset(groups);
      var j :| 0 <= j < |groups| && groups[j] == top[i];
      CountOfMember(groups, j);
    }
  }

  lemma TopGroupsLargest<T>(values: seq<T>, groups: seq<Group<T>>, top: seq<Group<T>>)
    requires DistinctKeys(groups)
    requires forall x :: CountOf(groups, x) == multiset(values)[x]
    requires forall g :: g in groups && g !in top ==> forall i :: 0 <= i < |top| ==> MoreRows(top[i], g)
    ensures forall v :: multiset(values)[v] > 0 && (forall i :: 0 <= i < |top| ==> top[i].key != v) ==>
      forall i :: 0 <= i < |top| ==> top[i].count >= multiset(values)[v]
  {
    forall v | multiset(values)[v] > 0 && (forall i :: 0 <= i < |top| ==> top[i].key != v)
      ensures forall i :: 0 <= i < |top| ==> top[i].count >= multiset(values)[v]
    {
      var j := CountedHasGroup(groups, v);
      assert groups[j] in groups && groups[j] !in top;
    }
  }

  /** The publication days of the tenders published at or after `cutoff`, in row order. */
  function RecentDays(store: Store, rows: seq<string>, cutoff: DateTime): (r: seq<Date>)
    requires forall i :: 0 <= i < |rows| ==> rows[i] in store
    ensures forall d :: d in r <==> exists k :: k in rows && Recent(store[k], cutoff, d)
  {
    if rows == [] then []
    else
      var rest := RecentDays(store, rows[1..], cutoff);
      assert forall k :: k in rows <==> k == rows[0] || k in rows[1..];
      var pd := store[rows[0]].publicationDate;
      if pd.Some? && NotAfter(cutoff, pd.value) then [pd.value.date] + rest else rest
  }

  /** The ids among `rows` of the tenders published on day `d`, at or after `cutoff`. */
  function PublishedOn(store: Store, rows: seq<string>, cutoff: DateTime, d: Date): set<string> {
    set k | k in rows && k in store && Recent(store[k], cutoff, d)
  }

  /** Over distinct ids, day `d` occurs among the recent days once per tender
      published on it. */
  lemma {:induction false} RecentDaysCount(store: Store, rows: seq<string>, cutoff: DateTime, d: Date)
    requires forall i :: 0 <= i < |rows| ==> rows[i] in store
    requires Distinct(rows)
    ensures multiset(RecentDays(store, rows, cutoff))[d] == |PublishedOn(store, rows, cutoff, d)|
  {
    if rows != [] {
      var x := rows[0];
      assert Distinct(rows[1..]);
      RecentDaysCount(store, rows[1..], cutoff, d);
      var later := PublishedOn(store, rows[1..], cutoff, d);
      assert x !in later;
      if Recent(store[x], cutoff, d) {
        assert PublishedOn(store, rows, cutoff, d) == later + {x};
      } else {
        assert PublishedOn(store, rows, cutoff, d) == later;
      }
    }
  }

  /** Tender `t` was published on day `d`, at or after `cutoff`. */
  predicate Recent(t: Tender, cutoff: DateTime, d: Date) {
    t.publicationDate.Some? && NotAfter(cutoff, t.publicationDate.value) && t.publicationDate.value.date == d
  }

  /** `start_time DESC`: later runs first, a NULL start (ranked above every value) before all. */
  predicate StartedLater(a: ScrapingLog, b: ScrapingLog) {
    a.startTime.None? || (b.startTime.Some? && NotAfter(b.startTime.value, a.startTime.value))
  }

  /** The five most recent scraping runs, newest first; a run left out did not
      start later than any listed one. */
  function LatestRuns(logs: seq<ScrapingLog>): (r: seq<ScrapingLog>)
    requires forall i :: 0 <= i < |logs| ==> ValidLog(logs[i])
    ensures forall i :: 0 <= i < |r| ==> ValidLog(r[i])
    ensures |r| == Min(LatestLogs, |logs|)
    ensures SortedBy(r, StartedLater)
    ensures multiset(r) <= multiset(logs)
    ensures forall l :: l in logs && l !in r ==> forall i :: 0 <= i < |r| ==> StartedLater(r[i], l)
  {
    assert TotalPreorder(StartedLater) by {
      forall a: DateTime, b: DateTime, c: DateTime {
        BeforeIsStrictTotalOrder(a, b, c);
      }
    }
    var r := TopBy(logs, StartedLater, LatestLogs);
    assert forall i :: 0 <= i < |r| ==> r[i] in multiset(logs);
    r
  }

  /** `value or 'Unknown'`: a NULL or empty key is reported as `Unknown`. */
  function Label(k: Option<string>): (l: string)
    ensures l != []
    ensures k.Some? && k.value != [] ==> l == k.value
  {
    if k.Some? && k.value != [] then k.value else "Unknown"
  }

  /** A row of a stats list: the name shown and its count. */
  datatype Entry = Entry(name: string, count: nat)

  function Labelled(gs: seq<Group<Option<string>>>): (r: seq<Entry>)
    ensures |r| == |gs|
    ensures forall i :: 0 <= i < |r| ==> r[i] == Entry(Label(gs[i].key), gs[i].count)
  {
    seq(|gs|, i requires 0 <= i < |gs| => Entry(Label(gs[i].key), gs[i].count))
  }

  /** The `(date, count)` rows of the stats query: one per publication day at
      or after `cutoff`, each counting the tenders published that day, shown
      as `YYYY-MM-DD`. */
  function DayCounts(store: Store, rows: seq<string>, cutoff: DateTime): (r: seq<Entry>)
    requires forall i :: 0 <= i < |rows| ==> rows[i] in store
    requires forall k :: k in store ==> ValidTender(store[k])
    ensures var days := RecentDays(store, rows, cutoff);
      forall d :: ValidDate(d) && d in days ==> Entry(FormatYmd(d), multiset(days)[d]) in r
    ensures |r| == |GroupBy(RecentDays(store, rows, cutoff))|
    ensures Distinct(rows) ==> forall d :: ValidDate(d) && d in RecentDays(store, rows, cutoff) ==>
      Entry(FormatYmd(d), |PublishedOn(store, rows, cutoff, d)|) in r
  {
    var days := RecentDays(store, rows, cutoff);
    var groups := GroupBy(days);
    assert forall i :: 0 <= i < |groups| ==> ValidDate(groups[i].key) by {
      forall i | 0 <= i < |groups| ensures ValidDate(groups[i].key) {
        var k :| k in rows && Recent(store[k], cutoff, groups[i].key);
        assert k in store && ValidTender(store[k]);
      }
    }
    var r := seq(|groups|, i requires 0 <= i < |groups| => Entry(FormatYmd(groups[i].key), groups[i].count));
    forall d | ValidDate(d) && d in days ensures Entry(FormatYmd(d), multiset(days)[d]) in r {
      var j := CountedHasGroup(groups, d);
      assert r[j] == Entry(FormatYmd(d), multiset(days)[d]);
    }
    assert Distinct(rows) ==> forall d :: ValidDate(d) && d in days ==>
      Entry(FormatYmd(d), |PublishedOn(store, rows, cutoff, d)|) in r by {
      if Distinct(rows) {
        forall d | ValidDate(d) && d in days ensures Entry(FormatYmd(d), |PublishedOn(store, rows, cutoff, d)|) in r {
          RecentDaysCount(store, rows, cutoff, d);
        }
      }
    }
    r
  }

  /** The `to_dict` of the five latest runs. */
  function LatestLogDicts(logs: seq<ScrapingLog>): (r: seq<ScrapingLogDict>)
    requires forall i :: 0 <= i < |logs| ==> ValidLog(logs[i])
    ensures |r| == Min(LatestLogs, |logs|)
    ensures forall i :: 0 <= i < |r| ==> r[i] == ScrapingLogToDict(LatestRuns(logs)[i])
  {
    var latest := LatestRuns(logs);
    seq(|latest|, i requires 0 <= i < |latest| => ScrapingLogToDict(latest[i]))
  }

  /** The JSON body of `api_stats`. */
  datatype Stats = Stats(totalTenders: nat, byType: seq<Entry>, byOrganization: seq<Entry>,
                         byDate: seq<Entry>, latestLogs: seq<ScrapingLogDict>)

  /** `api_stats` at `now`: 500 only when 30 days before `now` precedes year 1. */
  function ApiStats(store: Store, rows: seq<string>, logs: seq<ScrapingLog>, now: DateTime): (r: Result<Stats, Status>)
    requires Enumerates(rows, store.Keys) && ValidDateTime(now)
    requires forall k :: k in store ==> ValidTender(store[k])
    requires forall i :: 0 <= i < |logs| ==> ValidLog(logs[i])
    ensures r.Err? <==> MinusDays(now, StatsWindowDays).None?
    ensures r.Ok? ==> (&& r.value.totalTenders == |store|
      && r.value.byType == Labelled(TypeCounts(store, rows))
      && r.value.byOrganization == Labelled(TopGroups(Organizations(store, rows), TopOrganizations))
      && r.value.byDate == DayCounts(store, rows, MinusDays(now, StatsWindowDays).value)
      && r.value.latestLogs == LatestLogDicts(logs))
  {
    match MinusDays(now, StatsWindowDays)
    case None => Err(500)
    case Some(cutoff) =>
      Ok(Stats(
        |store|,
        Labelled(TypeCounts(store, rows)),
        Labelled(TopGroups(Organizations(store, rows), TopOrganizations)),
        DayCounts(store, rows, cutoff),
        LatestLogDicts(logs)))
  }

  /** A NULL type and an empty type are two groups, both shown as `Unknown`. */
  lemma UnknownMayAppearTwice(a: Tender, b: Tender)
    requires a.tenderId != b.tenderId && a.tenderType.None? && b.tenderType == Some([])
    ensures var store := map[a.tenderId := a, b.tenderId := b];
      var entries := Labelled(TypeCounts(store, [a.tenderId, b.tenderId]));
      |entries| == 2 && entries[0].name == entries[1].name == "Unknown"
  {
    var store := map[a.tenderId := a, b.tenderId := b];
    var rows := [a.tenderId, b.tenderId];
    assert TenderTypes(store, rows) == [None, Some([])];
    GroupsOfNullThenEmpty();
  }

  lemma GroupsOfNullThenEmpty()
    ensures GroupBy<Option<string>>([None, Some([])]) == [Group(None, 1), Group(Some([]), 1)]
  {
    var none: Option<string> := None;
    var empty: Option<string> := Some([]);
    var types := [none, empty];
    var first: seq<Option<string>> := [none];
    assert types[..1] == first && first[..0] == [];
    assert GroupBy(first) == [Group(none, 1)];
    assert GroupBy(types) == AddTo([Group(none, 1)], empty);
  }
}
