/** `EtimadScraper`: mapping the listing API's items to record dictionaries,
    upserting those records into the tenders table with a commit every 50
    records, and the RUNNING -> SUCCESS / WARNING / ERROR scraping log. */
module Scraper {
  import opened Wrappers
  import opened Text
  import opened Json
  import opened Dates
  import opened Models

  const VisitorUrlPrefix: string := "https://tenders.etimad.sa/Tender/DetaielsForVisitors?StenderID="

  /** Records are upserted in groups of this many between commits. */
  const CommitEvery: nat := 50

  /** A value in the record dictionaries the scraper passes around: a decoded
      JSON value (Python `None` is `JNull`, a `str` is `JStr`) or a `datetime`. */
  datatype PyValue = Py(json: JValue) | Stamp(at: DateTime)

  /** The dictionary keys the scraper writes or reads, with their text. */
  datatype Key =
    | TenderId | TenderTitle | Organization | TenderType | MainActivities | Duration
    | ReferenceNumber | PublicationDate | InquiryDeadline | SubmissionDeadline | OpeningDate
    | TenderUrl | TenderName | Agency | Category | Url | StartDate | EndDate | City | Price
  {
    function Name(): (n: string)
      ensures n != []
    {
      match this
      case TenderId => "tender_id"
      case TenderTitle => "tender_title"
      case Organization => "organization"
      case TenderType => "tender_type"
      case MainActivities => "main_activities"
      case Duration => "duration"
      case ReferenceNumber => "reference_number"
      case PublicationDate => "publication_date"
      case InquiryDeadline => "inquiry_deadline"
      case SubmissionDeadline => "submission_deadline"
      case OpeningDate => "opening_date"
      case TenderUrl => "tender_url"
      case TenderName => "tender_name"
      case Agency => "agency"
      case Category => "category"
      case Url => "url"
      case StartDate => "start_date"
      case EndDate => "end_date"
      case City => "city"
      case Price => "price"
    }
  }

  /** A record dictionary: key to value. */
  type Record = map<Key, PyValue>

  /** The keys of every record `fetch_tenders` emits. */
  const FetchedFields: set<Key> := {
    TenderId, TenderTitle, Organization, TenderType, MainActivities, Duration,
    ReferenceNumber, PublicationDate, InquiryDeadline, SubmissionDeadline,
    OpeningDate, TenderUrl}

  /** The shape of every record `fetch_tenders` emits: its twelve keys, a text
      id and URL, and a datetime or `None` under each date key. */
  predicate Fetched(rec: Record) {
    && rec.Keys == FetchedFields && RecordId(rec).Some? && UrlIsText(rec)
    && forall k :: k in rec && k in {PublicationDate, InquiryDeadline, SubmissionDeadline, OpeningDate} ==>
      rec[k].Stamp? || rec[k] == Py(JNull)
  }

  function DateCell(t: Option<DateTime>): PyValue {
    match t
    case None => Py(JNull)
    case Some(v) => Stamp(v)
  }

  /** One date field of an item: when present and truthy, a string value cut at
      its first `T` and read with `strptime('%Y-%m-%d')`; `None` otherwise or when
      that raises. */
  function ItemDate(fields: map<string, JValue>, key: string): (r: Option<DateTime>)
    ensures r.Some? ==> r.value.micros == 0 && ValidDateTime(r.value)
    ensures r.Some? <==>
      key in fields && fields[key].JStr? && ParseYmd(BeforeFirst(fields[key].s, 'T')).Some?
  {
    if key in fields && Truthy(fields[key]) && fields[key].JStr? then
      match ParseYmd(BeforeFirst(fields[key].s, 'T'))
      case Some(d) => Some(Midnight(d))
      case None => None
    else None
  }

  /** An RFC 3339 date-time whose date part is `d` yields midnight of `d`, whatever follows the `T`. */
  lemma DateTimeTextGivesItsDate(fields: map<string, JValue>, key: string, d: Date, rest: string)
    requires ValidDate(d)
    requires key in fields && fields[key] == JStr(FormatYmd(d) + "T" + rest)
    ensures ItemDate(fields, key) == Some(Midnight(d))
  {
    var s := FormatYmd(d) + "T" + rest;
    var f := FormatYmd(d);
    assert 'T' !in f by {
      forall i | 0 <= i < |f| ensures f[i] != 'T' {
        assert f == Pad(d.year, 4) + "-" + Pad(d.month, 2) + "-" + Pad(d.day, 2);
        if i < 4 {
          assert f[i] == Pad(d.year, 4)[i];
        } else if 5 <= i < 7 {
          assert f[i] == Pad(d.month, 2)[i - 5];
        } else if 8 <= i {
          assert f[i] == Pad(d.day, 2)[i - 8];
        }
      }
    }
    BeforeFirstIsPrefixBeforeMark(f, rest, 'T');
    ParseFormatRoundTrip(d);
  }

  lemma BeforeFirstIsPrefixBeforeMark(f: string, rest: string, c: char)
    requires c !in f
    ensures BeforeFirst(f + [c] + rest, c) == f
  {
    var s := f + [c] + rest;
    assert s[|f|] == c;
    assert s[..|f|] == f;
  }

  /** The record `fetch_tenders` builds from one item of the `data` list, or `None`
      when the item is dropped: it is not an object (`item.get` raises), or its id
      text or its title is empty. */
  function MapItem(item: JValue): (r: Option<Record>)
    ensures r.Some? <==>
      item.JObject? && PyStr(Get(item.fields, "tenderId", JStr(""))) != ""
      && Truthy(Get(item.fields, "tenderName", JStr("")))
    ensures r.Some? ==> Fetched(r.value)
    ensures r.Some? ==>
      var id := PyStr(Get(item.fields, "tenderId", JStr("")));
      && r.value[TenderId] == Py(JStr(id))
      && r.value[TenderUrl] == Py(JStr(VisitorUrlPrefix + id))
      && r.value[TenderTitle] == Py(Get(item.fields, "tenderName", JStr("")))
  {
    if !item.JObject? then None
    else
      var f := item.fields;
      var id := PyStr(Get(f, "tenderId", JStr("")));
      var title := Get(f, "tenderName", JStr(""));
      if id == "" || !Truthy(title) then None
      else Some(BuildRecord(f, id))
  }

  /** The dictionary appended for a kept item with id text `id`. */
  function BuildRecord(f: map<string, JValue>, id: string): (rec: Record)
    ensures Fetched(rec)
    ensures rec[TenderId] == Py(JStr(id))
    ensures rec[TenderUrl] == Py(JStr(VisitorUrlPrefix + id))
    ensures rec[TenderTitle] == Py(Get(f, "tenderName", JStr("")))
  {
    map k | k in FetchedFields :: Cell(f, id, k)
  }

  /** The value a kept item puts under key `k`: the item's field or its
      default, a parsed date or `None`, and the visitor URL built from the id;
      the other keys are never written. */
  function Cell(f: map<string, JValue>, id: string, k: Key): PyValue {
    match k
    case TenderId => Py(JStr(id))
    case TenderTitle => Py(Get(f, "tenderName", JStr("")))
    case Organization => Py(Get(f, "agencyName", JStr("Unknown")))
    case TenderType => Py(Get(f, "tenderTypeName", JStr("Unknown")))
    case MainActivities => Py(Get(f, "mainActivity", JStr("")))
    case Duration => Py(Get(f, "tenderDuration", JStr("")))
    case ReferenceNumber => Py(Get(f, "tenderNumber", JStr("")))
    case PublicationDate => DateCell(ItemDate(f, "submitionDate"))
    case InquiryDeadline => DateCell(ItemDate(f, "lastEnqueryDate"))
    case SubmissionDeadline => DateCell(ItemDate(f, "lastOfferPresentationDate"))
    case OpeningDate => DateCell(ItemDate(f, "openingDate"))
    case TenderUrl => Py(JStr(VisitorUrlPrefix + id))
    case _ => Py(JNull)
  }

  /** An item without a `tenderId` key gets the id `''` and is dropped. */
  lemma MissingIdDropsItem(f: map<string, JValue>)
    requires "tenderId" !in f
    ensures MapItem(JObject(f)).None?
  {
  }

  /** An item whose `tenderId` is JSON `null` gets the id `'None'` and is kept when it has a title. */
  lemma NullIdIsKeptAsNone(f: map<string, JValue>)
    requires "tenderId" in f && f["tenderId"] == JNull
    requires "tenderName" in f && Truthy(f["tenderName"])
    ensures MapItem(JObject(f)).Some?
    ensures MapItem(JObject(f)).value[TenderId] == Py(JStr("None"))
    ensures MapItem(JObject(f)).value[TenderUrl] == Py(JStr(VisitorUrlPrefix + "None"))
  {
  }

  /** The records of the items that are kept, in item order. */
  function MapItems(items: seq<JValue>): (r: seq<Record>)
    ensures |r| <= |items|
    ensures forall i :: 0 <= i < |r| ==> Fetched(r[i])
  {
    if items == [] then []
    else
      var rest := MapItems(items[1..]);
      match MapItem(items[0])
      case Some(rec) => [rec] + rest
      case None => rest
  }

  /** Items are processed independently: the records of a concatenation are the
      records of its parts, so one item that raises affects no sibling. */
  lemma {:induction false} MapItemsDistributes(a: seq<JValue>, b: seq<JValue>)
    ensures MapItems(a + b) == MapItems(a) + MapItems(b)
    decreases |a|
  {
    if a == [] {
      assert a + b == b;
    } else {
      assert (a + b)[0] == a[0];
      assert (a + b)[1..] == a[1..] + b;
      MapItemsDistributes(a[1..], b);
    }
  }

  /** `fetch_tenders` after the HTTP exchange: the status code and the decoded body
      (`None` when the text is not JSON). Anything but a 200 response whose body is
      an object with a list under `data` yields no records. */
  function FetchTenders(status: int, body: Option<JValue>): (r: seq<Record>)
    ensures r != [] ==> (status == 200 && body.Some? && body.value.JObject?
      && "data" in body.value.fields && body.value.fields["data"].JArray?)
    ensures forall i :: 0 <= i < |r| ==> Fetched(r[i])
  {
    if status != 200 || body.None? then []
    else match body.value
      case JObject(f) =>
        if "data" in f && f["data"].JArray? then MapItems(f["data"].elems) else []
      case _ => []
  }

  /** The dictionary keys `save_tenders_to_db` reads for the six mapped columns. */
  datatype SaveKeys = SaveKeys(
    title: Key, organization: Key, tenderType: Key, url: Key,
    start: Key, end: Key)

  /** The keys as written in `save_tenders_to_db`. */
  const SourceKeys: SaveKeys :=
    SaveKeys(TenderName, Agency, Category, Url, StartDate, EndDate)

  /** The keys `fetch_tenders` actually emits for the same columns. */
  const FetchedKeys: SaveKeys :=
    SaveKeys(TenderTitle, Organization, TenderType, TenderUrl, PublicationDate,
             SubmissionDeadline)

  /** What a record can raise while it is saved: a missing key, a value its
      column cannot take, or a text longer than its VARCHAR column. */
  datatype SaveError = KeyError(key: Key) | ColumnTypeError(key: Key) | TooLong(key: Key, width: nat)

  /** `tender_title` and `tender_url` are VARCHAR(500). */
  const LongTextWidth: nat := 500

  /** The other text columns the save writes are VARCHAR(255). */
  const TextWidth: nat := 255

  /** `str(e)` of the error: Python prints a `KeyError` as the quoted key, and
      PostgreSQL names the VARCHAR type an over-long value did not fit. */
  function ErrorText(e: SaveError): string {
    match e
    case KeyError(k) => "'" + k.Name() + "'"
    case ColumnTypeError(k) => "value of " + k.Name() + " cannot be stored"
    case TooLong(_, w) => "value too long for type character varying(" + NatToString(w) + ")"
  }

  function PyTruthy(v: PyValue): bool {
    match v
    case Py(j) => Truthy(j)
    case Stamp(_) => true
  }

  /** `rec[key]`, raising `KeyError` when absent. */
  function Lookup(rec: Record, key: Key): (r: Result<PyValue, SaveError>)
    ensures r.Err? <==> key !in rec
    ensures r.Err? ==> r.error == KeyError(key)
  {
    if key in rec then Ok(rec[key]) else Err(KeyError(key))
  }

  /** `rec.get(key, default)`. */
  function GetOr(rec: Record, key: Key, default: PyValue): PyValue {
    if key in rec then rec[key] else default
  }

  /** A value written to a nullable text column, read as PostgreSQL's
      assignment cast reads it: `None` is NULL, a string is itself, an integer
      its decimal text and a boolean `true` or `false`; anything else raises. */
  function AsText(key: Key, v: PyValue): (r: Result<Option<string>, SaveError>)
    ensures r.Ok? <==> v.Py? && (v.json.JNull? || v.json.JStr? || v.json.JInt? || v.json.JBool?)
    ensures r.Err? ==> r.error == ColumnTypeError(key)
    ensures r == Ok(None) <==> v == Py(JNull)
    ensures v.Py? && v.json.JStr? ==> r == Ok(Some(v.json.s))
    ensures v.Py? && v.json.JBool? ==> r == Ok(Some(if v.json.b then "true" else "false"))
  {
    match v
    case Py(JNull) => Ok(None)
    case Py(JStr(s)) => Ok(Some(s))
    case Py(JInt(n)) => Ok(Some(IntToString(n)))
    case Py(JBool(b)) => Ok(Some(if b then "true" else "false"))
    case _ => Err(ColumnTypeError(key))
  }

  /** A non-negative integer lands in a text column as its decimal digits,
      which read back as the integer. */
  lemma IntegerCastReadsBack(key: Key, n: nat)
    ensures AsText(key, Py(JInt(n))).Ok? && AsText(key, Py(JInt(n))).value.Some?
    ensures var t := AsText(key, Py(JInt(n))).value.value; AllDigits(t) && DigitsValue(t) == n
  {
    NatToStringRoundTrip(n);
  }

  /** The characters of `s` from index `n` on are all spaces. */
  predicate SpacesFrom(s: string, n: nat) {
    forall i :: n <= i < |s| ==> s[i] == ' '
  }

  /** A value written to a `VARCHAR(width)` column. PostgreSQL rejects a
      longer text unless its excess characters are all spaces, which it
      drops. */
  function ColumnText(key: Key, width: nat, v: PyValue): (r: Result<Option<string>, SaveError>)
    ensures r.Ok? <==> (&& AsText(key, v).Ok?
      && (AsText(key, v).value.Some? ==> |AsText(key, v).value.value| <= width || SpacesFrom(AsText(key, v).value.value, width)))
    ensures r.Ok? ==> (r.value.None? <==> AsText(key, v).value.None?)
    ensures r.Ok? && r.value.Some? ==>
      var t := AsText(key, v).value.value;
      && |r.value.value| == (if |t| <= width then |t| else width)
      && r.value.value == t[..|r.value.value|] && SpacesFrom(t, |r.value.value|)
    ensures AsText(key, v).Ok? && r.Err? ==> r.error == TooLong(key, width)
  {
    var t :- AsText(key, v);
    if t.Some? && |t.value| > width then
      if SpacesFrom(t.value, width) then Ok(Some(t.value[..width])) else Err(TooLong(key, width))
    else Ok(t)
  }

  /** A text that fits its column is stored unchanged. */
  lemma FittingTextIsKept(key: Key, width: nat, s: string)
    requires |s| <= width
    ensures ColumnText(key, width, Py(JStr(s))) == Ok(Some(s))
  {
  }

  /** A value written to a nullable datetime column. */
  function AsStamp(key: Key, v: PyValue): Result<Option<DateTime>, SaveError> {
    match v
    case Stamp(t) => Ok(Some(t))
    case Py(JNull) => Ok(None)
    case _ => Err(ColumnTypeError(key))
  }

  /** The `VARCHAR(width)` column read from `rec[key]`. */
  function TextField(rec: Record, key: Key, width: nat): Result<Option<string>, SaveError> {
    var v :- Lookup(rec, key);
    ColumnText(key, width, v)
  }

  /** Every `tender_id` in the table fits its VARCHAR(255) column. */
  predicate IdsFit(store: Store) {
    forall k :: k in store ==> |k| <= TextWidth
  }

  /** The id under which `rec` is upserted, when it has a text `tender_id`. */
  function RecordId(rec: Record): Option<string> {
    if TenderId in rec && rec[TenderId].Py? && rec[TenderId].json.JStr?
    then Some(rec[TenderId].json.s)
    else None
  }

  /** One iteration of the save loop's body: update the row with the record's id,
      or create it. The flag is true when a row was created. The dictionary
      reads raise first; the column errors follow, as they surface when the
      session flushes the row. */
  function Upsert(store: Store, rec: Record, keys: SaveKeys, now: DateTime)
    : (r: Result<(Store, bool), SaveError>)
    ensures r.Ok? ==> RecordId(rec).Some?
    ensures r.Ok? ==>
      var id := RecordId(rec).value;
      && r.value.0.Keys == store.Keys + {id}
      && (r.value.1 <==> id !in store)
      && (forall k :: k in store && k != id ==> r.value.0[k] == store[k])
    ensures r.Ok? && WellKeyed(store) ==> WellKeyed(r.value.0)
    ensures r.Ok? && IdsFit(store) ==> IdsFit(r.value.0)
    ensures RecordId(rec).Some? && keys.title !in rec ==> r == Err(KeyError(keys.title))
  {
    var idValue :- Lookup(rec, TenderId);
    if RecordId(rec).None? then Err(ColumnTypeError(TenderId))
    else
      var id := RecordId(rec).value;
      var m :- ReadColumns(rec, keys);
      if id in store then
        var t := store[id];
        var published :-
          if keys.start in rec && PyTruthy(rec[keys.start]) then AsStamp(keys.start, rec[keys.start])
          else Ok(t.publicationDate);
        var deadline :-
          if keys.end in rec && PyTruthy(rec[keys.end]) then AsStamp(keys.end, rec[keys.end])
          else Ok(t.submissionDeadline);
        Ok((store[id := Updated(t, m, published, deadline, now)], false))
      else if |id| > TextWidth then Err(TooLong(TenderId, TextWidth))
      else
        var published :- AsStamp(keys.start, GetOr(rec, keys.start, Py(JNull)));
        var deadline :- AsStamp(keys.end, GetOr(rec, keys.end, Py(JNull)));
        Ok((store[id := Created(id, m, published, deadline, now)], true))
  }

  /** The six text columns a record maps to, as they will be written. */
  datatype Mapped = Mapped(title: Option<string>, organization: Option<string>,
                           tenderType: Option<string>, city: Option<string>,
                           price: Option<string>, url: Option<string>)

  /** The record's text columns: the four dictionary reads first (each may
      raise `KeyError`), then the values converted for their columns (the city
      defaulting to `'Unknown'` and the price to `''`). */
  function ReadColumns(rec: Record, keys: SaveKeys): (r: Result<Mapped, SaveError>)
    ensures r.Ok? ==> (&& Ok(r.value.title) == TextField(rec, keys.title, LongTextWidth)
      && Ok(r.value.organization) == TextField(rec, keys.organization, TextWidth)
      && Ok(r.value.tenderType) == TextField(rec, keys.tenderType, TextWidth)
      && Ok(r.value.url) == TextField(rec, keys.url, LongTextWidth)
      && Ok(r.value.city) == ColumnText(City, TextWidth, GetOr(rec, City, Py(JStr("Unknown"))))
      && Ok(r.value.price) == ColumnText(Price, TextWidth, GetOr(rec, Price, Py(JStr("")))))
    ensures r.Ok? <==> (&& TextField(rec, keys.title, LongTextWidth).Ok?
      && TextField(rec, keys.organization, TextWidth).Ok?
      && TextField(rec, keys.tenderType, TextWidth).Ok?
      && TextField(rec, keys.url, LongTextWidth).Ok?
      && ColumnText(City, TextWidth, GetOr(rec, City, Py(JStr("Unknown")))).Ok?
      && ColumnText(Price, TextWidth, GetOr(rec, Price, Py(JStr("")))).Ok?)
    ensures keys.title !in rec ==> r == Err(KeyError(keys.title))
  {
    var titleValue :- Lookup(rec, keys.title);
    var organizationValue :- Lookup(rec, keys.organization);
    var tenderTypeValue :- Lookup(rec, keys.tenderType);
    var urlValue :- Lookup(rec, keys.url);
    var title :- ColumnText(keys.title, LongTextWidth, titleValue);
    var organization :- ColumnText(keys.organization, TextWidth, organizationValue);
    var tenderType :- ColumnText(keys.tenderType, TextWidth, tenderTypeValue);
    var city :- ColumnText(City, TextWidth, GetOr(rec, City, Py(JStr("Unknown"))));
    var price :- ColumnText(Price, TextWidth, GetOr(rec, Price, Py(JStr(""))));
    var url :- ColumnText(keys.url, LongTextWidth, urlValue);
    Ok(Mapped(title, organization, tenderType, city, price, url))
  }

  /** The existing row with the mapped columns overwritten and `updated_at` stamped. */
  function Updated(t: Tender, m: Mapped, published: Option<DateTime>, deadline: Option<DateTime>,
                   now: DateTime): Tender {
    t.(tenderTitle := m.title, organization := m.organization, tenderType := m.tenderType,
       city := m.city, price := m.price, publicationDate := published,
       submissionDeadline := deadline, tenderUrl := m.url, updatedAt := Some(now))
  }

  /** A new row: the mapped columns, `''` for the reference number, main
      activities and duration, nothing for the inquiry and opening dates. */
  function Created(id: string, m: Mapped, published: Option<DateTime>, deadline: Option<DateTime>,
                   now: DateTime): Tender {
    Tender(id, Some(""), published, m.tenderType, m.title, m.organization, m.url, Some(""), Some(""), None,
           deadline, None, m.city, m.price, Some(now), Some(now))
  }

  /** An update overwrites exactly the mapped columns and `updated_at`: title,
      organization, type and URL from the record, the city (`'Unknown'` when
      absent) and the price (`''` when absent), and each date from the record
      when it is truthy there; a date whose key is missing or falsy keeps the
      stored date. */
  lemma UpsertUpdatesMappedColumns(store: Store, rec: Record, keys: SaveKeys, now: DateTime)
    requires Upsert(store, rec, keys, now).Ok? && RecordId(rec).value in store
    ensures var id := RecordId(rec).value;
      var (old_, new_) := (store[id], Upsert(store, rec, keys, now).value.0[id]);
      && new_.tenderId == old_.tenderId
      && new_.referenceNumber == old_.referenceNumber && new_.mainActivities == old_.mainActivities
      && new_.duration == old_.duration && new_.inquiryDeadline == old_.inquiryDeadline
      && new_.openingDate == old_.openingDate && new_.createdAt == old_.createdAt
      && new_.updatedAt == Some(now)
      && Ok(new_.tenderTitle) == TextField(rec, keys.title, LongTextWidth)
      && Ok(new_.organization) == TextField(rec, keys.organization, TextWidth)
      && Ok(new_.tenderType) == TextField(rec, keys.tenderType, TextWidth)
      && Ok(new_.tenderUrl) == TextField(rec, keys.url, LongTextWidth)
      && Ok(new_.city) == ColumnText(City, TextWidth, GetOr(rec, City, Py(JStr("Unknown"))))
      && Ok(new_.price) == ColumnText(Price, TextWidth, GetOr(rec, Price, Py(JStr(""))))
      && (City !in rec ==> new_.city == Some("Unknown"))
      && (Price !in rec ==> new_.price == Some(""))
      && (keys.start in rec && PyTruthy(rec[keys.start]) ==> Ok(new_.publicationDate) == AsStamp(keys.start, rec[keys.start]))
      && (keys.end in rec && PyTruthy(rec[keys.end]) ==> Ok(new_.submissionDeadline) == AsStamp(keys.end, rec[keys.end]))
      && (!(keys.start in rec && PyTruthy(rec[keys.start])) ==> new_.publicationDate == old_.publicationDate)
      && (!(keys.end in rec && PyTruthy(rec[keys.end])) ==> new_.submissionDeadline == old_.submissionDeadline)
  {
  }

  /** A created row carries the record's id and mapped columns (the city
      `'Unknown'` and the price `''` when absent, each date `None` when
      absent), `''` defaults and `created_at == updated_at == now`. */
  lemma UpsertCreatesWithDefaults(store: Store, rec: Record, keys: SaveKeys, now: DateTime)
    requires Upsert(store, rec, keys, now).Ok? && RecordId(rec).value !in store
    ensures var id := RecordId(rec).value;
      var t := Upsert(store, rec, keys, now).value.0[id];
      && t.tenderId == id && |id| <= TextWidth
      && t.referenceNumber == Some("") && t.mainActivities == Some("") && t.duration == Some("")
      && t.inquiryDeadline.None? && t.openingDate.None?
      && t.createdAt == Some(now) && t.updatedAt == Some(now)
      && Ok(t.tenderTitle) == TextField(rec, keys.title, LongTextWidth)
      && Ok(t.organization) == TextField(rec, keys.organization, TextWidth)
      && Ok(t.tenderType) == TextField(rec, keys.tenderType, TextWidth)
      && Ok(t.tenderUrl) == TextField(rec, keys.url, LongTextWidth)
      && Ok(t.city) == ColumnText(City, TextWidth, GetOr(rec, City, Py(JStr("Unknown"))))
      && Ok(t.price) == ColumnText(Price, TextWidth, GetOr(rec, Price, Py(JStr(""))))
      && (City !in rec ==> t.city == Some("Unknown"))
      && (Price !in rec ==> t.price == Some(""))
      && Ok(t.publicationDate) == AsStamp(keys.start, GetOr(rec, keys.start, Py(JNull)))
      && Ok(t.submissionDeadline) == AsStamp(keys.end, GetOr(rec, keys.end, Py(JNull)))
      && (keys.start !in rec ==> t.publicationDate.None?)
      && (keys.end !in rec ==> t.submissionDeadline.None?)
  {
  }

  /** The save loop's state: the session's working table, the last committed table
      and the two counters. */
  datatype Progress = Progress(work: Store, committed: Store, newCount: nat, updatedCount: nat)

  /** The counters and checkpoint after one record was upserted into `work`:
      one more new or updated record, and a commit when the running total is a
      multiple of 50. */
  function Advance(p: Progress, work: Store, created: bool): (q: Progress)
    ensures q.work == work
    ensures q.newCount + q.updatedCount == p.newCount + p.updatedCount + 1
    ensures q.newCount == p.newCount + (if created then 1 else 0)
    ensures (q.newCount + q.updatedCount) % CommitEvery == 0 ==> q.committed == work
    ensures (q.newCount + q.updatedCount) % CommitEvery != 0 ==> q.committed == p.committed
  {
    var n := if created then p.newCount + 1 else p.newCount;
    var u := if created then p.updatedCount else p.updatedCount + 1;
    Progress(work, if (n + u) % CommitEvery == 0 then work else p.committed, n, u)
  }

  /** Upsert one record, then advance the counters. */
  function SaveStep(p: Progress, rec: Record, keys: SaveKeys, now: DateTime): (r: Result<Progress, SaveError>)
    ensures r.Err? <==> Upsert(p.work, rec, keys, now).Err?
  {
    var (work, created) :- Upsert(p.work, rec, keys, now);
    Ok(Advance(p, work, created))
  }

  /** The save loop over `recs[i..]`. An error yields the last committed table:
      the rollback discards the work since that commit. */
  function SaveLoop(recs: seq<Record>, i: nat, p: Progress, keys: SaveKeys, now: DateTime)
    : Result<Progress, (Store, SaveError)>
    requires i <= |recs|
    decreases |recs| - i
  {
    if i == |recs| then Ok(p)
    else match SaveStep(p, recs[i], keys, now)
      case Err(e) => Err((p.committed, e))
      case Ok(q) => SaveLoop(recs, i + 1, q, keys, now)
  }

  /** The result of `save_tenders_to_db`: the counts and the table after the final
      commit, or the error re-raised and the table left by the rollback. */
  datatype SaveOutcome =
    | Saved(store: Store, newCount: nat, updatedCount: nat)
    | SaveFailed(store: Store, error: SaveError)

  function Start(store: Store): Progress {
    Progress(store, store, 0, 0)
  }

  /** `save_tenders_to_db(recs)` reading the dictionary keys `keys`. */
  function SaveTenders(store: Store, recs: seq<Record>, keys: SaveKeys, now: DateTime): SaveOutcome {
    match SaveLoop(recs, 0, Start(store), keys, now)
    case Ok(p) => Saved(p.work, p.newCount, p.updatedCount)
    case Err((c, e)) => SaveFailed(c, e)
  }

  /** The ids of a sequence of records. */
  function Ids(recs: seq<Record>): (ids: set<string>)
    ensures forall i :: 0 <= i < |recs| && RecordId(recs[i]).Some? ==> RecordId(recs[i]).value in ids
  {
    if recs == [] then {}
    else
      var last := recs[|recs| - 1];
      Ids(recs[..|recs| - 1]) + (if RecordId(last).Some? then {RecordId(last).value} else {})
  }

  /** The loop invariant of a successful save: the two counts add up to the
      records seen, every id seen is in the table, and the new count is the number
      of distinct ids the table lacked. */
  ghost predicate Accounts(store: Store, recs: seq<Record>, i: nat, p: Progress)
    requires i <= |recs|
  {
    && p.newCount + p.updatedCount == i
    && p.work.Keys == store.Keys + Ids(recs[..i])
    && p.newCount == |Ids(recs[..i]) - store.Keys|
    && (WellKeyed(store) ==> WellKeyed(p.work))
  }

  lemma IdsSnoc(recs: seq<Record>, i: nat)
    requires i < |recs| && RecordId(recs[i]).Some?
    ensures Ids(recs[..i + 1]) == Ids(recs[..i]) + {RecordId(recs[i]).value}
  {
    assert recs[..i + 1][..i] == recs[..i];
  }

  /** Seeing one more id adds one to the ids the table lacked exactly when that id is new. */
  lemma NewIdsStep(keys: set<string>, seen: set<string>, id: string)
    ensures |(seen + {id}) - keys| == |seen - keys| + (if id in keys + seen then 0 else 1)
  {
    if id !in keys + seen {
      assert (seen + {id}) - keys == (seen - keys) + {id};
    } else {
      assert (seen + {id}) - keys == seen - keys;
    }
  }

  /** One upsert keeps the accounts: a created row adds a new id, an updated
      row's id was already in the table or seen. */
  lemma StepAccounts(store: Store, recs: seq<Record>, i: nat, p: Progress, work: Store, created: bool)
    requires i < |recs| && Accounts(store, recs, i, p) && RecordId(recs[i]).Some?
    requires work.Keys == p.work.Keys + {RecordId(recs[i]).value}
    requires created <==> RecordId(recs[i]).value !in p.work
    requires WellKeyed(p.work) ==> WellKeyed(work)
    ensures Accounts(store, recs, i + 1, Advance(p, work, created))
  {
    IdsSnoc(recs, i);
    NewIdsStep(store.Keys, Ids(recs[..i]), RecordId(recs[i]).value);
  }

  lemma {:induction false} SaveLoopAccounts(
    store: Store, recs: seq<Record>, i: nat, p: Progress, keys: SaveKeys, now: DateTime)
    requires i <= |recs| && Accounts(store, recs, i, p)
    requires SaveLoop(recs, i, p, keys, now).Ok?
    ensures Accounts(store, recs, |recs|, SaveLoop(recs, i, p, keys, now).value)
    decreases |recs| - i
  {
    if i < |recs| {
      var (work, created) := Upsert(p.work, recs[i], keys, now).value;
      var q := Advance(p, work, created);
      assert SaveLoop(recs, i, p, keys, now) == SaveLoop(recs, i + 1, q, keys, now);
      StepAccounts(store, recs, i, p, work, created);
      SaveLoopAccounts(store, recs, i + 1, q, keys, now);
    }
  }

  /** A successful save counts every record as either new or updated, leaves
      every record's id in the table, counts as new exactly the distinct ids the
      table lacked, and keeps each row under its own `tender_id`. */
  lemma SavedAccountsForEveryRecord(store: Store, recs: seq<Record>, keys: SaveKeys, now: DateTime)
    requires SaveTenders(store, recs, keys, now).Saved?
    ensures var r := SaveTenders(store, recs, keys, now);
      && r.newCount + r.updatedCount == |recs|
      && r.store.Keys == store.Keys + Ids(recs)
      && r.newCount == |Ids(recs) - store.Keys|
      && (WellKeyed(store) ==> WellKeyed(r.store))
  {
    assert recs[..0] == [];
    assert Ids(recs[..0]) == {};
    SaveLoopAccounts(store, recs, 0, Start(store), keys, now);
    assert recs[..|recs|] == recs;
  }

  /** Running the loop over one more record is one more step. */
  lemma {:induction false} SaveLoopSnoc(
    recs: seq<Record>, x: Record, i: nat, p: Progress, keys: SaveKeys, now: DateTime)
    requires i <= |recs|
    ensures SaveLoop(recs + [x], i, p, keys, now) ==
      match SaveLoop(recs, i, p, keys, now)
      case Err(z) => Err(z)
      case Ok(q) =>
        match SaveStep(q, x, keys, now)
        case Err(e) => Err((q.committed, e))
        case Ok(q') => Ok(q')
    decreases |recs| - i
  {
    var all := recs + [x];
    if i < |recs| {
      assert all[i] == recs[i];
      match SaveStep(p, recs[i], keys, now)
      case Err(e) =>
      case Ok(q) => SaveLoopSnoc(recs, x, i + 1, q, keys, now);
    } else {
      assert all[i] == x;
      match SaveStep(p, x, keys, now)
      case Err(e) =>
      case Ok(q) => assert SaveLoop(all, i + 1, q, keys, now) == Ok(q);
    }
  }

  function Last50(k: nat): nat {
    k - k % CommitEvery
  }

  /** After a successful run over the first `k` records the committed table is
      the working table of the run over the first `Last50(k)` records. */
  ghost predicate CheckpointAt(store: Store, recs: seq<Record>, k: nat, keys: SaveKeys, now: DateTime)
    requires k <= |recs|
  {
    SaveLoop(recs[..k], 0, Start(store), keys, now).Ok? ==>
      var q := SaveLoop(recs[..k], 0, Start(store), keys, now).value;
      && q.newCount + q.updatedCount == k
      && SaveLoop(recs[..Last50(k)], 0, Start(store), keys, now).Ok?
      && q.committed == SaveLoop(recs[..Last50(k)], 0, Start(store), keys, now).value.work
  }

  lemma {:induction false} CheckpointHolds(
    store: Store, recs: seq<Record>, k: nat, keys: SaveKeys, now: DateTime)
    requires k <= |recs|
    ensures CheckpointAt(store, recs, k, keys, now)
    decreases k
  {
    if k == 0 {
      CheckpointAtStart(store, recs, keys, now);
    } else {
      CheckpointHolds(store, recs, k - 1, keys, now);
      CheckpointStep(store, recs, k, keys, now);
    }
  }

  /** Before any record, nothing has been counted and the table is committed. */
  lemma CheckpointAtStart(store: Store, recs: seq<Record>, keys: SaveKeys, now: DateTime)
    ensures CheckpointAt(store, recs, 0, keys, now)
  {
    assert recs[..0] == [];
  }

  /** One more successful step keeps the checkpoint: it either commits the
      working table or leaves the last commit in place. */
  lemma CheckpointStep(store: Store, recs: seq<Record>, k: nat, keys: SaveKeys, now: DateTime)
    requires 0 < k <= |recs| && CheckpointAt(store, recs, k - 1, keys, now)
    ensures CheckpointAt(store, recs, k, keys, now)
  {
    var before := recs[..k - 1];
    var after := recs[..k];
    assert after == before + [recs[k - 1]];
    SaveLoopSnoc(before, recs[k - 1], 0, Start(store), keys, now);
    var prev := SaveLoop(before, 0, Start(store), keys, now);
    var whole := SaveLoop(after, 0, Start(store), keys, now);
    if prev.Ok? && whole.Ok? {
      var p := prev.value;
      var step := Upsert(p.work, recs[k - 1], keys, now);
      assert step.Ok?;
      var q := Advance(p, step.value.0, step.value.1);
      assert whole.value == q;
      Last50Step(k);
    }
  }

  /** The last multiple of 50 moves to `k` exactly when `k` is one. */
  lemma Last50Step(k: nat)
    requires 0 < k
    ensures k % CommitEvery == 0 ==> Last50(k) == k
    ensures k % CommitEvery != 0 ==> Last50(k) == Last50(k - 1)
  {
  }

  /** A save that raises keeps what the last commit held: the table a save of
      only the records up to the last multiple of 50 before the failing record
      would leave. Every record before the failing one was applied. */
  lemma FailedSaveKeepsLastCheckpoint(store: Store, recs: seq<Record>, keys: SaveKeys, now: DateTime)
    requires SaveTenders(store, recs, keys, now).SaveFailed?
    ensures exists f :: (0 <= f < |recs|
      && SaveTenders(store, recs[..f], keys, now).Saved?
      && SaveTenders(store, recs[..f + 1], keys, now).SaveFailed?
      && SaveTenders(store, recs[..Last50(f)], keys, now).Saved?
      && SaveTenders(store, recs, keys, now).store
         == SaveTenders(store, recs[..Last50(f)], keys, now).store)
  {
    assert recs[..|recs|] == recs;
    var f := FirstFailure(store, recs, |recs|, keys, now);
    CheckpointHolds(store, recs, f, keys, now);
    FailedStepKeepsCommitted(store, recs, f, keys, now);
    FailureIsSticky(store, recs, f + 1, keys, now);
    var q := SaveLoop(recs[..f], 0, Start(store), keys, now).value;
    assert SaveTenders(store, recs, keys, now).store == q.committed;
  }

  /** The record that raises leaves the table of the last commit before it. */
  lemma FailedStepKeepsCommitted(store: Store, recs: seq<Record>, f: nat, keys: SaveKeys, now: DateTime)
    requires f < |recs|
    requires SaveLoop(recs[..f], 0, Start(store), keys, now).Ok?
    requires SaveLoop(recs[..f + 1], 0, Start(store), keys, now).Err?
    ensures SaveLoop(recs[..f + 1], 0, Start(store), keys, now).error.0
      == SaveLoop(recs[..f], 0, Start(store), keys, now).value.committed
  {
    var before := recs[..f];
    assert recs[..f + 1] == before + [recs[f]];
    SaveLoopSnoc(before, recs[f], 0, Start(store), keys, now);
  }

  /** The index of the record whose save raises, among the first `k`. */
  lemma {:induction false} FirstFailure(store: Store, recs: seq<Record>, k: nat, keys: SaveKeys, now: DateTime)
    returns (f: nat)
    requires k <= |recs| && SaveLoop(recs[..k], 0, Start(store), keys, now).Err?
    ensures f < k
    ensures SaveLoop(recs[..f], 0, Start(store), keys, now).Ok?
    ensures SaveLoop(recs[..f + 1], 0, Start(store), keys, now).Err?
    decreases k
  {
    if k == 0 {
      assert false;
    }
    assert recs[..k] == recs[..k - 1] + [recs[k - 1]];
    SaveLoopSnoc(recs[..k - 1], recs[k - 1], 0, Start(store), keys, now);
    if SaveLoop(recs[..k - 1], 0, Start(store), keys, now).Err? {
      f := FirstFailure(store, recs, k - 1, keys, now);
    } else {
      f := k - 1;
    }
  }

  /** Once a prefix fails, every longer prefix fails with the same committed table. */
  lemma {:induction false} FailureIsSticky(store: Store, recs: seq<Record>, k: nat, keys: SaveKeys, now: DateTime)
    requires 0 < k <= |recs|
    requires SaveLoop(recs[..k], 0, Start(store), keys, now).Err?
    ensures SaveLoop(recs, 0, Start(store), keys, now) == SaveLoop(recs[..k], 0, Start(store), keys, now)
    decreases |recs| - k
  {
    if k == |recs| {
      assert recs[..k] == recs;
    } else {
      assert recs[..k + 1] == recs[..k] + [recs[k]];
      SaveLoopSnoc(recs[..k], recs[k], 0, Start(store), keys, now);
      FailureIsSticky(store, recs, k + 1, keys, now);
    }
  }

  /** The outcome of `scrape`: the log row, the tenders table, and the error re-raised, if any. */
  datatype ScrapeRun = ScrapeRun(log: ScrapingLog, store: Store, raised: Option<SaveError>)

  function SuccessMessage(scraped: nat, created: nat, updated: nat): string {
    "Successfully scraped " + NatToString(scraped) + " tenders. New: " + NatToString(created)
    + ", Updated: " + NatToString(updated)
  }

  /** `scrape`: a RUNNING log row committed at `start`, then the fetch; a non-empty
      fetch is saved (SUCCESS with the counts, or ERROR with the error re-raised),
      an empty one gives WARNING. `now` stamps the rows and the log's end. */
  function Scrape(store: Store, keys: SaveKeys, status: int, body: Option<JValue>,
                  start: DateTime, now: DateTime): (r: ScrapeRun)
    ensures r.log.status.IsTerminal() && r.log.endTime == Some(now) && r.log.startTime == Some(start)
    ensures r.log.status == Warning <==> FetchTenders(status, body) == []
    ensures r.log.status == Warning ==> r.log.message == Some("No tenders found") && r.store == store
    ensures r.raised.Some? <==> r.log.status == Error
    ensures r.log.status == Success ==>
      && r.log.tendersScraped == |FetchTenders(status, body)|
      && r.log.newTenders + r.log.updatedTenders == r.log.tendersScraped
    ensures r.log.status == Success ==>
      var s := SaveTenders(store, FetchTenders(status, body), keys, now);
      && s.Saved? && s.store == r.store
      && s.newCount == r.log.newTenders && s.updatedCount == r.log.updatedTenders
    ensures r.log.status == Error ==>
      SaveTenders(store, FetchTenders(status, body), keys, now) == SaveFailed(r.store, r.raised.value)
  {
    var log := NewScrapingLog(start);
    var tenders := FetchTenders(status, body);
    if tenders != [] then
      match SaveTenders(store, tenders, keys, now)
      case Saved(s, created, updated) =>
        SavedAccountsForEveryRecord(store, tenders, keys, now);
        ScrapeRun(
          log.(status := Success, tendersScraped := |tenders|, newTenders := created,
               updatedTenders := updated, message := Some(SuccessMessage(|tenders|, created, updated)),
               endTime := Some(now)),
          s, None)
      case SaveFailed(committed, e) =>
        ScrapeRun(
          log.(status := Error, message := Some("Error during scraping: " + ErrorText(e)),
               endTime := Some(now)),
          committed, Some(e))
    else
      ScrapeRun(log.(status := Warning, message := Some("No tenders found"), endTime := Some(now)),
                store, None)
  }

  /** `run_scraper`: the same run, with a re-raised error swallowed (only logged). */
  function RunScraper(store: Store, status: int, body: Option<JValue>, start: DateTime, now: DateTime)
    : (r: (ScrapingLog, Store))
    ensures r.0.status.IsTerminal() && r.0.endTime == Some(now)
  {
    var run := Scrape(store, SourceKeys, status, body, start, now);
    (run.log, run.store)
  }

  /** As written, `save_tenders_to_db` reads `tender_data['tender_name']`, a key
      `fetch_tenders` never emits: every non-empty fetch ends in ERROR with
      `KeyError('tender_name')`, raised on the first record before any commit,
      so the table is left exactly as it was. */
  lemma NonEmptyFetchEndsInError(store: Store, status: int, body: Option<JValue>,
                                 start: DateTime, now: DateTime)
    requires FetchTenders(status, body) != []
    ensures var r := Scrape(store, SourceKeys, status, body, start, now);
      && r.log.status == Error
      && r.raised == Some(KeyError(TenderName))
      && r.log.message == Some("Error during scraping: 'tender_name'")
      && r.store == store
  {
    var recs := FetchTenders(status, body);
    SourceKeysFailOnFirstRecord(store, recs, now);
    var m := "Error during scraping: " + ErrorText(KeyError(TenderName));
    assert Scrape(store, SourceKeys, status, body, start, now).log.message == Some(m);
    KeyErrorMessage();
  }

  lemma KeyErrorMessage()
    ensures "Error during scraping: " + ErrorText(KeyError(TenderName)) == "Error during scraping: 'tender_name'"
  {
    assert ErrorText(KeyError(TenderName)) == "'tender_name'";
  }

  /** The save reading the source's keys raises on the first fetched record. */
  lemma SourceKeysFailOnFirstRecord(store: Store, recs: seq<Record>, now: DateTime)
    requires recs != [] && Fetched(recs[0])
    ensures SaveTenders(store, recs, SourceKeys, now) == SaveFailed(store, KeyError(TenderName))
  {
    assert TenderName !in recs[0];
    assert SaveStep(Start(store), recs[0], SourceKeys, now).Err?;
  }

  /** Every value the save writes from a fetched record fits its column: the
      title and the URL (VARCHAR(500)), the organization and the type
      (VARCHAR(255)) are text, a number, a boolean or null no longer than the
      column, and the id has at most 255 characters. */
  predicate StorableText(rec: Record) {
    && Fits(rec, TenderTitle, LongTextWidth) && Fits(rec, Organization, TextWidth)
    && Fits(rec, TenderType, TextWidth) && Fits(rec, TenderUrl, LongTextWidth)
    && (RecordId(rec).Some? ==> |RecordId(rec).value| <= TextWidth)
  }

  predicate Fits(rec: Record, k: Key, width: nat) {
    k in rec && ColumnText(k, width, rec[k]).Ok?
  }

  /** Read with the keys `fetch_tenders` emits, a non-empty fetch ends in
      SUCCESS exactly when every record fits the table's columns, and then
      every fetched record is counted as new or updated; otherwise the run
      ends in ERROR. */
  lemma FetchedKeysScrapeSucceeds(store: Store, status: int, body: Option<JValue>,
                                  start: DateTime, now: DateTime)
    requires FetchTenders(status, body) != [] && IdsFit(store)
    ensures var r := Scrape(store, FetchedKeys, status, body, start, now);
      && (r.log.status == Success <==>
            forall i :: 0 <= i < |FetchTenders(status, body)| ==> StorableText(FetchTenders(status, body)[i]))
      && (r.log.status != Success ==> r.log.status == Error)
      && (r.log.status == Success ==>
            && r.log.tendersScraped == |FetchTenders(status, body)|
            && r.log.newTenders + r.log.updatedTenders == r.log.tendersScraped)
  {
    var recs := FetchTenders(status, body);
    FetchedRecordsSave(store, recs, 0, Start(store), now);
    AllFitMeans(recs, 0);
  }

  /** Every record from index `i` on fits the table's columns. */
  predicate AllFit(recs: seq<Record>, i: nat)
    requires i <= |recs|
    decreases |recs| - i
  {
    i == |recs| || (StorableText(recs[i]) && AllFit(recs, i + 1))
  }

  lemma {:induction false} AllFitMeans(recs: seq<Record>, i: nat)
    requires i <= |recs|
    ensures AllFit(recs, i) <==> forall j :: i <= j < |recs| ==> StorableText(recs[j])
    decreases |recs| - i
  {
    if i < |recs| {
      AllFitMeans(recs, i + 1);
    }
  }

  lemma {:induction false} FetchedRecordsSave(store: Store, recs: seq<Record>, i: nat, p: Progress, now: DateTime)
    requires i <= |recs| && IdsFit(p.work)
    requires forall j :: 0 <= j < |recs| ==> Fetched(recs[j])
    ensures SaveLoop(recs, i, p, FetchedKeys, now).Ok? <==> AllFit(recs, i)
    decreases |recs| - i
  {
    if i < |recs| {
      var rec := recs[i];
      FetchedSaveStep(p, rec, now);
      var step := SaveStep(p, rec, FetchedKeys, now);
      if step.Ok? {
        FetchedRecordsSave(store, recs, i + 1, step.value, now);
      }
    }
  }

  /** One step of the save over a fetched record succeeds exactly when the
      record fits, and keeps every id within its column. */
  lemma FetchedSaveStep(p: Progress, rec: Record, now: DateTime)
    requires Fetched(rec) && IdsFit(p.work)
    ensures SaveStep(p, rec, FetchedKeys, now).Ok? <==> StorableText(rec)
    ensures SaveStep(p, rec, FetchedKeys, now).Ok? ==> IdsFit(SaveStep(p, rec, FetchedKeys, now).value.work)
  {
    FetchedRecordUpserts(p.work, rec, now);
  }

  /** A fetched record is stored under the fetch's keys exactly when it fits
      the table's columns. */
  lemma FetchedRecordUpserts(store: Store, rec: Record, now: DateTime)
    requires Fetched(rec) && IdsFit(store)
    ensures Upsert(store, rec, FetchedKeys, now).Ok? <==> StorableText(rec)
  {
    FetchedColumnsRead(rec);
    FetchedDatesConvert(rec);
    var id := RecordId(rec).value;
    if id in store {
      assert |id| <= TextWidth;
    }
  }

  /** The text columns of a fetched record convert exactly when they fit. */
  lemma FetchedColumnsRead(rec: Record)
    requires Fetched(rec)
    ensures ReadColumns(rec, FetchedKeys).Ok? <==>
      && Fits(rec, TenderTitle, LongTextWidth) && Fits(rec, Organization, TextWidth)
      && Fits(rec, TenderType, TextWidth) && Fits(rec, TenderUrl, LongTextWidth)
  {
    assert City !in rec && Price !in rec;
    assert ColumnText(City, TextWidth, Py(JStr("Unknown"))).Ok?;
    assert ColumnText(Price, TextWidth, Py(JStr(""))).Ok?;
  }

  /** The two dates of a fetched record are datetimes or `None`, which their
      columns take. */
  lemma FetchedDatesConvert(rec: Record)
    requires Fetched(rec)
    ensures AsStamp(PublicationDate, rec[PublicationDate]).Ok?
    ensures AsStamp(SubmissionDeadline, rec[SubmissionDeadline]).Ok?
  {
    assert PublicationDate in rec && SubmissionDeadline in rec;
  }

  /** A fetched title of 501 characters whose last is not a space makes the
      save raise on its record: the title column is VARCHAR(500). */
  lemma OverlongTitleIsRejected(store: Store, rec: Record, now: DateTime, title: string)
    requires Fetched(rec) && rec[TenderTitle] == Py(JStr(title)) && |title| == 501 && title[500] != ' '
    ensures Upsert(store, rec, FetchedKeys, now) == Err(TooLong(TenderTitle, LongTextWidth))
  {
    assert !SpacesFrom(title, LongTextWidth);
  }

  /** A fetched title of 500 characters and a trailing space is stored
      without the space. */
  lemma TrailingSpaceIsDropped(store: Store, rec: Record, now: DateTime, title: string)
    requires Fetched(rec) && rec[TenderTitle] == Py(JStr(title + " ")) && |title| == LongTextWidth
    requires StorableText(rec[TenderTitle := Py(JStr(title))]) && IdsFit(store)
    ensures Upsert(store, rec, FetchedKeys, now).Ok?
    ensures Upsert(store, rec, FetchedKeys, now).value.0[RecordId(rec).value].tenderTitle == Some(title)
  {
    assert (title + " ")[..LongTextWidth] == title;
    assert SpacesFrom(title + " ", LongTextWidth);
    assert ColumnText(TenderTitle, LongTextWidth, rec[TenderTitle]) == Ok(Some(title));
    assert StorableText(rec);
    FetchedRecordUpserts(store, rec, now);
    if RecordId(rec).value in store {
      UpsertUpdatesMappedColumns(store, rec, FetchedKeys, now);
    } else {
      UpsertCreatesWithDefaults(store, rec, FetchedKeys, now);
    }
  }

  predicate UrlIsText(rec: Record) {
    TenderUrl in rec && rec[TenderUrl].Py? && rec[TenderUrl].json.JStr?
  }
}
