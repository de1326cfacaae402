/** The two persisted entities: a tender row and a scraping-run log row, with
    the dictionaries their `to_dict` methods return. */
module Models {
  import opened Wrappers
  import opened Dates

  /** A row of the `tenders` table. The integer surrogate key `id` is not
      modelled: rows are identified by their unique `tender_id`. */
  datatype Tender = Tender(
    tenderId: string,
    referenceNumber: Option<string>,
    publicationDate: Option<DateTime>,
    tenderType: Option<string>,
    tenderTitle: Option<string>,
    organization: Option<string>,
    tenderUrl: Option<string>,
    mainActivities: Option<string>,
    duration: Option<string>,
    inquiryDeadline: Option<DateTime>,
    submissionDeadline: Option<DateTime>,
    openingDate: Option<DateTime>,
    city: Option<string>,
    price: Option<string>,
    createdAt: Option<DateTime>,
    updatedAt: Option<DateTime>)

  /** The `tenders` table. `tender_id` is non-null and unique, so the table is a map keyed by it. */
  type Store = map<string, Tender>

  /** Each row sits under its own `tender_id`. */
  predicate WellKeyed(s: Store) {
    forall k :: k in s ==> s[k].tenderId == k
  }

  function IdOf(t: Tender): string {
    t.tenderId
  }

  predicate ValidStamp(t: Option<DateTime>) {
    t.Some? ==> ValidDateTime(t.value)
  }

  /** Every datetime column holds a datetime Python can represent. */
  predicate ValidTender(t: Tender) {
    && ValidStamp(t.publicationDate) && ValidStamp(t.inquiryDeadline)
    && ValidStamp(t.submissionDeadline) && ValidStamp(t.openingDate)
    && ValidStamp(t.createdAt) && ValidStamp(t.updatedAt)
  }

  /** No element occurs twice. */
  predicate Distinct<T(==)>(s: seq<T>) {
    forall i, j :: 0 <= i < j < |s| ==> s[i] != s[j]
  }

  /** A list without repeats has as many distinct elements as entries. */
  lemma {:induction false} DistinctCard<T>(s: seq<T>)
    requires Distinct(s)
    ensures |set x | x in s| == |s|
    decreases |s|
  {
    if s != [] {
      DistinctCard(s[1..]);
      assert (set x | x in s) == (set x | x in s[1..]) + {s[0]};
      assert s[0] !in (set x | x in s[1..]);
    }
  }

  /** The tail of a list without repeats has none and lacks the head. */
  lemma DistinctTail<T>(s: seq<T>)
    requires s != []
    ensures Distinct(s) ==> Distinct(s[1..]) && s[0] !in s[1..]
  {
    if Distinct(s) {
      forall j | 0 <= j < |s[1..]| ensures s[1..][j] != s[0] {
        assert s[1..][j] == s[j + 1];
      }
    }
  }

  /** `rows` lists every key of `keys` once: the order in which a query without
      ORDER BY hands the rows back. */
  predicate Enumerates(rows: seq<string>, keys: set<string>) {
    && (forall i, j :: 0 <= i < j < |rows| ==> rows[i] != rows[j])
    && (forall i :: 0 <= i < |rows| ==> rows[i] in keys)
    && (forall k :: k in keys ==> k in rows)
  }

  /** A table has as many rows as keys. */
  lemma EnumeratesSize(rows: seq<string>, keys: set<string>)
    requires Enumerates(rows, keys)
    ensures |rows| == |keys|
  {
    DistinctCard(rows);
    assert keys == set x | x in rows;
  }

  /** The value of a nullable datetime column in a `to_dict` result. */
  function IsoOrNone(t: Option<DateTime>): (r: Option<string>)
    requires ValidStamp(t)
    ensures r.None? <==> t.None?
    ensures r.Some? ==> |r.value| >= 19 && r.value[10] == 'T'
    ensures r.Some? ==> ParseYmd(r.value[..10]) == Some(t.value.date)
  {
    match t
    case None => None
    case Some(v) =>
      IsoFormatStartsWithDate(v);
      Some(IsoFormat(v))
  }

  /** The dictionary `Tender.to_dict` returns (without the surrogate `id`). */
  datatype TenderDict = TenderDict(
    tenderId: string,
    referenceNumber: Option<string>,
    publicationDate: Option<string>,
    tenderType: Option<string>,
    tenderTitle: Option<string>,
    organization: Option<string>,
    tenderUrl: Option<string>,
    mainActivities: Option<string>,
    duration: Option<string>,
    inquiryDeadline: Option<string>,
    submissionDeadline: Option<string>,
    openingDate: Option<string>,
    city: Option<string>,
    price: Option<string>,
    createdAt: Option<string>,
    updatedAt: Option<string>)

  /** `Tender.to_dict`: text columns as they are; each datetime column as its ISO
      text, whose date part reads back as the column's date, or `None` when absent. */
  function TenderToDict(t: Tender): (d: TenderDict)
    requires ValidTender(t)
    ensures d.tenderId == t.tenderId && d.tenderTitle == t.tenderTitle
    ensures d.tenderUrl == t.tenderUrl && d.organization == t.organization
    ensures d.referenceNumber == t.referenceNumber && d.tenderType == t.tenderType
    ensures d.mainActivities == t.mainActivities && d.duration == t.duration
    ensures d.city == t.city && d.price == t.price
    ensures d.publicationDate.None? <==> t.publicationDate.None?
    ensures d.submissionDeadline.None? <==> t.submissionDeadline.None?
    ensures d.inquiryDeadline.None? <==> t.inquiryDeadline.None?
    ensures d.openingDate.None? <==> t.openingDate.None?
    ensures d.createdAt.None? <==> t.createdAt.None?
    ensures d.updatedAt.None? <==> t.updatedAt.None?
  {
    var published := IsoOrNone(t.publicationDate);
    var deadline := IsoOrNone(t.submissionDeadline);
    TenderDict(
      t.tenderId, t.referenceNumber, published, t.tenderType, t.tenderTitle,
      t.organization, t.tenderUrl, t.mainActivities, t.duration, IsoOrNone(t.inquiryDeadline),
      deadline, IsoOrNone(t.openingDate), t.city, t.price,
      IsoOrNone(t.createdAt), IsoOrNone(t.updatedAt))
  }

  /** The ISO text `to_dict` gives a tender's publication date and submission
      deadline reads back, through its first ten characters, as the stored date. */
  lemma ToDictDatesReadBack(t: Tender)
    requires ValidTender(t)
    ensures var d := TenderToDict(t);
      && (d.publicationDate.Some? ==> ParseYmd(d.publicationDate.value[..10]) == Some(t.publicationDate.value.date))
      && (d.submissionDeadline.Some? ==> ParseYmd(d.submissionDeadline.value[..10]) == Some(t.submissionDeadline.value.date))
  {
    var published := IsoOrNone(t.publicationDate);
    var deadline := IsoOrNone(t.submissionDeadline);
    assert TenderToDict(t).publicationDate == published;
    assert TenderToDict(t).submissionDeadline == deadline;
  }

  /** The states a scraping run passes through: RUNNING, then one terminal state. */
  datatype Status = Running | Success | Warning | Error {

    predicate IsTerminal() {
      !Running?
    }

    /** The text stored in the `status` column. */
    function Name(): (n: string)
      ensures |n| >= 5
    {
      match this
      case Running => "RUNNING"
      case Success => "SUCCESS"
      case Warning => "WARNING"
      case Error => "ERROR"
    }
  }

  /** A row of the `scraping_logs` table. */
  datatype ScrapingLog = ScrapingLog(
    startTime: Option<DateTime>,
    endTime: Option<DateTime>,
    status: Status,
    message: Option<string>,
    tendersScraped: int,
    newTenders: int,
    updatedTenders: int)

  /** `ScrapingLog(status="RUNNING")` as committed at `now`: the column defaults. */
  function NewScrapingLog(now: DateTime): (log: ScrapingLog)
    ensures log.status == Running && log.endTime.None? && log.message.None?
    ensures log.tendersScraped == 0 && log.newTenders == 0 && log.updatedTenders == 0
    ensures log.startTime == Some(now)
  {
    ScrapingLog(Some(now), None, Running, None, 0, 0, 0)
  }

  /** The dictionary `ScrapingLog.to_dict` returns (without the surrogate `id`). */
  datatype ScrapingLogDict = ScrapingLogDict(
    startTime: Option<string>,
    endTime: Option<string>,
    status: string,
    message: Option<string>,
    tendersScraped: int,
    newTenders: int,
    updatedTenders: int)

  predicate ValidLog(log: ScrapingLog) {
    ValidStamp(log.startTime) && ValidStamp(log.endTime)
  }

  /** `ScrapingLog.to_dict`: `end_time` is `None` exactly while it is unset. */
  function ScrapingLogToDict(log: ScrapingLog): (d: ScrapingLogDict)
    requires ValidLog(log)
    ensures d.endTime.None? <==> log.endTime.None?
    ensures d.startTime.None? <==> log.startTime.None?
    ensures d.status == log.status.Name() && d.message == log.message
    ensures d.tendersScraped == log.tendersScraped && d.newTenders == log.newTenders
    ensures d.updatedTenders == log.updatedTenders
  {
    ScrapingLogDict(
      IsoOrNone(log.startTime), IsoOrNone(log.endTime), log.status.Name(), log.message,
      log.tendersScraped, log.newTenders, log.updatedTenders)
  }

  /** A log fresh from its constructor reports RUNNING, no end time and zero counts. */
  lemma NewLogDict(now: DateTime)
    requires ValidDateTime(now)
    ensures var d := ScrapingLogToDict(NewScrapingLog(now));
      d.status == "RUNNING" && d.endTime.None? && d.startTime.Some?
      && d.tendersScraped == 0 && d.newTenders == 0 && d.updatedTenders == 0
  {
  }
}
