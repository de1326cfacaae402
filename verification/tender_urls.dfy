/** `update_tender_urls`: pick the tenders to visit (placeholder URLs first
    when a limit is given), then give each a `TenderDetails` URL built from the
    id in its visitor URL, or else a search URL built from its title. Each new
    URL is committed on its own; a commit that raises is rolled back. */
module TenderUrls {
  import opened Wrappers
  import opened Text
  import opened Models
  import opened UrlQuote
  import opened Sorting

  /** The site's tender pages. */
  const Site: string := "https://tenders.etimad.sa/Tender/"

  /** `https://tenders.etimad.sa/Tender/List?SearchText=` */
  const SearchUrlPrefix: string := Site + "List?" + "SearchText" + "="

  /** `https://tenders.etimad.sa/Tender/TenderDetails/` */
  const DetailsUrlPrefix: string := Site + "TenderDetails" + "/"

  /** `tender_url` is VARCHAR(500): a longer value makes the commit raise. */
  const MaxUrlLength: nat := 500

  /** The search term keeps at most this many words of the title. */
  const MaxSearchWords: nat := 5

  /** A title whose stripped length is below this gives no search URL. */
  const MinTitleLength: nat := 5

  /** The literal part of `StenderID=(\d+)`. */
  const StenderKey: string := "StenderID="

  /** `" ".join(title.split()[:5])`: the title's first five words. */
  function SearchTerm(title: string): (term: string)
    ensures Words(term) == Words(title)[..Min(MaxSearchWords, |Words(title)|)]
  {
    var ws := Words(title);
    var first := ws[..Min(MaxSearchWords, |ws|)];
    assert forall i :: 0 <= i < |first| ==> first[i] == ws[i];
    WordsOfJoin(first);
    JoinWords(first)
  }

  /** `search_tender_by_title`: no URL for a missing, empty or short title;
      otherwise the search page URL whose `SearchText` percent-decodes to the
      title's first five words. */
  function SearchTenderByTitle(title: Option<string>): (r: Option<string>)
    ensures r.None? <==> title.None? || title.value == [] || |Strip(title.value)| < MinTitleLength
    ensures r.Some? ==> |r.value| >= |SearchUrlPrefix| && r.value[..|SearchUrlPrefix|] == SearchUrlPrefix
    ensures r.Some? ==> Unquote(r.value[|SearchUrlPrefix|..]) == Some(Encode(SearchTerm(title.value)))
  {
    if title.None? || title.value == [] || |Strip(title.value)| < MinTitleLength then None
    else
      var q := Quote(SearchTerm(title.value));
      QuoteRoundTrip(SearchTerm(title.value));
      assert (SearchUrlPrefix + q)[|SearchUrlPrefix|..] == q;
      Some(SearchUrlPrefix + q)
  }

  /** The search text in a URL from `SearchTenderByTitle` decodes to the
      title's first five words, so it always names the title. */
  lemma SearchUrlReadsBack(title: Option<string>)
    requires SearchTenderByTitle(title).Some?
    ensures var u := SearchTenderByTitle(title).value;
      var decoded := Decode(Unquote(u[|SearchUrlPrefix|..]).value);
      && decoded.Some?
      && Words(decoded.value) == Words(title.value)[..Min(MaxSearchWords, |Words(title.value)|)]
  {
    DecodeEncode(SearchTerm(title.value));
  }

  /** `b` occurs where `a` ends in `a + b + c`. */
  lemma StartsAtMiddle(a: string, b: string, c: string)
    ensures StartsAt(a + b + c, b, |a|)
  {
    assert (a + b + c)[|a|..|a| + |b|] == b;
  }

  /** Every search URL contains `SearchText`. */
  lemma SearchUrlHasSearchText(title: Option<string>)
    requires SearchTenderByTitle(title).Some?
    ensures Contains(SearchTenderByTitle(title).value, "SearchText")
  {
    var u := SearchTenderByTitle(title).value;
    SearchPrefixed(u);
    PrefixedHasSearchText(u[|SearchUrlPrefix|..]);
  }

  lemma SearchPrefixed(u: string)
    requires |u| >= |SearchUrlPrefix| && u[..|SearchUrlPrefix|] == SearchUrlPrefix
    ensures u == SearchUrlPrefix + u[|SearchUrlPrefix|..]
  {
  }

  lemma PrefixedHasSearchText(q: string)
    ensures Contains(SearchUrlPrefix + q, "SearchText")
  {
    assert SearchUrlPrefix + q == (Site + "List?") + "SearchText" + ("=" + q);
    StartsAtMiddle(Site + "List?", "SearchText", "=" + q);
  }

  /** Where `StenderID=(\d+)` matches: the key followed by at least one digit. */
  predicate MatchAt(url: string, i: int) {
    StartsAt(url, StenderKey, i) && i + |StenderKey| < |url| && IsDigit(url[i + |StenderKey|])
  }

  /** The length of the run of digits starting at `i`. */
  function DigitRun(s: string, i: nat): (n: nat)
    requires i <= |s|
    ensures i + n <= |s|
    ensures forall j :: i <= j < i + n ==> IsDigit(s[j])
    ensures i + n < |s| ==> !IsDigit(s[i + n])
    decreases |s| - i
  {
    if i < |s| && IsDigit(s[i]) then 1 + DigitRun(s, i + 1) else 0
  }

  /** The leftmost match position at or after `from`. */
  function FirstMatch(url: string, from: nat): (r: Option<nat>)
    ensures r.Some? ==> from <= r.value && MatchAt(url, r.value)
    ensures r.Some? ==> forall i :: from <= i < r.value ==> !MatchAt(url, i)
    ensures r.None? ==> forall i :: from <= i ==> !MatchAt(url, i)
    decreases |url| - from
  {
    if from + |StenderKey| >= |url| then None
    else if MatchAt(url, from) then Some(from)
    else FirstMatch(url, from + 1)
  }

  /** `re.search(r'StenderID=(\d+)', url).group(1)`: the digits after the
      leftmost key that a digit follows, as many as there are (ASCII digits). */
  function ExtractStenderId(url: string): (r: Option<string>)
    ensures r.None? <==> forall i :: !MatchAt(url, i)
    ensures r.Some? ==> r.value != [] && AllDigits(r.value)
  {
    match FirstMatch(url, 0)
    case None => None
    case Some(i) =>
      var start := i + |StenderKey|;
      var n := DigitRun(url, start);
      Some(url[start..start + n])
  }

  /** The group is the whole digit run after the leftmost match, and no
      earlier position matches. */
  lemma ExtractStenderIdIsLeftmostGreedy(url: string)
    requires ExtractStenderId(url).Some?
    ensures var d := ExtractStenderId(url).value;
      exists i :: (&& MatchAt(url, i)
        && (forall j :: 0 <= j < i ==> !MatchAt(url, j))
        && url[i + |StenderKey|..i + |StenderKey| + |d|] == d
        && (i + |StenderKey| + |d| == |url| || !IsDigit(url[i + |StenderKey| + |d|])))
  {
    var i := FirstMatch(url, 0).value;
    assert MatchAt(url, i);
  }

  /** What happens to one tender's URL. */
  datatype Action = Skipped | Rewritten(url: string) | Failed

  predicate Truthy(u: Option<string>) {
    u.Some? && u.value != []
  }

  /** The URL is already in the preferred format. */
  predicate HasDetailsUrl(url: Option<string>) {
    Truthy(url) && Contains(url.value, "TenderDetails")
  }

  /** The details URL for a visitor URL carrying a numeric `StenderID`. */
  function DirectUrl(url: Option<string>): (r: Option<string>)
    ensures r.Some? ==> Truthy(url) && Contains(url.value, "DetaielsForVisitors")
    ensures r.Some? ==> (ExtractStenderId(url.value).Some?
      && r.value == DetailsUrlPrefix + ExtractStenderId(url.value).value)
  {
    if Truthy(url) && Contains(url.value, "DetaielsForVisitors") then
      match ExtractStenderId(url.value)
      case None => None
      case Some(d) => Some(DetailsUrlPrefix + d)
    else None
  }

  /** Setting the URL and committing: kept when it fits the column, rolled
      back (the tender counts as failed) when it does not. */
  function CommitUrl(u: string): (a: Action)
    ensures a == Rewritten(u) || a == Failed
    ensures a.Rewritten? <==> |u| <= MaxUrlLength
  {
    if |u| <= MaxUrlLength then Rewritten(u) else Failed
  }

  /** The URL a tender is given, if any can be built: the direct details URL,
      else the title's search URL. */
  function Candidate(url: Option<string>, title: Option<string>): Option<string> {
    if DirectUrl(url).Some? then DirectUrl(url) else SearchTenderByTitle(title)
  }

  /** `u` is non-empty and its last character is not a space. */
  predicate EndsWithoutSpace(u: string) {
    u != [] && u[|u| - 1] != ' '
  }

  /** A URL the pass builds never ends in a space, so PostgreSQL's dropping of
      trailing spaces past the column width never applies to it: one longer
      than 500 characters always makes the commit raise. */
  lemma CandidateEndsWithoutSpace(url: Option<string>, title: Option<string>)
    ensures Candidate(url, title).Some? ==> EndsWithoutSpace(Candidate(url, title).value)
  {
    if DirectUrl(url).Some? {
      DirectUrlEndsInDigit(url);
    } else if SearchTenderByTitle(title).Some? {
      SearchUrlEndsWithoutSpace(title);
    }
  }

  lemma DirectUrlEndsInDigit(url: Option<string>)
    requires DirectUrl(url).Some?
    ensures EndsWithoutSpace(DirectUrl(url).value) && IsDigit(DirectUrl(url).value[|DirectUrl(url).value| - 1])
  {
    var d := ExtractStenderId(url.value).value;
    assert IsDigit(d[|d| - 1]);
  }

  lemma SearchUrlEndsWithoutSpace(title: Option<string>)
    requires SearchTenderByTitle(title).Some?
    ensures EndsWithoutSpace(SearchTenderByTitle(title).value)
  {
    var q := Quote(SearchTerm(title.value));
    assert SearchTenderByTitle(title).value == SearchUrlPrefix + q;
    PrefixEndsInEquals();
    QuoteAlphabet(SearchTerm(title.value));
    QuotedTailEndsWithoutSpace(SearchUrlPrefix, q);
  }

  /** A text ending in a non-space, followed by quoted characters, does not
      end in a space. */
  lemma QuotedTailEndsWithoutSpace(p: string, q: string)
    requires p != [] && p[|p| - 1] != ' '
    requires forall i :: 0 <= i < |q| ==> QuotedChar(q[i])
    ensures EndsWithoutSpace(p + q)
  {
    if q != [] {
      assert (p + q)[|p + q| - 1] == q[|q| - 1];
    }
  }

  lemma PrefixEndsInEquals()
    ensures |SearchUrlPrefix| > 0 && SearchUrlPrefix[|SearchUrlPrefix| - 1] == '='
  {
  }

  /** The loop body of `update_tender_urls` for one tender. */
  function Rewrite(url: Option<string>, title: Option<string>): (a: Action)
    ensures a == Skipped <==> HasDetailsUrl(url)
    ensures a.Rewritten? ==> |a.url| <= MaxUrlLength
    ensures a == Failed <==> !HasDetailsUrl(url) && (Candidate(url, title).None? || |Candidate(url, title).value| > MaxUrlLength)
  {
    if HasDetailsUrl(url) then Skipped
    else match Candidate(url, title)
      case None => Failed
      case Some(u) => CommitUrl(u)
  }

  /** The URL column after the action. */
  function NewUrl(a: Action, current: Option<string>): Option<string> {
    if a.Rewritten? then Some(a.url) else current
  }

  function RewriteTender(t: Tender): (r: Tender)
    ensures r == t.(tenderUrl := r.tenderUrl)
    ensures Rewrite(t.tenderUrl, t.tenderTitle).Rewritten? ==>
      r.tenderUrl == Some(Rewrite(t.tenderUrl, t.tenderTitle).url)
    ensures !Rewrite(t.tenderUrl, t.tenderTitle).Rewritten? ==> r == t
  {
    t.(tenderUrl := NewUrl(Rewrite(t.tenderUrl, t.tenderTitle), t.tenderUrl))
  }

  /** A details URL is left alone by the next pass. */
  lemma DetailsUrlIsSkipped(d: string)
    ensures HasDetailsUrl(Some(DetailsUrlPrefix + d))
  {
    var u := DetailsUrlPrefix + d;
    assert u == Site + "TenderDetails" + ("/" + d);
    StartsAtMiddle(Site, "TenderDetails", "/" + d);
  }

  predicate NoEquals(s: string) {
    forall i :: 0 <= i < |s| ==> s[i] != '='
  }

  lemma NoEqualsConcat(a: string, b: string)
    requires NoEquals(a) && NoEquals(b)
    ensures NoEquals(a + b)
  {
    forall i | 0 <= i < |a + b| ensures (a + b)[i] != '=' {
      if i >= |a| {
        assert (a + b)[i] == b[i - |a|];
      }
    }
  }

  /** In `a + "=" + q` with no `=` in `a` or `q`, the only `=` ends `a`. */
  lemma OnlyEquals(a: string, q: string, j: int)
    requires NoEquals(a) && NoEquals(q)
    requires 0 <= j < |a + "=" + q| && j != |a|
    ensures (a + "=" + q)[j] != '='
  {
    if j < |a| {
      assert (a + "=" + q)[j] == a[j];
    } else {
      assert (a + "=" + q)[j] == q[j - |a| - 1];
    }
  }

  /** The search URL up to its only `=`. */
  lemma SearchHeadHasNoEquals()
    ensures NoEquals(Site + "List?" + "SearchText")
  {
    assert NoEquals("https://tenders.");
    assert NoEquals("etimad.sa");
    assert NoEquals("/Tender/");
    assert NoEquals("List?");
    assert NoEquals("SearchText");
    assert Site == "https://tenders." + "etimad.sa" + "/Tender/";
    NoEqualsConcat("https://tenders.", "etimad.sa");
    NoEqualsConcat("https://tenders." + "etimad.sa", "/Tender/");
    NoEqualsConcat(Site, "List?");
    NoEqualsConcat(Site + "List?", "SearchText");
  }

  /** A search URL never carries `StenderID=`: its only `=` ends
      `SearchText=`, where the key would need `S` and finds `e`, and the
      quoted text has none. */
  lemma SearchUrlHasNoStenderId(title: Option<string>)
    requires SearchTenderByTitle(title).Some?
    ensures forall i :: !MatchAt(SearchTenderByTitle(title).value, i)
  {
    var u := SearchTenderByTitle(title).value;
    SearchPrefixed(u);
    var q := u[|SearchUrlPrefix|..];
    assert q == Quote(SearchTerm(title.value));
    QuoteAlphabet(SearchTerm(title.value));
    QuotedHasNoEquals(q);
    PrefixedHasNoKey(q);
  }

  lemma QuotedHasNoEquals(q: string)
    requires forall i :: 0 <= i < |q| ==> QuotedChar(q[i])
    ensures NoEquals(q)
  {
    forall i | 0 <= i < |q| ensures q[i] != '=' {
      assert QuotedChar(q[i]);
    }
  }

  lemma PrefixedHasNoKey(q: string)
    requires NoEquals(q)
    ensures forall i :: !StartsAt(SearchUrlPrefix + q, StenderKey, i)
  {
    var u := SearchUrlPrefix + q;
    var head := Site + "List?" + "SearchText";
    assert u == head + "=" + q;
    assert head[|head| - 9] == 'e';
    SearchHeadHasNoEquals();
    forall i ensures !StartsAt(u, StenderKey, i) {
      if i < 0 || i + |StenderKey| > |u| {
      } else if i + 9 == |head| {
        assert u[i..i + |StenderKey|][0] == u[i] == head[|head| - 9];
      } else {
        OnlyEquals(head, q, i + 9);
        assert u[i..i + |StenderKey|][9] == u[i + 9];
      }
    }
  }

  /** A second visit leaves the URL as the first visit set it. */
  lemma RewriteIsIdempotent(t: Tender)
    ensures RewriteTender(RewriteTender(t)) == RewriteTender(t)
  {
    var a := Rewrite(t.tenderUrl, t.tenderTitle);
    if a.Rewritten? {
      var u := a.url;
      var t1 := RewriteTender(t);
      if DirectUrl(t.tenderUrl).Some? {
        DetailsUrlIsSkipped(ExtractStenderId(t.tenderUrl.value).value);
      } else if !HasDetailsUrl(Some(u)) {
        SearchUrlHasNoStenderId(t.tenderTitle);
        assert DirectUrl(Some(u)).None?;
        assert Rewrite(t1.tenderUrl, t1.tenderTitle) == Rewritten(u);
      }
    }
  }

  /** The counters of `update_tender_urls`, and the number of rate-limiting
      pauses it makes. */
  datatype Counts = Counts(updated: nat, failed: nat, skipped: nat, sleeps: nat)

  /** The loop pauses after a tender only on the search path: the URL is not
      a details URL, no direct URL could be built from it, and the title gave a
      search URL (whether or not the commit then succeeds). */
  predicate Sleeps(t: Tender) {
    !HasDetailsUrl(t.tenderUrl) && DirectUrl(t.tenderUrl).None? && SearchTenderByTitle(t.tenderTitle).Some?
  }

  function Tally(c: Counts, a: Action, slept: bool): Counts {
    var c := if slept then c.(sleeps := c.sleeps + 1) else c;
    match a
    case Skipped => c.(skipped := c.skipped + 1)
    case Rewritten(_) => c.(updated := c.updated + 1)
    case Failed => c.(failed := c.failed + 1)
  }

  /** The outcomes each counter counts. */
  datatype Tag = Update | Fail | Skip | Sleep

  predicate HasTag(a: Action, slept: bool, tag: Tag) {
    match tag
    case Update => a.Rewritten?
    case Fail => a == Failed
    case Skip => a == Skipped
    case Sleep => slept
  }

  predicate Tagged(t: Tender, tag: Tag) {
    HasTag(Rewrite(t.tenderUrl, t.tenderTitle), Sleeps(t), tag)
  }

  function Bit(b: bool): nat {
    if b then 1 else 0
  }

  /** Each counter goes up by one exactly when the outcome carries its tag. */
  lemma TallyAddsTags(c: Counts, a: Action, slept: bool)
    ensures Tally(c, a, slept) == Counts(c.updated + Bit(HasTag(a, slept, Update)),
      c.failed + Bit(HasTag(a, slept, Fail)), c.skipped + Bit(HasTag(a, slept, Skip)),
      c.sleeps + Bit(HasTag(a, slept, Sleep)))
  {
  }

  /** The tenders of the table whose row has the outcome `tag`. */
  function Marked(store: Store, tag: Tag): set<string> {
    set k | k in store && Tagged(store[k], tag)
  }

  /** The ids of `ids` that lie in `m`. */
  function Among(ids: seq<string>, m: set<string>): set<string> {
    set k | k in ids && k in m
  }

  /** The visited tenders whose own row, as it was before the pass, has the outcome `tag`. */
  function WithTag(store: Store, ids: seq<string>, tag: Tag): set<string> {
    Among(ids, Marked(store, tag))
  }

  /** The counts the pass should report over distinct ids. */
  function Expected(store: Store, ids: seq<string>): Counts {
    Counts(|WithTag(store, ids, Update)|, |WithTag(store, ids, Fail)|,
           |WithTag(store, ids, Skip)|, |WithTag(store, ids, Sleep)|)
  }

  lemma AmongHead(ids: seq<string>, m: set<string>)
    requires ids != [] && ids[0] !in ids[1..]
    ensures |Among(ids, m)| == |Among(ids[1..], m)| + (if ids[0] in m then 1 else 0)
  {
    assert forall k :: k in ids <==> k == ids[0] || k in ids[1..];
    if ids[0] in m {
      assert Among(ids, m) == Among(ids[1..], m) + {ids[0]};
    } else {
      assert Among(ids, m) == Among(ids[1..], m);
    }
  }

  /** Rewriting one row changes no other row's outcome. */
  lemma MarkedElsewhere(store: Store, k0: string, t: Tender, ids: seq<string>, tag: Tag)
    requires k0 in store && k0 !in ids
    ensures Among(ids, Marked(store[k0 := t], tag)) == Among(ids, Marked(store, tag))
  {
    forall k | k in ids
      ensures k in Marked(store[k0 := t], tag) <==> k in Marked(store, tag)
    {
      assert k != k0;
    }
  }

  /** Visiting the first id and rewriting its row leaves the outcomes of the
      remaining distinct ids unchanged, and adds its own. */
  lemma WithTagStep(store: Store, ids: seq<string>, tag: Tag)
    requires ids != [] && Distinct(ids) && ids[0] in store
    ensures var t := store[ids[0]];
      |WithTag(store, ids, tag)|
        == |WithTag(store[ids[0] := RewriteTender(t)], ids[1..], tag)| + Bit(Tagged(t, tag))
  {
    var t := store[ids[0]];
    DistinctTail(ids);
    MarkedElsewhere(store, ids[0], RewriteTender(t), ids[1..], tag);
    AmongHead(ids, Marked(store, tag));
    assert ids[0] in Marked(store, tag) <==> Tagged(t, tag);
  }

  lemma ExpectedStep(store: Store, ids: seq<string>, a: Action, slept: bool)
    requires ids != [] && ids[0] in store
    requires a == Rewrite(store[ids[0]].tenderUrl, store[ids[0]].tenderTitle) && slept == Sleeps(store[ids[0]])
    ensures Distinct(ids) ==>
      Expected(store, ids) == Tally(Expected(store[ids[0] := RewriteTender(store[ids[0]])], ids[1..]), a, slept)
  {
    if Distinct(ids) {
      var t := store[ids[0]];
      TallyAddsTags(Expected(store[ids[0] := RewriteTender(t)], ids[1..]), a, slept);
      WithTagStep(store, ids, Update);
      WithTagStep(store, ids, Fail);
      WithTagStep(store, ids, Skip);
      WithTagStep(store, ids, Sleep);
    }
  }

  /** The loop over the selected tenders, in order. */
  function Pass(store: Store, ids: seq<string>): (r: (Store, Counts))
    requires forall i :: 0 <= i < |ids| ==> ids[i] in store
    ensures r.0.Keys == store.Keys
    ensures r.1.updated + r.1.failed + r.1.skipped == |ids|
    ensures r.1.sleeps <= |ids|
    ensures Distinct(ids) ==> r.1 == Expected(store, ids)
    ensures forall k :: k in store && k !in ids ==> r.0[k] == store[k]
    ensures Distinct(ids) ==> forall k :: k in ids ==> r.0[k] == RewriteTender(store[k])
    decreases |ids|
  {
    if ids == [] then (store, Counts(0, 0, 0, 0))
    else
      var t := store[ids[0]];
      var rest := Pass(store[ids[0] := RewriteTender(t)], ids[1..]);
      assert forall k :: k in ids[1..] ==> k in ids;
      DistinctTail(ids);
      var a := Rewrite(t.tenderUrl, t.tenderTitle);
      ExpectedStep(store, ids, a, Sleeps(t));
      (rest.0, Tally(rest.1, a, Sleeps(t)))
  }

  /** Running the pass twice over the same tenders changes nothing the first
      run did not. */
  lemma PassIsIdempotent(store: Store, ids: seq<string>)
    requires forall i :: 0 <= i < |ids| ==> ids[i] in store
    requires Distinct(ids)
    ensures Pass(Pass(store, ids).0, ids).0 == Pass(store, ids).0
  {
    var once := Pass(store, ids).0;
    var twice := Pass(once, ids).0;
    forall k | k in once ensures twice[k] == once[k] {
      if k in ids {
        RewriteIsIdempotent(store[k]);
      }
    }
  }

  /** `tender_url LIKE '%StenderID=%5BID%5D%'`: `StenderID=`, later `5BID`,
      later `5D` (the `%` signs of the pattern are wildcards). */
  predicate LikePlaceholder(u: string) {
    match FindFrom(u, "StenderID=", 0)
    case None => false
    case Some(i) =>
      match FindFrom(u, "5BID", i + 10)
      case None => false
      case Some(j) => FindFrom(u, "5D", j + 4).Some?
  }

  /** The leftmost search decides the pattern: it matches exactly when the three
      fragments occur in order without overlapping. */
  lemma LikePlaceholderMatchesPattern(u: string)
    ensures LikePlaceholder(u) <==>
      exists i, j, k :: (&& StartsAt(u, "StenderID=", i) && StartsAt(u, "5BID", j) && StartsAt(u, "5D", k)
        && i + 10 <= j && j + 4 <= k)
  {
    if exists i, j, k :: (&& StartsAt(u, "StenderID=", i) && StartsAt(u, "5BID", j) && StartsAt(u, "5D", k)
        && i + 10 <= j && j + 4 <= k) {
      var i, j, k :| && StartsAt(u, "StenderID=", i) && StartsAt(u, "5BID", j) && StartsAt(u, "5D", k)
        && i + 10 <= j && j + 4 <= k;
      var i0 := FindFrom(u, "StenderID=", 0);
      assert i0.Some? && i0.value <= i;
      var j0 := FindFrom(u, "5BID", i0.value + 10);
      assert j0.Some? && j0.value <= j;
      assert FindFrom(u, "5D", j0.value + 4).Some?;
    }
  }

  /** The tenders the limited query puts first: no URL, an empty one, or the placeholder. */
  predicate NeedsUrl(t: Tender) {
    t.tenderUrl.None? || t.tenderUrl.value == [] || LikePlaceholder(t.tenderUrl.value)
  }

  /** The rows needing a URL, in row order. */
  function Needing(store: Store, rows: seq<string>): (r: seq<string>)
    requires forall i :: 0 <= i < |rows| ==> rows[i] in store
    ensures forall i :: 0 <= i < |r| ==> r[i] in rows && NeedsUrl(store[r[i]])
    ensures forall i :: 0 <= i < |rows| && NeedsUrl(store[rows[i]]) ==> rows[i] in r
    ensures Distinct(rows) ==> Distinct(r)
    ensures |r| <= |rows|
  {
    if rows == [] then []
    else
      var rest := Needing(store, rows[1..]);
      assert forall i :: 0 <= i < |rest| ==> rest[i] in rows[1..];
      if NeedsUrl(store[rows[0]]) then [rows[0]] + rest else rest
  }

  /** The rows not in `taken`, in row order. */
  function Others(rows: seq<string>, taken: seq<string>): (r: seq<string>)
    ensures forall i :: 0 <= i < |r| ==> r[i] in rows && r[i] !in taken
    ensures forall i :: 0 <= i < |rows| && rows[i] !in taken ==> rows[i] in r
    ensures Distinct(rows) ==> Distinct(r)
    ensures |r| <= |rows|
  {
    if rows == [] then []
    else
      var rest := Others(rows[1..], taken);
      assert forall i :: 0 <= i < |rest| ==> rest[i] in rows[1..];
      if rows[0] !in taken then [rows[0]] + rest else rest
  }

  /** `.limit(n)`. */
  function Take(s: seq<string>, n: nat): (r: seq<string>)
    ensures r <= s && |r| == Min(n, |s|)
  {
    s[..Min(n, |s|)]
  }

  /** The tenders `update_tender_urls(limit)` visits: with a positive limit, up
      to `limit` tenders needing a URL, topped up with other tenders; otherwise
      every tender. */
  function SelectForUpdate(store: Store, rows: seq<string>, limit: Option<int>): (sel: seq<string>)
    requires Enumerates(rows, store.Keys)
    ensures Distinct(sel) && forall i :: 0 <= i < |sel| ==> sel[i] in store
    ensures limit.Some? && limit.value > 0 ==> |sel| <= limit.value
    ensures !(limit.Some? && limit.value > 0) ==> sel == rows
  {
    assert Distinct(rows);
    if limit.Some? && limit.value > 0 then
      var all := Needing(store, rows);
      var needing := Take(all, limit.value);
      PrefixDistinct(all, needing);
      if |needing| < limit.value then
        var others := Others(rows, needing);
        var more := Take(others, limit.value - |needing|);
        PrefixDistinct(others, more);
        DistinctJoin(needing, more);
        needing + more
      else needing
    else rows
  }

  lemma PrefixDistinct(s: seq<string>, p: seq<string>)
    requires Distinct(s) && p <= s
    ensures Distinct(p)
  {
    assert forall i :: 0 <= i < |p| ==> p[i] == s[i];
  }

  /** Joining two lists without repeats and without a common entry repeats nothing. */
  lemma DistinctJoin(a: seq<string>, b: seq<string>)
    requires Distinct(a) && Distinct(b)
    requires forall j :: 0 <= j < |b| ==> b[j] !in a
    ensures Distinct(a + b)
  {
    forall i, j | 0 <= i < j < |a + b| ensures (a + b)[i] != (a + b)[j] {
      if j >= |a| && i < |a| {
        assert (a + b)[j] == b[j - |a|] && (a + b)[i] == a[i];
      }
    }
  }

  /** With a positive limit, tenders needing a URL come first, one of them is
      left out only when the selection is already full of them, and any
      tender is left out only when the selection holds `limit` tenders. */
  lemma SelectionPutsPlaceholdersFirst(store: Store, rows: seq<string>, limit: int)
    requires Enumerates(rows, store.Keys) && limit > 0
    ensures var sel := SelectForUpdate(store, rows, Some(limit));
      && (forall i, j :: 0 <= i < j < |sel| && NeedsUrl(store[sel[j]]) ==> NeedsUrl(store[sel[i]]))
      && (forall k :: k in store && NeedsUrl(store[k]) && k !in sel ==>
            |sel| == limit && forall i :: 0 <= i < |sel| ==> NeedsUrl(store[sel[i]]))
      && (forall k :: k in store && k !in sel ==> |sel| == limit)
  {
    var sel := SelectForUpdate(store, rows, Some(limit));
    var all := Needing(store, rows);
    var needing := Take(all, limit);
    if |needing| < limit {
      assert needing == all;
      var others := Others(rows, needing);
      var more := Take(others, limit - |needing|);
      assert sel == needing + more;
      forall j | 0 <= j < |more| ensures !NeedsUrl(store[more[j]]) {
        assert more[j] == others[j];
        var r :| 0 <= r < |rows| && rows[r] == more[j];
      }
      forall k | k in store && NeedsUrl(store[k]) ensures k in sel {
        var r :| 0 <= r < |rows| && rows[r] == k;
      }
      forall k | k in store && k !in sel ensures |sel| == limit {
        var r :| 0 <= r < |rows| && rows[r] == k;
        assert k in others;
      }
    } else {
      assert sel == needing;
    }
  }

  /** `update_tender_urls(limit)`: the number of URLs updated, the table
      afterwards and the counters. */
  function UpdateTenderUrls(store: Store, rows: seq<string>, limit: Option<int>): (r: (nat, Store, Counts))
    requires Enumerates(rows, store.Keys)
    ensures r.0 == r.2.updated
    ensures r.1.Keys == store.Keys
    ensures r.2.updated + r.2.failed + r.2.skipped == |SelectForUpdate(store, rows, limit)|
    ensures r.2 == Expected(store, SelectForUpdate(store, rows, limit))
    ensures forall k :: k in store ==>
      r.1[k] == if k in SelectForUpdate(store, rows, limit) then RewriteTender(store[k]) else store[k]
  {
    var sel := SelectForUpdate(store, rows, limit);
    var (after, counts) := Pass(store, sel);
    (counts.updated, after, counts)
  }
}
