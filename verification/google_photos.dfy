/**
 `GooglePhotosRepository.get_pictures`: page through the media-item listing,
 keep the images that are not composites, stop early once the oldest picture
 gathered so far is older than the window, and return the pictures inside the
 window.

 The service is the sequence of its responses in request order: `pages[i]`
 answers the i-th request. The loop consults the dated batch of a page only
 once it has requested that page, so a page it never requests cannot raise.
 */
module GooglePhotos {
  import opened Outcomes
  import opened DateTimes
  import opened Timestamps
  import opened Pictures

  /** One response of the listing endpoint. */
  datatype Page = Page(items: seq<MediaItem>, nextPageToken: Option<string>)

  /** Why a fetch raises instead of returning. */
  datatype FetchError =
    | EmptyMinimum                        // `min` over no pictures at all
    | BadTimestamp(creationTime: string)  // neither timestamp shape matched

  /** A page's kept items, dated, or the first timestamp that could not be parsed. */
  type Batch = Result<seq<Picture>, ParseError>

  /** The state of a finished paging loop. */
  datatype Run = Run(
    accumulated: seq<Picture>,      // every kept picture of the consumed pages
    consumed: nat,                  // how many pages were requested
    requests: seq<Option<string>>)  // the `pageToken` each request carried

  /** The result of a fetch: the pictures in the window, and the loop that found them. */
  datatype Fetched = Fetched(pictures: seq<Picture>, run: Run)

  /** A listing the service ends: its last response carries no token. */
  predicate EndsListing(pages: seq<Page>) {
    |pages| > 0 && pages[|pages| - 1].nextPageToken.None?
  }

  /** `p` is the picture made from `item`, dated by its parsed timestamp. */
  predicate DatedFrom(p: Picture, item: MediaItem) {
    p.GooglePhoto? && p.item == item && ParseCreationTime(item.creationTime) == Ok(p.date)
  }

  /** `ps` are the pictures made from `items`, each dated by its parsed timestamp. */
  predicate Parsed(ps: seq<Picture>, items: seq<MediaItem>) {
    && |ps| == |items|
    && forall i :: 0 <= i < |ps| ==> DatedFrom(ps[i], items[i])
  }

  lemma ParsedAppend(a: seq<Picture>, x: seq<MediaItem>, b: seq<Picture>, y: seq<MediaItem>)
    requires Parsed(a, x) && Parsed(b, y)
    ensures Parsed(a + b, x + y)
  {
    forall i | 0 <= i < |a| + |b|
      ensures DatedFrom((a + b)[i], (x + y)[i])
    {
      if i < |a| {
        assert (a + b)[i] == a[i] && (x + y)[i] == x[i];
      } else {
        assert (a + b)[i] == b[i - |a|] && (x + y)[i] == y[i - |a|];
      }
    }
  }

  /** Dating every item in order; the first unparsable timestamp raises. */
  function ParseAll(items: seq<MediaItem>): Batch {
    if |items| == 0 then Ok([])
    else
      match ParseCreationTime(items[0].creationTime)
      case Err(e) => Err(e)
      case Ok(d) =>
        match ParseAll(items[1..])
        case Err(e) => Err(e)
        case Ok(rest) => Ok([GooglePhoto(items[0], d)] + rest)
  }

  /** When dating succeeds, every item is dated by its own timestamp. */
  lemma {:induction false} ParseAllDates(items: seq<MediaItem>)
    ensures ParseAll(items).Ok? ==> Parsed(ParseAll(items).value, items)
  {
    if |items| > 0 && ParseAll(items).Ok? {
      var x, tail := items[0], items[1..];
      var head := ParseAllStep(items);
      ParseAllDates(tail);
      assert items == [x] + tail;
      ParsedAppend(head, [x], ParseAll(tail).value, tail);
    }
  }

  /** A successful dating is the first item's picture followed by the dating of the rest. */
  lemma ParseAllStep(items: seq<MediaItem>) returns (head: seq<Picture>)
    requires |items| > 0 && ParseAll(items).Ok?
    ensures ParseAll(items[1..]).Ok? && Parsed(head, [items[0]])
    ensures ParseAll(items).value == head + ParseAll(items[1..]).value
  {
    var d := ParseCreationTime(items[0].creationTime).value;
    head := [GooglePhoto(items[0], d)];
    assert DatedFrom(head[0], items[0]);
  }

  /** Dating fails exactly when some timestamp is unparsable, and names one such timestamp. */
  lemma {:induction false} ParseAllFails(items: seq<MediaItem>)
    ensures ParseAll(items).Err? <==> exists x :: x in items && ParseCreationTime(x.creationTime).Err?
    ensures ParseAll(items).Err? ==>
      exists x :: x in items && ParseCreationTime(x.creationTime) == Err(ParseAll(items).error)
    ensures ParseAll(items).Err? ==> exists k :: FirstBad(items, k, ParseAll(items).error)
  {
    if |items| > 0 {
      var tail := items[1..];
      ParseAllFails(tail);
      assert forall x :: x in items <==> x == items[0] || x in tail;
      if ParseCreationTime(items[0].creationTime).Err? {
        assert FirstBad(items, 0, ParseAll(items).error);
      } else if ParseAll(items).Err? {
        var k :| FirstBad(tail, k, ParseAll(tail).error);
        FirstBadShift(items, k, ParseAll(tail).error);
      }
    }
  }

  /** Item k is the first of `items` whose timestamp cannot be parsed, and `e` is its error. */
  predicate FirstBad(items: seq<MediaItem>, k: int, e: ParseError) {
    && 0 <= k < |items|
    && ParseCreationTime(items[k].creationTime) == Err(e)
    && forall m :: 0 <= m < k ==> ParseCreationTime(items[m].creationTime).Ok?
  }

  /** After an item that parses, the first bad item of the rest is the first bad item of all. */
  lemma FirstBadShift(items: seq<MediaItem>, k: int, e: ParseError)
    requires |items| > 0 && ParseCreationTime(items[0].creationTime).Ok?
    requires FirstBad(items[1..], k, e)
    ensures FirstBad(items, k + 1, e)
  {
    assert forall m :: 1 <= m <= k + 1 ==> items[m] == items[1..][m - 1];
  }

  /** The list comprehension over one page: keep, then date. */
  function DatedBatch(page: Page): Batch {
    ParseAll(Kept(page.items))
  }

  /** The dated batch of every page, in page order. */
  function Batches(pages: seq<Page>): (bs: seq<Batch>)
    ensures |bs| == |pages|
    ensures forall j :: 0 <= j < |pages| ==> bs[j] == DatedBatch(pages[j])
  {
    seq(|pages|, j requires 0 <= j < |pages| => DatedBatch(pages[j]))
  }

  /** The pictures of the first `n` batches that did not raise, in order. */
  function Gathered(batches: seq<Batch>, n: nat): seq<Picture>
    requires n <= |batches|
  {
    if n == 0 then []
    else Gathered(batches, n - 1) + (if batches[n - 1].Ok? then batches[n - 1].value else [])
  }

  /** The kept items of the first `n` pages, in order. */
  function Collected(pages: seq<Page>, n: nat): seq<MediaItem>
    requires n <= |pages|
  {
    if n == 0 then [] else Collected(pages, n - 1) + Kept(pages[n - 1].items)
  }

  /** Some picture is dated before `bound`. */
  predicate AnyBefore(ps: seq<Picture>, bound: DateTime) {
    exists i :: 0 <= i < |ps| && Less(ps[i].date, bound)
  }

  /** The dates of some pictures, in order. */
  function Dates(ps: seq<Picture>): (ds: seq<DateTime>)
    ensures |ds| == |ps| && forall i :: 0 <= i < |ps| ==> ds[i] == ps[i].date
  {
    seq(|ps|, i requires 0 <= i < |ps| => ps[i].date)
  }

  lemma AnyBeforeIsMinBelow(ps: seq<Picture>, bound: DateTime)
    requires |ps| > 0
    ensures AnyBefore(ps, bound) <==> Less(MinDate(Dates(ps)), bound)
  {
    MinBelowIff(Dates(ps), bound);
  }

  /** The `pageToken` the i-th request carries: none on the first request. */
  function TokenFor(pages: seq<Page>, i: nat): Option<string>
    requires i <= |pages|
  {
    if i == 0 then None else pages[i - 1].nextPageToken
  }

  /** What one page does to the loop: raise, stop, or continue with the grown list. */
  datatype Step = Raise(error: FetchError) | Stop(gathered: seq<Picture>) | Continue(gathered: seq<Picture>)

  /**
   The body of the loop for the i-th page: append its dated batch to `acc`,
   then compare the minimum date of everything gathered with `minDate` and
   look for a continuation token.
   */
  function PageStep(pages: seq<Page>, batches: seq<Batch>, minDate: DateTime, i: nat, acc: seq<Picture>): (s: Step)
    requires i < |pages| == |batches|
    ensures !s.Raise? ==> |s.gathered| > 0
    ensures s.Continue? ==> pages[i].nextPageToken.Some?
  {
    match batches[i]
    case Err(e) => Raise(BadTimestamp(e.text))
    case Ok(batch) =>
      var acc' := acc + batch;
      if |acc'| == 0 then Raise(EmptyMinimum)
      else if Less(MinDate(Dates(acc')), minDate) || pages[i].nextPageToken.None? then Stop(acc')
      else Continue(acc')
  }

  /** The paging loop from the i-th request on, with `acc` the pictures of the pages before it. */
  function Paging(pages: seq<Page>, batches: seq<Batch>, minDate: DateTime, i: nat, acc: seq<Picture>): (r: Result<Run, FetchError>)
    requires EndsListing(pages) && i < |pages| == |batches|
    ensures r.Ok? ==> i < r.value.consumed <= |pages| && |r.value.requests| == r.value.consumed - i
    decreases |pages| - i
  {
    match PageStep(pages, batches, minDate, i, acc)
    case Raise(e) => Err(e)
    case Stop(acc') => Ok(Run(acc', i + 1, [TokenFor(pages, i)]))
    case Continue(acc') =>
      match Paging(pages, batches, minDate, i + 1, acc')
      case Err(e) => Err(e)
      case Ok(run) => Ok(Run(run.accumulated, run.consumed, [TokenFor(pages, i)] + run.requests))
  }

  /** `GooglePhotosRepository.get_pictures(min_date, max_date)`. */
  function GetPictures(pages: seq<Page>, minDate: DateTime, maxDate: DateTime): (r: Result<Fetched, FetchError>)
    requires EndsListing(pages)
    ensures r.Ok? ==> 1 <= r.value.run.consumed <= |pages|
    ensures r.Ok? ==> forall p :: p in r.value.pictures <==>
      p in r.value.run.accumulated && InRange(p.date, minDate, maxDate)
    ensures r.Ok? ==> r.value.pictures == InWindow(r.value.run.accumulated, minDate, maxDate)
  {
    match Paging(pages, Batches(pages), minDate, 0, [])
    case Err(e) => Err(e)
    case Ok(run) => Ok(Fetched(InWindow(run.accumulated, minDate, maxDate), run))
  }

  // ---------------------------------------------------------------------------
  // The stop rule

  /** What the loop holds before the i-th request: every earlier batch gathered, none too old. */
  predicate Resumable(pages: seq<Page>, batches: seq<Batch>, minDate: DateTime, i: nat, acc: seq<Picture>)
    requires i <= |pages| == |batches|
  {
    && (forall j :: 0 <= j < i ==> batches[j].Ok?)
    && acc == Gathered(batches, i)
    && (i > 0 ==> |acc| > 0 && !AnyBefore(acc, minDate) && pages[i - 1].nextPageToken.Some?)
  }

  /** The run that stops after `run.consumed` pages is the one the loop makes from page i. */
  predicate StopsAt(pages: seq<Page>, batches: seq<Batch>, minDate: DateTime, i: nat, run: Run)
    requires i < run.consumed <= |pages| == |batches|
  {
    && (forall j :: 0 <= j < run.consumed ==> batches[j].Ok?)
    && run.accumulated == Gathered(batches, run.consumed)
    && |run.accumulated| > 0
    // the stop rule holds after the last consumed page ...
    && (AnyBefore(run.accumulated, minDate) || pages[run.consumed - 1].nextPageToken.None?)
    // ... and after no earlier one
    && (forall j :: i <= j < run.consumed - 1 ==> pages[j].nextPageToken.Some?)
    && (forall m :: 0 <= m < |Gathered(batches, run.consumed - 1)| ==> !Less(run.accumulated[m].date, minDate))
  }

  lemma StepGathers(pages: seq<Page>, batches: seq<Batch>, minDate: DateTime, i: nat, acc: seq<Picture>)
    requires i < |pages| == |batches|
    requires Resumable(pages, batches, minDate, i, acc)
    ensures var s := PageStep(pages, batches, minDate, i, acc);
      !s.Raise? ==>
        && batches[i].Ok?
        && s.gathered == Gathered(batches, i + 1)
        && (s.Stop? <==> AnyBefore(s.gathered, minDate) || pages[i].nextPageToken.None?)
  {
    var s := PageStep(pages, batches, minDate, i, acc);
    if !s.Raise? {
      AnyBeforeIsMinBelow(s.gathered, minDate);
    }
  }

  /** Appending pictures leaves the earlier ones where they were, none of them too old. */
  lemma NoneBeforeInPrefix(acc: seq<Picture>, more: seq<Picture>, minDate: DateTime)
    requires !AnyBefore(acc, minDate)
    ensures forall m :: 0 <= m < |acc| ==> !Less((acc + more)[m].date, minDate)
  {
    forall m | 0 <= m < |acc|
      ensures !Less((acc + more)[m].date, minDate)
    {
      assert (acc + more)[m] == acc[m];
    }
  }

  /** The pictures gathered through page i extend those gathered before it. */
  lemma GatheredThrough(batches: seq<Batch>, i: nat, acc: seq<Picture>, acc': seq<Picture>)
    requires i < |batches| && batches[i].Ok?
    requires forall j :: 0 <= j < i ==> batches[j].Ok?
    requires acc == Gathered(batches, i) && acc' == Gathered(batches, i + 1)
    ensures forall j :: 0 <= j < i + 1 ==> batches[j].Ok?
    ensures acc' == acc + batches[i].value
  {
  }

  /** No picture gathered before the stopping page is too old. */
  lemma OlderPagesNotBefore(pages: seq<Page>, batches: seq<Batch>, minDate: DateTime, i: nat, acc: seq<Picture>, acc': seq<Picture>)
    requires i < |pages| == |batches|
    requires Resumable(pages, batches, minDate, i, acc)
    requires batches[i].Ok? && acc' == Gathered(batches, i + 1)
    ensures forall m :: 0 <= m < |Gathered(batches, i)| ==> !Less(acc'[m].date, minDate)
  {
    assert acc' == acc + batches[i].value;
    if i > 0 {
      NoneBeforeInPrefix(acc, batches[i].value, minDate);
    }
  }

  lemma StopStepStops(pages: seq<Page>, batches: seq<Batch>, minDate: DateTime, i: nat, acc: seq<Picture>, acc': seq<Picture>)
    requires i < |pages| == |batches|
    requires Resumable(pages, batches, minDate, i, acc)
    requires batches[i].Ok? && acc' == Gathered(batches, i + 1) && |acc'| > 0
    requires AnyBefore(acc', minDate) || pages[i].nextPageToken.None?
    ensures StopsAt(pages, batches, minDate, i, Run(acc', i + 1, [TokenFor(pages, i)]))
  {
    GatheredThrough(batches, i, acc, acc');
    OlderPagesNotBefore(pages, batches, minDate, i, acc, acc');
  }

  /** A step that stops ends the loop at that page. */
  lemma StopEndsPaging(pages: seq<Page>, batches: seq<Batch>, minDate: DateTime, i: nat, acc: seq<Picture>, acc': seq<Picture>)
    requires i < |pages| == |batches|
    requires Resumable(pages, batches, minDate, i, acc)
    requires PageStep(pages, batches, minDate, i, acc) == Stop(acc')
    ensures StopsAt(pages, batches, minDate, i, Run(acc', i + 1, [TokenFor(pages, i)]))
  {
    StepGathers(pages, batches, minDate, i, acc);
    StopStepStops(pages, batches, minDate, i, acc, acc');
  }

  lemma ContinueResumes(pages: seq<Page>, batches: seq<Batch>, minDate: DateTime, i: nat, acc: seq<Picture>, acc': seq<Picture>)
    requires i < |pages| == |batches|
    requires Resumable(pages, batches, minDate, i, acc)
    requires PageStep(pages, batches, minDate, i, acc) == Continue(acc')
    ensures Resumable(pages, batches, minDate, i + 1, acc')
  {
    StepGathers(pages, batches, minDate, i, acc);
  }

  lemma ContinueStepStops(pages: seq<Page>, batches: seq<Batch>, minDate: DateTime, i: nat, run: Run)
    requires i + 1 < run.consumed <= |pages| == |batches|
    requires pages[i].nextPageToken.Some?
    requires StopsAt(pages, batches, minDate, i + 1, run)
    ensures StopsAt(pages, batches, minDate, i, Run(run.accumulated, run.consumed, [TokenFor(pages, i)] + run.requests))
  {
  }

  /**
   The loop stops right after the first page at which a gathered picture is
   older than `minDate` or which carries no token, having gathered exactly the
   batches of the pages it consumed.
   */
  lemma {:induction false} PagingStopsAtFirstStop(pages: seq<Page>, batches: seq<Batch>, minDate: DateTime, i: nat, acc: seq<Picture>)
    requires EndsListing(pages) && i < |pages| == |batches|
    requires Resumable(pages, batches, minDate, i, acc)
    ensures var r := Paging(pages, batches, minDate, i, acc);
      r.Ok? ==> StopsAt(pages, batches, minDate, i, r.value)
    decreases |pages| - i
  {
    match PageStep(pages, batches, minDate, i, acc)
    case Raise(_) =>
    case Stop(acc') =>
      StopEndsPaging(pages, batches, minDate, i, acc, acc');
    case Continue(acc') =>
      ContinueResumes(pages, batches, minDate, i, acc, acc');
      PagingStopsAtFirstStop(pages, batches, minDate, i + 1, acc');
      var r := Paging(pages, batches, minDate, i + 1, acc');
      if r.Ok? {
        ContinueStepStops(pages, batches, minDate, i, r.value);
      }
  }

  /** `requests` are the tokens of consecutive requests starting with the i-th. */
  predicate ForwardsTokens(pages: seq<Page>, i: nat, requests: seq<Option<string>>) {
    && i + |requests| <= |pages|
    && forall j :: 0 <= j < |requests| ==> requests[j] == TokenFor(pages, i + j)
  }

  /** The tokens of the requests from i + 1 on, preceded by the token of request i. */
  lemma PrependToken(pages: seq<Page>, i: nat, later: seq<Option<string>>, all: seq<Option<string>>)
    requires ForwardsTokens(pages, i + 1, later)
    requires all == [TokenFor(pages, i)] + later
    ensures ForwardsTokens(pages, i, all)
  {
    forall j | 0 <= j < |all|
      ensures all[j] == TokenFor(pages, i + j)
    {
      if j > 0 {
        assert all[j] == later[j - 1];
      }
    }
  }

  /** A finished loop's first request is page i's; any later ones are those of the loop resumed at page i + 1. */
  lemma PagingRequests(pages: seq<Page>, batches: seq<Batch>, minDate: DateTime, i: nat, acc: seq<Picture>)
    returns (acc': seq<Picture>)
    requires EndsListing(pages) && i < |pages| == |batches|
    requires Paging(pages, batches, minDate, i, acc).Ok?
    ensures var run := Paging(pages, batches, minDate, i, acc).value;
      run.consumed == i + 1 ==> run.requests == [TokenFor(pages, i)]
    ensures var run := Paging(pages, batches, minDate, i, acc).value;
      run.consumed > i + 1 ==>
        && i + 1 < |pages|
        && Paging(pages, batches, minDate, i + 1, acc').Ok?
        && run.requests == [TokenFor(pages, i)] + Paging(pages, batches, minDate, i + 1, acc').value.requests
  {
    acc' := [];
    match PageStep(pages, batches, minDate, i, acc)
    case Raise(_) =>
    case Stop(_) =>
    case Continue(next) =>
      acc' := next;
      var r := Paging(pages, batches, minDate, i + 1, next);
      assert r.Ok? ==> r.value.consumed > i + 1;
  }

  /** Each request after the first carries the token of the response before it. */
  lemma {:induction false} PagingForwardsTokens(pages: seq<Page>, batches: seq<Batch>, minDate: DateTime, i: nat, acc: seq<Picture>)
    requires EndsListing(pages) && i < |pages| == |batches|
    ensures var r := Paging(pages, batches, minDate, i, acc);
      r.Ok? ==> ForwardsTokens(pages, i, r.value.requests)
    decreases |pages| - i
  {
    var r := Paging(pages, batches, minDate, i, acc);
    if r.Ok? {
      var acc' := PagingRequests(pages, batches, minDate, i, acc);
      if r.value.consumed > i + 1 {
        PagingForwardsTokens(pages, batches, minDate, i + 1, acc');
        PrependToken(pages, i, Paging(pages, batches, minDate, i + 1, acc').value.requests, r.value.requests);
      }
    }
  }

  /** `min` over nothing raises exactly when the first batch is empty. */
  lemma {:induction false} PagingEmptyMinimum(pages: seq<Page>, batches: seq<Batch>, minDate: DateTime, i: nat, acc: seq<Picture>)
    requires EndsListing(pages) && i < |pages| == |batches|
    requires Resumable(pages, batches, minDate, i, acc)
    ensures Paging(pages, batches, minDate, i, acc) == Err(EmptyMinimum) <==> i == 0 && batches[0] == Ok([])
    decreases |pages| - i
  {
    match PageStep(pages, batches, minDate, i, acc)
    case Raise(_) =>
    case Stop(_) =>
    case Continue(acc') =>
      ContinueResumes(pages, batches, minDate, i, acc, acc');
      PagingEmptyMinimum(pages, batches, minDate, i + 1, acc');
  }

  /**
   The loop, started at request i, reaches request j and finds there a batch
   that failed on the timestamp `text`: every page from i up to j carried a
   token, and the loop could resume at j.
   */
  predicate ReachesBadBatch(pages: seq<Page>, batches: seq<Batch>, minDate: DateTime, i: nat, j: nat, text: string)
    requires |pages| == |batches|
  {
    && i <= j < |pages|
    && batches[j] == Err(ParseError(text))
    && Resumable(pages, batches, minDate, j, Gathered(batches, j))
    && forall m :: i <= m < j ==> pages[m].nextPageToken.Some?
  }

  /** A bad batch reached from request i + 1 is reached from request i when page i carries a token. */
  lemma ReachedEarlier(pages: seq<Page>, batches: seq<Batch>, minDate: DateTime, i: nat, j: nat, text: string)
    requires |pages| == |batches|
    requires ReachesBadBatch(pages, batches, minDate, i + 1, j, text)
    requires i < |pages| && pages[i].nextPageToken.Some?
    ensures ReachesBadBatch(pages, batches, minDate, i, j, text)
  {
  }

  /** A timestamp error raised by step i is the error of batch i. */
  lemma RaisedHere(pages: seq<Page>, batches: seq<Batch>, minDate: DateTime, i: nat, acc: seq<Picture>, text: string)
    requires i < |pages| == |batches|
    requires Resumable(pages, batches, minDate, i, acc)
    requires PageStep(pages, batches, minDate, i, acc) == Raise(BadTimestamp(text))
    ensures ReachesBadBatch(pages, batches, minDate, i, i, text)
  {
  }

  /** A raised timestamp error is the error of a batch the loop reached. */
  lemma {:induction false} PagingBadTimestamp(pages: seq<Page>, batches: seq<Batch>, minDate: DateTime, i: nat, acc: seq<Picture>)
    requires EndsListing(pages) && i < |pages| == |batches|
    requires Resumable(pages, batches, minDate, i, acc)
    ensures var r := Paging(pages, batches, minDate, i, acc);
      r.Err? && r.error.BadTimestamp? ==>
        exists j :: ReachesBadBatch(pages, batches, minDate, i, j, r.error.creationTime)
    decreases |pages| - i
  {
    var r := Paging(pages, batches, minDate, i, acc);
    match PageStep(pages, batches, minDate, i, acc)
    case Raise(e) =>
      if e.BadTimestamp? {
        RaisedHere(pages, batches, minDate, i, acc, e.creationTime);
      }
    case Stop(_) =>
    case Continue(acc') =>
      ContinueResumes(pages, batches, minDate, i, acc, acc');
      PagingBadTimestamp(pages, batches, minDate, i + 1, acc');
      if r.Err? && r.error.BadTimestamp? {
        var j :| ReachesBadBatch(pages, batches, minDate, i + 1, j, r.error.creationTime);
        ReachedEarlier(pages, batches, minDate, i, j, r.error.creationTime);
      }
  }

  // ---------------------------------------------------------------------------
  // The fetch in terms of the raw media items

  /** One more page adds its dated kept items on both sides. */
  lemma GatheredStep(pages: seq<Page>, n: nat)
    requires 0 < n <= |pages|
    requires DatedBatch(pages[n - 1]).Ok?
    requires Parsed(Gathered(Batches(pages), n - 1), Collected(pages, n - 1))
    ensures Parsed(Gathered(Batches(pages), n), Collected(pages, n))
  {
    var a, x := Gathered(Batches(pages), n - 1), Collected(pages, n - 1);
    var y := Kept(pages[n - 1].items);
    ParseAllDates(y);
    var b := ParseAll(y).value;
    assert Gathered(Batches(pages), n) == a + b;
    assert Collected(pages, n) == x + y;
    ParsedAppend(a, x, b, y);
  }

  /** The batches gathered from the first `n` pages date exactly their kept items. */
  lemma {:induction false} GatheredParsed(pages: seq<Page>, n: nat)
    requires n <= |pages|
    requires forall j :: 0 <= j < n ==> Batches(pages)[j].Ok?
    ensures Parsed(Gathered(Batches(pages), n), Collected(pages, n))
  {
    if n > 0 {
      GatheredParsed(pages, n - 1);
      GatheredStep(pages, n);
    }
  }

  /**
   The remote fetch requests pages until, right after some page, either a
   gathered picture is older than `minDate` or the page carries no token; it
   requests no page after that one, and the pictures it gathered are exactly
   the kept items of the pages it requested, each dated by its timestamp.
   */
  lemma GetPicturesStopsAtFirstStop(pages: seq<Page>, minDate: DateTime, maxDate: DateTime)
    requires EndsListing(pages)
    ensures var r := GetPictures(pages, minDate, maxDate);
      r.Ok? ==>
        var run := r.value.run;
        && 1 <= run.consumed <= |pages|
        && Parsed(run.accumulated, Collected(pages, run.consumed))
        && (AnyBefore(run.accumulated, minDate) || pages[run.consumed - 1].nextPageToken.None?)
        && (forall j :: 0 <= j < run.consumed - 1 ==> pages[j].nextPageToken.Some?)
        && (forall m :: 0 <= m < |run.accumulated| && Less(run.accumulated[m].date, minDate) ==>
              m >= |Collected(pages, run.consumed - 1)|)
  {
    var batches := Batches(pages);
    PagingStopsAtFirstStop(pages, batches, minDate, 0, []);
    var r := Paging(pages, batches, minDate, 0, []);
    if r.Ok? {
      var run := r.value;
      GatheredParsed(pages, run.consumed);
      GatheredParsed(pages, run.consumed - 1);
    }
  }

  /** The first request carries no token; each later one carries the token of the response before it. */
  lemma GetPicturesForwardsTokens(pages: seq<Page>, minDate: DateTime, maxDate: DateTime)
    requires EndsListing(pages)
    ensures var r := GetPictures(pages, minDate, maxDate);
      r.Ok? ==>
        var requests := r.value.run.requests;
        && |requests| == r.value.run.consumed
        && requests[0] == None
        && forall j :: 0 < j < |requests| ==> requests[j] == pages[j - 1].nextPageToken
  {
    PagingForwardsTokens(pages, Batches(pages), minDate, 0, []);
  }

  /** `min` over no pictures raises exactly when the first page keeps no item. */
  lemma GetPicturesEmptyMinimum(pages: seq<Page>, minDate: DateTime, maxDate: DateTime)
    requires EndsListing(pages)
    ensures GetPictures(pages, minDate, maxDate) == Err(EmptyMinimum) <==> Kept(pages[0].items) == []
  {
    PagingEmptyMinimum(pages, Batches(pages), minDate, 0, []);
    var items := Kept(pages[0].items);
    ParseAllDates(items);
    if |items| > 0 {
      assert ParseAll(items) != Ok([]);
    }
  }

  /**
   A raised timestamp error names an unparsable timestamp of a kept item,
   never of an excluded one, on a page the loop requested: every page before
   it parsed, carried a token and brought no picture older than `minDate`.
   */
  lemma GetPicturesBadTimestamp(pages: seq<Page>, minDate: DateTime, maxDate: DateTime)
    requires EndsListing(pages)
    ensures var r := GetPictures(pages, minDate, maxDate);
      r.Err? && r.error.BadTimestamp? ==>
        exists j, k, x :: (0 <= j < |pages| && x in pages[j].items && Keep(x)
          && ParseCreationTime(x.creationTime) == Err(ParseError(r.error.creationTime))
          && FirstBad(Kept(pages[j].items), k, ParseError(r.error.creationTime)) && x == Kept(pages[j].items)[k]
          && (forall m :: 0 <= m < j ==> DatedBatch(pages[m]).Ok? && pages[m].nextPageToken.Some?)
          && !AnyBefore(Gathered(Batches(pages), j), minDate))
  {
    var batches := Batches(pages);
    PagingBadTimestamp(pages, batches, minDate, 0, []);
    var r := GetPictures(pages, minDate, maxDate);
    if r.Err? && r.error.BadTimestamp? {
      var text := r.error.creationTime;
      var j :| ReachesBadBatch(pages, batches, minDate, 0, j, text);
      var k, x := BadItemOfReachedPage(pages, minDate, j, text);
    }
  }

  /**
   The reached page whose batch failed holds a kept item with that timestamp:
   the first of its kept items whose timestamp cannot be parsed.
   */
  lemma BadItemOfReachedPage(pages: seq<Page>, minDate: DateTime, j: nat, text: string) returns (k: int, x: MediaItem)
    requires ReachesBadBatch(pages, Batches(pages), minDate, 0, j, text)
    ensures j < |pages| && x in pages[j].items && Keep(x)
    ensures ParseCreationTime(x.creationTime) == Err(ParseError(text))
    ensures FirstBad(Kept(pages[j].items), k, ParseError(text)) && x == Kept(pages[j].items)[k]
    ensures forall m :: 0 <= m < j ==> DatedBatch(pages[m]).Ok? && pages[m].nextPageToken.Some?
    ensures !AnyBefore(Gathered(Batches(pages), j), minDate)
  {
    ParseAllFails(Kept(pages[j].items));
    KeptMembers(pages[j].items);
    k :| FirstBad(Kept(pages[j].items), k, ParseError(text));
    x := Kept(pages[j].items)[k];
  }
}
