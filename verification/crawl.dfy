/**
 * The page-queue loop (`crawl_board_pages` in crawler.py, `crawler` in ptt-crawler.py).
 * Network responses are a scripted sequence, consumed one per popped URL; the loop stops
 * when the queue is empty or the script runs out, so the script length is the fuel bound.
 */
module Crawl {
  import opened Wrappers
  import opened Strings
  import opened Articles
  import Pages

  /** The title text that marks the upstream's "busy" page. */
  const BusyMarker := "Service Temporarily"

  /** A thread fetch: the parsed page, or an exception from the request. */
  datatype ArticleResponse = ArticleFetched(doc: ArticleDoc) | ArticleFailed

  /**
   * An `.r-ent` entry: without an `<a>`, or an anchor with its `href` attribute (`None` when the
   * anchor has none, so that reading it raises) and the response the thread fetch gets.
   */
  datatype Entry = NoLink | Link(href: Option<string>, response: ArticleResponse)

  /** The entry's anchor has an `href` and the thread fetch returns a page. */
  predicate Fetches(e: Entry)
  {
    e.Link? && e.href.Some? && e.response.ArticleFetched?
  }

  /** A listing-page fetch: the page's `<title>` text, if any, and its entries; or an exception. */
  datatype PageResponse = PageFetched(title: Option<string>, entries: seq<Entry>) | PageFailed

  /** What one pop does with its URL. */
  datatype Outcome = Requeued | Counted(records: seq<ArticleRecord>) | Dropped

  /** The loop's state: the URL queue, the progress count, and the records appended so far. */
  datatype CrawlState = CrawlState(queue: seq<string>, count: nat, written: seq<ArticleRecord>)

  datatype RunResult = RunResult(state: CrawlState, unused: seq<PageResponse>)

  /** The response is the busy page: its title contains the marker. Both versions requeue it. */
  predicate IsBusy(resp: PageResponse)
  {
    resp.PageFetched? && resp.title.Some? && Contains(resp.title.value, BusyMarker)
  }

  /**
   * The response is counted. A page without `<title>` is not busy in crawler.py and is counted;
   * in ptt-crawler.py reading its title raises, so it is dropped.
   */
  predicate IsCounted(v: Version, resp: PageResponse)
  {
    resp.PageFetched? && !IsBusy(resp) && (v == Current || resp.title.Some?)
  }

  /** The entries that carry an anchor, in page order. */
  function Links(entries: seq<Entry>): (r: seq<Entry>)
    ensures |r| <= |entries|
    ensures forall i :: 0 <= i < |r| ==> r[i].Link?
    decreases |entries|
  {
    if |entries| == 0 then []
    else (if entries[0].Link? then [entries[0]] else []) + Links(entries[1..])
  }

  /** Exactly the anchored entries are kept: each kept entry is one of the page's, and none is lost. */
  lemma {:induction false} LinksKeepsAnchored(entries: seq<Entry>)
    ensures forall e :: e in Links(entries) ==> e in entries
    ensures forall i :: 0 <= i < |entries| && entries[i].Link? ==> entries[i] in Links(entries)
    decreases |entries|
  {
    if |entries| > 0 {
      LinksKeepsAnchored(entries[1..]);
      assert forall i :: 1 <= i < |entries| ==> entries[i] == entries[1..][i - 1];
    }
  }

  /** Keeping the anchored entries commutes with concatenation, so page order is preserved. */
  lemma {:induction false} LinksAppend(a: seq<Entry>, b: seq<Entry>)
    ensures Links(a + b) == Links(a) + Links(b)
    decreases |a|
  {
    if |a| == 0 {
      assert a + b == b;
    } else {
      assert (a + b)[0] == a[0] && (a + b)[1..] == a[1..] + b;
      LinksAppend(a[1..], b);
    }
  }

  /** How a fetched thread page becomes a record, for one version and board. */
  function Parser(v: Version, board: string): (string, ArticleDoc) -> ArticleRecord
  {
    (url, doc) => ParseArticle(v, url, board, doc)
  }

  /**
   * The anchors visited in order until the first one that raises: an anchor without an `href`,
   * or a thread fetch that fails. Its exception leaves the loop's `try`, so the anchors after it
   * are not visited.
   */
  function Visit(parse: (string, ArticleDoc) -> ArticleRecord, links: seq<Entry>): (r: seq<ArticleRecord>)
    ensures |r| <= |links|
    ensures forall i :: 0 <= i < |r| ==>
      Fetches(links[i]) && r[i] == parse(Pages.BaseUrl + links[i].href.value, links[i].response.doc)
    ensures |r| < |links| ==> !Fetches(links[|r|])
    decreases |links|
  {
    if |links| == 0 || !Fetches(links[0]) then []
    else
      var rest := Visit(parse, links[1..]);
      var r := [parse(Pages.BaseUrl + links[0].href.value, links[0].response.doc)] + rest;
      assert forall i :: 0 < i < |r| ==> r[i] == rest[i - 1] && links[i] == links[1..][i - 1];
      r
  }

  /** The records a counted page appends: its anchors, in page order, visited until one raises. */
  function ProcessEntries(parse: (string, ArticleDoc) -> ArticleRecord, entries: seq<Entry>): (r: seq<ArticleRecord>)
    ensures |r| <= |Links(entries)|
    ensures forall i :: 0 <= i < |r| ==>
      Fetches(Links(entries)[i]) &&
      r[i] == parse(Pages.BaseUrl + Links(entries)[i].href.value, Links(entries)[i].response.doc)
    ensures |r| < |Links(entries)| ==> !Fetches(Links(entries)[|r|])
  {
    Visit(parse, Links(entries))
  }

  /** The outcome of one fetched listing page. */
  function PageOutcome(v: Version, board: string, resp: PageResponse): (o: Outcome)
    ensures o.Requeued? <==> IsBusy(resp)
    ensures o.Counted? <==> IsCounted(v, resp)
    ensures o.Counted? ==> o.records == ProcessEntries(Parser(v, board), resp.entries)
  {
    match resp
    case PageFailed => Dropped
    case PageFetched(None, entries) =>
      if v == Current then Counted(ProcessEntries(Parser(v, board), entries)) else Dropped
    case PageFetched(Some(title), entries) =>
      if Contains(title, BusyMarker) then Requeued else Counted(ProcessEntries(Parser(v, board), entries))
  }

  /** One iteration of the loop: pop the front URL and act on the response its fetch gets. */
  function Step(v: Version, board: string, st: CrawlState, resp: PageResponse): (st': CrawlState)
    requires |st.queue| > 0
    ensures IsBusy(resp) ==> st'.queue == st.queue[1..] + [st.queue[0]]
    ensures !IsBusy(resp) ==> st'.queue == st.queue[1..]
    ensures st'.count == if IsCounted(v, resp) then st.count + 1 else st.count
    ensures st.written <= st'.written
    ensures IsCounted(v, resp) ==> st'.written == st.written + ProcessEntries(Parser(v, board), resp.entries)
    ensures !IsCounted(v, resp) ==> st'.written == st.written
    ensures st'.count + |st'.queue| <= st.count + |st.queue|
  {
    var url := st.queue[0];
    var rest := st.queue[1..];
    assert st.queue == [url] + rest;
    match PageOutcome(v, board, resp)
    case Requeued => CrawlState(rest + [url], st.count, st.written)
    case Counted(records) => CrawlState(rest, st.count + 1, st.written + records)
    case Dropped => CrawlState(rest, st.count, st.written)
  }

  /** A step never invents or duplicates a URL: a busy page is moved to the back, any other popped page leaves. */
  lemma StepKeepsPages(v: Version, board: string, st: CrawlState, resp: PageResponse)
    requires |st.queue| > 0
    ensures IsBusy(resp) ==> multiset(Step(v, board, st, resp).queue) == multiset(st.queue)
    ensures !IsBusy(resp) ==> multiset(Step(v, board, st, resp).queue) + multiset{st.queue[0]} == multiset(st.queue)
  {
    assert st.queue == [st.queue[0]] + st.queue[1..];
  }

  /**
   * `while url_list:` run against the script: stops once the queue is empty, or, as the fuel
   * bound, when no scripted response is left.
   */
  function Run(v: Version, board: string, st: CrawlState, script: seq<PageResponse>): (r: RunResult)
    ensures r.state.queue == [] || r.unused == []
    ensures |r.unused| <= |script| && r.unused == script[|script| - |r.unused|..]
    ensures st.written <= r.state.written
    ensures st.count <= r.state.count
    ensures r.state.count + |r.state.queue| <= st.count + |st.queue|
    decreases |script|
  {
    if |st.queue| == 0 || |script| == 0 then RunResult(st, script)
    else
      var st' := Step(v, board, st, script[0]);
      var r := Run(v, board, st', script[1..]);
      assert script[1..][|script[1..]| - |r.unused|..] == script[|script| - |r.unused|..];
      r
  }

  /** The loop started on a fresh page queue, with `count = 0`. */
  function CrawlPages(v: Version, board: string, urls: seq<string>, script: seq<PageResponse>): (r: RunResult)
    ensures r.state.count <= |urls|
    ensures r.state.queue == [] || r.unused == []
  {
    Run(v, board, CrawlState(urls, 0, []), script)
  }

  /** The number of busy responses in a script. */
  function BusyCount(script: seq<PageResponse>): nat
    decreases |script|
  {
    if |script| == 0 then 0 else (if IsBusy(script[0]) then 1 else 0) + BusyCount(script[1..])
  }

  /** The number of counted responses in a script. */
  function CountedCount(v: Version, script: seq<PageResponse>): nat
    decreases |script|
  {
    if |script| == 0 then 0 else (if IsCounted(v, script[0]) then 1 else 0) + CountedCount(v, script[1..])
  }

  /**
   * Draining the queue: a script with room for every queued URL plus every
   * busy response in it drains the queue.
   */
  lemma {:induction false} RunDrains(v: Version, board: string, st: CrawlState, script: seq<PageResponse>)
    requires |st.queue| + BusyCount(script) <= |script|
    ensures Run(v, board, st, script).state.queue == []
    decreases |script|
  {
    if |st.queue| > 0 {
      RunDrains(v, board, Step(v, board, st, script[0]), script[1..]);
    }
  }

  /** Counting distributes over concatenation. */
  lemma {:induction false} CountedCountAppend(v: Version, a: seq<PageResponse>, b: seq<PageResponse>)
    ensures CountedCount(v, a + b) == CountedCount(v, a) + CountedCount(v, b)
    decreases |a|
  {
    if |a| == 0 {
      assert a + b == b;
    } else {
      assert (a + b)[0] == a[0] && (a + b)[1..] == a[1..] + b;
      CountedCountAppend(v, a[1..], b);
    }
  }

  /** The count rises by the counted responses the loop consumes; the unused ones are not counted. */
  lemma {:induction false} RunCountRemaining(v: Version, board: string, st: CrawlState, script: seq<PageResponse>)
    ensures var r := Run(v, board, st, script);
      r.state.count + CountedCount(v, r.unused) == st.count + CountedCount(v, script)
    decreases |script|
  {
    if |st.queue| == 0 || |script| == 0 {
      assert Run(v, board, st, script) == RunResult(st, script);
    } else {
      var st' := Step(v, board, st, script[0]);
      RunCountRemaining(v, board, st', script[1..]);
      assert Run(v, board, st, script) == Run(v, board, st', script[1..]);
      assert CountedCount(v, script) == (if IsCounted(v, script[0]) then 1 else 0) + CountedCount(v, script[1..]);
    }
  }

  /** The final count is the initial count plus the counted responses the loop consumed. */
  lemma RunCount(v: Version, board: string, st: CrawlState, script: seq<PageResponse>)
    ensures var r := Run(v, board, st, script);
      r.state.count == st.count + CountedCount(v, script[..|script| - |r.unused|])
  {
    var r := Run(v, board, st, script);
    RunCountRemaining(v, board, st, script);
    var n := |script| - |r.unused|;
    assert script == script[..n] + r.unused;
    CountedCountAppend(v, script[..n], r.unused);
  }

  /** A one-page board whose single fetch is counted finishes in one step with no requeue. */
  lemma SinglePageBoard(v: Version, board: string, url: string, resp: PageResponse)
    requires IsCounted(v, resp)
    ensures CrawlPages(v, board, [url], [resp]) ==
      RunResult(CrawlState([], 1, ProcessEntries(Parser(v, board), resp.entries)), [])
  {
    var st := CrawlState([url], 0, []);
    var st' := Step(v, board, st, resp);
    var records := ProcessEntries(Parser(v, board), resp.entries);
    assert st'.queue == [] && st'.count == 1 && st'.written == [] + records;
    assert [] + records == records;
    assert [resp][1..] == [];
    assert Run(v, board, st, [resp]) == Run(v, board, st', []);
  }
}
