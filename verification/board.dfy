/**
 * The board orchestrator (`crawl_board` in crawler.py, `execute` in ptt-crawler.py) and the
 * board's output file. JSON serialization is a library call, so a record's serialized text is
 * the parameter `ser`; the model fixes only how those texts are laid out in the file.
 */
module Board {
  import opened Wrappers
  import opened Articles
  import opened Crawl
  import Pages

  /** What the file holds right after the reset: nothing, or the `"[\n"` that ptt-crawler.py stores. */
  function Preamble(v: Version): string
  {
    match v
    case Current => ""
    case Legacy => "[\n"
  }

  /** What each stored record is followed by: a newline (JSON lines) or a comma. */
  function Terminator(v: Version): string
  {
    match v
    case Current => "\n"
    case Legacy => ","
  }

  /** The records, each serialized and followed by `term`, one after another. */
  function Render(ser: ArticleRecord -> string, term: string, rs: seq<ArticleRecord>): string
    decreases |rs|
  {
    if |rs| == 0 then "" else ser(rs[0]) + term + Render(ser, term, rs[1..])
  }

  /** Rendering distributes over concatenation: the file is only ever appended to. */
  lemma {:induction false} RenderAppend(ser: ArticleRecord -> string, term: string, a: seq<ArticleRecord>, b: seq<ArticleRecord>)
    ensures Render(ser, term, a + b) == Render(ser, term, a) + Render(ser, term, b)
    decreases |a|
  {
    if |a| > 0 {
      assert (a + b)[0] == a[0] && (a + b)[1..] == a[1..] + b;
      RenderAppend(ser, term, a[1..], b);
    } else {
      assert a + b == b;
    }
  }

  /** Storing one more record appends its serialization followed by the terminator. */
  lemma RenderStore(ser: ArticleRecord -> string, term: string, rs: seq<ArticleRecord>, r: ArticleRecord)
    ensures Render(ser, term, rs + [r]) == Render(ser, term, rs) + ser(r) + term
  {
    RenderAppend(ser, term, rs, [r]);
    assert [r][1..] == [];
  }

  /** More records written means the earlier file is a prefix of the later one. */
  lemma RenderGrows(ser: ArticleRecord -> string, term: string, a: seq<ArticleRecord>, b: seq<ArticleRecord>)
    requires a <= b
    ensures Render(ser, term, a) <= Render(ser, term, b)
  {
    assert b == a + b[|a|..];
    RenderAppend(ser, term, a, b[|a|..]);
  }

  /** The result of one board crawl: the loop's result or the error building the queue raised, and the file. */
  datatype BoardRun = BoardRun(outcome: Result<RunResult, Pages.Failure>, file: string)

  /**
   * One board crawl: build the page queue from the index page's buttons, reset the board's
   * file (truncate, plus the preamble), then run the loop. An error while building the queue
   * propagates before the reset, leaving the previous file as it was.
   */
  function CrawlBoard(v: Version, board: string, nav: seq<Option<string>>, script: seq<PageResponse>,
                      ser: ArticleRecord -> string, previous: string): (r: BoardRun)
    ensures r.outcome.Err? <==> Pages.PageQueue(board, nav).Err?
    ensures r.outcome.Err? ==> r.file == previous && r.outcome.error == Pages.PageQueue(board, nav).error
    ensures r.outcome.Ok? ==> r.outcome.value == CrawlPages(v, board, Pages.PageQueue(board, nav).value, script)
    ensures r.outcome.Ok? ==> r.file == Preamble(v) + Render(ser, Terminator(v), r.outcome.value.state.written)
  {
    match Pages.PageQueue(board, nav)
    case Err(e) => BoardRun(Err(e), previous)
    case Ok(urls) =>
      var run := CrawlPages(v, board, urls, script);
      BoardRun(Ok(run), Preamble(v) + Render(ser, Terminator(v), run.state.written))
  }

  /**
   * The reset discards earlier output: once the queue is built, the file holds only this run's
   * output, whatever an earlier run left in it.
   */
  lemma ResetDiscardsPrevious(v: Version, board: string, nav: seq<Option<string>>, script: seq<PageResponse>,
                              ser: ArticleRecord -> string, first: string, second: string)
    requires Pages.PageQueue(board, nav).Ok?
    ensures CrawlBoard(v, board, nav, script, ser, first).file == CrawlBoard(v, board, nav, script, ser, second).file
    ensures Preamble(v) <= CrawlBoard(v, board, nav, script, ser, first).file
  {
  }
}
