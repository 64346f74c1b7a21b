/**
 * Page-count discovery and the descending page queue of a board
 * (`extract_page_number` / `getPageNumber` and the page-list loop of
 * `crawl_board` / `execute`).
 */
module Pages {
  import opened Wrappers
  import opened Strings
  import opened Numerals

  const BaseUrl := "https://www.ptt.cc"

  /** Why building the page queue raised: a missing button, a missing `href`, or a non-numeric page. */
  datatype Failure = IndexError | KeyError | ValueError

  /** `{base}/bbs/{board}/`, the prefix shared by a board's listing pages and its threads. */
  function BoardPrefix(board: string): string
  {
    BaseUrl + "/bbs/" + board + "/"
  }

  /** The text between the first `index` (skipping its five letters) and the first `.html`. */
  function GetPageNumber(href: string): (r: string)
    ensures |r| <= |href|
  {
    Slice(href, Find(href, "index") + 5, Find(href, ".html"))
  }

  /** That text read as an integer; `None` stands for the `ValueError` of `int()`. */
  function ExtractPageNumber(href: string): Option<int>
  {
    ParseInt(GetPageNumber(href))
  }

  /** A digit string has no `l`, the last letter of `.html`. */
  lemma DigitsHaveNoL(d: string)
    requires AllDigits(d)
    ensures 'l' !in "index" + d
  {
    forall k | 0 <= k < |"index" + d|
      ensures ("index" + d)[k] != 'l'
    {
      if k >= 5 {
        assert ("index" + d)[k] == d[k - 5];
        assert IsDigit(d[k - 5]);
      }
    }
  }

  /** In such an href, `index` is first found right after `pre`. */
  lemma IndexMarkerOfHref(pre: string, rest: string)
    requires !Contains(pre, "index")
    ensures Find(pre + "index" + rest, "index") == |pre|
  {
    FindAtJoin(pre, "index", rest);
  }

  /** ... and `.html` right after the digits. */
  lemma HtmlMarkerOfHref(pre: string, d: string, post: string)
    requires AllDigits(d) && !Contains(pre, ".html")
    ensures Find(pre + "index" + d + ".html" + post, ".html") == |pre| + 5 + |d|
  {
    DigitsHaveNoL(d);
    NoStraddle(pre, "index" + d, ".html");
    FindAtJoin(pre + ("index" + d), ".html", post);
    assert pre + ("index" + d) + ".html" + post == pre + "index" + d + ".html" + post;
  }

  /** Both markers of such an href. */
  lemma MarkersOfHref(pre: string, d: string, post: string)
    requires AllDigits(d)
    requires !Contains(pre, "index") && !Contains(pre, ".html")
    ensures var s := pre + "index" + d + ".html" + post;
      Find(s, "index") == |pre| && Find(s, ".html") == |pre| + 5 + |d|
  {
    IndexMarkerOfHref(pre, d + ".html" + post);
    assert pre + "index" + (d + ".html" + post) == pre + "index" + d + ".html" + post;
    HtmlMarkerOfHref(pre, d, post);
  }

  /** For `pre + "index" + d + ".html" + post` with no `index` or `.html` in `pre`, the page text is `d`. */
  lemma GetPageNumberOfHref(pre: string, d: string, post: string)
    requires AllDigits(d)
    requires !Contains(pre, "index") && !Contains(pre, ".html")
    ensures GetPageNumber(pre + "index" + d + ".html" + post) == d
  {
    var s := pre + "index" + d + ".html" + post;
    MarkersOfHref(pre, d, post);
    assert s[|pre| + 5..|pre| + 5 + |d|] == d;
  }

  /** `extract_page_number` returns the digits between `index` and `.html` as an int. */
  lemma ExtractPageNumberOfHref(pre: string, d: string, post: string)
    requires |d| > 0 && AllDigits(d)
    requires !Contains(pre, "index") && !Contains(pre, ".html")
    ensures ExtractPageNumber(pre + "index" + d + ".html" + post) == Some(DigitsValue(d) as int)
  {
    GetPageNumberOfHref(pre, d, post);
    ParseDigits(d);
  }

  /**
   * The total page count: the page number in the second `.btn.wide` button's `href`, plus one.
   * `nav` holds those buttons' `href` attributes in document order.
   */
  function TotalPages(nav: seq<Option<string>>): (r: Result<int, Failure>)
    ensures |nav| < 2 <==> r == Err(IndexError)
    ensures r.Ok? <==> |nav| >= 2 && nav[1].Some? && ExtractPageNumber(nav[1].value).Some?
    ensures r.Ok? ==> r.value == ExtractPageNumber(nav[1].value).value + 1
    ensures |nav| >= 2 && nav[1].None? ==> r == Err(KeyError)
    ensures |nav| >= 2 && nav[1].Some? && ExtractPageNumber(nav[1].value).None? ==> r == Err(ValueError)
  {
    if |nav| < 2 then Err(IndexError)
    else if nav[1].None? then Err(KeyError)
    else match ExtractPageNumber(nav[1].value)
      case None => Err(ValueError)
      case Some(n) => Ok(n + 1)
  }

  /** The listing page `{base}/bbs/{board}/index{n}.html`. */
  function PageUrl(board: string, n: nat): string
  {
    BoardPrefix(board) + "index" + NatToString(n) + ".html"
  }

  /** `range(total, 0, -1)` mapped to page URLs: pages `total` down to 1. */
  function PageUrls(board: string, total: int): (r: seq<string>)
    ensures |r| == if total > 0 then total else 0
    ensures forall i :: 0 <= i < |r| ==> r[i] == PageUrl(board, total - i)
    decreases if total > 0 then total else 0
  {
    if total <= 0 then [] else [PageUrl(board, total)] + PageUrls(board, total - 1)
  }

  /** The page queue `crawl_board` builds from the board's index page. */
  function PageQueue(board: string, nav: seq<Option<string>>): (r: Result<seq<string>, Failure>)
    ensures r.Ok? <==> TotalPages(nav).Ok?
    ensures r.Err? ==> r.error == TotalPages(nav).error
    ensures r.Ok? ==> var total := TotalPages(nav).value;
      |r.value| == (if total > 0 then total else 0) &&
      forall i :: 0 <= i < |r.value| ==> r.value[i] == PageUrl(board, total - i)
  {
    match TotalPages(nav)
    case Err(e) => Err(e)
    case Ok(total) => Ok(PageUrls(board, total))
  }

  /** The page number sits between the board's `index` and the closing `.html`. */
  lemma PageUrlNumber(board: string, n: nat)
    ensures var u := PageUrl(board, n);
      |BoardPrefix(board)| + 5 <= |u| - 5 && u[|BoardPrefix(board)| + 5..|u| - 5] == NatToString(n)
  {
    var p := BoardPrefix(board) + "index";
    assert PageUrl(board, n) == p + NatToString(n) + ".html";
  }

  /** Different page numbers give different page URLs. */
  lemma PageUrlInjective(board: string, m: nat, n: nat)
    ensures PageUrl(board, m) == PageUrl(board, n) ==> m == n
  {
    PageUrlNumber(board, m);
    PageUrlNumber(board, n);
    if PageUrl(board, m) == PageUrl(board, n) {
      NatToStringInjective(m, n);
    }
  }

  /** No two entries of the page queue name the same page. */
  lemma PageUrlsDistinct(board: string, total: int, i: int, j: int)
    requires 0 <= i < j < |PageUrls(board, total)|
    ensures PageUrls(board, total)[i] != PageUrls(board, total)[j]
  {
    var r := PageUrls(board, total);
    assert r[i] == PageUrl(board, total - i) && r[j] == PageUrl(board, total - j);
    PageUrlInjective(board, total - i, total - j);
  }

  /**
   * Reading a page URL back: when the board name adds no `index` or `.html`, the page number in
   * page `n`'s URL is `n`; with `PageUrls`, entry `i` of the queue reads back as `total - i`.
   */
  lemma PageUrlReadBack(board: string, n: nat)
    requires !Contains(BoardPrefix(board), "index") && !Contains(BoardPrefix(board), ".html")
    ensures ExtractPageNumber(PageUrl(board, n)) == Some(n)
  {
    var d := NatToString(n);
    assert PageUrl(board, n) == BoardPrefix(board) + "index" + d + ".html" + "";
    ExtractPageNumberOfHref(BoardPrefix(board), d, "");
  }

  /**
   * A board index whose "previous page" button links to page `n` yields the queue of pages
   * `n + 1` down to 1.
   */
  lemma PageQueueOfIndex(board: string, nav: seq<Option<string>>, pre: string, n: nat, post: string)
    requires |nav| >= 2 && nav[1] == Some(pre + "index" + NatToString(n) + ".html" + post)
    requires !Contains(pre, "index") && !Contains(pre, ".html")
    ensures PageQueue(board, nav) == Ok(PageUrls(board, n + 1))
    ensures |PageUrls(board, n + 1)| == n + 1 && PageUrls(board, n + 1)[n] == PageUrl(board, 1)
  {
    ExtractPageNumberOfHref(pre, NatToString(n), post);
  }
}
