/**
 * The downstream importer (import_to_db.py): the sentinel guard of `segment_text`, the rows
 * `import_article` builds, and the line loop of `import_jsonl_file`. The word segmenter is the
 * parameter `tokenize`, JSON decoding is the parameter `decode`, and the database's answer to
 * each insert is scripted per line.
 */
module Importer {
  import opened Wrappers
  import opened Strings
  import opened Numerals
  import Articles

  /** Texts `segment_text` does not segment: empty, a `"no <field>"` sentinel, or the content sentinel. */
  predicate IsSentinel(text: string)
  {
    text == "" || StartsWith(text, "no ") || text == Articles.MainContentError
  }

  /** `segment_text`: nothing for a sentinel, otherwise the segmenter's tokens joined by single spaces. */
  function SegmentText(text: string, tokenize: string -> seq<string>): (r: string)
    ensures IsSentinel(text) ==> r == ""
    ensures !IsSentinel(text) && |tokenize(text)| > 0 ==> tokenize(text)[0] <= r
  {
    if IsSentinel(text) then ""
    else
      var ws := tokenize(text);
      assert |ws| > 1 ==> Join(" ", ws) == ws[0] + (" " + Join(" ", ws[1..]));
      Join(" ", ws)
  }

  /** The segmented text splits back into the segmenter's tokens when no token holds a space. */
  lemma SegmentTextTokens(text: string, tokenize: string -> seq<string>)
    requires !IsSentinel(text) && |tokenize(text)| > 0
    requires forall i :: 0 <= i < |tokenize(text)| ==> ' ' !in tokenize(text)[i]
    ensures SplitOn(SegmentText(text, tokenize), ' ') == tokenize(text)
  {
    SplitJoin(tokenize(text), ' ');
  }

  /**
   * Where the segmented text puts each token, whatever the tokens hold: token `i` starts at the
   * running offset `JoinOffset(" ", tokens, i)`, one space follows every token but the last, and
   * the last token ends the text.
   */
  lemma SegmentTextLayout(text: string, tokenize: string -> seq<string>, i: nat)
    requires !IsSentinel(text) && i < |tokenize(text)|
    ensures var ws := tokenize(text); var r := SegmentText(text, tokenize); var o := JoinOffset(" ", ws, i);
      && o + |ws[i]| <= |r|
      && r[o..o + |ws[i]|] == ws[i]
      && (i + 1 < |ws| ==> o + |ws[i]| < |r| && r[o + |ws[i]|] == ' ')
      && (i + 1 == |ws| ==> o + |ws[i]| == |r|)
  {
    var ws := tokenize(text);
    var r := SegmentText(text, tokenize);
    var e := JoinOffset(" ", ws, i) + |ws[i]|;
    JoinLayout(" ", ws, i);
    if i + 1 < |ws| {
      assert r[e..e + 1][0] == r[e];
    }
  }

  /**
   * The crawler's sentinel for a page without a main-content container is not segmented: an
   * article carrying it is committed with an empty `j_content`.
   */
  lemma BodySentinelUnsegmented(a: JsonArticle, board: string, db: DbScript, tokenize: string -> seq<string>)
    requires a.content == Some(Articles.MainContent(None))
    ensures SegmentText(a.content.value, tokenize) == ""
    ensures var r := ImportArticle(a, board, db, tokenize); r.Ok? && r.value.Committed? ==> r.value.article.jContent == ""
  {
  }

  /** Why importing an article raised: no `"id"` key, or a comment key `int()` rejects. */
  datatype ImportError = MissingId | BadCommentKey(key: string)

  /** A decoded comment object; an absent key is `None`. */
  datatype JsonComment = JsonComment(
    status: Option<string>, commenter: Option<string>, content: Option<string>, datetime: Option<string>)

  /** One item of the decoded `comments` object, in insertion order. */
  datatype JsonEntry = JsonEntry(key: string, value: JsonComment)

  /** A decoded article line; a missing `comments` key is the empty mapping. */
  datatype JsonArticle = JsonArticle(
    id: Option<string>, author: Option<string>, title: Option<string>, date: Option<string>,
    content: Option<string>, comments: seq<JsonEntry>)

  datatype ArticleRow = ArticleRow(
    articleId: string, boardName: string, author: string, title: string, date: string,
    content: string, jContent: string)

  datatype CommentRow = CommentRow(
    articleId: string, index: int, status: string, commenter: string, content: string,
    jContent: string, datetime: string)

  /** The database's answer: everything succeeds, or the article insert or the comment batch fails. */
  datatype DbScript = DbOk | ArticleInsertFails | CommentInsertFails

  /** A returned `import_article`: committed rows, or a rolled-back transaction. */
  datatype ImportOutcome = Committed(article: ArticleRow, comments: seq<CommentRow>) | RolledBack

  /** The row for one comment entry whose key parses to `index`. */
  function CommentRowOf(id: string, index: int, c: JsonComment, tokenize: string -> seq<string>): (r: CommentRow)
    ensures r.articleId == id && r.index == index
    ensures c.status.None? ==> r.status == ""
    ensures c.status.Some? ==> r.status == c.status.value
    ensures c.commenter.None? ==> r.commenter == ""
    ensures c.commenter.Some? ==> r.commenter == c.commenter.value
    ensures c.content.None? ==> r.content == "" && r.jContent == ""
    ensures c.content.Some? ==> r.content == c.content.value
    ensures c.datetime.None? ==> r.datetime == ""
    ensures c.datetime.Some? ==> r.datetime == c.datetime.value
    ensures r.jContent == SegmentText(r.content, tokenize)
  {
    var content := c.content.GetOr("");
    CommentRow(id, index, c.status.GetOr(""), c.commenter.GetOr(""), content,
               SegmentText(content, tokenize), c.datetime.GetOr(""))
  }

  /** Entry `i` is the first whose key `int()` rejects. */
  predicate FirstBadKey(entries: seq<JsonEntry>, i: int)
  {
    0 <= i < |entries| && ParseInt(entries[i].key).None? &&
    forall k :: 0 <= k < i ==> ParseInt(entries[k].key).Some?
  }

  /** The comment rows, one per entry in order, each keyed by `int(key)`; the first bad key raises. */
  function CommentRows(id: string, entries: seq<JsonEntry>, tokenize: string -> seq<string>): (r: Result<seq<CommentRow>, ImportError>)
    ensures r.Ok? <==> forall i :: 0 <= i < |entries| ==> ParseInt(entries[i].key).Some?
    ensures r.Ok? ==> |r.value| == |entries|
    ensures r.Ok? ==> forall i :: 0 <= i < |entries| ==>
      r.value[i] == CommentRowOf(id, ParseInt(entries[i].key).value, entries[i].value, tokenize)
    ensures r.Err? ==> exists i :: FirstBadKey(entries, i) && r.error == BadCommentKey(entries[i].key)
    decreases |entries|
  {
    if |entries| == 0 then Ok([])
    else
      match ParseInt(entries[0].key)
      case None => Err(BadCommentKey(entries[0].key))
      case Some(n) =>
        var rest := CommentRows(id, entries[1..], tokenize);
        assert forall i :: 1 <= i < |entries| ==> entries[i] == entries[1..][i - 1];
        match rest
        case Err(e) =>
          var i :| FirstBadKey(entries[1..], i) && e == BadCommentKey(entries[1..][i].key);
          assert FirstBadKey(entries, i + 1);
          Err(e)
        case Ok(rows) =>
          Ok([CommentRowOf(id, n, entries[0].value, tokenize)] + rows)
  }

  /**
   * `import_article`: segment the content, insert the article row, then, for a non-empty
   * comment mapping, build and insert the comment rows, and commit. A database failure rolls
   * back and returns; a missing id or a bad comment key raises.
   */
  function ImportArticle(a: JsonArticle, board: string, db: DbScript, tokenize: string -> seq<string>): (r: Result<ImportOutcome, ImportError>)
    ensures a.id.None? <==> r == Err(MissingId)
    ensures a.id.Some? && db == ArticleInsertFails ==> r == Ok(RolledBack)
    ensures a.id.Some? && |a.comments| == 0 && db != ArticleInsertFails ==> r.Ok? && r.value.Committed? && r.value.comments == []
    ensures r.Ok? && r.value.Committed? ==>
      && r.value.article.articleId == a.id.value
      && r.value.article.jContent == SegmentText(a.content.GetOr(""), tokenize)
      && |r.value.comments| == |a.comments|
      && r.value.article.boardName == board
      && r.value.article.author == a.author.GetOr("")
      && r.value.article.title == a.title.GetOr("")
      && r.value.article.date == a.date.GetOr("")
      && r.value.article.content == a.content.GetOr("")
    ensures a.id.Some? && db != ArticleInsertFails && |a.comments| > 0 && CommentRows(a.id.value, a.comments, tokenize).Err? ==>
      r == Err(CommentRows(a.id.value, a.comments, tokenize).error)
    ensures a.id.Some? && db == CommentInsertFails && |a.comments| > 0 && CommentRows(a.id.value, a.comments, tokenize).Ok? ==>
      r == Ok(RolledBack)
  {
    var content := a.content.GetOr("");
    var jContent := SegmentText(content, tokenize);
    match a.id
    case None => Err(MissingId)
    case Some(id) =>
      var row := ArticleRow(id, board, a.author.GetOr(""), a.title.GetOr(""), a.date.GetOr(""), content, jContent);
      if db == ArticleInsertFails then Ok(RolledBack)
      else if |a.comments| == 0 then Ok(Committed(row, []))
      else match CommentRows(id, a.comments, tokenize)
        case Err(e) => Err(e)
        case Ok(rows) => if db == CommentInsertFails then Ok(RolledBack) else Ok(Committed(row, rows))
  }

  /** A commit with a non-empty comment mapping carries exactly the rows `CommentRows` builds from it. */
  lemma ImportArticleCommitsCommentRows(a: JsonArticle, board: string, db: DbScript, tokenize: string -> seq<string>)
    requires a.id.Some? && |a.comments| > 0
    ensures var r := ImportArticle(a, board, db, tokenize);
      r.Ok? && r.value.Committed? ==> CommentRows(a.id.value, a.comments, tokenize) == Ok(r.value.comments)
    ensures db == DbOk && CommentRows(a.id.value, a.comments, tokenize).Ok? ==>
      ImportArticle(a, board, db, tokenize).Ok? && ImportArticle(a, board, db, tokenize).value.Committed?
  {
  }

  /** The decoded view of a record crawler.py writes: every key present, comment keys as `str(n)`. */
  function JsonView(rec: Articles.ArticleRecord): JsonArticle
  {
    JsonArticle(Some(rec.id), Some(rec.author), Some(rec.title), Some(rec.date), Some(rec.content),
      seq(|rec.comments|, i requires 0 <= i < |rec.comments| =>
        var c := rec.comments[i].comment;
        JsonEntry(NatToString(rec.comments[i].key),
                  JsonComment(Some(c.status), Some(c.commenter), Some(c.content), Some(c.datetime)))))
  }

  /**
   * A record crawler.py writes imports into one article row with the record's fields and one
   * comment row per comment, carrying the comment's key as its index.
   */
  lemma ImportCrawledRecord(rec: Articles.ArticleRecord, board: string, tokenize: string -> seq<string>)
    ensures var r := ImportArticle(JsonView(rec), board, DbOk, tokenize);
      && r.Ok? && r.value.Committed?
      && r.value.article == ArticleRow(rec.id, board, rec.author, rec.title, rec.date, rec.content,
                                       SegmentText(rec.content, tokenize))
      && |r.value.comments| == |rec.comments|
      && forall i :: 0 <= i < |rec.comments| ==>
           var row := r.value.comments[i];
           var c := rec.comments[i].comment;
           row.articleId == rec.id && row.index == rec.comments[i].key && row.status == c.status &&
           row.commenter == c.commenter && row.content == c.content && row.datetime == c.datetime
  {
    var entries := JsonView(rec).comments;
    forall i | 0 <= i < |entries|
      ensures ParseInt(entries[i].key) == Some(rec.comments[i].key as int)
    {
      ParseNatToString(rec.comments[i].key);
    }
  }

  /** One input line with the database's answer to its import. */
  datatype InputLine = InputLine(text: string, db: DbScript)

  datatype LineResult = Blank | Undecodable | Imported(outcome: ImportOutcome) | Crashed(error: ImportError)

  /** One iteration of the line loop: strip, skip blank lines, decode, import. */
  function ProcessLine(line: InputLine, decode: string -> Option<JsonArticle>, tokenize: string -> seq<string>, board: string): LineResult
  {
    var t := Strip(line.text);
    if t == "" then Blank
    else match decode(t)
      case None => Undecodable
      case Some(a) =>
        match ImportArticle(a, board, line.db, tokenize)
        case Err(e) => Crashed(e)
        case Ok(o) => Imported(o)
  }

  /**
   * The four fates of a line: blank exactly when it is all whitespace, undecodable when the
   * decoder rejects the stripped text, imported when `import_article` returns, and otherwise
   * the exception `import_article` raised.
   */
  lemma ProcessLineCases(line: InputLine, decode: string -> Option<JsonArticle>, tokenize: string -> seq<string>, board: string)
    ensures var r := ProcessLine(line, decode, tokenize, board);
      && (r.Blank? <==> AllSpace(line.text))
      && (r.Undecodable? <==> !AllSpace(line.text) && decode(Strip(line.text)).None?)
      && (r.Imported? <==>
            && !AllSpace(line.text)
            && decode(Strip(line.text)).Some?
            && ImportArticle(decode(Strip(line.text)).value, board, line.db, tokenize).Ok?)
      && (r.Crashed? ==> r.error == ImportArticle(decode(Strip(line.text)).value, board, line.db, tokenize).error)
  {
    StripSpec(line.text);
  }

  /** The handling of each line for one decoder, segmenter and board, as the loop applies it. */
  function LineProcessor(decode: string -> Option<JsonArticle>, tokenize: string -> seq<string>, board: string): InputLine -> LineResult
  {
    line => ProcessLine(line, decode, tokenize, board)
  }

  /** Reference count: the lines whose import returned, rolled back or not. */
  function ImportedCount(process: InputLine -> LineResult, lines: seq<InputLine>): nat
    decreases |lines|
  {
    if |lines| == 0 then 0
    else
      var last := if process(lines[|lines| - 1]).Imported? then 1 else 0;
      ImportedCount(process, lines[..|lines| - 1]) + last
  }

  /** Extending the prefix by line `i` adds one exactly when that line's import returned. */
  lemma ImportedCountPrefix(process: InputLine -> LineResult, lines: seq<InputLine>, i: nat)
    requires i < |lines|
    ensures ImportedCount(process, lines[..i + 1]) ==
      ImportedCount(process, lines[..i]) + (if process(lines[i]).Imported? then 1 else 0)
  {
    assert lines[..i + 1][..i] == lines[..i];
    assert lines[..i + 1][i] == lines[i];
  }

  /** Line `k` is the first whose import raised. */
  predicate FirstCrash(process: InputLine -> LineResult, lines: seq<InputLine>, k: int)
  {
    0 <= k < |lines| && process(lines[k]).Crashed? && forall j :: 0 <= j < k ==> !process(lines[j]).Crashed?
  }

  /**
   * The line loop of `import_jsonl_file`, with `process` handling each line (`LineProcessor` in
   * the importer): the count of imported articles, or the exception of the first line whose
   * import raised, which ends the loop.
   */
  method ImportJsonlFile(process: InputLine -> LineResult, lines: seq<InputLine>) returns (r: Result<nat, ImportError>)
    ensures r.Ok? <==> forall k :: 0 <= k < |lines| ==> !process(lines[k]).Crashed?
    ensures r.Ok? ==> r.value == ImportedCount(process, lines)
    ensures r.Err? ==> exists k :: FirstCrash(process, lines, k) && process(lines[k]) == Crashed(r.error)
  {
    var count := 0;
    var i := 0;
    while i < |lines|
      invariant 0 <= i <= |lines|
      invariant forall k :: 0 <= k < i ==> !process(lines[k]).Crashed?
      invariant count == ImportedCount(process, lines[..i])
    {
      var result := process(lines[i]);
      ImportedCountPrefix(process, lines, i);
      match result {
        case Crashed(e) =>
          return Err(e);
        case Imported(_) =>
          count := count + 1;
        case Blank =>
        case Undecodable =>
      }
      i := i + 1;
    }
    assert lines[..i] == lines;
    return Ok(count);
  }

  /** Blank and undecodable lines leave the count as it is; an import that returns, even rolled back, adds one. */
  lemma ImportedCountStep(lines: seq<InputLine>, line: InputLine, decode: string -> Option<JsonArticle>,
                          tokenize: string -> seq<string>, board: string)
    ensures var process := LineProcessor(decode, tokenize, board);
      AllSpace(line.text) ==> ImportedCount(process, lines + [line]) == ImportedCount(process, lines)
    ensures var process := LineProcessor(decode, tokenize, board);
      !AllSpace(line.text) && decode(Strip(line.text)).None? ==>
        ImportedCount(process, lines + [line]) == ImportedCount(process, lines)
    ensures var process := LineProcessor(decode, tokenize, board);
      && !AllSpace(line.text)
      && decode(Strip(line.text)).Some?
      && decode(Strip(line.text)).value.id.Some?
      && line.db == ArticleInsertFails
      ==> ImportedCount(process, lines + [line]) == ImportedCount(process, lines) + 1
    ensures var process := LineProcessor(decode, tokenize, board);
      process(line).Imported? ==> ImportedCount(process, lines + [line]) == ImportedCount(process, lines) + 1
    ensures var process := LineProcessor(decode, tokenize, board);
      process(line) == Imported(RolledBack) ==> ImportedCount(process, lines + [line]) == ImportedCount(process, lines) + 1
    ensures var process := LineProcessor(decode, tokenize, board);
      process(line).Crashed? ==> ImportedCount(process, lines + [line]) == ImportedCount(process, lines)
  {
    ProcessLineCases(line, decode, tokenize, board);
    assert (lines + [line])[..|lines|] == lines;
  }
}
