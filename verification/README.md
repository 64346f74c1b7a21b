# PTT board crawler — a Dafny model

This project models the core of a crawler for the PTT bulletin board (www.ptt.cc) and its
database importer. The crawler has two near-duplicate versions: `crawler.py` (called `Current`
here) and the older `ptt-crawler.py` (called `Legacy`). For each board, the crawler:

- reads the page count from the board's index page;
- builds the queue of listing pages, from page N down to page 1;
- pops pages off the queue;
- requeues a page at the back when the upstream answers "Service Temporarily";
- for every other page, visits its thread links and turns each thread into a record (author,
  title, date, id, body, keyed comments);
- appends each record to the board's output file.

The importer reads the JSON-lines file back. It segments the text and turns every line into an
article row plus comment rows.

The model is written in the system's own terms. HTML documents are reduced to the parts the code
selects:

- the `.article-meta-value` texts;
- the `#main-content` node list;
- the `div.push` blocks, each with four optional spans.

HTTP responses become a scripted sequence that the queue loop consumes, one response per popped
URL. The length of that script is the loop's fuel. Python's string operations are defined over
`seq<char>` in `Strings`, exactly as the code uses them:

- `find`;
- slicing with clamped and negative bounds;
- `replace`, which replaces every non-overlapping occurrence, left to right;
- `split(sep)[0]`;
- `rstrip` and `strip`, over the Unicode whitespace set;
- `startswith` and `join`.

`int()` and `str()` are modelled in `Numerals`.

Modules:

- `Wrappers`: `Option` and `Result`.
- `Strings`: the Python string operations, each with its characterising lemmas.
- `Numerals`: decimal digits, `str(n)` and `int(s)`.
- `Pages`: the page number in an href, the page count, and the descending page queue.
- `Articles`: one thread page turned into a record, for both versions. This covers the meta
  sentinels, the id, the body and the comment numbering.
- `Crawl`: the queue loop as a step function, run over scripted responses.
- `Board`: one board crawl. It builds the queue, resets the file, runs the loop, and lays out
  the file's text.
- `Importer`: `segment_text`, the rows of `import_article`, and the line loop of
  `import_jsonl_file`.

Where the two versions differ, the functions take a `Version`:

- A page without a `<title>`: `crawler.py` does not treat it as busy, so the page is counted.
  In `ptt-crawler.py`, reading its title raises, so the page is dropped.
- Comment keys: `crawler.py` keys a comment by its 1-based position among all push blocks, so
  skipped blocks leave gaps. `ptt-crawler.py` numbers the kept comments 1..k.
- The output file: `crawler.py` writes each record followed by `"\n"`. `ptt-crawler.py` writes
  `"[\n"` first, then each record followed by `","`.

In both versions a listing page is counted before its threads are fetched (`crawler.py` lines
83-90, `ptt-crawler.py` lines 51-61). A thread fetch that raises therefore keeps the page
counted, keeps the records already written for it, and skips only the remaining links
(`Crawl.ProcessEntries`).

## Model

| member | source | states |
|---|---|---|
| Strings.Find | src/ptt_textmining/crawler.py:57-58 | `find` gives -1 exactly when the pattern does not occur; otherwise it gives the first occurrence |
| Strings.Slice | src/ptt_textmining/crawler.py:59 | Python slicing: in-range bounds give the plain slice; a negative end bound counts from the end (`s[a:-k]` is `s[a..len-k]`); a non-negative end bound below the start gives the empty string |
| Strings.SliceBound | src/ptt_textmining/crawler.py:59 | a slice bound inside the text is itself; a negative bound counts from the end; a bound past the end clamps to the length, and one before the start clamps to 0 |
| Strings.SplitHead | src/ptt_textmining/crawler.py:151 | `split(sep)[0]` is a prefix without the separator; no occurrence of the separator starts inside it, and one starts right after it when present; without a separator it is the whole text |
| Strings.SplitHeadAtJoin | ptt/ptt-crawler.py:109-110 | splitting `a + sep + t` at `sep` gives `a` when `a` has no `sep` and `sep`'s first character does not recur later in `sep` |
| Strings.ReplaceAllLeading | src/ptt_textmining/crawler.py:137 | removing every `p` from `p + t` gives `t` when `t` has no `p` |
| Strings.ReplaceAllTrailing | ptt/ptt-crawler.py:92 | removing every `p` from `a + p` gives `a` when `a` has no `p` and `p`'s first character does not recur later in `p` |
| Strings.DropFirst | src/ptt_textmining/crawler.py:171 | `s[1:]`: empty for the empty string, otherwise everything after the first character |
| Strings.RStripSpec | src/ptt_textmining/crawler.py:172 | `rstrip` keeps a prefix that ends in a non-space, and every character it drops is whitespace |
| Strings.StripSpec | src/ptt_textmining/import_to_db.py:145-146 | `strip` leaves the empty string exactly for all-whitespace lines, and leaves text alone when both of its ends are non-space |
| Strings.SplitJoin | src/ptt_textmining/import_to_db.py:36 | splitting `" ".join(ws)` at spaces gives `ws` back when no piece holds a space |
| Strings.JoinOffsetNext | src/ptt_textmining/import_to_db.py:36 | in `sep.join(ws)` piece `i + 1` starts after piece `i` and one separator, so piece `i` starts at the sum of the lengths of the earlier pieces plus one separator each |
| Strings.JoinLayout | src/ptt_textmining/import_to_db.py:36 | for any pieces, `sep.join(ws)` holds piece `i` at its running offset, exactly one `sep` after every piece but the last, and nothing after the last piece |
| Numerals.NatToString | src/ptt_textmining/crawler.py:250 | `str(n)` is a non-empty digit string with no leading zero that denotes `n` |
| Numerals.ParseIntAccepts | src/ptt_textmining/crawler.py:59 | `int()` succeeds exactly on stripped text that is digits with an optional sign; its value is the digits' value, negated after `-` |
| Numerals.ParseNatToString | src/ptt_textmining/import_to_db.py:98 | `int(str(n)) == n`, so a comment key the crawler writes reads back as the same number |
| Pages.GetPageNumberOfHref | ptt/ptt-crawler.py:30-34 | for `pre + "index" + digits + ".html" + post`, with no `index` or `.html` in `pre`, the page text is exactly the digits |
| Pages.ExtractPageNumberOfHref | src/ptt_textmining/crawler.py:57-59 | for such an href, `extract_page_number` is the digits' value |
| Pages.TotalPages | src/ptt_textmining/crawler.py:244-245 | the page count is the second button's page number plus 1; fewer than two buttons is an IndexError; a missing `href` is a KeyError; a non-numeric page is a ValueError |
| Pages.PageUrls | src/ptt_textmining/crawler.py:248-252 | the page list has `max(total, 0)` entries, and entry `i` is the URL of page `total - i` |
| Pages.PageQueue | ptt/ptt-crawler.py:179-187 | the queue is built exactly when the page count is, and it is the descending list of page URLs; otherwise it is the count's error |
| Pages.PageUrlReadBack | src/ptt_textmining/crawler.py:249-251 | when the board prefix contains neither `index` nor `.html`, page `n`'s URL reads back as page number `n`, so the queue runs strictly downwards from the total to 1 |
| Pages.PageUrlsDistinct | src/ptt_textmining/crawler.py:248-252 | no page URL occurs twice in the queue |
| Pages.PageQueueOfIndex | src/ptt_textmining/crawler.py:244-252 | an index page whose previous-page button links to page `n` gives the queue of pages `n + 1` down to 1, ending with page 1 |
| Articles.MetaOrSentinel | ptt/ptt-crawler.py:72-80 | the meta value at `index`, or `"no " + field` when there are too few values |
| Articles.ParseArticleFields | src/ptt_textmining/crawler.py:131-153 | author, title and date come from meta values 0, 2 and 3 or their sentinels; the id comes from the URL; the body has no newline, or is the sentinel when the container is missing; the comments are exactly the complete blocks' comments, in order; each field is extracted independently |
| Articles.ArticleIdOfUrl | src/ptt_textmining/crawler.py:137 | the thread URL `BoardPrefix(board) + id + ".html"` gives back `id` when `id` contains neither removed text |
| Articles.ExpandNewlines | src/ptt_textmining/crawler.py:151 | the widened text has no newline, is no shorter, and is unchanged when there was no newline |
| Articles.ReplaceNewlinesIsExpand | ptt/ptt-crawler.py:111 | `replace("\n", "  ")` equals the character-by-character widening |
| Articles.MainContent | src/ptt_textmining/crawler.py:140-153 | a missing container gives `"main_content error"`; otherwise the result is the text before the first signature with newlines widened, and contains no newline |
| Articles.SignatureTruncation | ptt/ptt-crawler.py:104-115 | whatever follows the first signature is dropped from the body |
| Articles.ToComment | src/ptt_textmining/crawler.py:169-172 | status and commenter are copied; the content loses its first character, and empty content stays empty; the time is right-stripped: a prefix ending in a non-space, with only whitespace dropped |
| Articles.PositionalComments | src/ptt_textmining/crawler.py:156-179 | every kept comment is a complete block's comment, keyed by that block's 1-based position; keys are strictly increasing and within the block count |
| Articles.PositionalKeepsComplete | src/ptt_textmining/crawler.py:157-167 | every complete block is kept, under its position |
| Articles.PositionalValues | src/ptt_textmining/crawler.py:157-179 | the stored comments are exactly the complete blocks' comments, in document order |
| Articles.ContiguousComments | ptt/ptt-crawler.py:120-143 | kept comments are numbered `next`, `next + 1`, … without gaps |
| Articles.ContiguousValues | ptt/ptt-crawler.py:122-146 | the stored comments are exactly the complete blocks' comments, in document order |
| Articles.CommentsOf | ptt/ptt-crawler.py:120-146 | both versions store the complete blocks' comments in order; `Legacy` numbers them 1..k; `Current` keys them by position with increasing keys |
| Articles.SingleCommentThread | src/ptt_textmining/crawler.py:121-191 | a full thread page with a signature and one complete push gives the record with the clean id, meta values 0/2/3, the body before the signature, and the comment keyed 1, in both versions |
| Crawl.LinksKeepsAnchored | src/ptt_textmining/crawler.py:85-87 | the anchored entries are exactly the entries that have an `<a>`: none is lost and none is added |
| Crawl.LinksAppend | src/ptt_textmining/crawler.py:85-87 | keeping the anchored entries commutes with concatenation, so page order is preserved |
| Crawl.Visit | src/ptt_textmining/crawler.py:85-90 | anchors are visited in order; every visited anchor has an `href` and a fetched page; the first anchor that raises ends the page |
| Crawl.ProcessEntries | ptt/ptt-crawler.py:52-61 | a counted page appends one record per anchored entry, in page order, up to the first anchor whose `href` is missing or whose fetch raises |
| Crawl.PageOutcome | ptt/ptt-crawler.py:41-69 | a page is requeued exactly when its title contains "Service Temporarily"; it is counted exactly when it is fetched and not busy, and, in `Legacy`, has a title |
| Crawl.Step | src/ptt_textmining/crawler.py:72-97 | one pop: a busy page goes to the back; any other page leaves the queue; the count rises by one exactly for counted pages; records are appended only for counted pages; `count + |queue|` never grows |
| Crawl.StepKeepsPages | src/ptt_textmining/crawler.py:74-80 | a step keeps the queue's multiset when it requeues, and otherwise removes exactly the popped URL |
| Crawl.Run | src/ptt_textmining/crawler.py:72-99 | the loop stops with an empty queue or an exhausted script; the file only grows; the count only rises; `count + |queue|` never exceeds its start |
| Crawl.CrawlPages | src/ptt_textmining/crawler.py:69-70 | starting from count 0, the count never exceeds the number of pages, so progress never exceeds 100% |
| Crawl.RunDrains | src/ptt_textmining/crawler.py:72-99 | a script with room for every queued page plus every busy response in it drains the queue |
| Crawl.RunCountRemaining | src/ptt_textmining/crawler.py:72-83 | the final count plus the counted responses left unused equals the initial count plus all counted responses in the script |
| Crawl.RunCount | src/ptt_textmining/crawler.py:83 | the final count is the initial count plus the counted responses the loop consumed |
| Crawl.SinglePageBoard | src/ptt_textmining/crawler.py:72-92 | a one-page queue whose fetch is counted finishes in one step, with count 1 and that page's records |
| Board.CrawlBoard | src/ptt_textmining/crawler.py:241-259 | an error while building the queue propagates before the reset and leaves the file unchanged; otherwise the file is the preamble followed by every record written, each followed by the terminator |
| Board.RenderAppend | src/ptt_textmining/crawler.py:205-207 | laying out `a + b` is laying out `a` followed by laying out `b`: the file is only appended to |
| Board.RenderStore | ptt/ptt-crawler.py:150-156 | storing one more record appends its JSON text followed by the terminator (`","` in `Legacy`) |
| Board.RenderGrows | src/ptt_textmining/crawler.py:194-195 | more records written means the earlier file text is a prefix of the later one |
| Board.ResetDiscardsPrevious | ptt/ptt-crawler.py:189-193 | once the queue is built, the file holds only this run's output, starting with the preamble, whatever an earlier run left |
| Importer.SegmentText | src/ptt_textmining/import_to_db.py:31-36 | empty text, text starting with `"no "` and `"main_content error"` give `""`; any other text starts with the first token |
| Importer.SegmentTextTokens | src/ptt_textmining/import_to_db.py:35-36 | when the token list is non-empty and no token contains a space, the segmented text splits back into the segmenter's tokens |
| Importer.SegmentTextLayout | src/ptt_textmining/import_to_db.py:35-36 | for any tokens, including whitespace tokens, the segmented text holds token `i` at its running offset, one space after every token but the last, and nothing after the last |
| Importer.BodySentinelUnsegmented | src/ptt_textmining/import_to_db.py:65 | the crawler's `"main_content error"` body segments to `""`, so an article carrying it is committed with an empty `j_content` |
| Importer.CommentRowOf | src/ptt_textmining/import_to_db.py:94-104 | each absent comment field defaults to `""`, present fields are copied, and the segmented content is the content's segmentation |
| Importer.CommentRows | src/ptt_textmining/import_to_db.py:91-104 | rows are built exactly when every key parses; there is one row per entry, in order, with `int(key)` as the index; otherwise the first bad key raises |
| Importer.ImportArticle | src/ptt_textmining/import_to_db.py:61-125 | a missing id raises; a failed article insert rolls back and returns; an empty comment mapping commits no comment rows; a bad comment key raises the key's error; a failed comment batch rolls back; a commit carries the board, the id, each article field or `""`, the segmented content, and one row per comment |
| Importer.ImportArticleCommitsCommentRows | src/ptt_textmining/import_to_db.py:91-119 | with a non-empty comment mapping, a commit carries exactly the rows built from the mapping, and a successful database with parsable keys does commit |
| Importer.ImportCrawledRecord | src/ptt_textmining/import_to_db.py:80-104 | with a database that accepts both inserts, a record the crawler writes commits one article row with its fields and one comment row per comment, with the comment's key as its index |
| Importer.ProcessLineCases | src/ptt_textmining/import_to_db.py:144-157 | a line is skipped exactly when it is blank; it is undecodable exactly when decoding the stripped line fails; it is imported exactly when `import_article` returns; otherwise it carries `import_article`'s exception |
| Importer.ImportJsonlFile | src/ptt_textmining/import_to_db.py:142-159 | the loop returns the count of lines whose import returned, or the exception of the first line whose import raised |
| Importer.ImportedCountStep | src/ptt_textmining/import_to_db.py:145-157 | blank, undecodable and crashing lines leave the count unchanged; every returned import adds one, including a rolled-back one (article insert or comment batch failing) |

## Left out

- HTTP: the session, the over-18 handshake, and fetching. Responses are scripted inputs.
- HTML parsing with BeautifulSoup. Documents are the selected parts, given as data.
- `time.sleep` rate limiting: it is timing only.
- Printing, and the floating-point progress percentage. The model reasons about the integer
  `count` and the queue instead.
- File I/O. Appending and truncating are modelled as the text the file holds
  (`Board.CrawlBoard`). Rewriting the board list and recursing over boards (`process_boards`,
  `loopFile`) are left out.
- `json.dumps`. The serialized text of a record is the parameter `ser`. Because of this, the
  model does not state that the `Legacy` file is never closed with `]`.
- `json.loads`. It is the parameter `decode`. Decoded values that are not strings, and lines that
  decode to something other than an object, are not modelled.
- `jieba.cut`. It is the parameter `tokenize`.
- psycopg2. The database's answer to each line is scripted (`DbScript`). Connection errors and a
  failing commit are not modelled.
- argparse and `main`.
- Numerals.ParseInt: accepts only ASCII digits. Python's `int()` also accepts other Unicode
  decimal digits and `_` separators between digits; the crawler never writes either.
- Crawl.Run: stops when the scripted responses run out. That is a fuel bound. Without a bound on
  busy responses, the source loop need not terminate; `Crawl.RunDrains` states when the fuel is
  enough.
- Importer.ImportJsonlFile: receives a decoded line-processing function (`LineProcessor`). It
  reads `ptt-crawler.py`'s output only as far as `decode` maps it. That output uses other key
  names (`a_ID`, `b_作者`, …) and is not a JSON-lines file.
- Importer.SegmentText: its contract states only that the text starts with the first token.
  `Importer.SegmentTextLayout` places every token for any segmenter output. The split-back
  relation `Importer.SegmentTextTokens` holds only when no token contains a space. jieba emits
  whitespace tokens for real text, so that lemma does not cover crawled content.
