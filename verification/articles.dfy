/**
 * Extraction of one thread into an article record (`parse_article` in crawler.py and
 * `parseGos` in ptt-crawler.py). The HTML page is given as already-selected parts:
 * the `.article-meta-value` texts, the `#main-content` container as a node list (or
 * `None` when the page has none), and the `div.push` blocks with their four optional spans.
 */
module Articles {
  import opened Wrappers
  import opened Strings
  import Pages

  /** The two crawler versions: crawler.py (`Current`) and ptt-crawler.py (`Legacy`). */
  datatype Version = Current | Legacy

  /** The signature line the platform appends below every post. */
  const Signature := "※ 發信站: 批踢踢實業坊(ptt.cc),"

  /** The content sentinel for a page whose main container cannot be read. */
  const MainContentError := "main_content error"

  /** A child of the main container: body text, or a metaline decoration (left or right variant). */
  datatype Node = Text(text: string) | Metaline(text: string) | MetalineRight(text: string)

  /** A `div.push` block: the four spans, each `None` when the block lacks it. */
  datatype PushBlock = PushBlock(
    tag: Option<string>, userid: Option<string>, content: Option<string>, ipdatetime: Option<string>)

  datatype ArticleDoc = ArticleDoc(metaValues: seq<string>, mainContent: Option<seq<Node>>, pushes: seq<PushBlock>)

  datatype Comment = Comment(status: string, commenter: string, content: string, datetime: string)

  /** A comment under its key in the record's comment mapping (insertion order = sequence order). */
  datatype KeyedComment = KeyedComment(key: nat, comment: Comment)

  datatype ArticleRecord = ArticleRecord(
    id: string, author: string, title: string, date: string, content: string, comments: seq<KeyedComment>)

  /** The meta value at `index`, or the sentinel `"no <field>"` when there are too few values. */
  function MetaOrSentinel(values: seq<string>, index: nat, field: string): (r: string)
    ensures index < |values| ==> r == values[index]
    ensures index >= |values| ==> r == "no " + field
  {
    if index < |values| then values[index] else "no " + field
  }

  /** The thread id: the URL with every board prefix and every `.html` removed. */
  function ArticleId(url: string, board: string): string
  {
    ReplaceAll(ReplaceAll(url, Pages.BoardPrefix(board), ""), ".html", "")
  }

  /** A thread URL `{prefix}{id}.html` gives back `id` when `id` holds neither removed text. */
  lemma ArticleIdOfUrl(board: string, id: string)
    requires !Contains(id, Pages.BoardPrefix(board)) && !Contains(id, ".html")
    ensures ArticleId(Pages.BoardPrefix(board) + id + ".html", board) == id
  {
    var p := Pages.BoardPrefix(board);
    assert p[|p| - 1] == '/';
    NoStraddle(id, ".html", p);
    ReplaceAllLeading(p, id + ".html");
    assert p + id + ".html" == p + (id + ".html");
    ReplaceAllTrailing(id, ".html");
  }

  /** The container's text once both kinds of metaline are removed. */
  function VisibleText(nodes: seq<Node>): string
    decreases |nodes|
  {
    if |nodes| == 0 then ""
    else (if nodes[0].Text? then nodes[0].text else "") + VisibleText(nodes[1..])
  }

  /** Every newline widened to two spaces, character by character. */
  function ExpandNewlines(s: string): (r: string)
    ensures '\n' !in r
    ensures '\n' !in s ==> r == s
    ensures |r| >= |s|
    decreases |s|
  {
    if |s| == 0 then ""
    else
      var rest := ExpandNewlines(s[1..]);
      if s[0] == '\n' then "  " + rest
      else
        assert '\n' !in s ==> s == [s[0]] + s[1..];
        [s[0]] + rest
  }

  /** `s.replace("\n", "  ")` is the character-by-character widening. */
  lemma {:induction false} ReplaceNewlinesIsExpand(s: string)
    ensures ReplaceAll(s, "\n", "  ") == ExpandNewlines(s)
    decreases |s|
  {
    if |s| > 0 {
      assert s[..1] == "\n" <==> s[0] == '\n';
      assert s[1..] == s[|"\n"|..];
      ReplaceNewlinesIsExpand(s[1..]);
    }
  }

  /**
   * The article body: text before the first signature, newlines widened; the sentinel when the
   * page has no main container.
   */
  function MainContent(container: Option<seq<Node>>): (r: string)
    ensures container.None? ==> r == MainContentError
    ensures container.Some? ==> '\n' !in r
    ensures container.Some? ==> r == ExpandNewlines(SplitHead(VisibleText(container.value), Signature))
  {
    match container
    case None => MainContentError
    case Some(nodes) =>
      var head := SplitHead(VisibleText(nodes), Signature);
      ReplaceNewlinesIsExpand(head);
      ReplaceAll(head, "\n", "  ")
  }

  /** The signature's first character, `※`, occurs nowhere else in it. */
  lemma SignatureStartIsUnique()
    ensures forall j :: 0 < j < |Signature| ==> Signature[j] != Signature[0]
  {
  }

  /** Whatever follows the first signature is dropped from the body. */
  lemma SignatureTruncation(nodes: seq<Node>, body: string, tail: string)
    requires VisibleText(nodes) == body + Signature + tail
    requires !Contains(body, Signature)
    ensures MainContent(Some(nodes)) == ExpandNewlines(body)
  {
    SignatureStartIsUnique();
    SplitHeadAtJoin(body, Signature, tail);
  }

  /** A push block is kept only when all four spans are present. */
  predicate Complete(b: PushBlock)
  {
    b.tag.Some? && b.userid.Some? && b.content.Some? && b.ipdatetime.Some?
  }

  /** The stored comment: the content's leading separator dropped, the time right-stripped. */
  function ToComment(b: PushBlock): (c: Comment)
    requires Complete(b)
    ensures c.status == b.tag.value && c.commenter == b.userid.value
    ensures |b.content.value| > 0 ==> b.content.value == [b.content.value[0]] + c.content
    ensures |b.content.value| == 0 ==> c.content == ""
    ensures c.datetime <= b.ipdatetime.value && (c.datetime == [] || !IsSpace(c.datetime[|c.datetime| - 1]))
    ensures forall i :: |c.datetime| <= i < |b.ipdatetime.value| ==> IsSpace(b.ipdatetime.value[i])
  {
    RStripSpec(b.ipdatetime.value);
    Comment(b.tag.value, b.userid.value, DropFirst(b.content.value), RStrip(b.ipdatetime.value))
  }

  /** Reference: the comments of the complete blocks, in document order. */
  function KeptComments(blocks: seq<PushBlock>): seq<Comment>
    decreases |blocks|
  {
    if |blocks| == 0 then []
    else (if Complete(blocks[0]) then [ToComment(blocks[0])] else []) + KeptComments(blocks[1..])
  }

  /** The comments of a keyed comment list, keys dropped. */
  function Values(ks: seq<KeyedComment>): seq<Comment>
    decreases |ks|
  {
    if |ks| == 0 then [] else [ks[0].comment] + Values(ks[1..])
  }

  /** `kc` is the comment of a complete block of `blocks`, keyed by that block's position counted from `first`. */
  predicate KeyedAtPosition(blocks: seq<PushBlock>, first: nat, kc: KeyedComment)
  {
    first <= kc.key < first + |blocks| &&
    Complete(blocks[kc.key - first]) && kc.comment == ToComment(blocks[kc.key - first])
  }

  lemma KeyedAtPositionShift(blocks: seq<PushBlock>, first: nat, kc: KeyedComment)
    requires |blocks| > 0 && KeyedAtPosition(blocks[1..], first + 1, kc)
    ensures KeyedAtPosition(blocks, first, kc)
  {
    assert blocks[1..][kc.key - (first + 1)] == blocks[kc.key - first];
  }

  /** Keys strictly increase along the list. */
  predicate KeysIncreasing(ks: seq<KeyedComment>)
  {
    forall j, k :: 0 <= j < k < |ks| ==> ks[j].key < ks[k].key
  }

  /** A key below all of an increasing list's keys can be put in front. */
  lemma PrependKeepsIncreasing(kc: KeyedComment, ks: seq<KeyedComment>)
    requires KeysIncreasing(ks) && forall j :: 0 <= j < |ks| ==> kc.key < ks[j].key
    ensures KeysIncreasing([kc] + ks)
  {
    var r := [kc] + ks;
    assert forall j :: 1 <= j < |r| ==> r[j] == ks[j - 1];
  }

  /**
   * crawler.py: each kept block is keyed by its position among all blocks, counting from
   * `first`, so skipped blocks leave gaps.
   */
  function PositionalComments(blocks: seq<PushBlock>, first: nat): (r: seq<KeyedComment>)
    ensures |r| <= |blocks|
    ensures forall j :: 0 <= j < |r| ==> KeyedAtPosition(blocks, first, r[j])
    ensures KeysIncreasing(r)
    decreases |blocks|
  {
    if |blocks| == 0 then []
    else
      var rest := PositionalComments(blocks[1..], first + 1);
      assert forall j :: 0 <= j < |rest| ==> KeyedAtPosition(blocks, first, rest[j]) by {
        forall j | 0 <= j < |rest| ensures KeyedAtPosition(blocks, first, rest[j]) {
          KeyedAtPositionShift(blocks, first, rest[j]);
        }
      }
      if Complete(blocks[0]) then
        var kc := KeyedComment(first, ToComment(blocks[0]));
        assert forall j :: 0 <= j < |rest| ==> kc.key < rest[j].key;
        PrependKeepsIncreasing(kc, rest);
        [kc] + rest
      else rest
  }

  /** ptt-crawler.py: the kept blocks are numbered `next`, `next + 1`, ... without gaps. */
  function ContiguousComments(blocks: seq<PushBlock>, next: nat): (r: seq<KeyedComment>)
    ensures |r| <= |blocks|
    ensures forall j :: 0 <= j < |r| ==> r[j].key == next + j
    decreases |blocks|
  {
    if |blocks| == 0 then []
    else if Complete(blocks[0]) then [KeyedComment(next, ToComment(blocks[0]))] + ContiguousComments(blocks[1..], next + 1)
    else ContiguousComments(blocks[1..], next)
  }

  /** crawler.py keeps every complete block, under its position. */
  lemma {:induction false} PositionalKeepsComplete(blocks: seq<PushBlock>, first: nat, i: nat)
    requires i < |blocks| && Complete(blocks[i])
    ensures exists j :: 0 <= j < |PositionalComments(blocks, first)| && PositionalComments(blocks, first)[j].key == first + i
    decreases i
  {
    var r := PositionalComments(blocks, first);
    var rest := PositionalComments(blocks[1..], first + 1);
    if i == 0 {
      assert r == [KeyedComment(first, ToComment(blocks[0]))] + rest;
      assert r[0].key == first;
    } else {
      PositionalKeepsComplete(blocks[1..], first + 1, i - 1);
      var j :| 0 <= j < |rest| && rest[j].key == first + i;
      if Complete(blocks[0]) {
        assert r == [KeyedComment(first, ToComment(blocks[0]))] + rest;
        assert r[j + 1].key == first + i;
      } else {
        assert r == rest;
      }
    }
  }

  /** crawler.py stores exactly the complete blocks' comments, in document order. */
  lemma {:induction false} PositionalValues(blocks: seq<PushBlock>, first: nat)
    ensures Values(PositionalComments(blocks, first)) == KeptComments(blocks)
    decreases |blocks|
  {
    if |blocks| > 0 {
      PositionalValues(blocks[1..], first + 1);
      var rest := PositionalComments(blocks[1..], first + 1);
      if Complete(blocks[0]) {
        var r := [KeyedComment(first, ToComment(blocks[0]))] + rest;
        assert r[1..] == rest;
      }
    }
  }

  /** ptt-crawler.py stores the same comments in the same order, numbered 1..k. */
  lemma {:induction false} ContiguousValues(blocks: seq<PushBlock>, next: nat)
    ensures Values(ContiguousComments(blocks, next)) == KeptComments(blocks)
    decreases |blocks|
  {
    if |blocks| > 0 {
      if Complete(blocks[0]) {
        ContiguousValues(blocks[1..], next + 1);
        var rest := ContiguousComments(blocks[1..], next + 1);
        var r := [KeyedComment(next, ToComment(blocks[0]))] + rest;
        assert r[1..] == rest;
      } else {
        ContiguousValues(blocks[1..], next);
      }
    }
  }

  lemma {:induction false} ValuesLength(ks: seq<KeyedComment>)
    ensures |Values(ks)| == |ks|
    decreases |ks|
  {
    if |ks| > 0 {
      ValuesLength(ks[1..]);
    }
  }

  /** The comment list of a thread, numbered the way each version numbers it. */
  function CommentsOf(v: Version, blocks: seq<PushBlock>): (r: seq<KeyedComment>)
    ensures Values(r) == KeptComments(blocks)
    ensures v == Current ==> forall j :: 0 <= j < |r| ==> KeyedAtPosition(blocks, 1, r[j])
    ensures v == Current ==> KeysIncreasing(r)
    ensures v == Legacy ==> |r| == |KeptComments(blocks)| && forall j :: 0 <= j < |r| ==> r[j].key == j + 1
  {
    match v
    case Current =>
      PositionalValues(blocks, 1);
      PositionalComments(blocks, 1)
    case Legacy =>
      ContiguousValues(blocks, 1);
      ValuesLength(ContiguousComments(blocks, 1));
      ContiguousComments(blocks, 1)
  }

  /** One thread page turned into a record. */
  function ParseArticle(v: Version, url: string, board: string, doc: ArticleDoc): ArticleRecord
  {
    ArticleRecord(
      ArticleId(url, board),
      MetaOrSentinel(doc.metaValues, 0, "author"),
      MetaOrSentinel(doc.metaValues, 2, "title"),
      MetaOrSentinel(doc.metaValues, 3, "date"),
      MainContent(doc.mainContent),
      CommentsOf(v, doc.pushes))
  }

  /**
   * The record's fields: author, title and date from meta values 0, 2 and 3 (or their
   * sentinels), the id from the URL, the body, and the kept comments. Each field is extracted
   * on its own, so a missing container or missing meta values leave the other fields as they are.
   */
  lemma ParseArticleFields(v: Version, url: string, board: string, doc: ArticleDoc)
    ensures var r := ParseArticle(v, url, board, doc);
      && r.id == ArticleId(url, board)
      && r.author == (if |doc.metaValues| > 0 then doc.metaValues[0] else "no author")
      && r.title == (if |doc.metaValues| > 2 then doc.metaValues[2] else "no title")
      && r.date == (if |doc.metaValues| > 3 then doc.metaValues[3] else "no date")
      && (doc.mainContent.None? ==> r.content == MainContentError)
      && (doc.mainContent.Some? ==> '\n' !in r.content)
      && Values(r.comments) == KeptComments(doc.pushes)
  {
  }

  /**
   * A thread page with full metadata, a body followed by the signature and platform
   * boilerplate, and one complete push block give a record whose content stops before the
   * signature and whose only comment is keyed 1, in both versions.
   */
  lemma SingleCommentThread(v: Version, board: string, id: string, meta: seq<string>,
                            nodes: seq<Node>, body: string, tail: string, b: PushBlock)
    requires !Contains(id, Pages.BoardPrefix(board)) && !Contains(id, ".html")
    requires |meta| >= 4
    requires VisibleText(nodes) == body + Signature + tail && !Contains(body, Signature) && '\n' !in body
    requires Complete(b)
    ensures ParseArticle(v, Pages.BoardPrefix(board) + id + ".html", board, ArticleDoc(meta, Some(nodes), [b]))
         == ArticleRecord(id, meta[0], meta[2], meta[3], body, [KeyedComment(1, ToComment(b))])
  {
    ArticleIdOfUrl(board, id);
    SignatureTruncation(nodes, body, tail);
    assert [b][1..] == [];
  }
}
