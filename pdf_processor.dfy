/** The local PDF path of receipt_recognizer/pdf_processor.py over an
    abstract document: plain-text assembly from blocks, line assembly from
    words, the "searchable" test, pattern lookup with an opaque matcher,
    bank detection and the combined receipt record. */
module PdfProcessor {
  import opened Wrappers
  import opened Values
  import opened Exceptions
  import opened Sorting

  /** A text block of `page.get_text("blocks")`: its box and its text. */
  datatype Block = Block(x0: real, y0: real, x1: real, y1: real, text: string)

  /** A word of `page.get_text("words")`; `yKey` is `round(y0, 1)`, the key
      that groups words into lines. */
  datatype Word = Word(x0: real, y0: real, x1: real, y1: real, text: string, yKey: real)

  /** A page, as the three views of it the processor asks for: its blocks,
      its words and its plain text (`page.get_text()`). */
  datatype Page = Page(blocks: seq<Block>, words: seq<Word>, text: string)

  /** What `fitz.open(path)` yields: the pages, or the reason it failed. */
  datatype Document = Unreadable(reason: string) | Doc(pages: seq<Page>)

  /** The exception both text extractors raise when the document fails. */
  function ExtractionError(reason: string): Error {
    Error(Exception, "Error extracting text from PDF: " + reason)
  }

  // ---------------------------------------------------------------------
  // extract_text_from_pdf
  // ---------------------------------------------------------------------

  /** The block sort key `(y0, x0)`: top to bottom, then left to right. */
  predicate BlockBefore(a: Block, b: Block) {
    a.y0 < b.y0 || (a.y0 == b.y0 && a.x0 <= b.x0)
  }

  lemma BlockOrderIsPreorder()
    ensures TotalPreorder(BlockBefore)
  {
  }

  /** `blocks.sort(key=lambda b: (b[1], b[0]))`. */
  function SortedBlocks(blocks: seq<Block>): seq<Block> {
    Sort(blocks, BlockBefore)
  }

  /** The page's blocks come out ordered by `(y0, x0)`, as a permutation
      that keeps blocks with equal keys in their original order. */
  lemma SortedBlocksOrdered(blocks: seq<Block>)
    ensures Sorted(SortedBlocks(blocks), BlockBefore)
    ensures multiset(SortedBlocks(blocks)) == multiset(blocks)
    ensures forall b :: Peers(SortedBlocks(blocks), b, BlockBefore) == Peers(blocks, b, BlockBefore)
  {
    BlockOrderIsPreorder();
    SortCorrect(blocks, BlockBefore);
  }

  /** The stripped texts of `blocks` that are not empty, in order. */
  function BlockLines(blocks: seq<Block>): (r: seq<string>)
    ensures |r| <= |blocks|
    ensures forall i | 0 <= i < |r| :: r[i] != ""
  {
    if blocks == [] then []
    else
      var t := Strip(blocks[|blocks| - 1].text);
      var rest := BlockLines(blocks[..|blocks| - 1]);
      if t == "" then rest
      else
        rest + [t]
  }

  /** One more block adds its stripped text, unless that is empty. */
  lemma BlockLinesSnoc(blocks: seq<Block>, b: nat)
    requires b < |blocks|
    ensures BlockLines(blocks[..b + 1])
         == BlockLines(blocks[..b]) + (if Strip(blocks[b].text) == "" then [] else [Strip(blocks[b].text)])
  {
    assert blocks[..b + 1][..b] == blocks[..b];
  }

  /** One more page adds its text lines. */
  lemma DocLinesSnoc(pages: seq<Page>, p: nat)
    requires p < |pages|
    ensures DocLines(pages[..p + 1]) == DocLines(pages[..p]) + PageTextLines(pages[p])
  {
    assert pages[..p + 1][..p] == pages[..p];
  }

  /** The text lines one page contributes. */
  function PageTextLines(page: Page): seq<string> {
    BlockLines(SortedBlocks(page.blocks))
  }

  /** The text lines of `pages`, page after page. */
  function DocLines(pages: seq<Page>): seq<string> {
    if pages == [] then []
    else DocLines(pages[..|pages| - 1]) + PageTextLines(pages[|pages| - 1])
  }

  /** No element of the joined text is empty, and there are at most as
      many as the document has blocks. */
  lemma {:induction false} DocLinesNonEmpty(pages: seq<Page>)
    ensures forall i | 0 <= i < |DocLines(pages)| :: DocLines(pages)[i] != ""
    ensures |DocLines(pages)| <= BlockCount(pages)
  {
    if pages != [] {
      DocLinesNonEmpty(pages[..|pages| - 1]);
    }
  }

  function BlockCount(pages: seq<Page>): nat {
    if pages == [] then 0 else BlockCount(pages[..|pages| - 1]) + |pages[|pages| - 1].blocks|
  }

  /** The document's text: the lines joined with "\n". */
  function FullText(pages: seq<Page>): string {
    Join(DocLines(pages), "\n")
  }

  /** The inner loop of `extract_text_from_pdf`: the non-empty stripped
      texts of one page's sorted blocks, appended to `textLines`. */
  method AppendBlockLines(textLines: seq<string>, blocks: seq<Block>) returns (r: seq<string>)
    ensures r == textLines + BlockLines(blocks)
  {
    r := textLines;
    var b := 0;
    while b < |blocks|
      invariant 0 <= b <= |blocks|
      invariant r == textLines + BlockLines(blocks[..b])
    {
      var text := Strip(blocks[b].text);
      BlockLinesSnoc(blocks, b);
      if text != "" {
        r := r + [text];
      }
      b := b + 1;
    }
    assert blocks[..b] == blocks;
  }

  /** `extract_text_from_pdf`: pages in order, each page's blocks sorted by
      `(y0, x0)`, empty blocks dropped, the rest joined with "\n". */
  method ExtractText(doc: Document) returns (r: Result<string, Error>)
    ensures doc.Unreadable? ==> r == Failure(ExtractionError(doc.reason))
    ensures doc.Doc? ==> r == Success(FullText(doc.pages))
  {
    if doc.Unreadable? {
      return Failure(ExtractionError(doc.reason));
    }
    var pages := doc.pages;
    var textLines: seq<string> := [];
    var p := 0;
    while p < |pages|
      invariant 0 <= p <= |pages|
      invariant textLines == DocLines(pages[..p])
    {
      var blocks := SortedBlocks(pages[p].blocks);
      textLines := AppendBlockLines(textLines, blocks);
      DocLinesSnoc(pages, p);
      p := p + 1;
    }
    assert pages[..p] == pages;
    return Success(Join(textLines, "\n"));
  }

  // ---------------------------------------------------------------------
  // extract_text_with_positions
  // ---------------------------------------------------------------------

  /** A word record: its text, `x = x0`, `y = y0`, and its box size. */
  datatype PositionedWord = PositionedWord(text: string, x: real, y: real, width: real, height: real)

  /** A line record: page index, y-key, text and its words. */
  datatype Line = Line(page: nat, yPosition: real, text: string, words: seq<PositionedWord>)

  /** The record of one word, from which its box can be recovered. */
  function Positioned(w: Word): (r: PositionedWord)
    ensures r.text == w.text && r.x == w.x0 && r.y == w.y0
    ensures r.x + r.width == w.x1 && r.y + r.height == w.y1
  {
    PositionedWord(w.text, w.x0, w.y0, w.x1 - w.x0, w.y1 - w.y0)
  }

  /** The y-keys occurring among `words`. */
  function YKeys(words: seq<Word>): (r: set<real>)
    ensures forall i | 0 <= i < |words| :: words[i].yKey in r
  {
    if words == [] then {} else YKeys(words[..|words| - 1]) + {words[|words| - 1].yKey}
  }

  /** Every y-key is carried by some word. */
  lemma {:induction false} YKeysCarried(words: seq<Word>, k: real) returns (i: nat)
    requires k in YKeys(words)
    ensures i < |words| && words[i].yKey == k
  {
    if words[|words| - 1].yKey == k {
      i := |words| - 1;
    } else {
      i := YKeysCarried(words[..|words| - 1], k);
    }
  }

  /** The records of the words with y-key `k`, in page order: the list the
      `lines` dict holds under `k`. */
  function WordsAt(words: seq<Word>, k: real): seq<PositionedWord> {
    if words == [] then []
    else
      var w := words[|words| - 1];
      WordsAt(words[..|words| - 1], k) + (if w.yKey == k then [Positioned(w)] else [])
  }

  /** A key no word carries has no words. */
  lemma {:induction false} WordsAtAbsent(words: seq<Word>, k: real)
    requires k !in YKeys(words)
    ensures WordsAt(words, k) == []
  {
    if words != [] {
      WordsAtAbsent(words[..|words| - 1], k);
    }
  }

  /** The keys of the `lines` dict in insertion order: each y-key once, where
      it first occurs. */
  function KeyOrder(words: seq<Word>): (r: seq<real>)
    ensures Distinct(r)
    ensures forall k :: k in r <==> k in YKeys(words)
  {
    if words == [] then []
    else
      var init := words[..|words| - 1];
      var k := words[|words| - 1].yKey;
      if k in KeyOrder(init) then KeyOrder(init) else KeyOrder(init) + [k]
  }

  /** The `lines` dict after `words`: each word appended to the list of its
      y-key, the list created empty when the key is new. */
  function Groups(words: seq<Word>): (r: map<real, seq<PositionedWord>>)
    ensures r.Keys == YKeys(words)
  {
    if words == [] then map[]
    else
      var w := words[|words| - 1];
      var g := Groups(words[..|words| - 1]);
      var withKey := if w.yKey in g then g else g[w.yKey := []];
      withKey[w.yKey := withKey[w.yKey] + [Positioned(w)]]
  }

  /** The dict holds exactly the y-keys, each with the words carrying it in
      page order. */
  lemma {:induction false} GroupsHoldWordsAt(words: seq<Word>)
    ensures forall k | k in Groups(words) :: Groups(words)[k] == WordsAt(words, k)
  {
    if words != [] {
      var init := words[..|words| - 1];
      GroupsHoldWordsAt(init);
      var k := words[|words| - 1].yKey;
      if k !in YKeys(init) {
        WordsAtAbsent(init, k);
      }
    }
  }

  lemma GroupsSnoc(words: seq<Word>, i: nat)
    requires i < |words|
    ensures KeyOrder(words[..i + 1])
         == if words[i].yKey in KeyOrder(words[..i]) then KeyOrder(words[..i])
            else KeyOrder(words[..i]) + [words[i].yKey]
    ensures var g := Groups(words[..i]); var k := words[i].yKey;
            var withKey := if k in g then g else g[k := []];
            Groups(words[..i + 1]) == withKey[k := withKey[k] + [Positioned(words[i])]]
  {
    assert words[..i + 1][..i] == words[..i];
  }

  /** The `lines` dict of one page, keyed by y-key, with its key order. */
  method GroupWords(words: seq<Word>) returns (lines: map<real, seq<PositionedWord>>, keys: seq<real>)
    ensures keys == KeyOrder(words)
    ensures lines == Groups(words)
  {
    lines := map[];
    keys := [];
    var i := 0;
    while i < |words|
      invariant 0 <= i <= |words|
      invariant keys == KeyOrder(words[..i])
      invariant lines == Groups(words[..i])
    {
      var w := words[i];
      GroupsSnoc(words, i);
      if w.yKey !in lines {
        lines := lines[w.yKey := []];
        keys := keys + [w.yKey];
      }
      lines := lines[w.yKey := lines[w.yKey] + [Positioned(w)]];
      i := i + 1;
    }
    assert words[..i] == words;
  }

  /** Ascending order of y-keys. */
  predicate KeyBefore(a: real, b: real) {
    a <= b
  }

  /** Ascending order of words by `x`. */
  predicate WordBefore(a: PositionedWord, b: PositionedWord) {
    a.x <= b.x
  }

  /** `sorted(lines[k], key=lambda w: w['x'])`. */
  function LineWords(words: seq<Word>, k: real): seq<PositionedWord> {
    Sort(WordsAt(words, k), WordBefore)
  }

  function Texts(ws: seq<PositionedWord>): (r: seq<string>)
    ensures |r| == |ws| && forall i | 0 <= i < |ws| :: r[i] == ws[i].text
  {
    seq(|ws|, i requires 0 <= i < |ws| => ws[i].text)
  }

  /** The text of a line: its words' texts joined by single spaces. */
  function LineText(ws: seq<PositionedWord>): string {
    Join(Texts(ws), " ")
  }

  /** The line for key `k` with the words `group`: its words in ascending
      `x`, their texts joined by spaces; no line when that text is blank. */
  function KeyLine(p: nat, k: real, group: seq<PositionedWord>): seq<Line> {
    var ws := Sort(group, WordBefore);
    if Strip(LineText(ws)) == "" then [] else [Line(p, k, LineText(ws), ws)]
  }

  /** The lines for `keys`, in the order of `keys`, each built from the
      words the `lines` dict holds for its key, blank ones left out. */
  function KeyLines(p: nat, keys: seq<real>, lines: map<real, seq<PositionedWord>>): seq<Line>
    requires forall k | k in keys :: k in lines
  {
    if keys == [] then []
    else
      var k := keys[|keys| - 1];
      KeyLines(p, keys[..|keys| - 1], lines) + KeyLine(p, k, lines[k])
  }

  /** The y-keys of a page in ascending order. */
  function SortedKeys(words: seq<Word>): (r: seq<real>)
    ensures forall k :: k in r <==> k in YKeys(words)
  {
    var keys := KeyOrder(words);
    assert forall k :: k in keys <==> k in multiset(keys);
    Sort(keys, KeyBefore)
  }

  /** The lines page `p` contributes. */
  function PageLines(p: nat, page: Page): seq<Line> {
    KeyLines(p, SortedKeys(page.words), Groups(page.words))
  }

  /** The lines of `pages`, page after page. */
  function PositionedLines(pages: seq<Page>): seq<Line> {
    if pages == [] then []
    else PositionedLines(pages[..|pages| - 1]) + PageLines(|pages| - 1, pages[|pages| - 1])
  }

  lemma KeyLinesSnoc(p: nat, keys: seq<real>, lines: map<real, seq<PositionedWord>>, j: nat)
    requires j < |keys| && forall k | k in keys :: k in lines
    ensures KeyLines(p, keys[..j + 1], lines) == KeyLines(p, keys[..j], lines) + KeyLine(p, keys[j], lines[keys[j]])
  {
    assert keys[..j + 1][..j] == keys[..j];
  }

  lemma PositionedLinesSnoc(pages: seq<Page>, p: nat)
    requires p < |pages|
    ensures PositionedLines(pages[..p + 1]) == PositionedLines(pages[..p]) + PageLines(p, pages[p])
  {
    assert pages[..p + 1][..p] == pages[..p];
  }

  lemma AppendAssoc<T>(a: seq<T>, b: seq<T>, c: seq<T>)
    ensures a + (b + c) == (a + b) + c
  {
  }

  /** The body of the second inner loop for one key: the sorted words, the
      line text, and whether the line is kept. */
  method BuildLine(p: nat, yPos: real, group: seq<PositionedWord>) returns (keep: bool, line: Line)
    ensures (if keep then [line] else []) == KeyLine(p, yPos, group)
  {
    var lineWords := Sort(group, WordBefore);
    var lineText := Join(Texts(lineWords), " ");
    keep := Strip(lineText) != "";
    line := Line(p, yPos, lineText, lineWords);
  }

  /** The second inner loop of `extract_text_with_positions`: one line per
      key of `keys` whose text is not blank, appended to `result`. */
  method AppendKeyLines(result: seq<Line>, p: nat, keys: seq<real>, lines: map<real, seq<PositionedWord>>)
    returns (r: seq<Line>)
    requires forall k | k in keys :: k in lines
    ensures r == result + KeyLines(p, keys, lines)
  {
    r := result;
    var j := 0;
    while j < |keys|
      invariant 0 <= j <= |keys|
      invariant r == result + KeyLines(p, keys[..j], lines)
    {
      var yPos := keys[j];
      var keep, line := BuildLine(p, yPos, lines[yPos]);
      KeyLinesSnoc(p, keys, lines, j);
      AppendAssoc(result, KeyLines(p, keys[..j], lines), KeyLine(p, yPos, lines[yPos]));
      r := r + if keep then [line] else [];
      j := j + 1;
    }
    assert keys[..j] == keys;
  }

  /** `extract_text_with_positions`: for each page in order, its words
      grouped by y-key, the groups in ascending key order, each group's
      words in ascending `x`, blank lines dropped. */
  method ExtractTextWithPositions(doc: Document) returns (r: Result<seq<Line>, Error>)
    ensures doc.Unreadable? ==> r == Failure(ExtractionError(doc.reason))
    ensures doc.Doc? ==> r == Success(PositionedLines(doc.pages))
  {
    if doc.Unreadable? {
      return Failure(ExtractionError(doc.reason));
    }
    var pages := doc.pages;
    var result: seq<Line> := [];
    var p := 0;
    while p < |pages|
      invariant 0 <= p <= |pages|
      invariant result == PositionedLines(pages[..p])
    {
      var lines, keys := GroupWords(pages[p].words);
      var ordered := Sort(keys, KeyBefore);
      assert forall k | k in ordered :: k in keys by {
        forall k | k in ordered ensures k in keys {
          assert k in multiset(ordered);
        }
      }
      result := AppendKeyLines(result, p, ordered, lines);
      PositionedLinesSnoc(pages, p);
      p := p + 1;
    }
    assert pages[..p] == pages;
    return Success(result);
  }

  // Properties of the positioned lines

  /** The words with key `k` are the records of exactly the words whose
      y-key is `k`. */
  lemma {:induction false} WordsAtMembers(words: seq<Word>, k: real, x: PositionedWord)
    ensures x in WordsAt(words, k)
        <==> exists i | 0 <= i < |words| :: words[i].yKey == k && Positioned(words[i]) == x
  {
    if words != [] {
      var n := |words| - 1;
      var init := words[..n];
      WordsAtMembers(init, k, x);
      if x in WordsAt(words, k) && x !in WordsAt(init, k) {
        assert words[n].yKey == k && Positioned(words[n]) == x;
      }
      if exists i | 0 <= i < |words| :: words[i].yKey == k && Positioned(words[i]) == x {
        var i :| 0 <= i < |words| && words[i].yKey == k && Positioned(words[i]) == x;
        if i < n {
          assert init[i] == words[i];
        }
      }
    }
  }

  /** A line's words in ascending `x`: a permutation of the words with its
      key that keeps words at equal `x` in page order. */
  lemma LineWordsOrdered(words: seq<Word>, k: real)
    ensures Sorted(LineWords(words, k), WordBefore)
    ensures multiset(LineWords(words, k)) == multiset(WordsAt(words, k))
    ensures forall w :: Peers(LineWords(words, k), w, WordBefore) == Peers(WordsAt(words, k), w, WordBefore)
  {
    assert TotalPreorder(WordBefore);
    SortCorrect(WordsAt(words, k), WordBefore);
  }

  /** The y-keys of a page in strictly ascending order. */
  lemma SortedKeysAscending(words: seq<Word>)
    ensures forall i, j | 0 <= i < j < |SortedKeys(words)| :: SortedKeys(words)[i] < SortedKeys(words)[j]
  {
    var keys := KeyOrder(words);
    assert TotalPreorder(KeyBefore);
    SortCorrect(keys, KeyBefore);
    DistinctPermutation(keys, SortedKeys(words));
  }

  /** Each line of `KeyLines` carries page `p` and one of `keys`. */
  lemma {:induction false} KeyLinesKeys(p: nat, keys: seq<real>, lines: map<real, seq<PositionedWord>>)
    requires forall k | k in keys :: k in lines
    ensures forall l | l in KeyLines(p, keys, lines) :: l.page == p && l.yPosition in keys
  {
    if keys != [] {
      KeyLinesKeys(p, keys[..|keys| - 1], lines);
    }
  }

  /** Each line of `KeyLines` holds the sorted words of its key and their
      joined text, which is not blank. */
  lemma {:induction false} KeyLinesContent(p: nat, keys: seq<real>, lines: map<real, seq<PositionedWord>>)
    requires forall k | k in keys :: k in lines
    ensures forall l | l in KeyLines(p, keys, lines) ::
              && l.yPosition in lines
              && l.words == Sort(lines[l.yPosition], WordBefore)
              && l.text == LineText(l.words) && Strip(l.text) != ""
  {
    if keys != [] {
      KeyLinesContent(p, keys[..|keys| - 1], lines);
    }
  }

  /** Every key whose text is not blank gets a line. */
  lemma {:induction false} KeyLinesComplete(p: nat, keys: seq<real>, lines: map<real, seq<PositionedWord>>, k: real)
    requires forall k | k in keys :: k in lines
    requires k in keys && Strip(LineText(Sort(lines[k], WordBefore))) != ""
    ensures exists l | l in KeyLines(p, keys, lines) :: l.yPosition == k
  {
    var n := |keys| - 1;
    if keys[n] == k {
      var ws := Sort(lines[k], WordBefore);
      assert Line(p, k, LineText(ws), ws) in KeyLines(p, keys, lines);
    } else {
      KeyLinesComplete(p, keys[..n], lines, k);
      var l :| l in KeyLines(p, keys[..n], lines) && l.yPosition == k;
      assert l in KeyLines(p, keys, lines);
    }
  }

  /** The line for one key, if any, carries that key. */
  lemma KeyLineKey(p: nat, k: real, group: seq<PositionedWord>)
    ensures |KeyLine(p, k, group)| <= 1
    ensures forall l | l in KeyLine(p, k, group) :: l.page == p && l.yPosition == k
  {
  }

  /** Lines in strictly ascending `yPosition`. */
  predicate Ascending(r: seq<Line>) {
    forall i, j | 0 <= i < j < |r| :: r[i].yPosition < r[j].yPosition
  }

  /** Appending at most one line whose key exceeds every earlier key keeps
      lines in strictly ascending `yPosition`. */
  lemma AscendingAppend(r0: seq<Line>, extra: seq<Line>, earlier: seq<real>, k: real)
    requires Ascending(r0)
    requires forall l | l in r0 :: l.yPosition in earlier
    requires forall y | y in earlier :: y < k
    requires |extra| <= 1 && forall l | l in extra :: l.yPosition == k
    ensures Ascending(r0 + extra)
  {
    var r := r0 + extra;
    forall i, j | 0 <= i < j < |r| ensures r[i].yPosition < r[j].yPosition {
      if j >= |r0| {
        assert r[i] in r0 && r[j] in extra;
      } else {
        assert r[i] == r0[i] && r[j] == r0[j];
      }
    }
  }

  /** Strictly ascending keys give lines in strictly ascending `yPosition`. */
  lemma {:induction false} KeyLinesAscending(p: nat, keys: seq<real>, lines: map<real, seq<PositionedWord>>)
    requires forall k | k in keys :: k in lines
    requires forall i, j | 0 <= i < j < |keys| :: keys[i] < keys[j]
    ensures Ascending(KeyLines(p, keys, lines))
  {
    if keys != [] {
      var n := |keys| - 1;
      var init := keys[..n];
      KeyLinesAscending(p, init, lines);
      KeyLinesKeys(p, init, lines);
      KeyLineKey(p, keys[n], lines[keys[n]]);
      forall y | y in init ensures y < keys[n] {
        var m :| 0 <= m < n && init[m] == y;
      }
      AscendingAppend(KeyLines(p, init, lines), KeyLine(p, keys[n], lines[keys[n]]), init, keys[n]);
    }
  }

  /** On one page, every line carries the page index and one of its y-keys. */
  lemma PageLinesKeys(p: nat, page: Page)
    ensures forall l | l in PageLines(p, page) :: l.page == p && l.yPosition in YKeys(page.words)
  {
    KeyLinesKeys(p, SortedKeys(page.words), Groups(page.words));
  }

  /** On one page, a line's words are its key's words sorted by `x`, and its
      text is their texts joined by single spaces, which is not blank. */
  lemma PageLinesContent(p: nat, page: Page)
    ensures forall l | l in PageLines(p, page) ::
              && l.words == LineWords(page.words, l.yPosition)
              && l.text == LineText(l.words) && Strip(l.text) != ""
  {
    GroupsHoldWordsAt(page.words);
    KeyLinesContent(p, SortedKeys(page.words), Groups(page.words));
  }

  /** On one page, lines come in strictly ascending y-key. */
  lemma PageLinesAscending(p: nat, page: Page)
    ensures Ascending(PageLines(p, page))
  {
    SortedKeysAscending(page.words);
    KeyLinesAscending(p, SortedKeys(page.words), Groups(page.words));
  }

  /** On one page, every y-key whose joined text is not blank has a line. */
  lemma PageLinesComplete(p: nat, page: Page, k: real)
    requires k in YKeys(page.words) && Strip(LineText(LineWords(page.words, k))) != ""
    ensures exists l | l in PageLines(p, page) :: l.yPosition == k
  {
    GroupsHoldWordsAt(page.words);
    KeyLinesComplete(p, SortedKeys(page.words), Groups(page.words), k);
  }

  /** Over the document, a line is one of its page's lines. */
  lemma {:induction false} PositionedLinesMember(pages: seq<Page>, l: Line)
    ensures l in PositionedLines(pages) <==> OnItsPage(pages, l)
  {
    if pages != [] {
      var n := |pages| - 1;
      var init := pages[..n];
      var r0 := PositionedLines(init);
      var last := PageLines(n, pages[n]);
      assert PositionedLines(pages) == r0 + last;
      PositionedLinesMember(init, l);
      PageLinesKeys(n, pages[n]);
      if l.page < n {
        assert pages[l.page] == init[l.page];
        assert OnItsPage(pages, l) == OnItsPage(init, l);
        assert l !in last;
      } else if l.page == n {
        assert !OnItsPage(init, l);
        assert OnItsPage(pages, l) == (l in last);
      } else {
        assert l !in last && !OnItsPage(init, l);
      }
    }
  }

  /** `l` is one of the lines of page `l.page` of `pages`. */
  predicate OnItsPage(pages: seq<Page>, l: Line) {
    l.page < |pages| && l in PageLines(l.page, pages[l.page])
  }

  /** Lines of earlier pages followed by the ascending lines of page `n`
      stay ordered by page, then strictly by y-key. */
  lemma OrderedAppend(r0: seq<Line>, last: seq<Line>, n: nat)
    requires Ordered(r0)
    requires forall l | l in r0 :: l.page < n
    requires forall l | l in last :: l.page == n
    requires Ascending(last)
    ensures Ordered(r0 + last)
  {
    var r := r0 + last;
    forall i, j | 0 <= i < j < |r| ensures LineBefore(r[i], r[j]) {
      if j < |r0| {
        assert r[i] == r0[i] && r[j] == r0[j];
      } else if i < |r0| {
        assert r[i] in r0 && r[j] in last;
      } else {
        assert r[i] == last[i - |r0|] && r[j] == last[j - |r0|];
      }
    }
  }

  /** Page first, then y-key: the order lines come out in. */
  predicate LineBefore(a: Line, b: Line) {
    a.page < b.page || (a.page == b.page && a.yPosition < b.yPosition)
  }

  /** Lines ordered by page, then strictly by y-key. */
  predicate Ordered(r: seq<Line>) {
    forall i, j | 0 <= i < j < |r| :: LineBefore(r[i], r[j])
  }

  /** Over the document, lines are ordered by page, then strictly by y-key. */
  lemma {:induction false} PositionedLinesOrdered(pages: seq<Page>)
    ensures Ordered(PositionedLines(pages))
  {
    if pages != [] {
      var n := |pages| - 1;
      var init := pages[..n];
      PositionedLinesOrdered(init);
      forall l | l in PositionedLines(init) ensures l.page < n {
        PositionedLinesMember(init, l);
      }
      PageLinesKeys(n, pages[n]);
      PageLinesAscending(n, pages[n]);
      OrderedAppend(PositionedLines(init), PageLines(n, pages[n]), n);
    }
  }

  // ---------------------------------------------------------------------
  // is_searchable_pdf
  // ---------------------------------------------------------------------

  /** The plain texts of `pages` concatenated, page after page. */
  function ConcatTexts(pages: seq<Page>): string {
    if pages == [] then "" else ConcatTexts(pages[..|pages| - 1]) + pages[|pages| - 1].text
  }

  /** `doc[:3]`: the first three pages, or all of them when there are fewer. */
  function FirstPages(pages: seq<Page>): (r: seq<Page>)
    ensures |r| == if |pages| < 3 then |pages| else 3
    ensures r == pages[..|r|]
  {
    if |pages| <= 3 then pages else pages[..3]
  }

  /** More stripped characters than this make a document searchable. */
  const SearchableThreshold: nat := 50

  /** A readable document whose first three pages hold, once stripped, more
      than `SearchableThreshold` characters of text. */
  predicate Searchable(doc: Document) {
    doc.Doc? && |Strip(ConcatTexts(FirstPages(doc.pages)))| > SearchableThreshold
  }

  /** `is_searchable_pdf`: a document that cannot be opened is not searchable. */
  method IsSearchablePdf(doc: Document) returns (r: bool)
    ensures r == Searchable(doc)
    ensures doc.Unreadable? ==> !r
  {
    if doc.Unreadable? {
      return false;
    }
    var first := FirstPages(doc.pages);
    var text := "";
    for p := 0 to |first|
      invariant text == ConcatTexts(first[..p])
    {
      assert first[..p + 1][..p] == first[..p];
      text := text + first[p].text;
    }
    assert first[..|first|] == first;
    r := |Strip(text)| > SearchableThreshold;
  }

  /** Pages after the third never change the verdict. */
  lemma SearchableIgnoresLaterPages(pages: seq<Page>, more: seq<Page>)
    requires |pages| >= 3
    ensures Searchable(Doc(pages + more)) == Searchable(Doc(pages))
  {
    assert FirstPages(pages + more) == FirstPages(pages);
  }

  /** Pages that are all whitespace concatenate to whitespace. */
  lemma {:induction false} ConcatAllSpace(pages: seq<Page>)
    requires forall p | 0 <= p < |pages| :: AllSpace(pages[p].text)
    ensures AllSpace(ConcatTexts(pages))
  {
    if pages != [] {
      var n := |pages| - 1;
      ConcatAllSpace(pages[..n]);
      var a := ConcatTexts(pages[..n]);
      var t := pages[n].text;
      assert AllSpace(t);
      assert forall i | 0 <= i < |a + t| :: (a + t)[i] == if i < |a| then a[i] else t[i - |a|];
    }
  }

  /** A searchable document has more than `SearchableThreshold` characters
      in its first three pages, and one of those pages is not blank. */
  lemma SearchableHasText(doc: Document)
    requires Searchable(doc)
    ensures |ConcatTexts(FirstPages(doc.pages))| > SearchableThreshold
    ensures exists p | 0 <= p < |FirstPages(doc.pages)| :: !AllSpace(FirstPages(doc.pages)[p].text)
  {
    var first := FirstPages(doc.pages);
    StripEmpty(ConcatTexts(first));
    if forall p | 0 <= p < |first| :: AllSpace(first[p].text) {
      ConcatAllSpace(first);
    }
  }

  // ---------------------------------------------------------------------
  // find_text_by_patterns
  // ---------------------------------------------------------------------

  /** What `re.search(pattern, text, re.IGNORECASE | re.MULTILINE)` yields:
      no match, or the matched text and the capture groups in order (`None`
      for a group that took no part in the match). */
  datatype MatchOutcome = NoMatch | Match(whole: string, groups: seq<Option<string>>)

  /** The recorded value of one search: group 1 when the pattern has groups,
      else the whole match; `None` when nothing matched. */
  function MatchValue(m: MatchOutcome): Option<string> {
    match m
    case NoMatch => None
    case Match(whole, groups) => if groups != [] then groups[0] else Some(whole)
  }

  /** The names of `patterns`, in order. */
  function Names(patterns: seq<(string, string)>): (r: seq<string>)
    ensures |r| == |patterns| && forall i | 0 <= i < |r| :: r[i] == patterns[i].0
  {
    if patterns == [] then [] else Names(patterns[..|patterns| - 1]) + [patterns[|patterns| - 1].0]
  }

  /** The result dict of the pattern loop, built in the order of `patterns`;
      `search(pattern, text)` stands for the regular-expression engine. */
  function PatternResults(text: string, patterns: seq<(string, string)>,
                          search: (string, string) -> MatchOutcome): map<string, Option<string>>
  {
    if patterns == [] then map[]
    else
      var (name, pattern) := patterns[|patterns| - 1];
      PatternResults(text, patterns[..|patterns| - 1], search)[name := MatchValue(search(pattern, text))]
  }

  /** Every field name gets an entry, and nothing else does. */
  lemma {:induction false} PatternResultsKeys(text: string, patterns: seq<(string, string)>,
                                              search: (string, string) -> MatchOutcome)
    ensures forall k :: k in PatternResults(text, patterns, search) <==> k in Names(patterns)
  {
    if patterns != [] {
      PatternResultsKeys(text, patterns[..|patterns| - 1], search);
    }
  }

  /** With distinct field names, each entry is the value of that field's
      own search. */
  lemma {:induction false} PatternResultsValues(text: string, patterns: seq<(string, string)>,
                                                search: (string, string) -> MatchOutcome)
    requires Distinct(Names(patterns))
    ensures forall i | 0 <= i < |patterns| ::
              patterns[i].0 in PatternResults(text, patterns, search) &&
              PatternResults(text, patterns, search)[patterns[i].0] == MatchValue(search(patterns[i].1, text))
  {
    PatternResultsKeys(text, patterns, search);
    if patterns != [] {
      var n := |patterns| - 1;
      var init := patterns[..n];
      var names := Names(patterns);
      assert Names(init) == names[..n];
      PatternResultsKeys(text, init, search);
      PatternResultsValues(text, init, search);
      forall i | 0 <= i < n
        ensures patterns[i].0 in PatternResults(text, patterns, search) &&
                PatternResults(text, patterns, search)[patterns[i].0] == MatchValue(search(patterns[i].1, text))
      {
        assert init[i] == patterns[i];
        assert names[i] != names[n];
      }
    }
  }

  /** One more pattern adds its field. */
  lemma PatternResultsSnoc(text: string, patterns: seq<(string, string)>,
                           search: (string, string) -> MatchOutcome, i: nat)
    requires i < |patterns|
    ensures PatternResults(text, patterns[..i + 1], search)
         == PatternResults(text, patterns[..i], search)[patterns[i].0 := MatchValue(search(patterns[i].1, text))]
  {
    assert patterns[..i + 1][..i] == patterns[..i];
  }

  /** `find_text_by_patterns`: the document's text, then one search per
      field; a document that cannot be read raises the extraction error. */
  method FindTextByPatterns(doc: Document, patterns: seq<(string, string)>,
                            search: (string, string) -> MatchOutcome)
    returns (r: Result<map<string, Option<string>>, Error>)
    ensures doc.Unreadable? ==> r == Failure(ExtractionError(doc.reason))
    ensures doc.Doc? ==> r == Success(PatternResults(FullText(doc.pages), patterns, search))
  {
    var text :- ExtractText(doc);
    var result := map[];
    for i := 0 to |patterns|
      invariant result == PatternResults(text, patterns[..i], search)
    {
      PatternResultsSnoc(text, patterns, search, i);
      var (fieldName, pattern) := patterns[i];
      result := result[fieldName := MatchValue(search(pattern, text))];
    }
    assert patterns[..|patterns|] == patterns;
    return Success(result);
  }

  /** `RECEIPT_PATTERNS`, in declaration order. */
  const ReceiptPatterns: seq<(string, string)> := [
    ("amount", @"(\d+[.,]\d{2})\s*(?:руб|RUB|₽|р\.)"),
    ("card_number", @"(\*\*\*\*\s*\d{4})"),
    ("date", @"(\d{1,2}[-./]\d{1,2}[-./]\d{2,4})"),
    ("time", @"(\d{1,2}:\d{2}(?::\d{2})?)"),
    ("operation_id", @"(?:№|#|номер)[\s:]*(\d+)"),
    ("commission", @"комисс(?:ия)?[\s:]*(\d+[.,]\d{2})")
  ]

  /** The receipt search yields exactly the six receipt fields, each the
      value of its own pattern's search. */
  lemma ReceiptFields(text: string, search: (string, string) -> MatchOutcome)
    ensures forall k :: k in PatternResults(text, ReceiptPatterns, search) <==>
              k in ["amount", "card_number", "date", "time", "operation_id", "commission"]
    ensures forall i | 0 <= i < |ReceiptPatterns| ::
              ReceiptPatterns[i].0 in PatternResults(text, ReceiptPatterns, search) &&
              PatternResults(text, ReceiptPatterns, search)[ReceiptPatterns[i].0]
              == MatchValue(search(ReceiptPatterns[i].1, text))
  {
    var names := Names(ReceiptPatterns);
    assert names == ["amount", "card_number", "date", "time", "operation_id", "commission"];
    PatternResultsKeys(text, ReceiptPatterns, search);
    PatternResultsValues(text, ReceiptPatterns, search);
  }

  // ---------------------------------------------------------------------
  // process_receipt_pdf
  // ---------------------------------------------------------------------

  /** The bank named by the lower-cased text: the first of Sberbank,
      Tinkoff, Alfa-Bank and VTB one of whose markers occurs in it. */
  function DetectBank(textLower: string): Option<string> {
    if IsInfix("сбер", textLower) || IsInfix("sber", textLower) then Some("Сбербанк")
    else if IsInfix("тинькофф", textLower) || IsInfix("tinkoff", textLower) then Some("Тинькофф")
    else if IsInfix("альфа", textLower) || IsInfix("alfa", textLower) then Some("Альфа-банк")
    else if IsInfix("втб", textLower) then Some("ВТБ")
    else None
  }

  /** The banks in the order they are tried, each with its markers. */
  const BankMarkers: seq<(string, seq<string>)> := [
    ("Сбербанк", ["сбер", "sber"]),
    ("Тинькофф", ["тинькофф", "tinkoff"]),
    ("Альфа-банк", ["альфа", "alfa"]),
    ("ВТБ", ["втб"])
  ]

  /** Some marker of `markers` occurs in `t`. */
  predicate AnyMarker(markers: seq<string>, t: string) {
    exists m | m in markers :: IsInfix(m, t)
  }

  /** A first-match table lookup: the name of the first entry with a marker
      in `t`. */
  function FirstBank(table: seq<(string, seq<string>)>, t: string): Option<string> {
    if table == [] then None
    else if AnyMarker(table[0].1, t) then Some(table[0].0)
    else FirstBank(table[1..], t)
  }

  /** The chain of tests is the table lookup over `BankMarkers`. */
  lemma DetectBankIsFirstMatch(t: string)
    ensures DetectBank(t) == FirstBank(BankMarkers, t)
  {
    PairMarkers("сбер", "sber", t);
    PairMarkers("тинькофф", "tinkoff", t);
    PairMarkers("альфа", "alfa", t);
    assert AnyMarker(["втб"], t) == IsInfix("втб", t) by {
      assert "втб" in ["втб"];
    }
    var rest1 := BankMarkers[1..];
    var rest2 := rest1[1..];
    var rest3 := rest2[1..];
    assert rest1[0] == ("Тинькофф", ["тинькофф", "tinkoff"]);
    assert rest2[0] == ("Альфа-банк", ["альфа", "alfa"]);
    assert rest3 == [("ВТБ", ["втб"])];
    assert rest3[1..] == [];
    assert FirstBank(rest3, t) == if IsInfix("втб", t) then Some("ВТБ") else None;
    assert FirstBank(rest2, t) == if AnyMarker(rest2[0].1, t) then Some("Альфа-банк") else FirstBank(rest3, t);
    assert FirstBank(rest1, t) == if AnyMarker(rest1[0].1, t) then Some("Тинькофф") else FirstBank(rest2, t);
  }

  /** A two-marker entry matches exactly when one of its markers occurs. */
  lemma PairMarkers(a: string, b: string, t: string)
    ensures AnyMarker([a, b], t) == (IsInfix(a, t) || IsInfix(b, t))
  {
    assert a in [a, b] && b in [a, b];
  }

  /** The lookup names the first entry that has a marker in `t`, and
      finds nothing exactly when no entry has one. */
  lemma {:induction false} FirstBankFirst(table: seq<(string, seq<string>)>, t: string)
    ensures FirstBank(table, t).None? <==> forall i | 0 <= i < |table| :: !AnyMarker(table[i].1, t)
    ensures FirstBank(table, t).Some? ==>
              exists i | 0 <= i < |table| ::
                table[i].0 == FirstBank(table, t).value && AnyMarker(table[i].1, t) &&
                forall j | 0 <= j < i :: !AnyMarker(table[j].1, t)
  {
    if table != [] && !AnyMarker(table[0].1, t) {
      FirstBankFirst(table[1..], t);
      assert forall i | 1 <= i < |table| :: table[i] == table[1..][i - 1];
      if FirstBank(table, t).Some? {
        var i :| 0 <= i < |table[1..]| &&
                 table[1..][i].0 == FirstBank(table, t).value && AnyMarker(table[1..][i].1, t) &&
                 forall j | 0 <= j < i :: !AnyMarker(table[1..][j].1, t);
        assert forall j | 0 <= j < i + 1 :: !AnyMarker(table[j].1, t) by {
          forall j | 0 <= j < i + 1 ensures !AnyMarker(table[j].1, t) {
            if j > 0 {
              assert table[j] == table[1..][j - 1];
            }
          }
        }
        assert table[i + 1] == table[1..][i];
      }
    }
  }

  /** Sberbank wins over every later bank: a text naming both Sberbank and
      Alfa-Bank is a Sberbank receipt. */
  lemma FirstMarkerWins(t: string)
    requires IsInfix("sber", t) && IsInfix("alfa", t)
    ensures DetectBank(t) == Some("Сбербанк")
  {
  }

  /** Only the Cyrillic "втб" marks VTB: the Latin "vtb" is not recognised. */
  lemma LatinVtbNotRecognised()
    ensures DetectBank("vtb") == None
  {
    assert "vtb"[0..3][0] != "втб"[0];
  }

  /** The markers are looked for in the lower-cased text, so upper-case and
      mixed-case occurrences count too. */
  lemma BankDetectionIgnoresCase(m: string, fullText: string)
    requires IsInfix(m, fullText) && Lower(m) in ["сбер", "sber"]
    ensures DetectBank(Lower(fullText)) == Some("Сбербанк")
  {
    LowerInfix(m, fullText);
  }

  /** A word record as a dict. */
  function WordValue(w: PositionedWord): Value {
    Obj(map["text" := Str(w.text), "x" := Num(w.x), "y" := Num(w.y),
            "width" := Num(w.width), "height" := Num(w.height)])
  }

  /** The list of word records. */
  function WordValues(ws: seq<PositionedWord>): (r: seq<Value>)
    ensures |r| == |ws|
  {
    if ws == [] then [] else WordValues(ws[..|ws| - 1]) + [WordValue(ws[|ws| - 1])]
  }

  /** A line record as a dict. */
  function LineValue(l: Line): Value {
    Obj(map["page" := Int(l.page), "y_position" := Num(l.yPosition), "text" := Str(l.text),
            "words" := List(WordValues(l.words))])
  }

  /** The list of line records. */
  function LineValues(lines: seq<Line>): (r: seq<Value>)
    ensures |r| == |lines|
  {
    if lines == [] then [] else LineValues(lines[..|lines| - 1]) + [LineValue(lines[|lines| - 1])]
  }

  /** The pattern results as a dict: a found string, or `None`. */
  function ExtractedValue(found: map<string, Option<string>>): Value {
    Obj(map k | k in found :: StrValue(found[k]))
  }

  /** The dict `process_receipt_pdf` returns in place of raising `e`. */
  function ErrorDict(e: Error): Dict {
    map["error" := Str(e.message), "success" := Bool(false)]
  }

  /** The dict `process_receipt_pdf` builds from the text, the lines, the
      searchable flag and, when patterns are used, the pattern results and
      the detected bank. */
  function ReceiptRecord(fullText: string, lines: seq<Line>, searchable: bool,
                         found: Option<map<string, Option<string>>>, bank: Option<string>): Dict {
    var base := map["full_text" := Str(fullText), "positioned_text" := List(LineValues(lines)),
                    "is_searchable" := Bool(searchable)];
    if found.None? then base
    else
      var withExtracted := base["extracted" := ExtractedValue(found.value)];
      match bank
      case None => withExtracted
      case Some(b) => withExtracted["bank" := Str(b)]
  }

  /** The record holds the text, the lines and the flag; with pattern
      results it holds them too, and the bank when one was detected. */
  lemma ReceiptRecordKeys(fullText: string, lines: seq<Line>, searchable: bool,
                          found: Option<map<string, Option<string>>>, bank: Option<string>)
    ensures forall k :: k in ReceiptRecord(fullText, lines, searchable, found, bank) <==>
              k in ["full_text", "positioned_text", "is_searchable"] ||
              (found.Some? && k == "extracted") ||
              (found.Some? && k == "bank" && bank.Some?)
  {
  }

  /** With pattern results, "bank" is a key exactly when a bank is given. */
  lemma ReceiptRecordBankKey(fullText: string, lines: seq<Line>, searchable: bool,
                             found: Option<map<string, Option<string>>>, bank: Option<string>)
    requires found.Some?
    ensures "bank" in ReceiptRecord(fullText, lines, searchable, found, bank) <==> bank.Some?
  {
  }

  /** A receipt record never carries an error. */
  lemma ReceiptRecordNoError(fullText: string, lines: seq<Line>, searchable: bool,
                             found: Option<map<string, Option<string>>>, bank: Option<string>)
    ensures "error" !in ReceiptRecord(fullText, lines, searchable, found, bank)
  {
  }

  /** The entries every record has: the text, the line records and the flag. */
  lemma ReceiptRecordBase(fullText: string, lines: seq<Line>, searchable: bool,
                          found: Option<map<string, Option<string>>>, bank: Option<string>)
    ensures var r := ReceiptRecord(fullText, lines, searchable, found, bank);
            && Get(r, "full_text") == Str(fullText)
            && Get(r, "positioned_text") == List(LineValues(lines))
            && Get(r, "is_searchable") == Bool(searchable)
  {
  }

  /** With pattern results, the record holds them and the bank, or `None`
      under "bank" when no bank was detected. */
  lemma ReceiptRecordValues(fullText: string, lines: seq<Line>, searchable: bool,
                            found: Option<map<string, Option<string>>>, bank: Option<string>)
    requires found.Some?
    ensures var r := ReceiptRecord(fullText, lines, searchable, found, bank);
            && "extracted" in r && Get(r, "extracted") == ExtractedValue(found.value)
            && Get(r, "bank") == StrValue(bank)
  {
  }

  /** The receipt record of `process_receipt_pdf(path, use_patterns)` for
      the document at `path`. */
  function ReceiptData(doc: Document, usePatterns: bool, search: (string, string) -> MatchOutcome): Dict {
    match doc
    case Unreadable(reason) => ErrorDict(ExtractionError(reason))
    case Doc(pages) =>
      var text := FullText(pages);
      if usePatterns then
        ReceiptRecord(text, PositionedLines(pages), Searchable(doc),
                      Some(PatternResults(text, ReceiptPatterns, search)), DetectBank(Lower(text)))
      else ReceiptRecord(text, PositionedLines(pages), Searchable(doc), None, None)
  }

  /** The record carries an error exactly when the document cannot be
      opened, and then it is `{"error": ..., "success": False}`. */
  lemma ReceiptDataError(doc: Document, usePatterns: bool, search: (string, string) -> MatchOutcome)
    ensures var r := ReceiptData(doc, usePatterns, search);
            && ("error" in r <==> doc.Unreadable?)
            && (doc.Unreadable? ==> r.Keys == {"error", "success"} && Get(r, "success") == Bool(false))
  {
    if doc.Doc? {
      var text := FullText(doc.pages);
      if usePatterns {
        ReceiptRecordNoError(text, PositionedLines(doc.pages), Searchable(doc),
                             Some(PatternResults(text, ReceiptPatterns, search)), DetectBank(Lower(text)));
      } else {
        ReceiptRecordNoError(text, PositionedLines(doc.pages), Searchable(doc), None, None);
      }
    }
  }

  /** The record of a readable document, in terms of its parts. */
  lemma ReceiptDataOfDoc(doc: Document, usePatterns: bool, search: (string, string) -> MatchOutcome)
    requires doc.Doc?
    ensures ReceiptData(doc, usePatterns, search)
            == if usePatterns
               then ReceiptRecord(FullText(doc.pages), PositionedLines(doc.pages), Searchable(doc),
                                  Some(PatternResults(FullText(doc.pages), ReceiptPatterns, search)),
                                  DetectBank(Lower(FullText(doc.pages))))
               else ReceiptRecord(FullText(doc.pages), PositionedLines(doc.pages), Searchable(doc), None, None)
  {
  }

  /** `process_receipt_pdf`: the text, the line records and the searchable
      flag; with patterns, the receipt fields and the bank; an extraction
      error is returned as an error dict. */
  method ProcessReceiptPdf(doc: Document, usePatterns: bool, search: (string, string) -> MatchOutcome)
    returns (r: Dict)
    ensures r == ReceiptData(doc, usePatterns, search)
  {
    var full := ExtractText(doc);
    if full.Failure? {
      return ErrorDict(full.error);
    }
    var fullText := full.value;
    var positioned := ExtractTextWithPositions(doc);
    var lines := positioned.value;
    var searchable := IsSearchablePdf(doc);
    r := map["full_text" := Str(fullText), "positioned_text" := List(LineValues(lines)),
             "is_searchable" := Bool(searchable)];
    if usePatterns {
      var found := FindTextByPatterns(doc, ReceiptPatterns, search);
      r := r["extracted" := ExtractedValue(found.value)];
      var bank := DetectBank(Lower(fullText));
      if bank.Some? {
        r := r["bank" := Str(bank.value)];
      }
      assert r == ReceiptRecord(fullText, lines, searchable, Some(found.value), bank);
    } else {
      assert r == ReceiptRecord(fullText, lines, searchable, None, None);
    }
    ReceiptDataOfDoc(doc, usePatterns, search);
  }

  /** With patterns, the record of a readable document carries no error,
      the pattern results of its text and the detected bank, if any. */
  lemma ReceiptDataWithPatterns(doc: Document, search: (string, string) -> MatchOutcome)
    requires doc.Doc?
    ensures var r := ReceiptData(doc, true, search);
            var text := FullText(doc.pages);
            && "error" !in r
            && "extracted" in r
            && Get(r, "extracted") == ExtractedValue(PatternResults(text, ReceiptPatterns, search))
            && Get(r, "bank") == StrValue(DetectBank(Lower(text)))
  {
    var text := FullText(doc.pages);
    var found := PatternResults(text, ReceiptPatterns, search);
    ReceiptRecordNoError(text, PositionedLines(doc.pages), Searchable(doc), Some(found), DetectBank(Lower(text)));
    ReceiptRecordValues(text, PositionedLines(doc.pages), Searchable(doc), Some(found), DetectBank(Lower(text)));
  }

  /** With patterns, the record has a "bank" entry exactly when one of the
      markers occurs in the lower-cased text. */
  lemma ReceiptDataBankKey(doc: Document, search: (string, string) -> MatchOutcome)
    requires doc.Doc?
    ensures "bank" in ReceiptData(doc, true, search) <==> DetectBank(Lower(FullText(doc.pages))).Some?
  {
    var text := FullText(doc.pages);
    ReceiptRecordBankKey(text, PositionedLines(doc.pages), Searchable(doc),
                         Some(PatternResults(text, ReceiptPatterns, search)), DetectBank(Lower(text)));
  }

  /** Without patterns, neither patterns nor the bank are looked for: the
      record of a readable document is the text, the lines and the flag. */
  lemma ReceiptDataWithoutPatterns(doc: Document, search: (string, string) -> MatchOutcome)
    requires doc.Doc?
    ensures var r := ReceiptData(doc, false, search);
            && r.Keys == {"full_text", "positioned_text", "is_searchable"}
            && Get(r, "full_text") == Str(FullText(doc.pages))
            && Get(r, "positioned_text") == List(LineValues(PositionedLines(doc.pages)))
            && Get(r, "is_searchable") == Bool(Searchable(doc))
  {
    ReceiptRecordBase(FullText(doc.pages), PositionedLines(doc.pages), Searchable(doc), None, None);
  }
}
