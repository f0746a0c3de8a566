/** The converter of ocr_text.py: an ABBYY FineReader 10 recognition tree
    (document, block, par, line, formatting, charParams) flattened to plain text.

    The XML is replaced by a typed tree: a document is its blocks, a block its
    paragraphs, a paragraph its lines, a line its formatting runs and a
    formatting run its `charParams` entries, each with the entry's text. */
module OcrText {
  import opened Whitespace
  import opened Cleanup

  datatype Option<T> = None | Some(value: T)

  datatype Result<T, E> = Success(value: T) | Failure(error: E)

  /** `char.text[0]` raises when a `charParams` element has no text. */
  datatype ConvertError = MissingCharText

  /** A `charParams` element; `text` is the element's `.text`, the text before its
      first child, None when there is none. */
  datatype CharParams = CharParams(text: Option<string>)

  type Formatting = seq<CharParams>
  type Line = seq<Formatting>
  type Par = seq<Line>
  type Block = seq<Par>
  type Document = seq<Block>

  // ---------------------------------------------------------------------------
  // Entries whose text can be indexed
  // ---------------------------------------------------------------------------

  predicate HasText(c: CharParams) {
    c.text.Some? && |c.text.value| > 0
  }

  predicate FormattingOk(f: Formatting) {
    forall i :: 0 <= i < |f| ==> HasText(f[i])
  }

  predicate LineOk(l: Line) {
    forall i :: 0 <= i < |l| ==> FormattingOk(l[i])
  }

  predicate ParOk(p: Par) {
    forall i :: 0 <= i < |p| ==> LineOk(p[i])
  }

  predicate BlockOk(b: Block) {
    forall i :: 0 <= i < |b| ==> ParOk(b[i])
  }

  predicate DocOk(d: Document) {
    forall i :: 0 <= i < |d| ==> BlockOk(d[i])
  }

  // ---------------------------------------------------------------------------
  // Raw block text, before cleanup
  // ---------------------------------------------------------------------------

  /** The recognised character of an entry: the first character of its text. */
  function FirstChar(c: CharParams): (r: char)
    requires HasText(c)
  {
    c.text.value[0]
  }

  /** One character per entry of the run: the first character of its text, in entry order. */
  function FormattingText(f: Formatting): (r: string)
    requires FormattingOk(f)
    ensures |r| == |f|
    ensures forall i :: 0 <= i < |f| ==> r[i] == FirstChar(f[i])
    decreases |f|
  {
    if |f| == 0 then "" else FormattingText(f[..|f| - 1]) + [FirstChar(f[|f| - 1])]
  }

  /** The characters of a line, formatting run after formatting run. */
  function LineChars(l: Line): (r: string)
    requires LineOk(l)
    decreases |l|
  {
    if |l| == 0 then "" else LineChars(l[..|l| - 1]) + FormattingText(l[|l| - 1])
  }

  /** A line is its characters followed by one newline. */
  function LineText(l: Line): (r: string)
    requires LineOk(l)
  {
    LineChars(l) + "\n"
  }

  function ParLines(p: Par): (r: string)
    requires ParOk(p)
    decreases |p|
  {
    if |p| == 0 then "" else ParLines(p[..|p| - 1]) + LineText(p[|p| - 1])
  }

  /** A paragraph is its lines followed by one more newline. */
  function ParText(p: Par): (r: string)
    requires ParOk(p)
  {
    ParLines(p) + "\n"
  }

  /** The text the `sio` buffer holds for a block before `_cleanup_block`. */
  function BlockRawText(b: Block): (r: string)
    requires BlockOk(b)
    ensures |r| == 0 <==> |b| == 0
    ensures |b| > 0 ==> r[|r| - 1] == '\n'
    decreases |b|
  {
    if |b| == 0 then "" else BlockRawText(b[..|b| - 1]) + ParText(b[|b| - 1])
  }

  lemma BlockOkAppend(b1: Block, b2: Block)
    ensures BlockOk(b1 + b2) <==> BlockOk(b1) && BlockOk(b2)
  {
    var b := b1 + b2;
    if BlockOk(b) {
      forall i | 0 <= i < |b1| ensures ParOk(b1[i]) {
        assert b[i] == b1[i];
      }
      forall i | 0 <= i < |b2| ensures ParOk(b2[i]) {
        assert b[|b1| + i] == b2[i];
      }
    }
  }

  lemma BlockRawTextSnoc(b: Block, p: Par)
    requires BlockOk(b) && ParOk(p)
    ensures BlockOk(b + [p])
    ensures BlockRawText(b + [p]) == BlockRawText(b) + ParText(p)
  {
    BlockOkAppend(b, [p]);
    assert (b + [p])[..|b|] == b;
  }

  /** Raw text is built paragraph by paragraph, in order. */
  lemma {:induction false} BlockRawTextAppend(b1: Block, b2: Block)
    requires BlockOk(b1) && BlockOk(b2)
    ensures BlockOk(b1 + b2)
    ensures BlockRawText(b1 + b2) == BlockRawText(b1) + BlockRawText(b2)
    decreases |b2|
  {
    BlockOkAppend(b1, b2);
    if |b2| == 0 {
      assert b1 + b2 == b1;
    } else {
      var front, last := b2[..|b2| - 1], b2[|b2| - 1];
      assert b2 == front + [last];
      BlockOkAppend(front, [last]);
      BlockOkAppend(b1, front);
      calc {
        BlockRawText(b1 + b2);
        { assert b1 + b2 == (b1 + front) + [last]; }
        BlockRawText((b1 + front) + [last]);
        { BlockRawTextSnoc(b1 + front, last); }
        BlockRawText(b1 + front) + ParText(last);
        { BlockRawTextAppend(b1, front); }
        (BlockRawText(b1) + BlockRawText(front)) + ParText(last);
        BlockRawText(b1) + (BlockRawText(front) + ParText(last));
        { BlockRawTextSnoc(front, last); }
        BlockRawText(b1) + BlockRawText(b2);
      }
    }
  }

  // ---------------------------------------------------------------------------
  // _chars: per-block text, cleanup and dropping
  // ---------------------------------------------------------------------------

  /** What `_chars` yields for one block: its cleaned text, unless that is empty. */
  function BlockYield(b: Block): (r: seq<string>)
    requires BlockOk(b)
  {
    var text := CleanupBlock(BlockRawText(b));
    if text != "" then [text] else []
  }

  /** The cleaned texts of the blocks, in document order, without the empty ones. */
  function KeptBlocks(doc: Document): (r: seq<string>)
    requires DocOk(doc)
    decreases |doc|
  {
    if |doc| == 0 then [] else KeptBlocks(doc[..|doc| - 1]) + BlockYield(doc[|doc| - 1])
  }

  /** The formatting and charParams loops of `_chars` for one line: appends to
      `sio` the first character of every entry. */
  method WriteLineChars(sio: string, line: Line) returns (r: Result<string, ConvertError>)
    ensures LineOk(line) ==> r == Success(sio + LineChars(line))
    ensures !LineOk(line) ==> r == Failure(MissingCharText)
  {
    var buf := sio;
    for fi := 0 to |line|
      invariant LineOk(line[..fi])
      invariant buf == sio + LineChars(line[..fi])
    {
      var formatting := line[fi];
      for ci := 0 to |formatting|
        invariant FormattingOk(formatting[..ci])
        invariant buf == sio + LineChars(line[..fi]) + FormattingText(formatting[..ci])
      {
        var ch := formatting[ci];
        if !HasText(ch) {
          assert !FormattingOk(formatting);
          return Failure(MissingCharText);
        }
        assert formatting[..ci + 1][..ci] == formatting[..ci];
        buf := buf + [ch.text.value[0]];
      }
      assert formatting[..|formatting|] == formatting;
      assert line[..fi + 1][..fi] == line[..fi];
    }
    assert line[..|line|] == line;
    r := Success(buf);
  }

  /** The line loop of `_chars` for one paragraph: appends every line and its
      newline to `sio`, then the paragraph's extra newline. */
  method WriteParagraph(sio: string, par: Par) returns (r: Result<string, ConvertError>)
    ensures ParOk(par) ==> r == Success(sio + ParText(par))
    ensures !ParOk(par) ==> r == Failure(MissingCharText)
  {
    var buf := sio;
    for li := 0 to |par|
      invariant ParOk(par[..li])
      invariant buf == sio + ParLines(par[..li])
    {
      var line := par[li];
      var written := WriteLineChars(buf, line);
      if written.Failure? {
        assert !ParOk(par);
        return written;
      }
      assert par[..li + 1][..li] == par[..li];
      buf := written.value + "\n";
    }
    assert par[..|par|] == par;
    assert buf + "\n" == sio + (ParLines(par) + "\n");
    r := Success(buf + "\n");
  }

  /** The paragraph loop of `_chars` for one block: the block's `sio` buffer, or
      an error when an entry has no text. */
  method BlockBuffer(block: Block) returns (r: Result<string, ConvertError>)
    ensures BlockOk(block) ==> r == Success(BlockRawText(block))
    ensures !BlockOk(block) ==> r == Failure(MissingCharText)
  {
    var sio := "";
    for pi := 0 to |block|
      invariant BlockOk(block[..pi])
      invariant sio == BlockRawText(block[..pi])
    {
      var written := WriteParagraph(sio, block[pi]);
      if written.Failure? {
        return written;
      }
      assert block[..pi + 1][..pi] == block[..pi];
      sio := written.value;
    }
    assert block[..|block|] == block;
    r := Success(sio);
  }

  /** `_chars`: the cleaned text of every block, in document order, leaving out
      the blocks whose cleaned text is empty. An entry without text stops the
      walk with an error. */
  method Chars(doc: Document) returns (r: Result<seq<string>, ConvertError>)
    ensures DocOk(doc) ==> r == Success(KeptBlocks(doc))
    ensures !DocOk(doc) ==> r == Failure(MissingCharText)
  {
    var kept: seq<string> := [];
    for bi := 0 to |doc|
      invariant DocOk(doc[..bi])
      invariant kept == KeptBlocks(doc[..bi])
    {
      var block := doc[bi];
      var sio := BlockBuffer(block);
      if sio.Failure? {
        return Failure(MissingCharText);
      }
      assert doc[..bi + 1] == doc[..bi] + [block];
      KeptBlocksSnoc(doc[..bi], block);
      var text := CleanupBlock(sio.value);
      if text != "" {
        kept := kept + [text];
      }
    }
    assert doc[..|doc|] == doc;
    r := Success(kept);
  }

  // ---------------------------------------------------------------------------
  // Blocks kept and dropped
  // ---------------------------------------------------------------------------

  /** A block is dropped exactly when it has no paragraph; a kept block's text
      is clean and ends in exactly one newline. */
  lemma BlockKept(b: Block)
    requires BlockOk(b)
    ensures CleanupBlock(BlockRawText(b)) != "" <==> |b| > 0
    ensures |b| > 0 ==> EndsWithSingleNewline(CleanupBlock(BlockRawText(b)))
                        && BlockClean(CleanupBlock(BlockRawText(b)))
  {
    if |b| > 0 {
      CleanupBlockFinalNewline(BlockRawText(b));
      CleanupBlockIsClean(BlockRawText(b));
    }
  }

  lemma DocOkAppend(d1: Document, d2: Document)
    ensures DocOk(d1 + d2) <==> DocOk(d1) && DocOk(d2)
  {
    var d := d1 + d2;
    if DocOk(d) {
      forall i | 0 <= i < |d1| ensures BlockOk(d1[i]) {
        assert d[i] == d1[i];
      }
      forall i | 0 <= i < |d2| ensures BlockOk(d2[i]) {
        assert d[|d1| + i] == d2[i];
      }
    }
  }

  lemma KeptBlocksSnoc(d: Document, b: Block)
    requires DocOk(d) && BlockOk(b)
    ensures DocOk(d + [b])
    ensures KeptBlocks(d + [b]) == KeptBlocks(d) + BlockYield(b)
  {
    DocOkAppend(d, [b]);
    assert (d + [b])[..|d|] == d;
  }

  /** Blocks are cleaned and kept independently and in document order. */
  lemma {:induction false} KeptBlocksAppend(d1: Document, d2: Document)
    requires DocOk(d1) && DocOk(d2)
    ensures DocOk(d1 + d2)
    ensures KeptBlocks(d1 + d2) == KeptBlocks(d1) + KeptBlocks(d2)
    decreases |d2|
  {
    DocOkAppend(d1, d2);
    if |d2| == 0 {
      assert d1 + d2 == d1;
    } else {
      var front, last := d2[..|d2| - 1], d2[|d2| - 1];
      assert d2 == front + [last];
      DocOkAppend(front, [last]);
      DocOkAppend(d1, front);
      calc {
        KeptBlocks(d1 + d2);
        { assert d1 + d2 == (d1 + front) + [last]; }
        KeptBlocks((d1 + front) + [last]);
        { KeptBlocksSnoc(d1 + front, last); }
        KeptBlocks(d1 + front) + BlockYield(last);
        { KeptBlocksAppend(d1, front); }
        (KeptBlocks(d1) + KeptBlocks(front)) + BlockYield(last);
        KeptBlocks(d1) + (KeptBlocks(front) + BlockYield(last));
        { KeptBlocksSnoc(front, last); }
        KeptBlocks(d1) + KeptBlocks(d2);
      }
    }
  }

  /** Every kept text is clean and ends in exactly one newline. */
  lemma {:induction false} KeptBlocksShape(doc: Document)
    requires DocOk(doc)
    ensures forall k :: 0 <= k < |KeptBlocks(doc)| ==>
              EndsWithSingleNewline(KeptBlocks(doc)[k]) && BlockClean(KeptBlocks(doc)[k])
    decreases |doc|
  {
    if |doc| > 0 {
      var front, last := doc[..|doc| - 1], doc[|doc| - 1];
      assert doc == front + [last];
      DocOkAppend(front, [last]);
      KeptBlocksShape(front);
      KeptBlocksSnoc(front, last);
      BlockKept(last);
      var ts, ys := KeptBlocks(front), BlockYield(last);
      assert KeptBlocks(doc) == ts + ys;
      forall k | 0 <= k < |ts + ys|
        ensures EndsWithSingleNewline((ts + ys)[k]) && BlockClean((ts + ys)[k])
      {
        if k < |ts| {
          assert (ts + ys)[k] == ts[k];
        } else {
          assert (ts + ys)[k] == ys[0];
        }
      }
    }
  }

  // ---------------------------------------------------------------------------
  // The recognised characters alone, without line, paragraph or block breaks
  // ---------------------------------------------------------------------------

  /** The recognised characters of a paragraph: its lines' characters one after
      another, with none of the newlines the buffer gets. */
  function ParEntries(p: Par): (r: string)
    requires ParOk(p)
    decreases |p|
  {
    if |p| == 0 then "" else ParEntries(p[..|p| - 1]) + LineChars(p[|p| - 1])
  }

  function BlockEntries(b: Block): (r: string)
    requires BlockOk(b)
    decreases |b|
  {
    if |b| == 0 then "" else BlockEntries(b[..|b| - 1]) + ParEntries(b[|b| - 1])
  }

  /** Every recognised character of the document, in document order. */
  function DocEntries(doc: Document): (r: string)
    requires DocOk(doc)
    decreases |doc|
  {
    if |doc| == 0 then "" else DocEntries(doc[..|doc| - 1]) + BlockEntries(doc[|doc| - 1])
  }

  /** The newlines written for lines add no recognised character. */
  lemma {:induction false} ParLinesNonWs(p: Par)
    requires ParOk(p)
    ensures NonWs(ParLines(p)) == NonWs(ParEntries(p))
    decreases |p|
  {
    if |p| > 0 {
      var front, last := p[..|p| - 1], p[|p| - 1];
      ParLinesNonWs(front);
      NonWsAppend(ParLines(front), LineText(last));
      NonWsAppend(LineChars(last), "\n");
      NonWsOfWs("\n");
      NonWsAppend(ParEntries(front), LineChars(last));
    }
  }

  /** A block's buffer holds its recognised characters, in order, and otherwise
      only the newlines of lines and paragraphs. */
  lemma {:induction false} BlockRawNonWs(b: Block)
    requires BlockOk(b)
    ensures NonWs(BlockRawText(b)) == NonWs(BlockEntries(b))
    decreases |b|
  {
    if |b| > 0 {
      var front, last := b[..|b| - 1], b[|b| - 1];
      BlockRawNonWs(front);
      ParLinesNonWs(last);
      NonWsAppend(BlockRawText(front), ParText(last));
      NonWsAppend(ParLines(last), "\n");
      NonWsOfWs("\n");
      NonWsAppend(BlockEntries(front), ParEntries(last));
    }
  }

  lemma DocEntriesSnoc(d: Document, b: Block)
    requires DocOk(d) && BlockOk(b)
    ensures DocOk(d + [b])
    ensures DocEntries(d + [b]) == DocEntries(d) + BlockEntries(b)
  {
    DocOkAppend(d, [b]);
    assert (d + [b])[..|d|] == d;
  }

  // ---------------------------------------------------------------------------
  // convert
  // ---------------------------------------------------------------------------

  /** Python's `'\n'.join(parts)`. */
  function Join(parts: seq<string>): (r: string)
    decreases |parts|
  {
    if |parts| == 0 then ""
    else if |parts| == 1 then parts[0]
    else Join(parts[..|parts| - 1]) + "\n" + parts[|parts| - 1]
  }

  /** `convert`: the kept block texts joined by newlines, then `_cleanup_doc`. */
  function Convert(doc: Document): (r: Result<string, ConvertError>) {
    if DocOk(doc) then Success(CleanupDoc(Join(KeptBlocks(doc))))
    else Failure(MissingCharText)
  }

  /** Conversion fails exactly when some `charParams` entry has no text. */
  lemma ConvertFailsIff(doc: Document)
    ensures Convert(doc).Failure? <==>
      exists bi, pi, li, fi, ci ::
        && 0 <= bi < |doc| && 0 <= pi < |doc[bi]| && 0 <= li < |doc[bi][pi]|
        && 0 <= fi < |doc[bi][pi][li]| && 0 <= ci < |doc[bi][pi][li][fi]|
        && !HasText(doc[bi][pi][li][fi][ci])
  {
  }

  /** Joining one more part adds its non-whitespace characters after the others'. */
  lemma JoinNonWsSnoc(parts: seq<string>, s: string)
    ensures NonWs(Join(parts + [s])) == NonWs(Join(parts)) + NonWs(s)
  {
    assert (parts + [s])[..|parts|] == parts;
    if |parts| > 0 {
      NonWsAppend(Join(parts) + "\n", s);
      NonWsAppend(Join(parts), "\n");
      NonWsOfWs("\n");
    }
  }

  lemma {:induction false} JoinKeptNonWs(doc: Document)
    requires DocOk(doc)
    ensures NonWs(Join(KeptBlocks(doc))) == NonWs(DocEntries(doc))
    decreases |doc|
  {
    if |doc| > 0 {
      var front, last := doc[..|doc| - 1], doc[|doc| - 1];
      assert doc == front + [last];
      DocOkAppend(front, [last]);
      KeptBlocksSnoc(front, last);
      DocEntriesSnoc(front, last);
      JoinKeptNonWs(front);
      var raw := BlockRawText(last);
      BlockRawNonWs(last);
      CleanupBlockKeepsNonWs(raw);
      NonWsAppend(DocEntries(front), BlockEntries(last));
      var text := CleanupBlock(raw);
      if text != "" {
        assert KeptBlocks(doc) == KeptBlocks(front) + [text];
        JoinNonWsSnoc(KeptBlocks(front), text);
      } else {
        assert KeptBlocks(doc) == KeptBlocks(front);
      }
    }
  }

  /** Conversion keeps every recognised non-whitespace character, in document order. */
  lemma ConvertKeepsNonWs(doc: Document)
    requires DocOk(doc)
    ensures Convert(doc).Success?
    ensures NonWs(Convert(doc).value) == NonWs(DocEntries(doc))
  {
    CleanupDocKeepsNonWs(Join(KeptBlocks(doc)));
    JoinKeptNonWs(doc);
  }

  /** The converted text is a fixed point of `_cleanup_doc`: no whitespace run in
      it holds more than one newline unless it is exactly one blank line, and it
      never holds three newlines in a row. */
  lemma ConvertIsDocClean(doc: Document)
    requires DocOk(doc)
    ensures Convert(doc).Success?
    ensures DocClean(Convert(doc).value) && NoTripleNewline(Convert(doc).value)
    ensures CleanupDoc(Convert(doc).value) == Convert(doc).value
  {
    var joined := Join(KeptBlocks(doc));
    CleanupDocIsClean(joined);
    CleanupDocNoTriple(joined);
    CleanupDocIdempotent(joined);
  }

  /** The joined text ends as its last part does. */
  lemma JoinEndsAsLast(parts: seq<string>)
    requires |parts| > 0 && |parts[|parts| - 1]| > 0
    ensures var j, p := Join(parts), parts[|parts| - 1]; |j| > 0 && j[|j| - 1] == p[|p| - 1]
  {
  }

  lemma JoinSnoc(parts: seq<string>, s: string)
    requires |parts| > 0
    ensures Join(parts + [s]) == Join(parts) + "\n" + s
  {
    assert (parts + [s])[..|parts|] == parts;
  }

  /** A document with a recognised non-whitespace character keeps a block, and
      the join of its kept texts ends in a newline. */
  lemma KeptJoinEndsInNewline(d: Document)
    requires DocOk(d) && NonWs(DocEntries(d)) != ""
    ensures |KeptBlocks(d)| > 0
    ensures var j := Join(KeptBlocks(d)); |j| > 0 && j[|j| - 1] == '\n'
  {
    var kept := KeptBlocks(d);
    JoinKeptNonWs(d);
    assert Join([]) == "" && NonWs("") == "";
    KeptBlocksShape(d);
    assert EndsWithSingleNewline(kept[|kept| - 1]);
    JoinEndsAsLast(kept);
  }

  /** Joining two non-empty lists of parts puts one newline between their joins. */
  lemma {:induction false} JoinAppend(k1: seq<string>, k2: seq<string>)
    requires |k1| > 0 && |k2| > 0
    ensures Join(k1 + k2) == Join(k1) + "\n" + Join(k2)
    decreases |k2|
  {
    if |k2| == 1 {
      assert k1 + k2 == k1 + [k2[0]];
      JoinSnoc(k1, k2[0]);
    } else {
      var front, last := k2[..|k2| - 1], k2[|k2| - 1];
      assert k2 == front + [last];
      assert k1 + k2 == (k1 + front) + [last];
      JoinAppend(k1, front);
      JoinSnoc(k1 + front, last);
      JoinSnoc(front, last);
    }
  }

  /** The output for `d1 + d2` is the cleaned join of the two halves' joined texts. */
  lemma ConvertAppendText(d1: Document, d2: Document)
    requires DocOk(d1) && DocOk(d2)
    requires NonWs(DocEntries(d1)) != "" && NonWs(DocEntries(d2)) != ""
    ensures Convert(d1 + d2)
      == Success(CleanupDoc(Join(KeptBlocks(d1)) + "\n" + Join(KeptBlocks(d2))))
  {
    DocOkAppend(d1, d2);
    KeptBlocksAppend(d1, d2);
    KeptJoinEndsInNewline(d1);
    KeptJoinEndsInNewline(d2);
    JoinAppend(KeptBlocks(d1), KeptBlocks(d2));
  }

  /** The cleaned join of the two halves' texts has one blank line between a part
      with the first half's characters and a part with the second half's. */
  lemma KeptTextsSeparated(d1: Document, d2: Document)
    requires DocOk(d1) && DocOk(d2)
    requires NonWs(DocEntries(d1)) != "" && NonWs(DocEntries(d2)) != ""
    ensures exists u, v ::
      && CleanupDoc(Join(KeptBlocks(d1)) + "\n" + Join(KeptBlocks(d2))) == u + "\n\n" + v
      && NonWs(u) == NonWs(DocEntries(d1)) && NonWs(v) == NonWs(DocEntries(d2))
      && |u| > 0 && !IsWs(u[|u| - 1]) && |v| > 0 && !IsWs(v[0])
  {
    JoinKeptNonWs(d1);
    JoinKeptNonWs(d2);
    KeptJoinEndsInNewline(d1);
    CleanupDocSeparates(Join(KeptBlocks(d1)), Join(KeptBlocks(d2)));
  }

  /** Blocks stay apart in the output: cut a document anywhere so that both
      halves hold a recognised non-whitespace character, and the output is a part
      with the first half's characters, exactly one blank line, and a part with
      the second half's characters, neither part touching the blank line with
      whitespace. */
  lemma ConvertSeparates(d1: Document, d2: Document)
    requires DocOk(d1) && DocOk(d2)
    requires NonWs(DocEntries(d1)) != "" && NonWs(DocEntries(d2)) != ""
    ensures DocOk(d1 + d2)
    ensures exists u, v ::
      && Convert(d1 + d2) == Success(u + "\n\n" + v)
      && NonWs(u) == NonWs(DocEntries(d1)) && NonWs(v) == NonWs(DocEntries(d2))
      && |u| > 0 && !IsWs(u[|u| - 1]) && |v| > 0 && !IsWs(v[0])
  {
    DocOkAppend(d1, d2);
    ConvertAppendText(d1, d2);
    KeptTextsSeparated(d1, d2);
  }

  /** A block without paragraphs leaves no trace in the output. */
  lemma EmptyBlockDropped(d1: Document, d2: Document)
    ensures Convert(d1 + [[]] + d2) == Convert(d1 + d2)
  {
    var e: Document := [[]];
    assert DocOk(e);
    DocOkAppend(d1 + e, d2);
    DocOkAppend(d1, e);
    DocOkAppend(d1, d2);
    if DocOk(d1) && DocOk(d2) {
      assert KeptBlocks(e) == [] by {
        KeptBlocksSnoc([], []);
        assert [] + e == e;
      }
      calc {
        KeptBlocks(d1 + e + d2);
        { KeptBlocksAppend(d1 + e, d2); }
        KeptBlocks(d1 + e) + KeptBlocks(d2);
        { KeptBlocksAppend(d1, e); }
        (KeptBlocks(d1) + []) + KeptBlocks(d2);
        { assert KeptBlocks(d1) + [] == KeptBlocks(d1); }
        KeptBlocks(d1) + KeptBlocks(d2);
        { KeptBlocksAppend(d1, d2); }
        KeptBlocks(d1 + d2);
      }
    }
  }
}
