# OCR XML to plain text, in Dafny

A model of `ocr_text.py`, the converter that turns an ABBYY FineReader 10
recognition tree into plain text, with proofs of what it does to whitespace,
to the recognised characters and to blocks.

The converter walks the tree block by block. Inside a block it goes through
paragraphs, lines, formatting runs and `charParams` entries, and writes into
a per-block buffer:

- the first character of every entry's text;
- one newline after every line;
- one more newline after every paragraph.

Each block's buffer is cleaned by `_cleanup_block`, and a block whose cleaned
text is empty is dropped. The surviving texts are joined with newlines, and
`_cleanup_doc` cleans the result.

The project has four modules:

- `Whitespace` (whitespace.dfy) holds the whitespace class `IsWs` and the
  measure of a whitespace run. It also defines `NonWs`, the non-whitespace
  characters of a string in order. `IsWs` is the set of characters that
  Python's `\s` matches on `str`.
- `Cleanup` (cleanup.dfy) holds the two regular-expression passes, written as
  functions that walk a string run by run.
  - `CollapseNewlineRuns` followed by `SqueezeSpaces` is `_cleanup_block`.
  - `CleanupDoc` is `_cleanup_doc`.

  A pattern of the form `[\n\s]*\n…[\n\s]*` consumes a maximal whitespace run
  from its first character. The run is replaced when it holds enough newlines
  and is left alone otherwise.
- `OcrText` (ocr_text.dfy) holds the recognition tree as nested sequences
  (document, block, paragraph, line, formatting run, entry).
  - The loops of `_chars` are methods over that tree, each proved against a
    specification function.
  - `Convert` is `convert`.
- `OcrScenarios` (scenarios.dfy) works through documents of simple shapes.

## Edge cases, as the code handles them

- An entry without text makes `char.text[0]` raise, and conversion ends in
  `Failure(MissingCharText)`.
- A one-line block such as "Ab3" cleans to "Ab3\n". The line's newline and
  the paragraph's newline form one whitespace run, and `_cleanup_block` turns
  that run into a single newline.
- A block whose only paragraph has no lines has the raw text "\n" and is kept.
- Texts "Foo\n\n" and "Bar\n\n" join and clean to "Foo\n\nBar\n\n". The final
  pair of newlines is itself one blank line, and `_cleanup_doc` keeps it.
- Two one-line blocks "HELLO" and "WORLD" convert to "HELLO\n\nWORLD\n", which
  ends in a single newline.

## Model

| member | source | states |
|---|---|---|
| Cleanup.CollapseRunStep | ocr_text.py:12 | a maximal whitespace run becomes "\n" when it holds a newline and is left unchanged otherwise |
| Cleanup.CollapseIsolatesNewlines | ocr_text.py:12 | after the first substitution, no newline has a whitespace neighbour |
| Cleanup.CollapseIdentity | ocr_text.py:12 | the first substitution leaves unchanged a string whose newlines have no whitespace neighbour |
| Cleanup.CollapseKeepsNonWs | ocr_text.py:12 | the first substitution keeps the non-whitespace characters, in order |
| Cleanup.CollapseKeepsFinalNewline | ocr_text.py:12 | a string ending in a newline still ends in one after the first substitution |
| Cleanup.SqueezeRunStep | ocr_text.py:13 | a maximal run of spaces becomes one space |
| Cleanup.SqueezeAppend | ocr_text.py:13 | squeezing works piecewise when the second piece does not start with a space |
| Cleanup.SqueezeKeepsLast | ocr_text.py:13 | squeezing keeps the last character |
| Cleanup.SqueezeNoDoubleSpace | ocr_text.py:13 | after squeezing, no two spaces are adjacent |
| Cleanup.SqueezeKeepsIsolation | ocr_text.py:13 | squeezing keeps every newline free of whitespace neighbours |
| Cleanup.SqueezeIdentity | ocr_text.py:13 | squeezing leaves a string without double spaces unchanged |
| Cleanup.SqueezeKeepsNonWs | ocr_text.py:13 | squeezing keeps the non-whitespace characters, in order |
| Cleanup.CleanupBlock | ocr_text.py:10-14 | the cleaned block is empty exactly when the input is empty |
| Cleanup.CleanupBlockIsClean | ocr_text.py:10-14 | the cleaned block has no newline next to other whitespace and no two adjacent spaces |
| Cleanup.CleanupBlockFixedPoints | ocr_text.py:10-14 | `_cleanup_block` leaves a string unchanged exactly when the string is already clean in that sense |
| Cleanup.CleanupBlockIdempotent | ocr_text.py:10-14 | cleaning a block twice gives the same text as cleaning it once |
| Cleanup.CleanupBlockKeepsNonWs | ocr_text.py:10-14 | block cleanup keeps the non-whitespace characters, in order |
| Cleanup.CleanupBlockCharStep | ocr_text.py:10-14 | a non-whitespace character passes through block cleanup unchanged |
| Cleanup.CleanupBlockRunStep | ocr_text.py:10-14 | a maximal whitespace run holding a newline becomes "\n"; any other run has its spaces squeezed |
| Cleanup.CleanupBlockFinalNewline | ocr_text.py:10-14 | text ending in a newline cleans to text ending in exactly one newline, with no whitespace before it |
| Cleanup.CleanupBlockWord | ocr_text.py:10-14 | text without whitespace passes through block cleanup unchanged, and the rest is cleaned on its own |
| Cleanup.CleanupDoc | ocr_text.py:17-19 | the cleaned document is empty exactly when the input is empty, and a leading non-whitespace character is kept |
| Cleanup.CleanupDocRunStep | ocr_text.py:19 | a maximal whitespace run with two or more newlines becomes "\n\n"; a run with at most one newline is unchanged |
| Cleanup.CleanupDocWord | ocr_text.py:17-19 | text without whitespace passes through document cleanup unchanged, and the rest is cleaned on its own |
| Cleanup.CleanupDocIsClean | ocr_text.py:17-19 | in the cleaned document, every whitespace run holds at most one newline or is exactly "\n\n" |
| Cleanup.CleanupDocFixedPoints | ocr_text.py:17-19 | `_cleanup_doc` leaves a string unchanged exactly when every whitespace run in it already has that shape |
| Cleanup.CleanupDocIdempotent | ocr_text.py:17-19 | cleaning a document twice gives the same text as cleaning it once |
| Cleanup.CleanupDocKeepsNonWs | ocr_text.py:17-19 | document cleanup keeps the non-whitespace characters, in order |
| Cleanup.CleanupDocAppend | ocr_text.py:19 | document cleanup works piecewise on two pieces when the cut does not fall inside a whitespace run |
| Cleanup.CleanupDocSeparates | ocr_text.py:17-19 | cleaning two texts joined by a newline, the first ending in a newline and both holding a non-whitespace character, gives a part with the first text's characters, exactly one blank line, and a part with the second's; neither part has whitespace at the blank line |
| Cleanup.CleanupDocNoTriple | ocr_text.py:19 | the cleaned document never holds three newlines in a row |
| Cleanup.DocCleanNoTriple | ocr_text.py:19 | any text in the cleaned-document shape has no three newlines in a row |
| OcrText.FormattingText | ocr_text.py:28-29 | a formatting run contributes one character per entry: the first character of that entry's text, in entry order |
| OcrText.ParLinesNonWs | ocr_text.py:26-31 | the paragraph loop writes the paragraph's recognised characters, in order, plus only whitespace |
| OcrText.BlockRawNonWs | ocr_text.py:24-31 | a block's buffer holds the block's recognised characters, in order, plus only whitespace |
| OcrText.BlockRawText | ocr_text.py:24-31 | a block's buffer is empty exactly when the block has no paragraph, and otherwise ends in a newline |
| OcrText.WriteLineChars | ocr_text.py:27-29 | the formatting and entry loops append the line's characters to the buffer, or fail on an entry without text |
| OcrText.WriteParagraph | ocr_text.py:26-31 | the line loop appends every line with its newline, then one more newline; it fails on an entry without text |
| OcrText.BlockBuffer | ocr_text.py:24-31 | the paragraph loop leaves the block's raw text in the buffer, or fails on an entry without text |
| OcrText.Chars | ocr_text.py:22-35 | `_chars` yields the cleaned text of every block whose cleaned text is non-empty, in document order; it fails when any entry lacks text |
| OcrText.BlockKept | ocr_text.py:31-35 | a block is dropped exactly when it has no paragraph; a kept block's text is clean and ends in exactly one newline |
| OcrText.BlockRawTextAppend | ocr_text.py:25-31 | a block's raw text is the raw texts of its paragraphs, in order |
| OcrText.KeptBlocksAppend | ocr_text.py:23-35 | blocks are cleaned and kept independently, and document order is preserved |
| OcrText.KeptBlocksShape | ocr_text.py:32-35 | every text `_chars` yields is clean and ends in exactly one newline |
| OcrText.ConvertFailsIff | ocr_text.py:29 | conversion fails exactly when some entry anywhere in the tree has no text |
| OcrText.JoinNonWsSnoc | ocr_text.py:41 | joining with newlines adds no non-whitespace character and keeps the parts in order |
| OcrText.ConvertKeepsNonWs | ocr_text.py:38-42 | the output's non-whitespace characters are exactly the non-whitespace characters among the first characters of all entries of the tree, taken in document order without any line, paragraph or block break |
| OcrText.ConvertSeparates | ocr_text.py:38-42 | cut a document anywhere so that both halves hold a recognised non-whitespace character: the output is a part with the first half's characters, exactly one blank line, and a part with the second half's characters; neither part has whitespace at the blank line |
| OcrText.ConvertIsDocClean | ocr_text.py:38-42 | the output has the cleaned-document shape and no triple newline, and cleaning it again changes nothing |
| OcrText.EmptyBlockDropped | ocr_text.py:34-35 | inserting a block without paragraphs anywhere in a document does not change the output |
| OcrScenarios.OneLineBlockRaw | ocr_text.py:25-31 | a one-paragraph, one-line block has raw text made of its characters followed by "\n\n" |
| OcrScenarios.OneLineBlockText | ocr_text.py:10-14 | a one-line block whose characters have no whitespace (such as "Ab3") cleans to those characters and one newline |
| OcrScenarios.ParagraphWithoutLinesIsKept | ocr_text.py:31-35 | a block whose only paragraph has no lines yields "\n" and is kept |
| OcrScenarios.TwoWordsDoc | ocr_text.py:41-42 | block texts "w1\n" and "w2\n" join and clean to "w1\n\nw2\n" |
| OcrScenarios.JoinedBlankLines | ocr_text.py:19 | texts "w1\n\n" and "w2\n\n" join and clean to "w1\n\nw2\n\n", keeping the final blank line |
| OcrScenarios.TwoOneLineBlocks | ocr_text.py:38-42 | two one-line blocks such as "HELLO" and "WORLD" convert to "HELLO\n\nWORLD\n" |
| OcrScenarios.MissingTextFails | ocr_text.py:29 | an entry without text, wherever it sits in a run, makes conversion fail |

## Left out

- XML parsing by `ET.fromstring` is not modelled, nor the `ParseError` it raises on malformed input (ocr_text.py:40). The model starts from an already-parsed tree.
- The namespaced `.//` descendant searches (ocr_text.py:23-27) are replaced by the tree's direct nesting. A `.//` search would also find an element nested inside another element of the same tag. The typed tree cannot represent such nesting, so the model does not cover that case.
- The namespace table (ocr_text.py:6) exists only to resolve the XML tag names. It has no counterpart in the model.
- Python's regular-expression engine is replaced by run-based functions. The equivalence between the pattern and the run-based function is argued in the `Cleanup` module comment, not proved.
- `io.StringIO` is a string that is appended to.
- `_chars` is a generator; the model returns its whole output as a sequence. Laziness is not modelled. In particular, the blocks yielded before an entry without text are not observable in the model.
- The two errors `char.text[0]` can raise, a `TypeError` for absent text and an `IndexError` for empty text, are one error value, `MissingCharText`.
- create_training_data.py is not part of this model. It is glue around the converter: database iteration, decompression, JSON, label lookup, the train/test split and file output.
