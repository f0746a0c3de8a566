/** Documents of a simple shape and what the model of ocr_text.py gives for
    them. */
module OcrScenarios {
  import opened Whitespace
  import opened Cleanup
  import opened OcrText

  /** A block of one paragraph holding one line with one formatting run. */
  function OneLineBlock(f: Formatting): (b: Block) {
    [[[f]]]
  }

  lemma OneLineBlockOk(f: Formatting)
    requires FormattingOk(f)
    ensures BlockOk(OneLineBlock(f))
  {
    var l: Line := [f];
    assert l[0] == f;
    var p: Par := [l];
    assert p[0] == l;
  }

  /** The raw text of a one-line block is the line's characters followed by the
      line's newline and the paragraph's newline. */
  lemma OneLineBlockRaw(f: Formatting)
    requires FormattingOk(f)
    ensures BlockOk(OneLineBlock(f))
    ensures BlockRawText(OneLineBlock(f)) == FormattingText(f) + "\n\n"
  {
    OneLineBlockOk(f);
    var l: Line := [f];
    var p: Par := [l];
    var b: Block := [p];
    var w := FormattingText(f);
    assert LineChars(l) == w by {
      assert l[..0] == [] && l[0] == f;
      assert LineChars(l) == "" + w;
    }
    assert ParLines(p) == w + "\n" by {
      assert p[..0] == [] && p[0] == l;
      assert ParLines(p) == "" + LineText(l);
    }
    assert BlockRawText(b) == w + "\n\n" by {
      assert b[..0] == [] && b[0] == p;
      assert BlockRawText(b) == "" + ParText(p);
      assert ParText(p) == (w + "\n") + "\n";
    }
  }

  /** A one-line block whose characters hold no whitespace cleans to those
      characters and a single newline: the "\n\n" that ends the raw text is one
      run and becomes one newline. For "Ab3" the cleaned text is "Ab3\n". */
  lemma OneLineBlockText(f: Formatting)
    requires FormattingOk(f) && NoWs(FormattingText(f))
    ensures BlockOk(OneLineBlock(f))
    ensures BlockYield(OneLineBlock(f)) == [FormattingText(f) + "\n"]
  {
    OneLineBlockRaw(f);
    var w := FormattingText(f);
    calc {
      CleanupBlock(BlockRawText(OneLineBlock(f)));
      CleanupBlock(w + "\n\n");
      { CleanupBlockWord(w, "\n\n"); }
      w + CleanupBlock("\n\n");
      { assert "\n\n" + "" == "\n\n" && "\n\n"[0] == '\n';
        CleanupBlockRunStep("\n\n", ""); }
      w + "\n";
    }
  }

  /** A paragraph without lines still writes its newline, so the block is kept as "\n". */
  lemma ParagraphWithoutLinesIsKept()
    ensures BlockOk([[]])
    ensures BlockYield([[]]) == ["\n"]
  {
    var b: Block := [[]];
    assert BlockRawText(b) == "\n" by {
      assert b[..0] == [] && b[0] == [];
      assert BlockRawText(b) == "" + ParText([]);
    }
    assert CleanupBlock("\n") == "\n" by {
      assert "\n" + "" == "\n";
      CleanupBlockRunStep("\n", "");
    }
  }

  /** Two kept block texts joined and cleaned keep their single blank line. */
  lemma TwoWordsDoc(w1: string, w2: string)
    requires NoWs(w1) && NoWs(w2) && |w2| > 0
    ensures CleanupDoc(Join([w1 + "\n", w2 + "\n"])) == w1 + "\n\n" + w2 + "\n"
  {
    var parts := [w1 + "\n", w2 + "\n"];
    var out := w1 + "\n\n" + w2 + "\n";
    assert Join(parts) == out by {
      assert parts[..1] == [w1 + "\n"];
    }
    calc {
      CleanupDoc(out);
      { assert out == w1 + ("\n\n" + (w2 + "\n")); }
      CleanupDoc(w1 + ("\n\n" + (w2 + "\n")));
      { CleanupDocWord(w1, "\n\n" + (w2 + "\n")); }
      w1 + CleanupDoc("\n\n" + (w2 + "\n"));
      { assert multiset("\n\n")['\n'] == 2;
        CleanupDocRunStep("\n\n", w2 + "\n"); }
      w1 + ("\n\n" + CleanupDoc(w2 + "\n"));
      { CleanupDocWord(w2, "\n"); }
      w1 + ("\n\n" + (w2 + CleanupDoc("\n")));
      { assert "\n" + "" == "\n";
        CleanupDocRunStep("\n", ""); }
      w1 + ("\n\n" + (w2 + "\n"));
      out;
    }
  }

  /** Texts that end in a blank line keep it: "Foo\n\n" and "Bar\n\n" join and
      clean to "Foo\n\nBar\n\n", since the final run of two newlines is itself
      exactly one blank line. */
  lemma JoinedBlankLines(w1: string, w2: string)
    requires NoWs(w1) && NoWs(w2) && |w2| > 0
    ensures CleanupDoc(Join([w1 + "\n\n", w2 + "\n\n"])) == w1 + "\n\n" + w2 + "\n\n"
  {
    var parts := [w1 + "\n\n", w2 + "\n\n"];
    var out := w1 + "\n\n\n" + w2 + "\n\n";
    assert Join(parts) == out by {
      assert parts[..1] == [w1 + "\n\n"];
    }
    calc {
      CleanupDoc(out);
      { assert out == w1 + ("\n\n\n" + (w2 + "\n\n")); }
      CleanupDoc(w1 + ("\n\n\n" + (w2 + "\n\n")));
      { CleanupDocWord(w1, "\n\n\n" + (w2 + "\n\n")); }
      w1 + CleanupDoc("\n\n\n" + (w2 + "\n\n"));
      { assert multiset("\n\n\n")['\n'] == 3;
        CleanupDocRunStep("\n\n\n", w2 + "\n\n"); }
      w1 + ("\n\n" + CleanupDoc(w2 + "\n\n"));
      { CleanupDocWord(w2, "\n\n"); }
      w1 + ("\n\n" + (w2 + CleanupDoc("\n\n")));
      { assert "\n\n" + "" == "\n\n";
        assert multiset("\n\n")['\n'] == 2;
        CleanupDocRunStep("\n\n", ""); }
      w1 + ("\n\n" + (w2 + "\n\n"));
      w1 + "\n\n" + w2 + "\n\n";
    }
  }

  /** The kept texts of a two-block document are those of its blocks, in order. */
  lemma KeptTwoBlocks(h: Block, w: Block)
    requires BlockOk(h) && BlockOk(w)
    ensures DocOk([h, w])
    ensures KeptBlocks([h, w]) == BlockYield(h) + BlockYield(w)
  {
    var none: Document := [];
    KeptBlocksSnoc(none, h);
    assert none + [h] == [h];
    KeptBlocksSnoc([h], w);
    assert [h] + [w] == [h, w];
    calc {
      KeptBlocks([h, w]);
      KeptBlocks([h]) + BlockYield(w);
      (KeptBlocks(none) + BlockYield(h)) + BlockYield(w);
      { assert KeptBlocks(none) == []; }
      BlockYield(h) + BlockYield(w);
    }
  }

  /** Two one-line blocks, such as "HELLO" and "WORLD", convert to
      "HELLO\n\nWORLD\n": one blank line between them and a single final newline. */
  lemma TwoOneLineBlocks(f1: Formatting, f2: Formatting)
    requires FormattingOk(f1) && NoWs(FormattingText(f1))
    requires FormattingOk(f2) && NoWs(FormattingText(f2)) && |f2| > 0
    ensures Convert([OneLineBlock(f1), OneLineBlock(f2)])
      == Success(FormattingText(f1) + "\n\n" + FormattingText(f2) + "\n")
  {
    var h, w := OneLineBlock(f1), OneLineBlock(f2);
    var t1, t2 := FormattingText(f1), FormattingText(f2);
    OneLineBlockText(f1);
    OneLineBlockText(f2);
    KeptTwoBlocks(h, w);
    calc {
      Convert([h, w]);
      Success(CleanupDoc(Join(KeptBlocks([h, w]))));
      { assert [t1 + "\n"] + [t2 + "\n"] == [t1 + "\n", t2 + "\n"]; }
      Success(CleanupDoc(Join([t1 + "\n", t2 + "\n"])));
      { TwoWordsDoc(t1, t2); }
      Success(t1 + "\n\n" + t2 + "\n");
    }
  }

  /** An entry without text makes conversion fail, wherever it sits in the run. */
  lemma MissingTextFails(f: Formatting, i: nat)
    requires i < |f| && !HasText(f[i])
    ensures Convert([OneLineBlock(f)]) == Failure(MissingCharText)
  {
    var l: Line := [f];
    var p: Par := [l];
    var b: Block := [p];
    var d: Document := [b];
    assert !FormattingOk(l[0]);
    assert !LineOk(p[0]);
    assert !ParOk(b[0]);
    assert !BlockOk(d[0]);
  }
}
