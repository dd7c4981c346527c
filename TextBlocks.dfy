/**
 * The preview's block model: the typographic format of a line, a line of a
 * question block, and the construction of one block per extracted string
 * (split on line breaks, blank lines dropped, every line given a copy of the
 * session format).
 */
module TextBlocks {
  import opened Text

  datatype Alignment = Left | Center | Right

  datatype TextFormat = TextFormat(isBold: bool, isItalic: bool, fontSize: nat, alignment: Alignment)

  /** The wizard's and the editor's initial format: not bold, not italic, 11pt, left aligned. */
  const DefaultFormat: TextFormat := TextFormat(false, false, 11, Left)

  datatype TextLine = TextLine(text: string, format: TextFormat)

  /** The lines derived from one image's extracted text; line 0 is the question heading. */
  type Block = seq<TextLine>

  /** `line.trim() !== ''`. */
  predicate IsNonBlank(line: string) {
    Trim(line) != ""
  }

  /** `xs.filter(keep)`: the elements `keep` accepts, in their order. */
  function Filter(xs: seq<string>, keep: string -> bool): (r: seq<string>)
    ensures |r| <= |xs|
    ensures forall i :: 0 <= i < |r| ==> keep(r[i])
  {
    if |xs| == 0 then []
    else if keep(xs[0]) then [xs[0]] + Filter(xs[1..], keep)
    else Filter(xs[1..], keep)
  }

  /** Filtering distributes over concatenation: what is kept keeps its order. */
  lemma {:induction false} FilterAppend(a: seq<string>, b: seq<string>, keep: string -> bool)
    ensures Filter(a + b, keep) == Filter(a, keep) + Filter(b, keep)
  {
    if |a| > 0 {
      assert (a + b)[0] == a[0];
      assert (a + b)[1..] == a[1..] + b;
      FilterAppend(a[1..], b, keep);
    } else {
      assert a + b == b;
    }
  }

  /** A sequence whose every element is accepted is kept whole. */
  lemma {:induction false} FilterKeepsAll(xs: seq<string>, keep: string -> bool)
    requires forall i :: 0 <= i < |xs| ==> keep(xs[i])
    ensures Filter(xs, keep) == xs
  {
    if |xs| > 0 {
      FilterKeepsAll(xs[1..], keep);
      assert [xs[0]] + xs[1..] == xs;
    }
  }

  /** A property every element has is had by every kept element. */
  lemma {:induction false} FilterPreserves(xs: seq<string>, keep: string -> bool, prop: string -> bool)
    requires forall i :: 0 <= i < |xs| ==> prop(xs[i])
    ensures forall i :: 0 <= i < |Filter(xs, keep)| ==> prop(Filter(xs, keep)[i])
  {
    if |xs| > 0 {
      FilterPreserves(xs[1..], keep, prop);
    }
  }

  /** `pieces.filter(line => line.trim() !== '')`. */
  function NonBlank(pieces: seq<string>): (r: seq<string>)
    ensures |r| <= |pieces|
    ensures forall i :: 0 <= i < |r| ==> IsNonBlank(r[i])
  {
    Filter(pieces, IsNonBlank)
  }

  function LineTexts(b: Block): (r: seq<string>)
    ensures |r| == |b| && forall i :: 0 <= i < |b| ==> r[i] == b[i].text
  {
    seq(|b|, i requires 0 <= i < |b| => b[i].text)
  }

  /** Every line carries a copy of `fmt`. */
  ghost predicate Uniform(b: Block, fmt: TextFormat) {
    forall i :: 0 <= i < |b| ==> b[i].format == fmt
  }

  /** One block from one extracted string (the `split`/`filter`/`map` pipeline). */
  function BuildBlock(text: string, fmt: TextFormat): (b: Block)
    ensures LineTexts(b) == NonBlank(Split(text, '\n'))
    ensures Uniform(b, fmt)
  {
    var kept := NonBlank(Split(text, '\n'));
    seq(|kept|, i requires 0 <= i < |kept| => TextLine(kept[i], fmt))
  }

  /** The lines of a built block are non-blank and hold no line break. */
  lemma BuildBlockLines(text: string, fmt: TextFormat)
    ensures forall i :: 0 <= i < |BuildBlock(text, fmt)| ==>
      IsNonBlank(BuildBlock(text, fmt)[i].text) && '\n' !in BuildBlock(text, fmt)[i].text
  {
    var pieces := Split(text, '\n');
    var noBreak := (x: string) => '\n' !in x;
    FilterPreserves(pieces, IsNonBlank, noBreak);
    assert LineTexts(BuildBlock(text, fmt)) == NonBlank(pieces);
  }

  /** The initial `textBlocks` state (and what cancelling rebuilds): one block per string, in order. */
  function BuildBlocks(texts: seq<string>, fmt: TextFormat): (bs: seq<Block>)
    ensures |bs| == |texts|
    ensures forall i :: 0 <= i < |texts| ==> bs[i] == BuildBlock(texts[i], fmt)
  {
    seq(|texts|, i requires 0 <= i < |texts| => BuildBlock(texts[i], fmt))
  }

  /** The question-number prefix `"<blockIndex + 1>. "` shown before a block's heading. */
  function Label(blockIndex: nat): (r: string)
    ensures |r| >= 3 && AllDigits(r[..|r| - 2]) && r[|r| - 2..] == ". "
    ensures ParseDecimal(r[..|r| - 2]) == blockIndex + 1
  {
    var digits := NatToString(blockIndex + 1);
    ParsePrinted(blockIndex + 1);
    assert (digits + ". ")[..|digits|] == digits;
    digits + ". "
  }

  /** `block.map(line => line.text).join('\n')`: the text a saved block is written back as. */
  function BlockText(b: Block): string {
    Join(LineTexts(b), '\n')
  }

  /**
   * Rebuilding a block from its saved text gives the block back, when its
   * lines are non-blank, hold no line break and carry the same format.
   */
  lemma RebuildFromBlockText(b: Block, fmt: TextFormat)
    requires forall i :: 0 <= i < |b| ==> IsNonBlank(b[i].text) && '\n' !in b[i].text
    requires Uniform(b, fmt)
    ensures BuildBlock(BlockText(b), fmt) == b
  {
    var texts := LineTexts(b);
    if |b| == 0 {
      assert Split("", '\n') == [""];
      TrimEmptyIff("");
    } else {
      SplitJoin(texts, '\n');
      FilterKeepsAll(texts, IsNonBlank);
    }
    var r := BuildBlock(BlockText(b), fmt);
    assert LineTexts(r) == texts;
    assert forall i :: 0 <= i < |b| ==> r[i] == TextLine(texts[i], fmt) == b[i];
  }
}
