/**
 * The preview's rich-text round trip. Entering edit mode turns each block
 * into editor paragraphs (heading wrapped in a strong element and prefixed
 * with its question number, other lines indented with four non-breaking
 * spaces, the format written into an inline style); saving turns edited
 * paragraphs back into lines, re-deriving the format from substring tests
 * on the style. The HTML document is abstracted to its paragraph records.
 */
module RichText {
  import opened Wrappers
  import opened Text
  import opened TextBlocks

  /** One `<p>` of the editor's content: its text, its style attribute, and whether it holds `<strong>` / `<em>`. */
  datatype Paragraph = Paragraph(textContent: string, style: string, hasStrong: bool, hasEm: bool)

  function AlignmentName(a: Alignment): string {
    match a
    case Left => "left"
    case Center => "center"
    case Right => "right"
  }

  /** The inline style written for a line's format (declaration order as in the source, layout whitespace dropped). */
  function StyleOf(f: TextFormat): string {
    SizeDeclaration(f.fontSize) + BoldDeclaration(f.isBold) + ItalicDeclaration(f.isItalic)
    + AlignDeclaration(f.alignment)
  }

  function SizeDeclaration(size: nat): string {
    "font-size: " + NatToString(size) + "pt; "
  }

  function BoldDeclaration(bold: bool): string {
    if bold then "font-weight: bold; " else ""
  }

  function ItalicDeclaration(italic: bool): string {
    if italic then "font-style: italic; " else ""
  }

  function AlignDeclaration(a: Alignment): string {
    "text-align: " + AlignmentName(a) + ";"
  }

  /** Four `&nbsp;` entities, as the text content sees them. */
  const Indent: string := "\U{A0}\U{A0}\U{A0}\U{A0}"

  /** The paragraph the edit-mode effect writes for line `lineIndex` of block `blockIndex`. */
  function LineParagraph(line: TextLine, blockIndex: nat, lineIndex: nat): (p: Paragraph)
    ensures p.hasStrong <==> lineIndex == 0
    ensures !p.hasEm && p.style == StyleOf(line.format)
    ensures |p.textContent| >= |line.text| && p.textContent[|p.textContent| - |line.text|..] == line.text
    ensures lineIndex == 0 ==> StartsWith(p.textContent, Label(blockIndex))
  {
    if lineIndex == 0 then Paragraph(Label(blockIndex) + line.text, StyleOf(line.format), true, false)
    else Paragraph(Indent + line.text, StyleOf(line.format), false, false)
  }

  function EditorParagraphs(b: Block, blockIndex: nat): (ps: seq<Paragraph>)
    ensures |ps| == |b|
  {
    seq(|b|, i requires 0 <= i < |b| => LineParagraph(b[i], blockIndex, i))
  }

  /** The `richTextContent` record built on entering edit mode: one entry per block. */
  function EditorContent(blocks: seq<Block>): (content: map<nat, seq<Paragraph>>)
    ensures forall i: nat :: i in content <==> i < |blocks|
    ensures forall i :: 0 <= i < |blocks| ==> content[i] == EditorParagraphs(blocks[i], i)
  {
    map i: nat | i < |blocks| :: EditorParagraphs(blocks[i], i)
  }

  /**
   * The saved text of a paragraph: the question-number prefix is removed from
   * the first paragraph only, then leading whitespace from every paragraph.
   */
  function ParagraphText(p: Paragraph, blockIndex: nat, lineIndex: nat): (r: string)
    ensures |r| <= |p.textContent| && r == p.textContent[|p.textContent| - |r|..]
    ensures r == [] || !IsWhitespace(r[0])
    ensures lineIndex != 0 ==> r == TrimStart(p.textContent)
    ensures lineIndex == 0 && StartsWith(p.textContent, Label(blockIndex)) ==>
      r == TrimStart(p.textContent[|Label(blockIndex)|..])
    ensures lineIndex == 0 && !StartsWith(p.textContent, Label(blockIndex)) ==> r == TrimStart(p.textContent)
  {
    var t := p.textContent;
    var number := Label(blockIndex);
    var unnumbered := if lineIndex == 0 && StartsWith(t, number) then t[|number|..] else t;
    var r := TrimStart(unnumbered);
    SuffixOfSuffix(t, |t| - |unnumbered|, |unnumbered| - |r|);
    r
  }

  lemma SuffixOfSuffix(t: string, i: nat, j: nat)
    requires i <= |t| && j <= |t| - i
    ensures t[i..][j..] == t[|t| - (|t| - i - j)..]
  {
  }

  /** `/font-size:\s*(\d+)pt/` matched at the very start of `s`, giving the parsed digits. */
  function FontSizeAt(s: string): Option<nat> {
    if StartsWith(s, "font-size:") then
      var rest := s[10..];
      var ws := WhitespaceRun(rest);
      var digits := DigitRun(rest[ws..]);
      if |digits| > 0 && StartsWith(rest[ws + |digits|..], "pt") then Some(ParseDecimal(digits)) else None
    else None
  }

  /** `style.match(/font-size:\s*(\d+)pt/)`: the leftmost match, if any. */
  function FontSizeMatch(s: string): Option<nat> {
    FirstSome(MatchCandidates(s), 0)
  }

  /** What the pattern gives when tried at each position `0..|s|` of `s`. */
  function MatchCandidates(s: string): (c: seq<Option<nat>>)
    ensures |c| == |s| + 1 && forall j :: 0 <= j <= |s| ==> c[j] == FontSizeAt(s[j..])
  {
    seq(|s| + 1, j requires 0 <= j <= |s| => FontSizeAt(s[j..]))
  }

  /** The first present value in `c` at position `k` or later. */
  function FirstSome(c: seq<Option<nat>>, k: nat): Option<nat>
    requires k <= |c|
    decreases |c| - k
  {
    if k == |c| then None
    else if c[k].Some? then c[k]
    else FirstSome(c, k + 1)
  }

  /**
   * The search from `k` finds nothing exactly when every candidate from `k`
   * on is absent, and otherwise returns the leftmost present one.
   */
  lemma {:induction false} FirstSomeLeftmost(c: seq<Option<nat>>, k: nat)
    requires k <= |c|
    ensures FirstSome(c, k).None? <==> forall j :: k <= j < |c| ==> c[j].None?
    ensures FirstSome(c, k).Some? ==>
      exists j :: k <= j < |c| && c[j] == FirstSome(c, k) && forall j' :: k <= j' < j ==> c[j'].None?
    decreases |c| - k
  {
    if k < |c| && c[k].None? {
      FirstSomeLeftmost(c, k + 1);
    }
  }

  /** The match over the whole style is the one at the leftmost position where the pattern matches. */
  lemma FontSizeMatchLeftmost(s: string)
    ensures FontSizeMatch(s).None? <==> forall j :: 0 <= j <= |s| ==> FontSizeAt(s[j..]).None?
    ensures FontSizeMatch(s).Some? ==>
      exists j :: 0 <= j <= |s| && FontSizeAt(s[j..]) == FontSizeMatch(s)
               && forall j' :: 0 <= j' < j ==> FontSizeAt(s[j'..]).None?
  {
    FirstSomeLeftmost(MatchCandidates(s), 0);
  }

  /** A match at the very start is the search result. */
  lemma MatchAtStart(s: string, n: nat)
    requires FontSizeAt(s) == Some(n)
    ensures FontSizeMatch(s) == Some(n)
  {
    assert s[0..] == s;
  }

  /** Alignment from the style: `right` if present, else `center` if present, else `left`. */
  function DerivedAlignment(style: string): Alignment {
    if Contains(style, "text-align: right") then Right
    else if Contains(style, "text-align: center") then Center
    else Left
  }

  /** The format re-derived from a paragraph on save; `defaultSize` is the session font size. */
  function DeriveFormat(p: Paragraph, defaultSize: nat): (f: TextFormat)
    ensures p.hasStrong ==> f.isBold
    ensures p.hasEm ==> f.isItalic
    ensures FontSizeMatch(p.style).None? ==> f.fontSize == defaultSize
    ensures f.alignment == Right <==> Contains(p.style, "text-align: right")
  {
    TextFormat(
      Contains(p.style, "font-weight: bold") || p.hasStrong,
      Contains(p.style, "font-style: italic") || p.hasEm,
      match FontSizeMatch(p.style) case Some(n) => n case None => defaultSize,
      DerivedAlignment(p.style))
  }

  function ParagraphLine(p: Paragraph, blockIndex: nat, lineIndex: nat, defaultSize: nat): TextLine {
    TextLine(ParagraphText(p, blockIndex, lineIndex), DeriveFormat(p, defaultSize))
  }

  /** The lines a block's edited paragraphs are saved as, one per paragraph, in order. */
  function ParseParagraphs(ps: seq<Paragraph>, blockIndex: nat, defaultSize: nat): (b: Block)
    ensures |b| == |ps|
    ensures forall i :: 0 <= i < |ps| ==> b[i] == ParagraphLine(ps[i], blockIndex, i, defaultSize)
  {
    seq(|ps|, i requires 0 <= i < |ps| => ParagraphLine(ps[i], blockIndex, i, defaultSize))
  }

  /**
   * The blocks after a save: a block with an entry whose content yields at
   * least one paragraph is replaced by the parsed lines; every other block
   * is kept as it was.
   */
  function SavedBlocks(blocks: seq<Block>, content: map<nat, seq<Paragraph>>, defaultSize: nat): (r: seq<Block>)
    ensures |r| == |blocks|
    ensures forall i :: 0 <= i < |blocks| && i in content && |content[i]| > 0 ==> |r[i]| == |content[i]|
    ensures forall i :: 0 <= i < |blocks| && !(i in content && |content[i]| > 0) ==> r[i] == blocks[i]
  {
    seq(|blocks|, i requires 0 <= i < |blocks| =>
      if i in content && |content[i]| > 0 then ParseParagraphs(content[i], i, defaultSize) else blocks[i])
  }

  // ----- Recovering the format from a style the editor wrote -----

  /** The letters the tests below anchor on, and the declarations that lack them. */
  lemma SizeDeclarationLacks(n: nat, c: char)
    requires c == 'w' || c == 'x' || c == 'y'
    ensures c !in SizeDeclaration(n)
  {
    DigitsLackLetter(NatToString(n), c);
  }

  lemma BoldDeclarationLacks(bold: bool, c: char)
    requires c == 'x' || c == 'y'
    ensures c !in BoldDeclaration(bold)
  {
  }

  lemma ItalicDeclarationLacks(italic: bool, c: char)
    requires c == 'w' || c == 'x'
    ensures c !in ItalicDeclaration(italic)
  {
  }

  lemma AlignDeclarationLacks(a: Alignment, c: char)
    requires c == 'w' || c == 'y'
    ensures c !in AlignDeclaration(a)
  {
  }

  /** A string of digits holds no letter. */
  lemma DigitsLackLetter(d: string, c: char)
    requires AllDigits(d) && !IsDigit(c)
    ensures c !in d
  {
  }

  lemma NotInConcat(a: string, b: string, c: char)
    requires c !in a && c !in b
    ensures c !in a + b
  {
  }

  /** The style carries "font-weight: bold" exactly when the format is bold. */
  lemma BoldFromStyle(f: TextFormat)
    ensures Contains(StyleOf(f), "font-weight: bold") <==> f.isBold
  {
    if f.isBold {
      BoldPresent(f);
    } else {
      BoldAbsent(f);
    }
  }

  lemma BoldPresent(f: TextFormat)
    requires f.isBold
    ensures Contains(StyleOf(f), "font-weight: bold")
  {
    var head := SizeDeclaration(f.fontSize);
    var tail := "; " + (ItalicDeclaration(f.isItalic) + AlignDeclaration(f.alignment));
    BoldStyleSplit(f);
    ContainsMiddle(head, "font-weight: bold", tail);
  }

  lemma BoldStyleSplit(f: TextFormat)
    requires f.isBold
    ensures StyleOf(f) == SizeDeclaration(f.fontSize) + "font-weight: bold"
                          + ("; " + (ItalicDeclaration(f.isItalic) + AlignDeclaration(f.alignment)))
  {
  }

  lemma BoldAbsent(f: TextFormat)
    requires !f.isBold
    ensures !Contains(StyleOf(f), "font-weight: bold")
  {
    StyleLacksW(f);
    assert "font-weight: bold"[5] == 'w';
    NotContainsMissingChar(StyleOf(f), "font-weight: bold", 5);
  }

  lemma StyleLacksW(f: TextFormat)
    requires !f.isBold
    ensures 'w' !in StyleOf(f)
  {
    var size, bold := SizeDeclaration(f.fontSize), BoldDeclaration(f.isBold);
    SizeDeclarationLacks(f.fontSize, 'w');
    assert bold == [];
    ItalicDeclarationLacks(f.isItalic, 'w');
    AlignDeclarationLacks(f.alignment, 'w');
    NotInConcat(size, bold, 'w');
    NotInConcat(size + bold, ItalicDeclaration(f.isItalic), 'w');
    NotInConcat(size + bold + ItalicDeclaration(f.isItalic), AlignDeclaration(f.alignment), 'w');
  }

  /** The style carries "font-style: italic" exactly when the format is italic. */
  lemma ItalicFromStyle(f: TextFormat)
    ensures Contains(StyleOf(f), "font-style: italic") <==> f.isItalic
  {
    if f.isItalic {
      ItalicPresent(f);
    } else {
      ItalicAbsent(f);
    }
  }

  lemma ItalicPresent(f: TextFormat)
    requires f.isItalic
    ensures Contains(StyleOf(f), "font-style: italic")
  {
    var head := SizeDeclaration(f.fontSize) + BoldDeclaration(f.isBold);
    var tail := "; " + AlignDeclaration(f.alignment);
    ItalicStyleSplit(f);
    ContainsMiddle(head, "font-style: italic", tail);
  }

  lemma ItalicStyleSplit(f: TextFormat)
    requires f.isItalic
    ensures StyleOf(f) == SizeDeclaration(f.fontSize) + BoldDeclaration(f.isBold) + "font-style: italic"
                          + ("; " + AlignDeclaration(f.alignment))
  {
  }

  lemma ItalicAbsent(f: TextFormat)
    requires !f.isItalic
    ensures !Contains(StyleOf(f), "font-style: italic")
  {
    StyleLacksY(f);
    assert "font-style: italic"[7] == 'y';
    NotContainsMissingChar(StyleOf(f), "font-style: italic", 7);
  }

  lemma StyleLacksY(f: TextFormat)
    requires !f.isItalic
    ensures 'y' !in StyleOf(f)
  {
    var head, italic := SizeDeclaration(f.fontSize) + BoldDeclaration(f.isBold), ItalicDeclaration(f.isItalic);
    SizeDeclarationLacks(f.fontSize, 'y');
    BoldDeclarationLacks(f.isBold, 'y');
    assert italic == [];
    AlignDeclarationLacks(f.alignment, 'y');
    NotInConcat(SizeDeclaration(f.fontSize), BoldDeclaration(f.isBold), 'y');
    NotInConcat(head, italic, 'y');
    NotInConcat(head + italic, AlignDeclaration(f.alignment), 'y');
  }

  /** "text-align: " + word occurs in the style exactly when word is the format's alignment. */
  lemma AlignmentWordInStyle(f: TextFormat, a: Alignment)
    ensures Contains(StyleOf(f), "text-align: " + AlignmentName(a)) <==> f.alignment == a
  {
    var head := SizeDeclaration(f.fontSize) + BoldDeclaration(f.isBold) + ItalicDeclaration(f.isItalic);
    var p := "text-align: " + AlignmentName(a);
    if f.alignment == a {
      assert StyleOf(f) == head + p + ";";
      ContainsMiddle(head, p, ";");
    } else {
      AlignmentWordAbsent(f, a, head);
    }
  }

  lemma AlignmentWordAbsent(f: TextFormat, a: Alignment, head: string)
    requires f.alignment != a
    requires head == SizeDeclaration(f.fontSize) + BoldDeclaration(f.isBold) + ItalicDeclaration(f.isItalic)
    ensures !Contains(StyleOf(f), "text-align: " + AlignmentName(a))
  {
    var s := StyleOf(f);
    var p := "text-align: " + AlignmentName(a);
    var rest := AlignDeclarationAfterX(f.alignment);
    HeadLacksX(f, head);
    assert s == head + AlignDeclaration(f.alignment);
    Regroup(head, "te", ['x'], rest);
    UniqueCharInConcat(head + "te", 'x', rest);
    assert p[2] == 'x' && p[12] == AlignmentName(a)[0];
    assert s[|head| + 12] == AlignmentName(f.alignment)[0];
    AnchorMismatch(s, p, 2, |head| + 2, 12);
  }

  /** The alignment declaration is "te", then its one 'x', then the rest. */
  lemma AlignDeclarationAfterX(a: Alignment) returns (rest: string)
    ensures AlignDeclaration(a) == "te" + (['x'] + rest)
    ensures 'x' !in rest && |rest| > 10 && rest[9] == AlignmentName(a)[0]
  {
    var name := AlignmentName(a);
    rest := "t-align: " + name + ";";
    AlignKeySplit();
    NameLacksX(a);
    SplitAround("te", 'x', "t-align: ", name + ";");
    NotInConcat("t-align: ", name + ";", 'x');
    assert rest == "t-align: " + (name + ";");
  }

  /** "text-align: " is "te", its one 'x', then "t-align: ". */
  lemma AlignKeySplit()
    ensures "text-align: " == "te" + ['x'] + "t-align: "
    ensures 'x' !in "t-align: " && |"t-align: "| == 9
  {
  }

  lemma NameLacksX(a: Alignment)
    ensures 'x' !in AlignmentName(a) + ";" && |AlignmentName(a)| > 0
  {
  }

  lemma SplitAround(a: string, c: char, m: string, b: string)
    ensures (a + [c] + m) + b == a + ([c] + (m + b))
  {
  }

  lemma HeadLacksX(f: TextFormat, head: string)
    requires head == SizeDeclaration(f.fontSize) + BoldDeclaration(f.isBold) + ItalicDeclaration(f.isItalic)
    ensures 'x' !in head + "te"
  {
    SizeDeclarationLacks(f.fontSize, 'x');
    BoldDeclarationLacks(f.isBold, 'x');
    ItalicDeclarationLacks(f.isItalic, 'x');
    NotInConcat(SizeDeclaration(f.fontSize), BoldDeclaration(f.isBold), 'x');
    NotInConcat(SizeDeclaration(f.fontSize) + BoldDeclaration(f.isBold), ItalicDeclaration(f.isItalic), 'x');
    NotInConcat(head, "te", 'x');
  }

  /** A character placed between two strings that lack it is found only there. */
  lemma UniqueCharInConcat(a: string, c: char, b: string)
    requires c !in a && c !in b
    ensures forall i :: 0 <= i < |a + [c] + b| && (a + [c] + b)[i] == c ==> i == |a|
  {
  }

  /** A printed size directly after "font-size: " and followed by "pt" matches at the start. */
  lemma SizeDeclarationMatches(n: nat, after: string)
    requires StartsWith(after, "pt")
    ensures FontSizeAt("font-size: " + NatToString(n) + after) == Some(n)
  {
    var digits := NatToString(n);
    var s := "font-size: " + digits + after;
    assert s[..10] == "font-size:";
    var rest := s[10..];
    assert rest == [' '] + (digits + after);
    assert rest[1..] == digits + after;
    assert WhitespaceRun(rest) == 1 by {
      assert !IsWhitespace((digits + after)[0]);
    }
    DigitRunOf(digits, after);
    assert rest[1 + |digits|..] == after;
    ParsePrinted(n);
  }

  /** The style the editor writes matches the font-size pattern at its start. */
  lemma StyleSizeAt(f: TextFormat)
    ensures FontSizeAt(StyleOf(f)) == Some(f.fontSize)
  {
    var after := StyleAfterSize(f);
    SizeDeclarationMatches(f.fontSize, after);
  }

  /** The style is the size prefix followed by text that starts with "pt". */
  lemma StyleAfterSize(f: TextFormat) returns (after: string)
    ensures StyleOf(f) == "font-size: " + NatToString(f.fontSize) + after
    ensures StartsWith(after, "pt")
  {
    var rest := BoldDeclaration(f.isBold) + ItalicDeclaration(f.isItalic) + AlignDeclaration(f.alignment);
    after := "pt; " + rest;
    StyleSplitSize(f);
    Regroup("font-size: ", NatToString(f.fontSize), "pt; ", rest);
    UnitPrefix(rest);
  }

  lemma StyleSplitSize(f: TextFormat)
    ensures StyleOf(f) == SizeDeclaration(f.fontSize)
                          + (BoldDeclaration(f.isBold) + ItalicDeclaration(f.isItalic) + AlignDeclaration(f.alignment))
  {
  }

  lemma UnitPrefix(rest: string)
    ensures StartsWith("pt; " + rest, "pt")
  {
    assert ("pt; " + rest)[..2] == "pt";
  }

  lemma Regroup(a: string, b: string, c: string, d: string)
    ensures (a + b + c) + d == a + b + (c + d)
  {
  }

  /** The font-size pattern finds the size the style was written with. */
  lemma SizeFromStyle(f: TextFormat)
    ensures FontSizeMatch(StyleOf(f)) == Some(f.fontSize)
  {
    StyleSizeAt(f);
    MatchAtStart(StyleOf(f), f.fontSize);
  }

  /** The alignment tests on the style the editor wrote give its alignment back. */
  lemma AlignmentFromStyle(f: TextFormat)
    ensures DerivedAlignment(StyleOf(f)) == f.alignment
  {
    AlignmentWordInStyle(f, Right);
    AlignmentWordInStyle(f, Center);
    assert "text-align: " + AlignmentName(Right) == "text-align: right";
    assert "text-align: " + AlignmentName(Center) == "text-align: center";
  }

  /**
   * Deriving the format from the style the editor wrote gives the format
   * back, made bold by a strong element and italic by an em element.
   */
  lemma FormatFromStyle(f: TextFormat, text: string, strong: bool, em: bool, defaultSize: nat)
    ensures DeriveFormat(Paragraph(text, StyleOf(f), strong, em), defaultSize)
         == f.(isBold := f.isBold || strong, isItalic := f.isItalic || em)
  {
    var d := DeriveFormat(Paragraph(text, StyleOf(f), strong, em), defaultSize);
    BoldFromStyle(f);
    assert d.isBold == (f.isBold || strong);
    ItalicFromStyle(f);
    assert d.isItalic == (f.isItalic || em);
    SizeFromStyle(f);
    assert d.fontSize == f.fontSize;
    AlignmentFromStyle(f);
    assert d.alignment == f.alignment;
  }

  // ----- Saving content that was not edited -----

  /**
   * What saving unedited editor content makes of a block: every line loses
   * its leading whitespace and the heading (line 0) becomes bold.
   */
  function ResavedBlock(b: Block): (r: Block)
    ensures |r| == |b|
  {
    seq(|b|, i requires 0 <= i < |b| =>
      TextLine(TrimStart(b[i].text), if i == 0 then b[i].format.(isBold := true) else b[i].format))
  }

  /** A line written into the editor and parsed back unchanged loses only its leading whitespace; the heading becomes bold. */
  lemma LineRoundTrip(line: TextLine, blockIndex: nat, lineIndex: nat, defaultSize: nat)
    ensures ParagraphLine(LineParagraph(line, blockIndex, lineIndex), blockIndex, lineIndex, defaultSize)
         == TextLine(TrimStart(line.text), if lineIndex == 0 then line.format.(isBold := true) else line.format)
  {
    var p := LineParagraph(line, blockIndex, lineIndex);
    FormatFromStyle(line.format, p.textContent, p.hasStrong, p.hasEm, defaultSize);
    TextRoundTrip(line, blockIndex, lineIndex);
  }

  /** The numbering or indentation the editor adds is removed again, with the line's own leading whitespace. */
  lemma TextRoundTrip(line: TextLine, blockIndex: nat, lineIndex: nat)
    ensures ParagraphText(LineParagraph(line, blockIndex, lineIndex), blockIndex, lineIndex) == TrimStart(line.text)
  {
    if lineIndex == 0 {
      var number := Label(blockIndex);
      assert (number + line.text)[..|number|] == number;
      assert (number + line.text)[|number|..] == line.text;
    } else {
      TrimStartSkips(Indent, line.text);
    }
  }

  /** A block written into the editor and saved unchanged comes back as `ResavedBlock`. */
  lemma BlockRoundTrip(b: Block, blockIndex: nat, defaultSize: nat)
    ensures ParseParagraphs(EditorParagraphs(b, blockIndex), blockIndex, defaultSize) == ResavedBlock(b)
  {
    var r := ParseParagraphs(EditorParagraphs(b, blockIndex), blockIndex, defaultSize);
    forall i | 0 <= i < |b| ensures r[i] == ResavedBlock(b)[i] {
      LineRoundTrip(b[i], blockIndex, i, defaultSize);
    }
  }

  /** Entering edit mode and saving without touching the editor turns every block into its `ResavedBlock`. */
  lemma SaveUneditedContent(blocks: seq<Block>, defaultSize: nat)
    ensures SavedBlocks(blocks, EditorContent(blocks), defaultSize)
         == seq(|blocks|, i requires 0 <= i < |blocks| => ResavedBlock(blocks[i]))
  {
    var content := EditorContent(blocks);
    var saved := SavedBlocks(blocks, content, defaultSize);
    forall i | 0 <= i < |blocks| ensures saved[i] == ResavedBlock(blocks[i]) {
      BlockRoundTrip(blocks[i], i, defaultSize);
    }
  }

  predicate NoLeadingWhitespace(line: TextLine) {
    line.text == [] || !IsWhitespace(line.text[0])
  }

  /** For lines without leading whitespace, the only change is the bold heading. */
  lemma ResavedUnindented(b: Block)
    requires forall i :: 0 <= i < |b| ==> NoLeadingWhitespace(b[i])
    ensures |b| > 0 ==> ResavedBlock(b) == b[0 := b[0].(format := b[0].format.(isBold := true))]
    ensures |b| == 0 ==> ResavedBlock(b) == b
  {
    forall i | 0 <= i < |b| ensures TrimStart(b[i].text) == b[i].text {
      TrimStartKeeps(b[i].text);
    }
  }
}
