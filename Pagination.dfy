/**
 * The PDF export: the commands `generatePDF` issues, in order. A vertical
 * cursor walks the blocks line by line; a line that would start below the
 * bottom margin goes to a new page; headings advance the cursor by 7 and
 * other lines by 6 for every wrapped sub-line; each block is followed by a
 * gap of 5. Font metrics are the PDF library's and enter as two oracles.
 */
module Pagination {
  import opened Text
  import opened TextBlocks

  /** The page margin `generatePDF` fixes. */
  const Margin: real := 20.0

  /** How many lines `splitTextToSize` cuts a text into: at least one. */
  type SubLines = n: nat | n >= 1 witness 1

  datatype FontStyle = Normal | BoldFont | ItalicFont

  /**
   * The font metrics, both taken in the font set for the line: a text's
   * rendered width at a font size and face, and its sub-line count at a
   * font size and face when wrapped to a width.
   */
  datatype Metrics = Metrics(textWidth: (string, nat, FontStyle) -> real, wrap: (string, nat, FontStyle, real) -> SubLines)

  datatype Command =
    | Header(schoolName: string)
    | StudentFields(y: real)
    | NewPage
    | DrawText(text: string, x: real, y: real, align: Alignment, fontSize: nat, font: FontStyle, subLines: nat)
    | Footer(pageNumber: nat)

  /** Bold wins over italic; a line that is neither is set in the normal face. */
  function FontOf(f: TextFormat): FontStyle {
    if f.isBold then BoldFont else if f.isItalic then ItalicFont else Normal
  }

  /** The heading shows its question number; a left-aligned body line is indented by three spaces. */
  function DisplayText(line: TextLine, blockIndex: nat, lineIndex: nat): string {
    var text := if lineIndex == 0 then Label(blockIndex) + line.text else line.text;
    if lineIndex != 0 && line.format.alignment == Left then "   " + text else text
  }

  /**
   * The heading's display text is its question number and then its text; a
   * body line's is its text, after three spaces when left-aligned.
   */
  lemma DisplayTextShape(line: TextLine, blockIndex: nat, lineIndex: nat)
    ensures var r := DisplayText(line, blockIndex, lineIndex);
      && |r| >= |line.text| && r[|r| - |line.text|..] == line.text
      && (lineIndex == 0 ==> |r| == |Label(blockIndex)| + |line.text| && r[..|Label(blockIndex)|] == Label(blockIndex))
      && (lineIndex != 0 ==> |r| == |line.text| + (if line.format.alignment == Left then 3 else 0))
  {
  }

  /** The x anchor of an alignment on a page `width` wide. */
  function AnchorX(a: Alignment, width: real): (x: real)
    ensures width >= 2.0 * Margin ==> Margin <= x <= width - Margin
  {
    match a
    case Left => Margin
    case Center => width / 2.0
    case Right => width - Margin
  }

  /** One sub-line when the text fits between the margins, otherwise what the wrapper makes of it. */
  function SubLineCount(m: Metrics, text: string, fontSize: nat, font: FontStyle, width: real): SubLines {
    if m.textWidth(text, fontSize, font) > width - 2.0 * Margin then m.wrap(text, fontSize, font, width - 2.0 * Margin) else 1
  }

  function LineAdvance(lineIndex: nat): real {
    if lineIndex == 0 then 7.0 else 6.0
  }

  /** Where the first question starts: below the header, and below the student fields when they are shown. */
  function StartY(hasStudentFields: bool): real {
    Margin + 50.0 + (if hasStudentFields then 15.0 else 0.0)
  }

  /** The cursor and the commands issued for the questions so far. */
  datatype Cursor = Cursor(y: real, cmds: seq<Command>)

  /** Placing one line: page break if the cursor is below the bottom margin, draw, advance. */
  function PlaceLine(c: Cursor, line: TextLine, blockIndex: nat, lineIndex: nat,
                     width: real, height: real, m: Metrics): Cursor
  {
    var broke := c.y > height - Margin;
    var y := if broke then Margin + 20.0 else c.y;
    var text := DisplayText(line, blockIndex, lineIndex);
    var n := SubLineCount(m, text, line.format.fontSize, FontOf(line.format), width);
    var draw := DrawText(text, AnchorX(line.format.alignment, width), y, line.format.alignment,
                         line.format.fontSize, FontOf(line.format), n);
    Cursor(y + LineAdvance(lineIndex) * (n as real), c.cmds + (if broke then [NewPage] else []) + [draw])
  }

  /** The first `k` lines of block `blockIndex`, placed in order. */
  function PlaceLines(c: Cursor, b: Block, blockIndex: nat, k: nat, width: real, height: real, m: Metrics): Cursor
    requires k <= |b|
  {
    if k == 0 then c
    else PlaceLine(PlaceLines(c, b, blockIndex, k - 1, width, height, m), b[k - 1], blockIndex, k - 1, width, height, m)
  }

  /** A whole block, followed by the gap between questions. */
  function PlaceBlock(c: Cursor, b: Block, blockIndex: nat, width: real, height: real, m: Metrics): Cursor {
    var e := PlaceLines(c, b, blockIndex, |b|, width, height, m);
    Cursor(e.y + 5.0, e.cmds)
  }

  /** The first `k` blocks, placed in order. */
  function PlaceBlocks(c: Cursor, bs: seq<Block>, k: nat, width: real, height: real, m: Metrics): Cursor
    requires k <= |bs|
  {
    if k == 0 then c
    else PlaceBlock(PlaceBlocks(c, bs, k - 1, width, height, m), bs[k - 1], k - 1, width, height, m)
  }

  function HeadCommands(schoolName: string, hasStudentFields: bool): seq<Command> {
    [Header(schoolName)] + (if hasStudentFields then [StudentFields(Margin + 50.0)] else [])
  }

  /** The commands issued for the questions, from the start position on. */
  function Body(blocks: seq<Block>, hasStudentFields: bool, width: real, height: real, m: Metrics): seq<Command> {
    PlaceBlocks(Cursor(StartY(hasStudentFields), []), blocks, |blocks|, width, height, m).cmds
  }

  /** Everything `generatePDF` draws: header, questions, and one footer reading page 1. */
  function Layout(schoolName: string, hasStudentFields: bool, blocks: seq<Block>,
                  width: real, height: real, m: Metrics): (l: seq<Command>)
    ensures |l| >= 2 && l[0] == Header(schoolName) && l[|l| - 1] == Footer(1)
  {
    HeadCommands(schoolName, hasStudentFields) + Body(blocks, hasStudentFields, width, height, m) + [Footer(1)]
  }

  /** The nested loops of `generatePDF`, issuing the layout's commands one by one. */
  method Paginate(schoolName: string, hasStudentFields: bool, blocks: seq<Block>,
                  width: real, height: real, m: Metrics) returns (cmds: seq<Command>)
    ensures cmds == Layout(schoolName, hasStudentFields, blocks, width, height, m)
  {
    cmds := [Header(schoolName)];
    var y := Margin + 50.0;
    if hasStudentFields {
      cmds := cmds + [StudentFields(y)];
      y := y + 15.0;
    }
    ghost var head := cmds;
    ghost var start := Cursor(y, []);
    var bi := 0;
    while bi < |blocks|
      invariant 0 <= bi <= |blocks|
      invariant y == PlaceBlocks(start, blocks, bi, width, height, m).y
      invariant cmds == head + PlaceBlocks(start, blocks, bi, width, height, m).cmds
    {
      var block := blocks[bi];
      ghost var before := PlaceBlocks(start, blocks, bi, width, height, m);
      var li := 0;
      while li < |block|
        invariant 0 <= li <= |block|
        invariant y == PlaceLines(before, block, bi, li, width, height, m).y
        invariant cmds == head + PlaceLines(before, block, bi, li, width, height, m).cmds
      {
        ghost var c := PlaceLines(before, block, bi, li, width, height, m);
        var emitted;
        y, emitted := DrawLine(c.cmds, y, block[li], bi, li, width, height, m);
        RegroupCommands(head, c.cmds, emitted);
        cmds := cmds + emitted;
        li := li + 1;
      }
      y := y + 5.0;
      bi := bi + 1;
    }
    cmds := cmds + [Footer(1)];
  }

  /**
   * The body of the per-line callback: break the page if the cursor is
   * below the bottom margin, build the display text, pick the anchor, ask for
   * the wrap count, draw, advance the cursor.
   */
  method DrawLine(ghost prior: seq<Command>, y: real, line: TextLine, bi: nat, li: nat,
                  width: real, height: real, m: Metrics) returns (y': real, emitted: seq<Command>)
    ensures PlaceLine(Cursor(y, prior), line, bi, li, width, height, m) == Cursor(y', prior + emitted)
  {
    emitted := [];
    y' := y;
    if y' > height - Margin {
      emitted := [NewPage];
      y' := Margin + 20.0;
    }
    var text := if li == 0 then Label(bi) + line.text else line.text;
    if li != 0 && line.format.alignment == Left {
      text := "   " + text;
    }
    assert text == DisplayText(line, bi, li);
    var x := Margin;
    if line.format.alignment == Center {
      x := width / 2.0;
    } else if line.format.alignment == Right {
      x := width - Margin;
    }
    assert x == AnchorX(line.format.alignment, width);
    var n: SubLines := 1;
    var font := FontOf(line.format);
    if m.textWidth(text, line.format.fontSize, font) > width - 2.0 * Margin {
      n := m.wrap(text, line.format.fontSize, font, width - 2.0 * Margin);
    }
    assert n == SubLineCount(m, text, line.format.fontSize, font, width);
    var draw := DrawText(text, x, y', line.format.alignment, line.format.fontSize, font, n);
    RegroupCommands(prior, emitted, [draw]);
    emitted := emitted + [draw];
    y' := y' + (if li == 0 then 7.0 else 6.0) * (n as real);
  }

  lemma RegroupCommands(a: seq<Command>, b: seq<Command>, c: seq<Command>)
    ensures a + b + c == a + (b + c)
  {
  }

  // ----- What the layout promises -----

  /** A draw command sits between the margins' y range, at its alignment's anchor, with the wrap count of its text. */
  ghost predicate DrawOk(d: Command, width: real, height: real, m: Metrics)
    requires d.DrawText?
  {
    && d.y >= Margin + 20.0
    && (height >= 2.0 * Margin + 20.0 ==> d.y <= height - Margin)
    && d.x == AnchorX(d.align, width)
    && d.subLines >= 1
    && d.subLines == SubLineCount(m, d.text, d.fontSize, d.font, width)
  }

  /**
   * The commands hold only page breaks and well-placed draws; a draw
   * directly after another lies further down; every page break is directly
   * followed by a draw at the top position.
   */
  ghost predicate CommandsPlaced(cmds: seq<Command>, width: real, height: real, m: Metrics) {
    && (forall i :: 0 <= i < |cmds| ==>
          cmds[i].NewPage? || (cmds[i].DrawText? && DrawOk(cmds[i], width, height, m)))
    && (forall i :: 0 <= i < |cmds| - 1 && cmds[i].DrawText? && cmds[i + 1].DrawText? ==>
          cmds[i].y < cmds[i + 1].y)
    && (forall i :: 0 <= i < |cmds| - 1 && cmds[i].NewPage? ==>
          cmds[i + 1].DrawText? && cmds[i + 1].y == Margin + 20.0)
  }

  /** The body so far is well placed, the cursor is below the top position and the last draw lies above it. */
  ghost predicate Placed(c: Cursor, width: real, height: real, m: Metrics) {
    && c.y >= Margin + 20.0
    && CommandsPlaced(c.cmds, width, height, m)
    && (|c.cmds| > 0 ==> c.cmds[|c.cmds| - 1].DrawText? && c.cmds[|c.cmds| - 1].y < c.y)
  }

  lemma PlaceLinePlaced(c: Cursor, line: TextLine, blockIndex: nat, lineIndex: nat,
                        width: real, height: real, m: Metrics)
    requires Placed(c, width, height, m)
    ensures Placed(PlaceLine(c, line, blockIndex, lineIndex, width, height, m), width, height, m)
  {
    var r := PlaceLine(c, line, blockIndex, lineIndex, width, height, m);
    var draw := r.cmds[|r.cmds| - 1];
    NewDrawOk(c, line, blockIndex, lineIndex, width, height, m);
    if c.y > height - Margin {
      assert r.cmds == c.cmds + [NewPage, draw];
      AppendBreakDraw(c, draw, r.y, width, height, m);
    } else {
      assert r.cmds == c.cmds + [draw];
      AppendDraw(c, draw, r.y, width, height, m);
    }
  }

  /** The draw a line adds is well placed and lies above the new cursor; it sits at the top after a page break and at the cursor otherwise. */
  lemma NewDrawOk(c: Cursor, line: TextLine, blockIndex: nat, lineIndex: nat,
                  width: real, height: real, m: Metrics)
    requires c.y >= Margin + 20.0
    ensures var r := PlaceLine(c, line, blockIndex, lineIndex, width, height, m);
      var draw := r.cmds[|r.cmds| - 1];
      && draw.DrawText? && DrawOk(draw, width, height, m) && draw.y < r.y
      && r.y == draw.y + LineAdvance(lineIndex) * (draw.subLines as real)
      && (c.y > height - Margin ==> draw.y == Margin + 20.0)
      && (c.y <= height - Margin ==> draw.y == c.y)
  {
  }

  lemma AppendDraw(c: Cursor, d: Command, y: real, width: real, height: real, m: Metrics)
    requires Placed(c, width, height, m)
    requires d.DrawText? && DrawOk(d, width, height, m) && d.y == c.y && d.y < y
    ensures Placed(Cursor(y, c.cmds + [d]), width, height, m)
  {
    var r := c.cmds + [d];
    assert forall i :: 0 <= i < |c.cmds| ==> r[i] == c.cmds[i];
  }

  lemma AppendBreakDraw(c: Cursor, d: Command, y: real, width: real, height: real, m: Metrics)
    requires Placed(c, width, height, m)
    requires d.DrawText? && DrawOk(d, width, height, m) && d.y == Margin + 20.0 && d.y < y
    ensures Placed(Cursor(y, c.cmds + [NewPage, d]), width, height, m)
  {
    var r := c.cmds + [NewPage, d];
    assert forall i :: 0 <= i < |c.cmds| ==> r[i] == c.cmds[i];
  }

  lemma {:induction false} PlaceLinesPlaced(c: Cursor, b: Block, blockIndex: nat, k: nat,
                                            width: real, height: real, m: Metrics)
    requires k <= |b|
    requires Placed(c, width, height, m)
    ensures Placed(PlaceLines(c, b, blockIndex, k, width, height, m), width, height, m)
  {
    if k > 0 {
      PlaceLinesPlaced(c, b, blockIndex, k - 1, width, height, m);
      PlaceLinePlaced(PlaceLines(c, b, blockIndex, k - 1, width, height, m), b[k - 1], blockIndex, k - 1, width, height, m);
    }
  }

  lemma {:induction false} PlaceBlocksPlaced(c: Cursor, bs: seq<Block>, k: nat, width: real, height: real, m: Metrics)
    requires k <= |bs|
    requires Placed(c, width, height, m)
    ensures Placed(PlaceBlocks(c, bs, k, width, height, m), width, height, m)
  {
    if k > 0 {
      PlaceBlocksPlaced(c, bs, k - 1, width, height, m);
      var before := PlaceBlocks(c, bs, k - 1, width, height, m);
      PlaceLinesPlaced(before, bs[k - 1], k - 1, |bs[k - 1]|, width, height, m);
      var e := PlaceLines(before, bs[k - 1], k - 1, |bs[k - 1]|, width, height, m);
      assert PlaceBlocks(c, bs, k, width, height, m) == Cursor(e.y + 5.0, e.cmds);
    }
  }

  /**
   * Every question line is drawn between the top position and the bottom
   * margin (when the page is tall enough to hold one line), at its anchor,
   * with its wrap count; consecutive draws go down the page; a page break is
   * followed by a draw at the top position.
   */
  lemma BodyPlaced(blocks: seq<Block>, hasStudentFields: bool, width: real, height: real, m: Metrics)
    ensures Placed(Cursor(StartY(hasStudentFields), []), width, height, m)
    ensures var body := Body(blocks, hasStudentFields, width, height, m);
      && (forall i :: 0 <= i < |body| ==> body[i].NewPage? || (body[i].DrawText? && DrawOk(body[i], width, height, m)))
      && (forall i :: 0 <= i < |body| - 1 && body[i].DrawText? && body[i + 1].DrawText? ==> body[i].y < body[i + 1].y)
      && (forall i :: 0 <= i < |body| - 1 && body[i].NewPage? ==> body[i + 1].DrawText? && body[i + 1].y == Margin + 20.0)
      && (|body| > 0 ==> body[|body| - 1].DrawText?)
  {
    PlaceBlocksPlaced(Cursor(StartY(hasStudentFields), []), blocks, |blocks|, width, height, m);
  }

  /** The header comes first, the student fields next when enabled, and the single footer last, always reading page 1. */
  lemma LayoutFrame(schoolName: string, hasStudentFields: bool, blocks: seq<Block>,
                    width: real, height: real, m: Metrics)
    ensures var l := Layout(schoolName, hasStudentFields, blocks, width, height, m);
      && l[0] == Header(schoolName)
      && (hasStudentFields <==> l[1] == StudentFields(Margin + 50.0))
      && l[|l| - 1] == Footer(1)
      && forall i :: 0 <= i < |l| - 1 ==> !l[i].Footer?
  {
    var body := Body(blocks, hasStudentFields, width, height, m);
    var head := HeadCommands(schoolName, hasStudentFields);
    BodyPlaced(blocks, hasStudentFields, width, height, m);
    var l := Layout(schoolName, hasStudentFields, blocks, width, height, m);
    assert forall i :: |head| <= i < |l| - 1 ==> l[i] == body[i - |head|];
    if !hasStudentFields {
      assert |body| > 0 ==> l[1] == body[0];
      assert |body| == 0 ==> l[1] == Footer(1);
    }
  }

  // ----- Every line is drawn once, in order -----

  /** The texts of the draw commands, in order. */
  function DrawTexts(cmds: seq<Command>): seq<string> {
    if |cmds| == 0 then []
    else (if cmds[0].DrawText? then [cmds[0].text] else []) + DrawTexts(cmds[1..])
  }

  lemma {:induction false} DrawTextsAppend(a: seq<Command>, b: seq<Command>)
    ensures DrawTexts(a + b) == DrawTexts(a) + DrawTexts(b)
  {
    if |a| == 0 {
      assert a + b == b;
    } else {
      var h: seq<string> := if a[0].DrawText? then [a[0].text] else [];
      assert (a + b)[1..] == a[1..] + b;
      assert DrawTexts(a + b) == h + DrawTexts(a[1..] + b);
      DrawTextsAppend(a[1..], b);
      assert DrawTexts(a) == h + DrawTexts(a[1..]);
    }
  }

  /** The display texts of a block's lines. */
  function BlockDisplayTexts(b: Block, blockIndex: nat): (r: seq<string>)
    ensures |r| == |b|
  {
    seq(|b|, i requires 0 <= i < |b| => DisplayText(b[i], blockIndex, i))
  }

  /** The display texts of the first `k` blocks, block after block. */
  function AllDisplayTexts(bs: seq<Block>, k: nat): seq<string>
    requires k <= |bs|
  {
    if k == 0 then [] else AllDisplayTexts(bs, k - 1) + BlockDisplayTexts(bs[k - 1], k - 1)
  }

  lemma {:induction false} PlaceLinesTexts(c: Cursor, b: Block, blockIndex: nat, k: nat,
                                           width: real, height: real, m: Metrics)
    requires k <= |b|
    ensures DrawTexts(PlaceLines(c, b, blockIndex, k, width, height, m).cmds)
         == DrawTexts(c.cmds) + BlockDisplayTexts(b, blockIndex)[..k]
  {
    if k > 0 {
      PlaceLinesTexts(c, b, blockIndex, k - 1, width, height, m);
      var p := PlaceLines(c, b, blockIndex, k - 1, width, height, m);
      var r := PlaceLine(p, b[k - 1], blockIndex, k - 1, width, height, m);
      var brk: seq<Command> := if p.y > height - Margin then [NewPage] else [];
      var draw := r.cmds[|r.cmds| - 1];
      assert r.cmds == p.cmds + (brk + [draw]);
      DrawTextsAppend(p.cmds, brk + [draw]);
      DrawTextsAppend(brk, [draw]);
      assert DrawTexts([draw]) == [DisplayText(b[k - 1], blockIndex, k - 1)];
      assert DrawTexts(brk) == [];
      assert BlockDisplayTexts(b, blockIndex)[..k]
          == BlockDisplayTexts(b, blockIndex)[..k - 1] + [DisplayText(b[k - 1], blockIndex, k - 1)];
    }
  }

  lemma {:induction false} PlaceBlocksTexts(c: Cursor, bs: seq<Block>, k: nat, width: real, height: real, m: Metrics)
    requires k <= |bs|
    ensures DrawTexts(PlaceBlocks(c, bs, k, width, height, m).cmds) == DrawTexts(c.cmds) + AllDisplayTexts(bs, k)
  {
    if k > 0 {
      PlaceBlocksTexts(c, bs, k - 1, width, height, m);
      var before := PlaceBlocks(c, bs, k - 1, width, height, m);
      PlaceLinesTexts(before, bs[k - 1], k - 1, |bs[k - 1]|, width, height, m);
      assert BlockDisplayTexts(bs[k - 1], k - 1)[..|bs[k - 1]|] == BlockDisplayTexts(bs[k - 1], k - 1);
    }
  }

  /** The PDF draws every question line exactly once, block after block and line after line, with its display text. */
  lemma LayoutDrawsEveryLine(schoolName: string, hasStudentFields: bool, blocks: seq<Block>,
                             width: real, height: real, m: Metrics)
    ensures DrawTexts(Layout(schoolName, hasStudentFields, blocks, width, height, m)) == AllDisplayTexts(blocks, |blocks|)
  {
    var head := HeadCommands(schoolName, hasStudentFields);
    var body := Body(blocks, hasStudentFields, width, height, m);
    PlaceBlocksTexts(Cursor(StartY(hasStudentFields), []), blocks, |blocks|, width, height, m);
    HeadDrawsNothing(schoolName, hasStudentFields);
    FooterDrawsNothing();
    DrawTextsFramed(head, body, [Footer(1)]);
  }

  lemma DrawTextsFramed(head: seq<Command>, body: seq<Command>, foot: seq<Command>)
    requires DrawTexts(head) == [] && DrawTexts(foot) == []
    ensures DrawTexts(head + body + foot) == DrawTexts(body)
  {
    DrawTextsAppend(head + body, foot);
    DrawTextsAppend(head, body);
  }

  lemma HeadDrawsNothing(schoolName: string, hasStudentFields: bool)
    ensures DrawTexts(HeadCommands(schoolName, hasStudentFields)) == []
  {
    if hasStudentFields {
      DrawTextsAppend([Header(schoolName)], [StudentFields(Margin + 50.0)]);
    }
  }

  lemma FooterDrawsNothing()
    ensures DrawTexts([Footer(1)]) == []
  {
  }

  /**
   * The first question's heading is drawn at the start position, or at the
   * top of a fresh page when the start position is already below the bottom margin.
   */
  lemma FirstLineStart(schoolName: string, hasStudentFields: bool, blocks: seq<Block>,
                       width: real, height: real, m: Metrics)
    requires |blocks| > 0 && |blocks[0]| > 0
    ensures var body := Body(blocks, hasStudentFields, width, height, m);
      if StartY(hasStudentFields) > height - Margin then
        |body| >= 2 && body[0] == NewPage && body[1].DrawText? && body[1].y == Margin + 20.0
      else
        |body| >= 1 && body[0].DrawText? && body[0].y == StartY(hasStudentFields)
  {
    var start := Cursor(StartY(hasStudentFields), []);
    var first := PlaceLine(start, blocks[0][0], 0, 0, width, height, m);
    assert PlaceLines(start, blocks[0], 0, 1, width, height, m) == first;
    PrefixKept(start, blocks, width, height, m, first);
  }

  /** Placing more lines and blocks only appends commands. */
  lemma PrefixKept(start: Cursor, blocks: seq<Block>, width: real, height: real, m: Metrics, first: Cursor)
    requires |blocks| > 0 && |blocks[0]| > 0
    requires first == PlaceLines(start, blocks[0], 0, 1, width, height, m)
    ensures first.cmds <= PlaceBlocks(start, blocks, |blocks|, width, height, m).cmds
  {
    LinesExtend(start, blocks[0], 0, 1, |blocks[0]|, width, height, m);
    BlocksExtend(start, blocks, 1, |blocks|, width, height, m);
  }

  lemma {:induction false} LinesExtend(c: Cursor, b: Block, blockIndex: nat, j: nat, k: nat,
                                       width: real, height: real, m: Metrics)
    requires j <= k <= |b|
    ensures PlaceLines(c, b, blockIndex, j, width, height, m).cmds <= PlaceLines(c, b, blockIndex, k, width, height, m).cmds
    decreases k
  {
    if j < k {
      LinesExtend(c, b, blockIndex, j, k - 1, width, height, m);
    }
  }

  lemma {:induction false} BlocksExtend(c: Cursor, bs: seq<Block>, j: nat, k: nat, width: real, height: real, m: Metrics)
    requires j <= k <= |bs|
    ensures PlaceBlocks(c, bs, j, width, height, m).cmds <= PlaceBlocks(c, bs, k, width, height, m).cmds
    decreases k
  {
    if j < k {
      BlocksExtend(c, bs, j, k - 1, width, height, m);
      var before := PlaceBlocks(c, bs, k - 1, width, height, m);
      LinesExtend(before, bs[k - 1], k - 1, 0, |bs[k - 1]|, width, height, m);
    }
  }

  // ----- The export file name -----

  /** `${schoolName.replace(/\s/g, '_')}_${className}_${subject}_ExamPaper.pdf`. */
  function FileName(schoolName: string, className: string, subject: string): (f: string)
    ensures |f| == |schoolName| + |className| + |subject| + 16
  {
    ReplaceWhitespace(schoolName, '_') + "_" + className + "_" + subject + "_ExamPaper.pdf"
  }

  /**
   * The file name starts with the school name with each whitespace character
   * turned into `_` (and nothing else changed), keeps the class and subject
   * as given, and ends in `_ExamPaper.pdf`.
   */
  lemma FileNameParts(schoolName: string, className: string, subject: string)
    ensures var f := FileName(schoolName, className, subject);
      && |f| == |schoolName| + |className| + |subject| + 16
      && (forall i :: 0 <= i < |schoolName| ==> !IsWhitespace(f[i]))
      && (forall i :: 0 <= i < |schoolName| && !IsWhitespace(schoolName[i]) ==> f[i] == schoolName[i])
      && f[|schoolName|] == '_'
      && (forall i :: 0 <= i < |schoolName| && IsWhitespace(schoolName[i]) ==> f[i] == '_')
      && f[|schoolName| + 1..|schoolName| + 1 + |className|] == className
      && f[|schoolName| + 1 + |className|] == '_'
      && f[|schoolName| + 2 + |className|..|f| - 14] == subject
      && f[|f| - 14..] == "_ExamPaper.pdf"
  {
    var s := ReplaceWhitespace(schoolName, '_');
    var tail := "_ExamPaper.pdf";
    MiddleSlice(s + "_", className, "_" + subject + tail);
    MiddleSlice(s + "_" + className + "_", subject, tail);
  }

  lemma MiddleSlice<T>(a: seq<T>, b: seq<T>, c: seq<T>)
    ensures (a + b + c)[|a|..|a| + |b|] == b
    ensures (a + b + c)[..|a|] == a
    ensures (a + b + c)[|a| + |b|..] == c
  {
  }
}
