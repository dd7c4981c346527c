/**
 * The preview component's state: the blocks shown, the edit mode with its
 * per-block editor content, the selected block, the paper as last saved,
 * and the PDF-generation flag. The props `examPaper` and `textFormat` are
 * fixed for the lifetime of the component.
 */
module Preview {
  import opened Wrappers
  import opened Text
  import opened TextBlocks
  import opened RichText
  import opened Paper
  import opened Pagination

  /** The extracted texts a save writes back: each block's line texts joined by line breaks. */
  function BlockTexts(blocks: seq<Block>): (texts: seq<string>)
    ensures |texts| == |blocks|
    ensures forall i :: 0 <= i < |blocks| ==> texts[i] == BlockText(blocks[i])
  {
    seq(|blocks|, i requires 0 <= i < |blocks| => BlockText(blocks[i]))
  }

  /** The per-paragraph loop of a save: one line per paragraph of a block's editor content, in order. */
  method ParseBlock(paragraphs: seq<Paragraph>, blockIndex: nat, defaultSize: nat) returns (blockLines: Block)
    ensures blockLines == ParseParagraphs(paragraphs, blockIndex, defaultSize)
  {
    ghost var target := ParseParagraphs(paragraphs, blockIndex, defaultSize);
    blockLines := [];
    var lineIndex := 0;
    while lineIndex < |paragraphs|
      invariant 0 <= lineIndex <= |paragraphs|
      invariant blockLines == target[..lineIndex]
    {
      var line := ParagraphLine(paragraphs[lineIndex], blockIndex, lineIndex, defaultSize);
      assert target[lineIndex] == line;
      TakeOneMore(target, lineIndex);
      blockLines := blockLines + [line];
      lineIndex := lineIndex + 1;
    }
    assert target[..lineIndex] == target;
  }

  /** A prefix one longer is the prefix followed by the next element. */
  lemma TakeOneMore<T>(s: seq<T>, i: nat)
    requires i < |s|
    ensures s[..i + 1] == s[..i] + [s[i]]
  {
  }

  class PaperPreview {
    const examPaper: ExamPaper
    const textFormat: TextFormat
    var isGenerating: bool
    var isEditMode: bool
    var editedPaper: ExamPaper
    var richTextContent: map<nat, seq<Paragraph>>
    var textBlocks: seq<Block>
    var selectedBlockIndex: Option<nat>

    /** One block per text of the edited paper, and editor content only for shown blocks. */
    ghost predicate Valid()
      reads this
    {
      && |textBlocks| == |editedPaper.extractedText|
      && forall k :: k in richTextContent ==> k < |textBlocks|
    }

    constructor(examPaper: ExamPaper, textFormat: TextFormat)
      ensures Valid()
      ensures this.examPaper == examPaper && this.textFormat == textFormat
      ensures !isGenerating && !isEditMode && selectedBlockIndex == None
      ensures editedPaper == examPaper && richTextContent == map[]
      ensures textBlocks == BuildBlocks(examPaper.extractedText, textFormat)
    {
      this.examPaper := examPaper;
      this.textFormat := textFormat;
      isGenerating := false;
      isEditMode := false;
      editedPaper := examPaper;
      richTextContent := map[];
      textBlocks := BuildBlocks(examPaper.extractedText, textFormat);
      selectedBlockIndex := None;
    }

    /** The edit button and the effect it triggers: edit mode on, the editors filled from the blocks. */
    method EnterEditMode()
      requires Valid()
      modifies this
      ensures Valid()
      ensures isEditMode
      ensures richTextContent == if old(isEditMode) then old(richTextContent) else EditorContent(textBlocks)
      ensures textBlocks == old(textBlocks) && editedPaper == old(editedPaper)
      ensures selectedBlockIndex == old(selectedBlockIndex) && isGenerating == old(isGenerating)
    {
      if !isEditMode {
        isEditMode := true;
        richTextContent := EditorContent(textBlocks);
      }
    }

    /** An editor reports new content for its block. */
    method HandleRichTextChange(blockIndex: nat, content: seq<Paragraph>)
      requires Valid() && blockIndex < |textBlocks|
      modifies this
      ensures Valid()
      ensures richTextContent == old(richTextContent)[blockIndex := content]
      ensures textBlocks == old(textBlocks) && editedPaper == old(editedPaper) && isEditMode == old(isEditMode)
      ensures selectedBlockIndex == old(selectedBlockIndex) && isGenerating == old(isGenerating)
    {
      richTextContent := richTextContent[blockIndex := content];
    }

    method SelectBlock(blockIndex: nat)
      modifies this
      ensures selectedBlockIndex == Some(blockIndex)
      ensures textBlocks == old(textBlocks) && editedPaper == old(editedPaper) && isEditMode == old(isEditMode)
      ensures richTextContent == old(richTextContent) && isGenerating == old(isGenerating)
    {
      selectedBlockIndex := Some(blockIndex);
    }

    /**
     * `processRichTextContent`: a copy of the blocks in which every block
     * whose editor content has at least one paragraph is replaced by the
     * lines parsed from it. Entries are visited in ascending key order, as
     * `Object.entries` visits integer keys.
     */
    method ProcessRichTextContent() returns (newTextBlocks: seq<Block>)
      requires Valid()
      ensures newTextBlocks == SavedBlocks(textBlocks, richTextContent, textFormat.fontSize)
    {
      var ds := textFormat.fontSize;
      ghost var saved := SavedBlocks(textBlocks, richTextContent, ds);
      newTextBlocks := textBlocks;
      var blockIndex := 0;
      while blockIndex < |textBlocks|
        invariant 0 <= blockIndex <= |textBlocks|
        invariant |newTextBlocks| == |textBlocks|
        invariant forall j :: 0 <= j < blockIndex ==> newTextBlocks[j] == saved[j]
        invariant forall j :: blockIndex <= j < |textBlocks| ==> newTextBlocks[j] == textBlocks[j]
      {
        if blockIndex in richTextContent {
          var blockLines := ParseBlock(richTextContent[blockIndex], blockIndex, ds);
          if |blockLines| > 0 {
            newTextBlocks := newTextBlocks[blockIndex := blockLines];
          }
        }
        blockIndex := blockIndex + 1;
      }
    }

    /**
     * In edit mode the parsed blocks replace the shown ones and their texts
     * replace the edited paper's extracted texts; edit mode then ends and the
     * selection is cleared either way.
     */
    method SaveChanges()
      requires Valid()
      modifies this
      ensures Valid()
      ensures old(isEditMode) ==> textBlocks == SavedBlocks(old(textBlocks), old(richTextContent), textFormat.fontSize)
      ensures old(isEditMode) ==> editedPaper == old(editedPaper).(extractedText := BlockTexts(textBlocks))
      ensures !old(isEditMode) ==> textBlocks == old(textBlocks) && editedPaper == old(editedPaper)
      ensures !isEditMode && selectedBlockIndex == None
      ensures richTextContent == old(richTextContent) && isGenerating == old(isGenerating)
    {
      if isEditMode {
        var newTextBlocks := ProcessRichTextContent();
        textBlocks := newTextBlocks;
        editedPaper := editedPaper.(extractedText := BlockTexts(newTextBlocks));
      }
      isEditMode := false;
      selectedBlockIndex := None;
    }

    /** Every edit is thrown away: the paper, the blocks and the editor content go back to their initial values. */
    method CancelChanges()
      modifies this
      ensures Valid()
      ensures editedPaper == examPaper
      ensures textBlocks == BuildBlocks(examPaper.extractedText, textFormat)
      ensures richTextContent == map[] && !isEditMode && selectedBlockIndex == None
      ensures isGenerating == old(isGenerating)
    {
      editedPaper := examPaper;
      textBlocks := BuildBlocks(examPaper.extractedText, textFormat);
      richTextContent := map[];
      isEditMode := false;
      selectedBlockIndex := None;
    }

    /**
     * `generatePDF`: the commands for the shown blocks and the edited
     * paper's header, and the file name; the generating flag is down again
     * when it returns.
     */
    method GeneratePdf(width: real, height: real, metrics: Metrics) returns (cmds: seq<Command>, fileName: string)
      modifies this
      ensures cmds == Layout(editedPaper.schoolName, editedPaper.hasStudentFields, textBlocks, width, height, metrics)
      ensures fileName == FileName(editedPaper.schoolName, editedPaper.className, editedPaper.subject)
      ensures !isGenerating
      ensures textBlocks == old(textBlocks) && editedPaper == old(editedPaper) && isEditMode == old(isEditMode)
      ensures richTextContent == old(richTextContent) && selectedBlockIndex == old(selectedBlockIndex)
    {
      isGenerating := true;
      cmds := Paginate(editedPaper.schoolName, editedPaper.hasStudentFields, textBlocks, width, height, metrics);
      fileName := FileName(editedPaper.schoolName, editedPaper.className, editedPaper.subject);
      isGenerating := false;
    }
  }

  /**
   * Entering edit mode and saving without touching an editor turns each
   * block into its `ResavedBlock` and writes the resaved texts back.
   */
  method EditAndSaveUntouched(p: PaperPreview)
    requires p.Valid() && !p.isEditMode
    modifies p
    ensures p.Valid()
    ensures p.textBlocks == seq(|old(p.textBlocks)|, i requires 0 <= i < |old(p.textBlocks)| => ResavedBlock(old(p.textBlocks)[i]))
    ensures p.editedPaper.extractedText == BlockTexts(p.textBlocks)
    ensures !p.isEditMode && p.selectedBlockIndex == None
  {
    p.EnterEditMode();
    p.SaveChanges();
    SaveUneditedContent(old(p.textBlocks), p.textFormat.fontSize);
  }

  /** A save replaces exactly the blocks with non-empty editor content and keeps the number of blocks. */
  lemma SavedBlocksReplaceOnlyEdited(blocks: seq<Block>, content: map<nat, seq<Paragraph>>, defaultSize: nat)
    ensures |SavedBlocks(blocks, content, defaultSize)| == |blocks|
    ensures forall i :: 0 <= i < |blocks| && (i !in content || |content[i]| == 0) ==>
      SavedBlocks(blocks, content, defaultSize)[i] == blocks[i]
    ensures forall i :: 0 <= i < |blocks| && i in content && |content[i]| > 0 ==>
      SavedBlocks(blocks, content, defaultSize)[i] == ParseParagraphs(content[i], i, defaultSize)
  {
  }

  /**
   * The texts a save writes back build the same blocks again, when every
   * saved line is non-blank, holds no line break and the block's lines share
   * the session format.
   */
  lemma SavedTextsRebuild(blocks: seq<Block>, fmt: TextFormat)
    requires forall i, j :: 0 <= i < |blocks| && 0 <= j < |blocks[i]| ==>
      IsNonBlank(blocks[i][j].text) && '\n' !in blocks[i][j].text
    requires forall i :: 0 <= i < |blocks| ==> Uniform(blocks[i], fmt)
    ensures BuildBlocks(BlockTexts(blocks), fmt) == blocks
  {
    forall i | 0 <= i < |blocks| ensures BuildBlocks(BlockTexts(blocks), fmt)[i] == blocks[i] {
      RebuildFromBlockText(blocks[i], fmt);
    }
  }
}
