# paperai exam-paper wizard, modelled in Dafny

paperai builds a printable exam paper in four steps:

1. The teacher fills in the paper's details.
2. The teacher uploads up to four photographed question sheets. An OCR service turns each image into text.
3. The texts and metadata (duration, marks, term, student fields) are edited.
4. The preview shows one question block per image. Each block can be edited in a rich-text editor and then saved back. The preview can export a PDF.

This project models the state and the logic of those steps.

- `Text` — the JavaScript string built-ins the code relies on, over `seq<char>`:
  - the `\s` class, `trim`, `replace(/^\s+/, '')` and `replace(/\s/g, c)`;
  - `split('\n')` and `join('\n')`, `startsWith` and `includes`;
  - printing a number in a template literal, and `parseInt` of a digit run.
- `TextBlocks` — question blocks. Each extracted string is split on line breaks and blank lines are dropped. Every line gets a copy of the session format.
- `RichText` — the edit-mode round trip:
  - entering edit mode writes each block into paragraph records: line 0 is numbered and marked strong, the other lines get four non-breaking spaces;
  - the inline style records the format;
  - saving parses the records back into lines, re-deriving the format from substring tests and the `font-size:\s*(\d+)pt` pattern.
- `Preview` — the preview component as a class:
  - edit mode, editor content per block, the selected block and the paper as last saved;
  - save and cancel;
  - PDF generation.
- `Pagination` — the commands `generatePDF` issues:
  - a header;
  - the question lines, with page breaks, alignment anchors, wrapping and the vertical cursor;
  - a single footer.

  Font metrics are oracle functions. The nested loops are a method proved against a fold, and the layout guarantees are lemmas about that fold. The module also builds the export file name.
- `Upload` — the image uploader as a class:
  - the capped file list with its parallel preview list;
  - removal by JavaScript `splice`;
  - the sequential, all-or-nothing extraction loop over an abstract extraction function that may fail.
- `Editor` — the editor step as a class: the per-image texts, the metadata with its defaults, the format, and save.
- `Wizard` — the step machine of the creation page as a class, with `Partial<ExamPaper>` merging.
- `Paper`, `Wrappers` — the paper record, plus `Option` and `Result`.

## Model

| member | source | states |
|---|---|---|
| Text.TrimStart | paperai/src/components/PaperPreview.tsx:150 | the result is a suffix of the input, everything removed is whitespace, and the result does not start with whitespace |
| Text.TrimEmptyIff | paperai/src/components/PaperPreview.tsx:61 | `trim()` yields the empty string exactly for strings made only of whitespace |
| Text.TrimStartSkips | paperai/src/components/PaperPreview.tsx:99 | leading whitespace (such as the four `&nbsp;` of the indent) is removed whatever text follows it |
| Text.Split | paperai/src/components/PaperPreview.tsx:60 | `split` yields at least one piece, no piece holds the separator, and joining the pieces gives the input back |
| Text.SplitJoin | paperai/src/components/PaperPreview.tsx:190-191 | splitting a join gives the pieces back when no piece holds the separator |
| Text.NatToString | paperai/src/components/PaperPreview.tsx:98 | a printed number is a non-empty run of digits without leading zeros |
| Text.ParsePrinted | paperai/src/components/PaperPreview.tsx:161 | `parseInt` of a printed number gives the number back |
| Text.DigitRun | paperai/src/components/PaperPreview.tsx:159 | the greedy `\d+` takes the longest digit prefix: all digits, and the next character is not a digit |
| Text.WhitespaceRun | paperai/src/components/PaperPreview.tsx:159 | the greedy `\s*` takes the longest whitespace prefix |
| Text.ReplaceWhitespace | paperai/src/components/PaperPreview.tsx:401 | `replace(/\s/g, c)` keeps the length and turns each whitespace character, and only those, into `c` |
| Text.ContainsMiddle | paperai/src/components/PaperPreview.tsx:154-155 | `includes` finds a string that sits between two others |
| Text.AnchorMismatch | paperai/src/components/PaperPreview.tsx:166-167 | a pattern whose anchor character occurs once in the string, and whose other characters disagree there, is not included |
| TextBlocks.NonBlank | paperai/src/components/PaperPreview.tsx:61 | the filter keeps only non-blank lines and never grows the list |
| TextBlocks.FilterAppend | paperai/src/components/PaperPreview.tsx:61 | filtering distributes over concatenation, so kept lines stay in order |
| TextBlocks.FilterKeepsAll | paperai/src/components/PaperPreview.tsx:61 | a list whose every line is accepted is kept whole |
| TextBlocks.FilterPreserves | paperai/src/components/PaperPreview.tsx:61 | every kept line has each property all the input lines have |
| TextBlocks.BuildBlock | paperai/src/components/PaperPreview.tsx:58-65 | a block's line texts are the non-blank pieces of the split text, and every line carries the session format |
| TextBlocks.BuildBlockLines | paperai/src/components/PaperPreview.tsx:59-61 | every line of a built block is non-blank and holds no line break |
| TextBlocks.BuildBlocks | paperai/src/components/PaperPreview.tsx:57-67 | the initial blocks: one per extracted string, in order, each built from its string |
| TextBlocks.Label | paperai/src/components/PaperPreview.tsx:98 | the question prefix is digits followed by `". "`, and the digits read back as `blockIndex + 1` |
| TextBlocks.RebuildFromBlockText | paperai/src/components/PaperPreview.tsx:190-191 | building a block from its saved text gives the block back when its lines are non-blank, hold no line break and share the format |
| RichText.EditorParagraphs | paperai/src/components/PaperPreview.tsx:96-109 | one paragraph per line of the block |
| RichText.EditorContent | paperai/src/components/PaperPreview.tsx:89-116 | entering edit mode gives editor content to exactly the blocks shown, each holding that block's paragraphs |
| RichText.LineParagraph | paperai/src/components/PaperPreview.tsx:96-108 | only the heading is marked strong, no line is marked emphasised, the style is the one written for the line's format, the line text ends the paragraph text, and the heading starts with its question number |
| RichText.StyleOf | paperai/src/components/PaperPreview.tsx:101-106 | the style written for a format; no contract of its own: `FormatFromStyle` proves the save parse recovers the format from it |
| RichText.ParagraphText | paperai/src/components/PaperPreview.tsx:142-150 | the saved text is a suffix of the paragraph text without leading whitespace; on line 0 the number prefix is removed exactly when the text starts with it, and on every other line only leading whitespace is removed |
| RichText.MatchCandidates | paperai/src/components/PaperPreview.tsx:159 | the pattern tried at every position of the style |
| RichText.FontSizeMatch | paperai/src/components/PaperPreview.tsx:158-162 | the non-global font-size search; no contract of its own: `FontSizeMatchLeftmost` states it returns the leftmost match, and `SizeFromStyle` that it finds the written size |
| RichText.FirstSomeLeftmost | paperai/src/components/PaperPreview.tsx:159 | the search fails exactly when no position from `k` on matches, and otherwise returns the leftmost match |
| RichText.FontSizeMatchLeftmost | paperai/src/components/PaperPreview.tsx:159-162 | `style.match` fails exactly when the pattern matches nowhere, and otherwise gives the size at the leftmost matching position |
| RichText.MatchAtStart | paperai/src/components/PaperPreview.tsx:159 | a match at position 0 is the search's result |
| RichText.ParseParagraphs | paperai/src/components/PaperPreview.tsx:139-173 | one saved line per paragraph, in order, each the text and format derived from its paragraph |
| RichText.ParagraphLine | paperai/src/components/PaperPreview.tsx:169-172 | the line pushed for one paragraph; no contract of its own: `ParseParagraphs` states each saved line is built from it, and `LineRoundTrip` what it gives for a written paragraph |
| RichText.DeriveFormat | paperai/src/components/PaperPreview.tsx:153-167 | a strong element makes the line bold and an emphasis element italic, the session size is taken when the pattern does not match, and the alignment is right exactly when the style includes `text-align: right` |
| RichText.DerivedAlignment | paperai/src/components/PaperPreview.tsx:164-167 | right when the style includes `text-align: right`, else center when it includes `text-align: center`, else left; no contract of its own: `AlignmentFromStyle` states it recovers the written alignment |
| RichText.SavedBlocks | paperai/src/components/PaperPreview.tsx:129-180 | the block count is kept; a block with a non-empty entry gets one line per paragraph, and every other block is kept as it was |
| RichText.BoldFromStyle | paperai/src/components/PaperPreview.tsx:103 | the written style includes `font-weight: bold` exactly when the format is bold |
| RichText.ItalicFromStyle | paperai/src/components/PaperPreview.tsx:104 | the written style includes `font-style: italic` exactly when the format is italic |
| RichText.AlignmentWordInStyle | paperai/src/components/PaperPreview.tsx:105 | the written style includes `text-align: <word>` exactly when `<word>` names the format's alignment |
| RichText.StyleSizeAt | paperai/src/components/PaperPreview.tsx:102 | the font-size pattern matches at the start of the written style with the format's size |
| RichText.SizeFromStyle | paperai/src/components/PaperPreview.tsx:158-162 | the font-size search on the written style finds the format's size |
| RichText.AlignmentFromStyle | paperai/src/components/PaperPreview.tsx:164-167 | the right/center/left tests on the written style give the format's alignment back |
| RichText.FormatFromStyle | paperai/src/components/PaperPreview.tsx:152-171 | re-deriving the format from the written style gives it back; a strong element adds bold and an em element adds italic |
| RichText.TextRoundTrip | paperai/src/components/PaperPreview.tsx:145-150 | the number prefix and indent the editor adds are removed again, together with the line's own leading whitespace |
| RichText.LineRoundTrip | paperai/src/components/PaperPreview.tsx:96-108 | an unedited line comes back with its leading whitespace removed and its format kept; the heading comes back bold |
| RichText.BlockRoundTrip | paperai/src/components/PaperPreview.tsx:141-173 | an unedited block comes back as `ResavedBlock` |
| RichText.SaveUneditedContent | paperai/src/components/PaperPreview.tsx:127-181 | saving the content that entering edit mode wrote turns every block into its `ResavedBlock` |
| RichText.ResavedUnindented | paperai/src/components/PaperPreview.tsx:97-99 | for lines without leading whitespace, the only change is that the heading becomes bold |
| Preview.BlockTexts | paperai/src/components/PaperPreview.tsx:190-192 | one saved text per block: its line texts joined by line breaks |
| Preview.ParseBlock | paperai/src/components/PaperPreview.tsx:139-173 | the per-paragraph loop yields the lines `ParseParagraphs` specifies |
| Preview.PaperPreview.constructor | paperai/src/components/PaperPreview.tsx:49-70 | initial state: not generating, not editing, no selection, no editor content, the paper as given, and blocks built from its texts |
| Preview.PaperPreview.EnterEditMode | paperai/src/components/PaperPreview.tsx:89-116 | edit mode goes on, and the editor content is written from the blocks; nothing else changes |
| Preview.PaperPreview.HandleRichTextChange | paperai/src/components/PaperPreview.tsx:119-124 | only that block's editor content is replaced |
| Preview.PaperPreview.SelectBlock | paperai/src/components/PaperPreview.tsx:221-223 | the selection becomes the block; nothing else changes |
| Preview.PaperPreview.ProcessRichTextContent | paperai/src/components/PaperPreview.tsx:127-181 | the result is `SavedBlocks`: blocks with non-empty parsed content are replaced, and the others are kept |
| Preview.PaperPreview.SaveChanges | paperai/src/components/PaperPreview.tsx:183-202 | in edit mode the blocks become the saved blocks and the paper's texts become their joined texts; edit mode and the selection are cleared either way |
| Preview.PaperPreview.CancelChanges | paperai/src/components/PaperPreview.tsx:204-219 | the paper, the blocks and the editor content return to their initial values; edit mode and the selection are cleared |
| Preview.PaperPreview.GeneratePdf | paperai/src/components/PaperPreview.tsx:225-409 | the commands are `Layout` of the shown blocks, the file name is `FileName`, and the generating flag ends down |
| Preview.EditAndSaveUntouched | paperai/src/components/PaperPreview.tsx:183-202 | entering edit mode and saving untouched turns every block into its `ResavedBlock` and writes their texts back |
| Preview.SavedBlocksReplaceOnlyEdited | paperai/src/components/PaperPreview.tsx:175-177 | a save keeps the number of blocks, replaces exactly those with non-empty content, and keeps the rest |
| Preview.SavedTextsRebuild | paperai/src/components/PaperPreview.tsx:190-215 | the saved texts rebuild the same blocks (as cancel would) when the lines are non-blank, hold no line break and share the format |
| Pagination.Paginate | paperai/src/components/PaperPreview.tsx:302-394 | the nested loops issue exactly the commands of `Layout` |
| Pagination.DrawLine | paperai/src/components/PaperPreview.tsx:331-377 | one line's page break, draw and cursor advance are one step of the fold |
| Pagination.PlaceLine | paperai/src/components/PaperPreview.tsx:331-377 | one step of the fold; no contract of its own: `DrawLine` is proved to compute it, and `NewDrawOk` and `PlaceLinePlaced` state where its draw goes |
| Pagination.DisplayText | paperai/src/components/PaperPreview.tsx:348-353 | the text drawn for a line; no contract of its own: `DisplayTextShape` states it |
| Pagination.DisplayTextShape | paperai/src/components/PaperPreview.tsx:348-353 | a display text ends with the line text; the heading's starts with its question number and has nothing else, a body line's adds three spaces exactly when left-aligned |
| Pagination.AnchorX | paperai/src/components/PaperPreview.tsx:356-361 | on a page at least two margins wide, every alignment's anchor lies between the left and the right margin |
| Pagination.FontOf | paperai/src/components/PaperPreview.tsx:345 | bold over italic over normal; no contract of its own: `DrawLine` draws and measures each line in it, and `BodyPlaced` states each draw's wrap count is taken in the draw's own face |
| Pagination.SubLineCount | paperai/src/components/PaperPreview.tsx:363-371 | one sub-line when the text fits between the margins, otherwise the wrapper's count; no contract of its own: `BodyPlaced` states each draw carries it |
| Pagination.LineAdvance | paperai/src/components/PaperPreview.tsx:370-373 | 7 per sub-line after a heading, 6 after a body line; no contract of its own: `NewDrawOk` states the cursor moves down by it times the draw's sub-line count |
| Pagination.StartY | paperai/src/components/PaperPreview.tsx:302-316 | below the header, and 15 lower with student fields; no contract of its own: `FirstLineStart` states the first heading is drawn there |
| Pagination.NewDrawOk | paperai/src/components/PaperPreview.tsx:333-377 | a line's draw is well placed, sits at the top after a page break and at the cursor otherwise, and lies above the new cursor, which is the draw's position plus `LineAdvance` per sub-line |
| Pagination.PlaceLinePlaced | paperai/src/components/PaperPreview.tsx:331-377 | placing a line keeps the placement invariant |
| Pagination.PlaceLinesPlaced | paperai/src/components/PaperPreview.tsx:331-378 | placing a block's lines keeps the placement invariant |
| Pagination.PlaceBlocksPlaced | paperai/src/components/PaperPreview.tsx:330-382 | placing the blocks keeps the placement invariant |
| Pagination.BodyPlaced | paperai/src/components/PaperPreview.tsx:330-382 | each draw lies between the top position and the bottom margin, at its anchor, with its wrap count; consecutive draws go down the page; a page break is followed by a draw at the top; the body ends with a draw |
| Pagination.LayoutFrame | paperai/src/components/PaperPreview.tsx:272-394 | the header comes first, the student fields second exactly when enabled, and the single footer last, always reading page 1 |
| Pagination.Layout | paperai/src/components/PaperPreview.tsx:272-394 | everything drawn has at least two commands, starts with the header and ends with the footer |
| Pagination.DrawTextsAppend | paperai/src/components/PaperPreview.tsx:330-382 | the drawn texts of a concatenation are the concatenated drawn texts |
| Pagination.PlaceLinesTexts | paperai/src/components/PaperPreview.tsx:331-378 | a block's lines are drawn in order with their display texts |
| Pagination.PlaceBlocksTexts | paperai/src/components/PaperPreview.tsx:330-382 | blocks are drawn in order |
| Pagination.LayoutDrawsEveryLine | paperai/src/components/PaperPreview.tsx:330-382 | the PDF draws every question line exactly once, block after block and line after line, with its display text |
| Pagination.FirstLineStart | paperai/src/components/PaperPreview.tsx:302-341 | the first heading is drawn at the start position, or at the top of a new page when the start is already below the bottom margin |
| Pagination.LinesExtend | paperai/src/components/PaperPreview.tsx:331-378 | placing more lines only appends commands |
| Pagination.BlocksExtend | paperai/src/components/PaperPreview.tsx:330-382 | placing more blocks only appends commands |
| Pagination.FileNameParts | paperai/src/components/PaperPreview.tsx:401 | the file name is the school name with whitespace turned into `_`, then `_`, the class, the subject, then `_ExamPaper.pdf` |
| Pagination.FileName | paperai/src/components/PaperPreview.tsx:401 | the file name is 16 characters longer than the school, class and subject together |
| Upload.AdmittedIsPrefix | paperai/src/components/ImageUploader.tsx:58-64 | the capped `forEach` admits the first files of the event, as many as fit under the cap |
| Upload.Admitted | paperai/src/components/ImageUploader.tsx:58-64 | no more files are admitted than arrive, and at least one when the list is below the cap and a file arrives |
| Upload.AdmittedWithinCap | paperai/src/components/ImageUploader.tsx:59 | a list within the cap stays within it; a full list admits nothing; an event that fits is admitted whole |
| Upload.PreviewUrls | paperai/src/components/ImageUploader.tsx:61-62 | one preview URL per admitted file, in order |
| Upload.SpliceOneRemoves | paperai/src/components/ImageUploader.tsx:82-83 | `splice(k, 1)` deletes exactly element `k`: earlier elements stay, later ones move down one, and the multiset loses only that element |
| Upload.SpliceOne | paperai/src/components/ImageUploader.tsx:82-83 | `splice(start, 1)` removes at most one element, removes nothing from a start past the end, and never adds an element |
| Upload.ExtractAllSucceeds | paperai/src/components/ImageUploader.tsx:94-116 | extraction succeeds exactly when every request does, and then yields one text per file, in file order |
| Upload.ExtractAll | paperai/src/components/ImageUploader.tsx:94-116 | a success has one text per file, and a failure carries the status of some file's failed request |
| Upload.ProcessDisabled | paperai/src/components/ImageUploader.tsx:196 | the process button is disabled while no file is chosen or the wizard reports processing; no contract of its own: `Wizard.StuckAfterGoingBack` and `Wizard.UsableAfterGoingBack` state when it holds |
| Upload.ExtractAllFirstFailure | paperai/src/components/ImageUploader.tsx:108-110 | a failure carries the error of the first failing request |
| Upload.FailureSticks | paperai/src/components/ImageUploader.tsx:96-114 | once a request fails, the later files change nothing |
| Upload.ImageUploader.constructor | paperai/src/components/ImageUploader.tsx:23-25 | empty lists and no image being processed |
| Upload.ImageUploader.HandleFileChange | paperai/src/components/ImageUploader.tsx:51-69 | an empty event changes nothing and calls back nothing; otherwise the admitted files and their previews are appended, the lists stay parallel and within a non-negative cap, and the new list is reported |
| Upload.ImageUploader.RemoveImage | paperai/src/components/ImageUploader.tsx:77-88 | both lists are spliced at the same index, so they stay parallel; the new list is reported |
| Upload.ImageUploader.ProcessImagesWithAI | paperai/src/components/ImageUploader.tsx:90-124 | no files: nothing happens; otherwise the outcome is `ExtractAll` (all texts in order, or the first error), and the marker is cleared |
| Editor.InitialMetadata | paperai/src/components/PaperEditor.tsx:40-45 | the metadata copies duration and marks; an absent term becomes `''`; the flag is true only when given as true |
| Editor.SetText | paperai/src/components/PaperEditor.tsx:99-109 | `{ ...prev, [name]: value }` for a text input; no contract of its own: `SetTextOnly` and `SetTextOverrides` state it |
| Editor.ApplyFormatChange | paperai/src/components/PaperEditor.tsx:123-128 | `{ ...prev, [type]: value }` on the format; no contract of its own: `FormatChangeOnly` states it |
| Editor.SetTextOnly | paperai/src/components/PaperEditor.tsx:99-109 | a metadata change sets the named field and keeps the others |
| Editor.SetTextOverrides | paperai/src/components/PaperEditor.tsx:101-104 | a later change of one field overrides an earlier one; changes of different fields commute |
| Editor.FormatChangeOnly | paperai/src/components/PaperEditor.tsx:123-128 | a format change sets the named attribute and keeps the other three |
| Editor.PaperEditor.constructor | paperai/src/components/PaperEditor.tsx:39-56 | the texts as given, the defaulted metadata, and the default format |
| Editor.PaperEditor.HandleTextChange | paperai/src/components/PaperEditor.tsx:93-97 | the entry at the index becomes the value; the length and the other entries are kept |
| Editor.PaperEditor.HandleMetadataChange | paperai/src/components/PaperEditor.tsx:99-109 | the named field changes, and the callback receives the updated record |
| Editor.PaperEditor.HandleCheckboxChange | paperai/src/components/PaperEditor.tsx:111-121 | the student-fields flag changes, and the callback receives the updated record |
| Editor.PaperEditor.HandleFormatChange | paperai/src/components/PaperEditor.tsx:123-128 | the format becomes the format with the change applied |
| Editor.PaperEditor.HandleSave | paperai/src/components/PaperEditor.tsx:130-132 | the current texts and format are handed on unchanged |
| Wizard.MergeFields | paperai/src/app/create-paper/page.tsx:64 | each of the nine fields of the merge takes the patch's value when present and keeps the paper's otherwise |
| Wizard.Merge | paperai/src/app/create-paper/page.tsx:64 | the object spread; no contract of its own: `MergeFields` and `MergeIdentityIdempotent` state its meaning |
| Wizard.MergeIdentityIdempotent | paperai/src/app/create-paper/page.tsx:97 | the empty patch changes nothing, and merging a patch twice equals merging it once |
| Wizard.MetadataEditKeeps | paperai/src/app/create-paper/page.tsx:96-98 | an editor metadata edit sets the four metadata fields and keeps the school, class, subject, texts and language |
| Wizard.EditorData | paperai/src/app/create-paper/page.tsx:154-160 | the editor built from the wizard's paper starts with the paper's metadata |
| Wizard.CreatePaper.constructor | paperai/src/app/create-paper/page.tsx:29-48 | step 1, no images, not processing, the default paper and the default format |
| Wizard.CreatePaper.HandleFormSubmit | paperai/src/app/create-paper/page.tsx:63-66 | the submitted fields are merged in, and step 2 follows |
| Wizard.CreatePaper.HandleImagesUpload | paperai/src/app/create-paper/page.tsx:68-70 | the image list is replaced; nothing else changes |
| Wizard.CreatePaper.ProcessImages | paperai/src/app/create-paper/page.tsx:72-76 | without images nothing changes; otherwise the processing flag goes up |
| Wizard.CreatePaper.HandleExtractedText | paperai/src/app/create-paper/page.tsx:78-85 | only the texts are replaced, the flag goes down, and step 3 follows |
| Wizard.CreatePaper.HandleTextEdit | paperai/src/app/create-paper/page.tsx:87-94 | the texts and the format are replaced, and step 4 follows |
| Wizard.CreatePaper.HandleMetadataEdit | paperai/src/app/create-paper/page.tsx:96-98 | the patch is merged in; the step is unchanged |
| Wizard.CreatePaper.GoBackFromEditor | paperai/src/app/create-paper/page.tsx:100-102 | step 2; nothing else changes |
| Wizard.CreatePaper.GoBackFromPreview | paperai/src/app/create-paper/page.tsx:104-106 | step 3; nothing else changes |
| Wizard.CreatePaper.DeliverExtractionAsWritten | paperai/src/components/ImageUploader.tsx:116-117 | reporting texts and then `onProcess` reaches step 3 with the processing flag up whenever images were uploaded |
| Wizard.CreatePaper.DeliverExtraction | paperai/src/components/ImageUploader.tsx:116-117 | with the calls swapped, step 3 is reached with the processing flag down |
| Wizard.StuckAfterGoingBack | paperai/src/components/ImageUploader.tsx:196 | as written, after a successful extraction and going back, the process button is disabled for any number of files |
| Wizard.UsableAfterGoingBack | paperai/src/components/ImageUploader.tsx:196 | with the calls swapped, the button is enabled again as soon as a file is chosen |

## Left out

- The DOM, React scheduling and effects, Quill and `DOMParser` are left out. Editor HTML is abstracted to paragraph records: text content, style attribute, and whether a `strong`/`em` element is present. HTML escaping and entity decoding beyond `&nbsp;` (U+00A0) are not modelled.
- RichText.StyleOf: the style drops the newlines and indentation of the template literal. The substring tests and the font-size pattern do not depend on that whitespace. How Quill re-serialises a style is not modelled; the round-trip lemmas speak about the style as written.
- The jsPDF drawing calls become a command list:
  - `Header` stands for the logo, school name, rules and header texts, but carries only the school name: the header texts (class and subject, the exam term when non-empty, exam time and total marks, paperai/src/components/PaperPreview.tsx:283-290) are not part of it, so edited metadata reaches the model's PDF only through the student-fields flag and the file name; `StudentFields` stands for the two blank fields; `Footer` for the page and copyright texts;
  - label strings (English or Hindi) and colours are not modelled;
  - string widths and `splitTextToSize` are oracle functions (`Metrics`), each given the text, the line's font size and face, and for wrapping the width.
- The instructions branch of `generatePDF` is not modelled. The instruction label is empty in both locales (paperai/src/components/PaperPreview.tsx:443, :473), so the branch never draws.
- `doc.save`, `window.print`, `alert` and `console.error` are I/O. The `try`/`catch` of `generatePDF` is not modelled: the model has no failing drawing call.
- Upload.ImageUploader.HandleFileChange: `URL.createObjectURL` is a function parameter. Each call of the real one returns a fresh URL. `revokeObjectURL` in `removeImage` (paperai/src/components/ImageUploader.tsx:81) only releases memory and is left out.
- Upload.ImageUploader.ProcessImagesWithAI:
  - the `fetch` to the extraction endpoint and the OCR service behind it are one function parameter that may fail with a status;
  - a response whose JSON lacks `extractedText` is not modelled;
  - the outcome is returned, and the wizard's `onExtractedText`/`onProcess` are applied by `Wizard.CreatePaper` methods;
  - the `await` points are not modelled, so nothing else runs while a request is in flight.
- Preview.PaperPreview.ProcessRichTextContent: `Object.entries` visits integer keys in ascending order. Keys are always indices of shown blocks (a `Valid` invariant). The precision of `parseInt` on key strings is not modelled.
- Editor.PaperEditor.HandleFormatChange: no control of the editor calls it, so the format handed on by `handleSave` is always the default. The model does not prove that.
- Editor.PaperEditor.HandleTextChange: JavaScript would extend the array when assigning beyond its end. The textareas only pass indices of existing entries, so the model requires one.
- `handleMetadataChange` sends the record from its render to `onMetadataEdit`. Because the model is sequential, that record is the current state.
- The per-step rendering of the wizard is not modelled: which component is shown and the remounting of the uploader when step 2 returns. The details form (`PaperForm`) and the landing page are not part of this model.

## Findings

| source | as written | input that shows it | evidently intended | confidence | as-written member | corrected member |
|---|---|---|---|---|---|---|
| paperai/src/components/ImageUploader.tsx:116-117 | after a successful extraction the uploader calls `onExtractedText` (which clears `isProcessing`) and then `onProcess` (which sets it again whenever images were uploaded). The wizard reaches step 3 still processing. Going back to step 2 leaves the process button (ImageUploader.tsx:196) and the remove buttons (:179) disabled. | upload one image, let its extraction succeed, press back in the editor | the processing flag is down once the texts have been delivered, so the uploader is usable again | not executed | Wizard.CreatePaper.DeliverExtractionAsWritten, Wizard.StuckAfterGoingBack | Wizard.CreatePaper.DeliverExtraction, Wizard.UsableAfterGoingBack |
