/**
 * The paper-creation wizard: four steps (details, images, editing,
 * preview), the uploaded images, the processing flag, the paper being
 * built and the text format chosen in the editor.
 */
module Wizard {
  import opened Wrappers
  import opened TextBlocks
  import opened Paper
  import opened Upload
  import opened Editor

  /** The paper the wizard starts with. */
  const DefaultPaper: ExamPaper :=
    ExamPaper("SHASHWAT PUBLIC SCHOOL", "", "", "", "", [], English, "", false)

  /** A `Partial<ExamPaper>`: the fields present in a form submission or a metadata edit. */
  datatype PaperPatch = PaperPatch(
    schoolName: Option<string>,
    className: Option<string>,
    subject: Option<string>,
    examTime: Option<string>,
    totalMarks: Option<string>,
    extractedText: Option<seq<string>>,
    language: Option<Language>,
    examTerm: Option<string>,
    hasStudentFields: Option<bool>)

  function Pick<T>(patched: Option<T>, current: T): T {
    match patched case Some(v) => v case None => current
  }

  /** `{ ...prev, ...patch }`. */
  function Merge(p: ExamPaper, patch: PaperPatch): ExamPaper {
    ExamPaper(
      Pick(patch.schoolName, p.schoolName),
      Pick(patch.className, p.className),
      Pick(patch.subject, p.subject),
      Pick(patch.examTime, p.examTime),
      Pick(patch.totalMarks, p.totalMarks),
      Pick(patch.extractedText, p.extractedText),
      Pick(patch.language, p.language),
      Pick(patch.examTerm, p.examTerm),
      Pick(patch.hasStudentFields, p.hasStudentFields))
  }

  /** A merged field takes the patch's value when present and keeps the paper's otherwise. */
  lemma MergeFields(p: ExamPaper, patch: PaperPatch)
    ensures var r := Merge(p, patch);
      && (patch.schoolName.None? ==> r.schoolName == p.schoolName)
      && (patch.schoolName.Some? ==> r.schoolName == patch.schoolName.value)
      && (patch.className.None? ==> r.className == p.className)
      && (patch.className.Some? ==> r.className == patch.className.value)
      && (patch.subject.None? ==> r.subject == p.subject)
      && (patch.subject.Some? ==> r.subject == patch.subject.value)
      && (patch.examTime.None? ==> r.examTime == p.examTime)
      && (patch.examTime.Some? ==> r.examTime == patch.examTime.value)
      && (patch.totalMarks.None? ==> r.totalMarks == p.totalMarks)
      && (patch.totalMarks.Some? ==> r.totalMarks == patch.totalMarks.value)
      && (patch.extractedText.None? ==> r.extractedText == p.extractedText)
      && (patch.extractedText.Some? ==> r.extractedText == patch.extractedText.value)
      && (patch.language.None? ==> r.language == p.language)
      && (patch.language.Some? ==> r.language == patch.language.value)
      && (patch.hasStudentFields.None? ==> r.hasStudentFields == p.hasStudentFields)
      && (patch.hasStudentFields.Some? ==> r.hasStudentFields == patch.hasStudentFields.value)
      && (patch.examTerm.None? ==> r.examTerm == p.examTerm)
      && (patch.examTerm.Some? ==> r.examTerm == patch.examTerm.value)
  {
  }

  /** The empty patch changes nothing, and merging the same patch twice is merging it once. */
  lemma MergeIdentityIdempotent(p: ExamPaper, patch: PaperPatch)
    ensures Merge(p, PaperPatch(None, None, None, None, None, None, None, None, None)) == p
    ensures Merge(Merge(p, patch), patch) == Merge(p, patch)
  {
  }

  /** The editor's metadata record as a patch: its four fields, nothing else. */
  function MetadataPatch(m: Metadata): PaperPatch {
    PaperPatch(None, None, None, Some(m.examTime), Some(m.totalMarks), None, None, Some(m.examTerm), Some(m.hasStudentFields))
  }

  /** A metadata edit sets the four metadata fields and keeps the school, the texts and the language. */
  lemma MetadataEditKeeps(p: ExamPaper, m: Metadata)
    ensures var r := Merge(p, MetadataPatch(m));
      && r.examTime == m.examTime && r.totalMarks == m.totalMarks
      && r.examTerm == m.examTerm && r.hasStudentFields == m.hasStudentFields
      && r.schoolName == p.schoolName && r.className == p.className && r.subject == p.subject
      && r.extractedText == p.extractedText && r.language == p.language
  {
  }

  /** The paper data the editor is given (`paperData={examPaper}`): both optional fields present. */
  function EditorData(p: ExamPaper): (d: PaperData)
    ensures InitialMetadata(d) == Metadata(p.examTime, p.totalMarks, p.examTerm, p.hasStudentFields)
  {
    PaperData(p.schoolName, p.className, p.subject, p.examTime, p.totalMarks, p.language, Some(p.examTerm), Some(p.hasStudentFields))
  }

  class CreatePaper {
    var step: nat
    var images: seq<ImageFile>
    var isProcessing: bool
    var examPaper: ExamPaper
    var textFormat: TextFormat

    /** The step is one of the four the wizard shows. */
    ghost predicate Valid()
      reads this
    {
      1 <= step <= 4
    }

    constructor()
      ensures Valid()
      ensures step == 1 && images == [] && !isProcessing
      ensures examPaper == DefaultPaper && textFormat == DefaultFormat
    {
      step := 1;
      images := [];
      isProcessing := false;
      examPaper := DefaultPaper;
      textFormat := DefaultFormat;
    }

    /** The details form is submitted: its fields are merged into the paper and the images step follows. */
    method HandleFormSubmit(data: PaperPatch)
      modifies this
      ensures Valid()
      ensures examPaper == Merge(old(examPaper), data) && step == 2
      ensures images == old(images) && isProcessing == old(isProcessing) && textFormat == old(textFormat)
    {
      examPaper := Merge(examPaper, data);
      step := 2;
    }

    /** The uploader reports its current list of files. */
    method HandleImagesUpload(files: seq<ImageFile>)
      requires Valid()
      modifies this
      ensures Valid()
      ensures images == files
      ensures step == old(step) && isProcessing == old(isProcessing)
      ensures examPaper == old(examPaper) && textFormat == old(textFormat)
    {
      images := files;
    }

    /** `processImages`: nothing without images; otherwise the processing flag goes up. */
    method ProcessImages()
      requires Valid()
      modifies this
      ensures Valid()
      ensures isProcessing == (old(isProcessing) || |images| > 0)
      ensures step == old(step) && images == old(images)
      ensures examPaper == old(examPaper) && textFormat == old(textFormat)
    {
      if |images| == 0 {
        return;
      }
      isProcessing := true;
    }

    /** The extracted texts arrive: they replace the paper's texts, the flag goes down, the editor step follows. */
    method HandleExtractedText(texts: seq<string>)
      modifies this
      ensures Valid()
      ensures examPaper == old(examPaper).(extractedText := texts)
      ensures !isProcessing && step == 3
      ensures images == old(images) && textFormat == old(textFormat)
    {
      examPaper := examPaper.(extractedText := texts);
      isProcessing := false;
      step := 3;
    }

    /** The editor saves: its texts replace the paper's, its format is kept, the preview step follows. */
    method HandleTextEdit(editedText: seq<string>, formatOptions: TextFormat)
      modifies this
      ensures Valid()
      ensures examPaper == old(examPaper).(extractedText := editedText)
      ensures textFormat == formatOptions && step == 4
      ensures images == old(images) && isProcessing == old(isProcessing)
    {
      examPaper := examPaper.(extractedText := editedText);
      textFormat := formatOptions;
      step := 4;
    }

    /** A metadata edit is merged into the paper without changing the step. */
    method HandleMetadataEdit(metadata: PaperPatch)
      requires Valid()
      modifies this
      ensures Valid()
      ensures examPaper == Merge(old(examPaper), metadata)
      ensures step == old(step) && images == old(images)
      ensures isProcessing == old(isProcessing) && textFormat == old(textFormat)
    {
      examPaper := Merge(examPaper, metadata);
    }

    /** Back from the editor to the images step. */
    method GoBackFromEditor()
      modifies this
      ensures Valid() && step == 2
      ensures images == old(images) && isProcessing == old(isProcessing)
      ensures examPaper == old(examPaper) && textFormat == old(textFormat)
    {
      step := 2;
    }

    /** Back from the preview to the editor step. */
    method GoBackFromPreview()
      modifies this
      ensures Valid() && step == 3
      ensures images == old(images) && isProcessing == old(isProcessing)
      ensures examPaper == old(examPaper) && textFormat == old(textFormat)
    {
      step := 3;
    }

    /**
     * A successful extraction as the uploader reports it: `onExtractedText`
     * and then `onProcess`. The second call raises the flag the first has
     * just lowered, so the wizard reaches the editor still processing.
     */
    method DeliverExtractionAsWritten(texts: seq<string>)
      requires Valid()
      modifies this
      ensures Valid() && step == 3
      ensures examPaper == old(examPaper).(extractedText := texts)
      ensures isProcessing <==> |images| > 0
      ensures images == old(images) && textFormat == old(textFormat)
    {
      HandleExtractedText(texts);
      ProcessImages();
    }

    /**
     * The same report with the two calls in the intended order: the flag
     * is down when the editor step is reached.
     */
    method DeliverExtraction(texts: seq<string>)
      requires Valid()
      modifies this
      ensures Valid() && step == 3
      ensures examPaper == old(examPaper).(extractedText := texts)
      ensures !isProcessing
      ensures images == old(images) && textFormat == old(textFormat)
    {
      ProcessImages();
      HandleExtractedText(texts);
    }
  }

  /**
   * As written, once images were uploaded and their texts delivered, going
   * back to the images step leaves the process button disabled for every
   * number of chosen files.
   */
  method StuckAfterGoingBack(w: CreatePaper, files: seq<ImageFile>, texts: seq<string>)
    requires w.Valid() && |files| > 0
    modifies w
    ensures w.step == 2
    ensures forall n: nat :: ProcessDisabled(n, w.isProcessing)
  {
    w.HandleImagesUpload(files);
    w.DeliverExtractionAsWritten(texts);
    w.GoBackFromEditor();
  }

  /** With the calls in the intended order, the button is enabled again as soon as a file is chosen. */
  method UsableAfterGoingBack(w: CreatePaper, files: seq<ImageFile>, texts: seq<string>)
    requires w.Valid() && |files| > 0
    modifies w
    ensures w.step == 2
    ensures forall n: nat :: ProcessDisabled(n, w.isProcessing) <==> n == 0
  {
    w.HandleImagesUpload(files);
    w.DeliverExtraction(texts);
    w.GoBackFromEditor();
  }
}
