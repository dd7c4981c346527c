/**
 * The text editor step: one editable text per image, the paper's metadata
 * fields, and a text format that is handed on with the texts when the
 * paper is viewed.
 */
module Editor {
  import opened Wrappers
  import opened TextBlocks
  import opened Paper

  /** The paper fields the editor receives; `examTerm` and `hasStudentFields` may be absent. */
  datatype PaperData = PaperData(
    schoolName: string,
    className: string,
    subject: string,
    examTime: string,
    totalMarks: string,
    language: Language,
    examTerm: Option<string>,
    hasStudentFields: Option<bool>)

  /** The editor's metadata record, also the payload of `onMetadataEdit`. */
  datatype Metadata = Metadata(examTime: string, totalMarks: string, examTerm: string, hasStudentFields: bool)

  /** The text inputs of the metadata form, by their `name` attribute. */
  datatype TextField = ExamTime | TotalMarks | ExamTerm

  /** The attributes `handleFormatChange` can set, each with its new value. */
  datatype FormatChange = SetBold(bold: bool) | SetItalic(italic: bool) | SetFontSize(size: nat) | SetAlignment(alignment: Alignment)

  /**
   * The metadata taken from the paper data, with `''` for an absent exam
   * term and `false` for an absent or false student-fields flag (`x || d`).
   * A string is falsy only when empty, so `examTime || ''` is `examTime`.
   */
  function InitialMetadata(d: PaperData): (m: Metadata)
    ensures m.examTime == d.examTime && m.totalMarks == d.totalMarks
    ensures m.examTerm == (if d.examTerm.Some? then d.examTerm.value else "")
    ensures m.hasStudentFields <==> d.hasStudentFields == Some(true)
  {
    Metadata(
      d.examTime,
      d.totalMarks,
      match d.examTerm case Some(t) => t case None => "",
      match d.hasStudentFields case Some(b) => b case None => false)
  }

  /** `{ ...m, [name]: value }` for a text input. */
  function SetText(m: Metadata, field: TextField, value: string): Metadata {
    match field
    case ExamTime => m.(examTime := value)
    case TotalMarks => m.(totalMarks := value)
    case ExamTerm => m.(examTerm := value)
  }

  /** The named text field reads back the new value; every other field is unchanged. */
  lemma SetTextOnly(m: Metadata, field: TextField, value: string)
    ensures var r := SetText(m, field, value);
      && r.hasStudentFields == m.hasStudentFields
      && r.examTime == (if field == ExamTime then value else m.examTime)
      && r.totalMarks == (if field == TotalMarks then value else m.totalMarks)
      && r.examTerm == (if field == ExamTerm then value else m.examTerm)
  {
  }

  /** A later change of the same field overrides an earlier one; changes of different fields commute. */
  lemma SetTextOverrides(m: Metadata, f: TextField, g: TextField, v: string, w: string)
    ensures SetText(SetText(m, f, v), f, w) == SetText(m, f, w)
    ensures f != g ==> SetText(SetText(m, f, v), g, w) == SetText(SetText(m, g, w), f, v)
  {
  }

  /** `{ ...prev, [type]: value }` on the format. */
  function ApplyFormatChange(f: TextFormat, c: FormatChange): TextFormat {
    match c
    case SetBold(b) => f.(isBold := b)
    case SetItalic(i) => f.(isItalic := i)
    case SetFontSize(n) => f.(fontSize := n)
    case SetAlignment(a) => f.(alignment := a)
  }

  /** A format change sets the named attribute and keeps the other three. */
  lemma FormatChangeOnly(f: TextFormat, c: FormatChange)
    ensures var r := ApplyFormatChange(f, c);
      && r.isBold == (if c.SetBold? then c.bold else f.isBold)
      && r.isItalic == (if c.SetItalic? then c.italic else f.isItalic)
      && r.fontSize == (if c.SetFontSize? then c.size else f.fontSize)
      && r.alignment == (if c.SetAlignment? then c.alignment else f.alignment)
  {
  }

  class PaperEditor {
    var editedText: seq<string>
    var metadata: Metadata
    var textFormat: TextFormat

    /** The initial state from the props: the extracted texts, the defaulted metadata and the default format. */
    constructor(extractedText: seq<string>, paperData: PaperData)
      ensures editedText == extractedText
      ensures metadata == InitialMetadata(paperData)
      ensures textFormat == DefaultFormat
    {
      editedText := extractedText;
      metadata := InitialMetadata(paperData);
      textFormat := DefaultFormat;
    }

    /** A textarea edit: entry `index` becomes `value`; the length and every other entry are kept. */
    method HandleTextChange(index: nat, value: string)
      requires index < |editedText|
      modifies this
      ensures |editedText| == |old(editedText)| && editedText[index] == value
      ensures forall j :: 0 <= j < |editedText| && j != index ==> editedText[j] == old(editedText)[j]
      ensures metadata == old(metadata) && textFormat == old(textFormat)
    {
      var newText := editedText;
      newText := newText[index := value];
      editedText := newText;
    }

    /** A text input of the metadata form changes; the updated record is also handed to `onMetadataEdit`. */
    method HandleMetadataChange(field: TextField, value: string) returns (edited: Metadata)
      modifies this
      ensures metadata == SetText(old(metadata), field, value) && edited == metadata
      ensures editedText == old(editedText) && textFormat == old(textFormat)
    {
      metadata := SetText(metadata, field, value);
      edited := metadata;
    }

    /** The student-fields checkbox changes; the updated record is also handed to `onMetadataEdit`. */
    method HandleCheckboxChange(checked: bool) returns (edited: Metadata)
      modifies this
      ensures metadata == old(metadata).(hasStudentFields := checked) && edited == metadata
      ensures editedText == old(editedText) && textFormat == old(textFormat)
    {
      metadata := metadata.(hasStudentFields := checked);
      edited := metadata;
    }

    method HandleFormatChange(change: FormatChange)
      modifies this
      ensures textFormat == ApplyFormatChange(old(textFormat), change)
      ensures editedText == old(editedText) && metadata == old(metadata)
    {
      textFormat := ApplyFormatChange(textFormat, change);
    }

    /** `handleSave`: the current texts and format are handed to `onSave` as they are. */
    method HandleSave() returns (texts: seq<string>, format: TextFormat)
      ensures texts == editedText && format == textFormat
    {
      texts := editedText;
      format := textFormat;
    }
  }
}
