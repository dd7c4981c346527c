/** The exam paper record the wizard builds and the editor and preview receive. */
module Paper {

  /** The two interface languages (`'english'`, `'hindi'`). */
  datatype Language = English | Hindi

  datatype ExamPaper = ExamPaper(
    schoolName: string,
    className: string,
    subject: string,
    examTime: string,
    totalMarks: string,
    extractedText: seq<string>,
    language: Language,
    examTerm: string,
    hasStudentFields: bool)
}
