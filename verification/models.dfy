/** The records the services work on (models/chat_session.py, models/section.py,
    models/book.py). Creation and update timestamps are not modelled. */
module Models {
  import opened Common

  datatype Role = User | Assistant

  /** The seven kinds of transcript message. */
  datatype MessageType = NextQuestion | Question | Answer | Feedback | Explanation | Help | Other

  /** What the message classifier may answer: one of answer, help or other. */
  type Route = t: MessageType | t.Answer? || t.Help? || t.Other? witness Answer

  datatype Message = Message(
    id: Id,
    previousId: Option<Id>,
    role: Role,
    kind: MessageType,
    content: string,
    feedback: Option<string>,
    score: Option<real>,
    questionId: Option<Id>)

  datatype Session = Session(
    id: Id,
    userId: Id,
    documentId: Id,
    sectionIds: seq<Id>,
    messages: seq<Message>,
    overallScore: Option<real>,
    numberOfQuestions: int)

  /** The derived, never stored, view of a session. */
  datatype Summary = Summary(
    overallScore: real,
    numberOfQuestions: int,
    numberOfAnsweredQuestions: nat,
    sectionTitles: seq<string>)

  datatype QuestionItem = QuestionItem(id: Id, question: string, kind: string)

  datatype Section = Section(
    id: Id,
    bookId: Id,
    name: string,
    order: int,
    startPage: int,
    endPage: int,
    text: Option<string>,
    questions: seq<QuestionItem>)

  datatype Book = Book(
    id: Id,
    userId: Id,
    title: string,
    kind: string,
    s3Path: string,
    pages: nat,
    firstPage: Option<int>)
}
