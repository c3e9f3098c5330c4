/** services/chat_service.py: the quiz session. A session walks a queue of
    questions; the user answers, asks for help or types "next", and every
    exchange is appended to the session's transcript. The language-model
    classifier, evaluator and explainer are uninterpreted functions. */
module Chat {
  import opened Common
  import opened Text
  import opened Models
  import opened Store
  import opened Books
  import opened Sections

  const AllDone := "__ALL_DONE__"
  const NextCommand := "next"
  const OtherReply := "Please provide an answer or ask for help. If you want to skip the question, type 'next'."

  /** The reply to an answer, with the evaluator's feedback and score. */
  function FeedbackReply(feedback: string, score: string): string
  {
    "Feedback: " + feedback + "\n\nScore: " + score + " \n\n for next question type 'next'"
  }

  // ---------------------------------------------------------------- questions

  /** `sectionIds[i]` is the first of the ids that names no section. */
  ghost predicate FirstMissing(docs: seq<Section>, sectionIds: seq<Id>, i: int)
  {
    && 0 <= i < |sectionIds| && Get(docs, sectionIds[i]).None?
    && forall j :: 0 <= j < i ==> Get(docs, sectionIds[j]).Some?
  }

  /** The questions `init_chat_session` collects: the question lists of the
      given sections concatenated in the order given, or the error for the
      first id that names no section. */
  function QuestionsOf(docs: seq<Section>, sectionIds: seq<Id>): (r: Result<seq<QuestionItem>>)
    ensures r.Ok? <==> forall i :: 0 <= i < |sectionIds| ==> Get(docs, sectionIds[i]).Some?
    ensures r.Err? ==> exists i :: FirstMissing(docs, sectionIds, i) && r.error == SectionNotFound(sectionIds[i])
    decreases |sectionIds|
  {
    if sectionIds == [] then Ok([])
    else
      var init, last := sectionIds[..|sectionIds| - 1], sectionIds[|sectionIds| - 1];
      assert forall i :: 0 <= i < |init| ==> init[i] == sectionIds[i];
      match QuestionsOf(docs, init)
      case Err(e) => Err(e)
      case Ok(qs) =>
        match Get(docs, last)
        case None => Err(SectionNotFound(last))
        case Some(s) => Ok(qs + s.questions)
  }

  /** A question is collected exactly when one of the listed sections holds it. */
  lemma {:induction false} QuestionsOfMembers(docs: seq<Section>, sectionIds: seq<Id>, q: QuestionItem)
    requires QuestionsOf(docs, sectionIds).Ok?
    ensures q in QuestionsOf(docs, sectionIds).value <==>
      exists i :: 0 <= i < |sectionIds| && q in Get(docs, sectionIds[i]).value.questions
    decreases |sectionIds|
  {
    if sectionIds != [] {
      var init, last := sectionIds[..|sectionIds| - 1], sectionIds[|sectionIds| - 1];
      QuestionsOfMembers(docs, init, q);
      assert forall i :: 0 <= i < |init| ==> init[i] == sectionIds[i];
      if q in Get(docs, last).value.questions {
        assert 0 <= |sectionIds| - 1 < |sectionIds| && sectionIds[|sectionIds| - 1] == last;
      }
    }
  }

  /** Once a prefix of the ids fails, the whole list fails the same way. */
  lemma {:induction false} QuestionsOfFailsEarly(docs: seq<Section>, sectionIds: seq<Id>, k: nat)
    requires k <= |sectionIds| && QuestionsOf(docs, sectionIds[..k]).Err?
    ensures QuestionsOf(docs, sectionIds) == QuestionsOf(docs, sectionIds[..k])
    decreases |sectionIds| - k
  {
    if k < |sectionIds| {
      var longer := sectionIds[..k + 1];
      assert longer[..|longer| - 1] == sectionIds[..k];
      QuestionsOfStep(docs, longer);
      QuestionsOfFailsEarly(docs, sectionIds, k + 1);
    } else {
      assert sectionIds[..k] == sectionIds;
    }
  }

  lemma QuestionsOfStep(docs: seq<Section>, sectionIds: seq<Id>)
    requires sectionIds != [] && QuestionsOf(docs, sectionIds[..|sectionIds| - 1]).Err?
    ensures QuestionsOf(docs, sectionIds) == QuestionsOf(docs, sectionIds[..|sectionIds| - 1])
  {
  }

  /** Position of the first queued question not answered yet. */
  function FirstUnanswered(questions: seq<QuestionItem>, answered: set<Id>): (r: Option<nat>)
    ensures r.Some? ==> r.value < |questions| && questions[r.value].id !in answered
    ensures r.Some? ==> forall j :: 0 <= j < r.value ==> questions[j].id in answered
    ensures r.None? <==> forall j :: 0 <= j < |questions| ==> questions[j].id in answered
  {
    if questions == [] then None
    else if questions[0].id !in answered then Some(0)
    else match FirstUnanswered(questions[1..], answered)
      case None => None
      case Some(k) => Some(k + 1)
  }

  // --------------------------------------------------------------- transcript

  /** Each message points at the one before it, the first at nothing. */
  ghost predicate Linked(msgs: seq<Message>)
  {
    && (msgs != [] ==> msgs[0].previousId == None)
    && forall i :: 0 < i < |msgs| ==> msgs[i].previousId == Some(msgs[i - 1].id)
  }

  /** The session state a `ChatService` keeps sound: a linked transcript
      whose feedback messages carry scores and whose ids come from the
      supply `n` has not handed out yet. */
  ghost predicate Sound(st: (Option<Session>, nat))
  {
    st.0.Some? ==>
      var msgs := st.0.value.messages;
      && Linked(msgs)
      && (forall i :: 0 <= i < |msgs| && msgs[i].kind == Feedback ==> msgs[i].score.Some?)
      && (forall i :: 0 <= i < |msgs| ==> msgs[i].id < st.1)
  }

  function LastId(msgs: seq<Message>): Option<Id>
  {
    if msgs == [] then None else Some(msgs[|msgs| - 1].id)
  }

  /** `add_message` on a session and an id supply: nothing without a
      session; otherwise one message appended, all earlier ones kept. */
  function Log(st: (Option<Session>, nat), role: Role, kind: MessageType, content: string,
               questionId: Id, feedback: Option<string>, score: Option<real>): (r: (Option<Session>, nat))
    ensures st.0.None? ==> r == st
    ensures st.0.Some? ==>
      var before := st.0.value.messages;
      && r.0.Some? && r.1 == st.1 + 1
      && r.0.value.(messages := before) == st.0.value
      && |r.0.value.messages| == |before| + 1 && r.0.value.messages[..|before|] == before
  {
    match st.0
    case None => st
    case Some(s) =>
      var m := Message(st.1, LastId(s.messages), role, kind, content, feedback, score, Some(questionId));
      (Some(s.(messages := s.messages + [m])), st.1 + 1)
  }

  /** Appending keeps the transcript linked, scored and fresh; the new
      message points at the previous last one. */
  lemma LogKeepsSound(st: (Option<Session>, nat), role: Role, kind: MessageType, content: string,
                      questionId: Id, feedback: Option<string>, score: Option<real>)
    requires Sound(st)
    requires kind == Feedback ==> score.Some?
    ensures Sound(Log(st, role, kind, content, questionId, feedback, score))
    ensures st.0.Some? ==>
      var msgs := Log(st, role, kind, content, questionId, feedback, score).0.value.messages;
      msgs[|msgs| - 1].previousId == LastId(st.0.value.messages) && msgs[|msgs| - 1].id == st.1
  {
    if st.0.Some? {
      var before := st.0.value.messages;
      var msgs := Log(st, role, kind, content, questionId, feedback, score).0.value.messages;
      assert msgs == before + [msgs[|before|]];
      forall i | 0 < i < |msgs| ensures msgs[i].previousId == Some(msgs[i - 1].id) {
        if i < |before| {
          assert msgs[i] == before[i] && msgs[i - 1] == before[i - 1];
        }
      }
    }
  }

  /** A history entry: the role and text of one message. */
  datatype Turn = Turn(role: Role, content: string)

  /** `get_history_messages`: role and text of every message, in order. */
  function History(session: Option<Session>): (r: seq<Turn>)
    ensures session.None? ==> r == []
    ensures session.Some? ==> |r| == |session.value.messages|
  {
    match session
    case None => []
    case Some(s) => MapAll(s.messages, (m: Message) => Turn(m.role, m.content))
  }

  /** Each logged message adds its role and text to the end of the history. */
  lemma HistoryLog(st: (Option<Session>, nat), role: Role, kind: MessageType, content: string,
                   questionId: Id, feedback: Option<string>, score: Option<real>)
    ensures History(Log(st, role, kind, content, questionId, feedback, score).0) ==
      History(st.0) + (if st.0.Some? then [Turn(role, content)] else [])
  {
  }

  function IsFeedback(m: Message): bool
  {
    m.kind == Feedback
  }

  function ScoreOf(m: Message): Option<real>
  {
    m.score
  }

  /** `get_assistant_feedback_scores`: the score of every feedback
      message, in order, and none without a session. */
  function FeedbackScores(session: Option<Session>): (r: seq<Option<real>>)
    ensures session.None? ==> r == []
    ensures session.Some? ==> |r| == |Filter(session.value.messages, IsFeedback)|
    ensures session.Some? ==> forall i :: 0 <= i < |r| ==>
      exists m :: m in session.value.messages && m.kind == Feedback && r[i] == m.score
  {
    match session
    case None => []
    case Some(s) =>
      var kept := Filter(s.messages, IsFeedback);
      assert forall i :: 0 <= i < |kept| ==> kept[i] in s.messages && kept[i].kind == Feedback;
      MapAll(kept, ScoreOf)
  }

  /** Appending a message adds its score at the end exactly when it is feedback. */
  lemma ScoresAppend(before: seq<Message>, m: Message)
    ensures MapAll(Filter(before + [m], IsFeedback), ScoreOf) ==
      MapAll(Filter(before, IsFeedback), ScoreOf) + (if m.kind == Feedback then [m.score] else [])
  {
    FilterAppend(before, [m], IsFeedback);
    FilterCons(m, [], IsFeedback);
    if m.kind == Feedback {
      MapAllSnoc(Filter(before, IsFeedback), m, ScoreOf);
    } else {
      assert Filter(before, IsFeedback) + [] == Filter(before, IsFeedback);
    }
  }

  /** Only a feedback message adds a score, at the end. */
  lemma FeedbackScoresLog(st: (Option<Session>, nat), role: Role, kind: MessageType, content: string,
                          questionId: Id, feedback: Option<string>, score: Option<real>)
    ensures FeedbackScores(Log(st, role, kind, content, questionId, feedback, score).0) ==
      FeedbackScores(st.0) + (if st.0.Some? && kind == Feedback then [score] else [])
  {
    if st.0.Some? {
      var before := st.0.value.messages;
      var msgs := Log(st, role, kind, content, questionId, feedback, score).0.value.messages;
      var m := msgs[|before|];
      assert msgs == before + [m];
      ScoresAppend(before, m);
    }
  }

  /** Python's `sum` over the scores, None when one of them is None. */
  function Total(scores: seq<Option<real>>): (r: Option<real>)
    ensures r.Some? <==> forall i :: 0 <= i < |scores| ==> scores[i].Some?
  {
    if scores == [] then Some(0.0)
    else match Total(scores[..|scores| - 1])
      case None => None
      case Some(t) =>
        match scores[|scores| - 1]
        case None => None
        case Some(x) => Some(t + x)
  }

  /** `sum(scores) / len(scores)`: TypeError when a score is None,
      ZeroDivisionError for no scores at all. */
  function Mean(scores: seq<Option<real>>): (r: Result<real>)
    ensures r.Ok? <==> scores != [] && forall i :: 0 <= i < |scores| ==> scores[i].Some?
    ensures r.Err? ==> r.error == if scores == [] then ZeroDivisionError else TypeError
  {
    match Total(scores)
    case None => Err(TypeError)
    case Some(t) => if |scores| == 0 then Err(ZeroDivisionError) else Ok(t / |scores| as real)
  }

  lemma {:induction false} TotalWithin(scores: seq<Option<real>>, lo: real, hi: real)
    requires forall i :: 0 <= i < |scores| ==> scores[i].Some? && lo <= scores[i].value <= hi
    ensures Total(scores).Some?
    ensures lo * |scores| as real <= Total(scores).value <= hi * |scores| as real
  {
    if scores != [] {
      var init := scores[..|scores| - 1];
      TotalWithin(init, lo, hi);
      assert lo * |scores| as real == lo * |init| as real + lo;
      assert hi * |scores| as real == hi * |init| as real + hi;
    }
  }

  /** The mean of scores that all lie between `lo` and `hi` lies between
      them too. */
  lemma MeanWithin(scores: seq<Option<real>>, lo: real, hi: real)
    requires scores != []
    requires forall i :: 0 <= i < |scores| ==> scores[i].Some? && lo <= scores[i].value <= hi
    ensures Mean(scores).Ok? && lo <= Mean(scores).value <= hi
  {
    TotalWithin(scores, lo, hi);
    DivWithin(Total(scores).value, |scores| as real, lo, hi);
  }

  lemma DivWithin(t: real, n: real, lo: real, hi: real)
    requires n > 0.0 && lo * n <= t <= hi * n
    ensures lo <= t / n <= hi
  {
    var q := t / n;
    assert q * n == t;
    assert (q - lo) * n >= 0.0;
    assert (hi - q) * n >= 0.0;
  }

  /** `calculate_overall_score` without the rounding to one decimal: 0
      without a session, otherwise the mean of the feedback scores. */
  function OverallScore(session: Option<Session>): (r: Result<real>)
    ensures session.None? ==> r == Ok(0.0)
    ensures session.Some? ==> (FeedbackScores(session) == [] <==> r == Err(ZeroDivisionError))
  {
    if session.None? then Ok(0.0) else Mean(FeedbackScores(session))
  }

  /** In a sound session the overall score exists as soon as one answer
      was scored, and lies within the range of the scores given. */
  lemma OverallScoreWithin(st: (Option<Session>, nat), lo: real, hi: real)
    requires Sound(st) && st.0.Some? && FeedbackScores(st.0) != []
    requires forall i :: 0 <= i < |FeedbackScores(st.0)| ==>
      FeedbackScores(st.0)[i].Some? && lo <= FeedbackScores(st.0)[i].value <= hi
    ensures OverallScore(st.0).Ok? && lo <= OverallScore(st.0).value <= hi
  {
    MeanWithin(FeedbackScores(st.0), lo, hi);
  }

  /** Every feedback score of a sound session is present. */
  lemma SoundScoresPresent(st: (Option<Session>, nat))
    requires Sound(st)
    ensures forall i :: 0 <= i < |FeedbackScores(st.0)| ==> FeedbackScores(st.0)[i].Some?
  {
  }

  /** Setting a session's score and question count keeps it sound. */
  lemma SoundRescored(s: Session, saved: Session, n: nat)
    requires Sound((Some(s), n)) && saved.messages == s.messages
    ensures Sound((Some(saved), n))
  {
  }

  // ------------------------------------------------------------------ summary

  /** `f"{section.order}. {section.name}"` */
  function TitleOf(s: Section): string
  {
    IntToString(s.order) + ". " + s.name
  }

  function InSession(sectionIds: seq<Id>): Section -> bool
  {
    (s: Section) => s.id in sectionIds
  }

  /** Selects the book's sections that a session covers. */
  function Covered(bookId: Id, sectionIds: seq<Id>): Section -> bool
  {
    (d: Section) => d.bookId == bookId && d.id in sectionIds
  }

  /** Listing the book's sections and then keeping the covered ones picks the
      covered sections of the whole collection, in collection order. */
  lemma SummaryPicks(docs: seq<Section>, bookId: Id, sectionIds: seq<Id>)
    ensures Filter(Filter(docs, Listed(bookId, false)), InSession(sectionIds)) == Filter(docs, Covered(bookId, sectionIds))
  {
    FilterFilter(docs, Listed(bookId, false), InSession(sectionIds));
    FilterCongruent(docs, Both(Listed(bookId, false), InSession(sectionIds)), Covered(bookId, sectionIds));
  }

  /** The sections a summary lists are exactly the book's sections that the
      session covers. */
  lemma {:induction false} SummarySections(docs: seq<Section>, bookId: Id, sectionIds: seq<Id>, s: Section)
    ensures s in Filter(Filter(docs, Listed(bookId, false)), InSession(sectionIds)) <==>
      s in docs && s.bookId == bookId && s.id in sectionIds
  {
    FilterMember(Filter(docs, Listed(bookId, false)), InSession(sectionIds), s);
    FilterMember(docs, Listed(bookId, false), s);
  }

  /** The titles a summary lists are those of the book's sections that the
      session covers, one per section, in collection order. */
  lemma SummaryTitles(docs: seq<Section>, bookId: Id, sectionIds: seq<Id>)
    ensures MapAll(Filter(Filter(docs, Listed(bookId, false)), InSession(sectionIds)), TitleOf) ==
      MapAll(Filter(docs, Covered(bookId, sectionIds)), TitleOf)
    ensures var titles := MapAll(Filter(Filter(docs, Listed(bookId, false)), InSession(sectionIds)), TitleOf);
      forall t :: t in titles <==>
        exists d :: d in docs && d.bookId == bookId && d.id in sectionIds && t == TitleOf(d)
  {
    SummaryPicks(docs, bookId, sectionIds);
    var picked := Filter(Filter(docs, Listed(bookId, false)), InSession(sectionIds));
    forall t | t in MapAll(picked, TitleOf)
      ensures exists d :: d in docs && d.bookId == bookId && d.id in sectionIds && t == TitleOf(d)
    {
      TitleListed(docs, bookId, sectionIds, t);
    }
    forall d | d in docs && d.bookId == bookId && d.id in sectionIds
      ensures TitleOf(d) in MapAll(picked, TitleOf)
    {
      SectionTitled(docs, bookId, sectionIds, d);
    }
  }

  lemma TitleListed(docs: seq<Section>, bookId: Id, sectionIds: seq<Id>, t: string)
    requires t in MapAll(Filter(Filter(docs, Listed(bookId, false)), InSession(sectionIds)), TitleOf)
    ensures exists d :: d in docs && d.bookId == bookId && d.id in sectionIds && t == TitleOf(d)
  {
    var picked := Filter(Filter(docs, Listed(bookId, false)), InSession(sectionIds));
    TitleSource(picked, t);
    var d :| d in picked && t == TitleOf(d);
    SummarySections(docs, bookId, sectionIds, d);
  }

  lemma SectionTitled(docs: seq<Section>, bookId: Id, sectionIds: seq<Id>, d: Section)
    requires d in docs && d.bookId == bookId && d.id in sectionIds
    ensures TitleOf(d) in MapAll(Filter(Filter(docs, Listed(bookId, false)), InSession(sectionIds)), TitleOf)
  {
    var picked := Filter(Filter(docs, Listed(bookId, false)), InSession(sectionIds));
    SummarySections(docs, bookId, sectionIds, d);
    var k :| 0 <= k < |picked| && picked[k] == d;
    assert MapAll(picked, TitleOf)[k] == TitleOf(d);
  }

  lemma TitleSource(picked: seq<Section>, t: string)
    requires t in MapAll(picked, TitleOf)
    ensures exists s :: s in picked && t == TitleOf(s)
  {
    var k :| 0 <= k < |picked| && MapAll(picked, TitleOf)[k] == t;
  }

  // ------------------------------------------------------------------ service

  class ChatService {
    const repo: SessionRepo
    const sections: SectionService
    const books: BookService
    /** `determine_message_type(message, question)` */
    const classify: (string, string) -> Route
    /** `evaluate_answer(answer, question, section_content)`: feedback and score */
    const evaluate: (string, string, Option<string>) -> (string, real)
    /** `generate_explanation(message, question, section_content)` */
    const explain: (string, string, Option<string>) -> string
    /** How the feedback reply prints a score. */
    const showScore: real -> string

    var session: Option<Session>
    var questions: seq<QuestionItem>
    var answered: set<Id>
    var current: Option<QuestionItem>
    /** Supply of fresh uuid4 values. */
    var nextId: nat

    ghost predicate Valid()
      reads this
    {
      Sound((session, nextId))
    }

    constructor (repo: SessionRepo, sections: SectionService, books: BookService,
                 classify: (string, string) -> Route,
                 evaluate: (string, string, Option<string>) -> (string, real),
                 explain: (string, string, Option<string>) -> string,
                 showScore: real -> string)
      ensures Valid()
      ensures this.repo == repo && this.sections == sections && this.books == books
      ensures this.classify == classify && this.evaluate == evaluate
      ensures this.explain == explain && this.showScore == showScore
      ensures session == None && questions == [] && answered == {} && current == None
    {
      this.repo := repo;
      this.sections := sections;
      this.books := books;
      this.classify := classify;
      this.evaluate := evaluate;
      this.explain := explain;
      this.showScore := showScore;
      session := None;
      questions := [];
      answered := {};
      current := None;
      nextId := 0;
    }

    /** `init_chat_session`: an unknown section raises before anything
        changes; otherwise a new session with an empty transcript and no
        score, and the listed sections' questions in some order. The
        answered set and the current question stay as they were. */
    method InitChatSession(userId: Id, documentId: Id, sectionIds: seq<Id>) returns (r: Outcome)
      requires Valid()
      modifies this
      ensures Valid()
      ensures QuestionsOf(sections.repo.docs, sectionIds).Err? ==>
        r == Fail(QuestionsOf(sections.repo.docs, sectionIds).error) && unchanged(this)
      ensures QuestionsOf(sections.repo.docs, sectionIds).Ok? ==>
        && r == Pass
        && session == Some(Session(old(nextId), userId, documentId, sectionIds, [], None, 0))
        && nextId == old(nextId) + 1
        && multiset(questions) == multiset(QuestionsOf(sections.repo.docs, sectionIds).value)
        && answered == old(answered) && current == old(current)
    {
      var collected := CollectQuestions(sectionIds);
      if collected.Err? {
        return Fail(collected.error);
      }
      var all := collected.value;
      var shuffled :| multiset(shuffled) == multiset(all);
      session := Some(Session(nextId, userId, documentId, sectionIds, [], None, 0));
      nextId := nextId + 1;
      questions := shuffled;
      r := Pass;
    }

    /** The loop of `init_chat_session`: the questions of each listed
        section appended in turn, stopping at the first unknown section. */
    method CollectQuestions(sectionIds: seq<Id>) returns (r: Result<seq<QuestionItem>>)
      ensures r == QuestionsOf(sections.repo.docs, sectionIds)
    {
      var all: seq<QuestionItem> := [];
      for i := 0 to |sectionIds|
        invariant QuestionsOf(sections.repo.docs, sectionIds[..i]) == Ok(all)
      {
        var got := sections.GetQuestionsBySectionId(sectionIds[i]);
        assert sectionIds[..i + 1][..i] == sectionIds[..i];
        if got.Err? {
          QuestionsOfFailsEarly(sections.repo.docs, sectionIds, i + 1);
          return Err(got.error);
        }
        all := all + got.value;
      }
      assert sectionIds[..|sectionIds|] == sectionIds;
      r := Ok(all);
    }

    /** `add_message`: nothing without a session; otherwise one message
        appended that points at the previous last one, its question the
        given one or else the current question. */
    method AddMessage(message: string, kind: MessageType, role: Role, questionId: Option<Id>,
                      feedback: Option<string>, score: Option<real>)
      requires Valid()
      requires session.Some? && questionId.None? ==> current.Some?
      requires kind == Feedback ==> score.Some?
      modifies this
      ensures Valid()
      ensures old(session).None? ==> unchanged(this)
      ensures old(session).Some? ==>
        && (session, nextId) == Log((old(session), old(nextId)), role, kind, message,
                                    if questionId.Some? then questionId.value else old(current).value.id,
                                    feedback, score)
        && questions == old(questions) && answered == old(answered) && current == old(current)
    {
      if session.None? {
        return;
      }
      var qid := if questionId.Some? then questionId.value else current.value.id;
      LogKeepsSound((session, nextId), role, kind, message, qid, feedback, score);
      var st := Log((session, nextId), role, kind, message, qid, feedback, score);
      session := st.0;
      nextId := st.1;
    }

    /** `get_next_question`: the first queued question not answered yet
        becomes current and is asked; None, changing nothing, when every
        question is answered. */
    method GetNextQuestion() returns (r: Option<QuestionItem>)
      requires Valid()
      modifies this
      ensures Valid()
      ensures FirstUnanswered(old(questions), old(answered)).None? ==> r == None && unchanged(this)
      ensures FirstUnanswered(old(questions), old(answered)).Some? ==>
        var q := old(questions)[FirstUnanswered(old(questions), old(answered)).value];
        && r == Some(q) && current == r
        && (session, nextId) == Log((old(session), old(nextId)), Assistant, Question, q.question, q.id, None, None)
        && questions == old(questions) && answered == old(answered)
    {
      for i := 0 to |questions|
        invariant forall j :: 0 <= j < i ==> questions[j].id in answered
      {
        if questions[i].id !in answered {
          var q := questions[i];
          current := Some(q);
          AddMessage(q.question, Question, Assistant, Some(q.id), None, None);
          return Some(q);
        }
      }
      return None;
    }

    /** `process_user_message` with a current question. "next", in any
        case, logs the request, marks the current question answered and
        asks the next one, or reports that none is left. Anything else is
        classified: an answer is logged with the evaluator's feedback, a
        request for help with the explanation, anything else gets the fixed
        instruction. The section holding the current question is looked up
        on every path but "next", and a missing one raises before anything
        is logged. */
    method ProcessUserMessage(message: string) returns (r: Result<string>)
      requires Valid() && current.Some?
      modifies this
      ensures Valid()
      ensures old(answered) <= answered && questions == old(questions)
      ensures Lower(message) == NextCommand ==>
        var q := old(current).value;
        var st := Log((old(session), old(nextId)), User, NextQuestion, message, q.id, None, None);
        var k := FirstUnanswered(old(questions), old(answered) + {q.id});
        && answered == old(answered) + {q.id}
        && (k.None? ==> r == Ok(AllDone) && current == old(current) && (session, nextId) == st)
        && (k.Some? ==>
              var next := old(questions)[k.value];
              && r == Ok(next.question) && current == Some(next)
              && (session, nextId) == Log(st, Assistant, Question, next.question, next.id, None, None))
      ensures Lower(message) != NextCommand ==>
        var q := old(current).value;
        var st := (old(session), old(nextId));
        var section := sections.GetSectionByQuestionId(q.id);
        var route := classify(message, q.question);
        && answered == old(answered) && current == old(current)
        && (section.Err? ==> r == Err(section.error) && (session, nextId) == st)
        && (section.Ok? && route == Answer ==>
              var verdict := evaluate(message, q.question, section.value.text);
              var reply := FeedbackReply(verdict.0, showScore(verdict.1));
              && r == Ok(reply)
              && (session, nextId) == Log(Log(st, User, Answer, message, q.id, None, None),
                                          Assistant, Feedback, reply, q.id, Some(verdict.0), Some(verdict.1)))
        && (section.Ok? && route == Help ==>
              var explanation := explain(message, q.question, section.value.text);
              && r == Ok(explanation)
              && (session, nextId) == Log(Log(st, User, Help, message, q.id, None, None),
                                          Assistant, Explanation, explanation, q.id, None, None))
        && (section.Ok? && route == Other ==>
              r == Ok(OtherReply) && (session, nextId) == Log(st, Assistant, Other, OtherReply, q.id, None, None))
    {
      var q := current.value;
      if Lower(message) == NextCommand {
        var reply := SkipQuestion(message);
        return Ok(reply);
      }
      var route := classify(message, q.question);
      var section := sections.GetSectionByQuestionId(q.id);
      if section.Err? {
        return Err(section.error);
      }
      var reply := Reply(message, route, section.value.text);
      r := Ok(reply);
    }

    /** The classified branches of `process_user_message`, the section's
        text in hand: an answer is logged with the evaluator's feedback and
        score, a request for help with the explanation, anything else gets
        the fixed instruction. */
    method Reply(message: string, route: Route, text: Option<string>) returns (reply: string)
      requires Valid() && current.Some?
      modifies this
      ensures Valid()
      ensures questions == old(questions) && answered == old(answered) && current == old(current)
      ensures var q := old(current).value;
        var st := (old(session), old(nextId));
        && (route == Answer ==>
              var verdict := evaluate(message, q.question, text);
              && reply == FeedbackReply(verdict.0, showScore(verdict.1))
              && (session, nextId) == Log(Log(st, User, Answer, message, q.id, None, None),
                                          Assistant, Feedback, reply, q.id, Some(verdict.0), Some(verdict.1)))
        && (route == Help ==>
              && reply == explain(message, q.question, text)
              && (session, nextId) == Log(Log(st, User, Help, message, q.id, None, None),
                                          Assistant, Explanation, reply, q.id, None, None))
        && (route == Other ==>
              reply == OtherReply && (session, nextId) == Log(st, Assistant, Other, OtherReply, q.id, None, None))
    {
      var q := current.value;
      if route == Answer {
        AddMessage(message, Answer, User, Some(q.id), None, None);
        var verdict := evaluate(message, q.question, text);
        reply := FeedbackReply(verdict.0, showScore(verdict.1));
        AddMessage(reply, Feedback, Assistant, Some(q.id), Some(verdict.0), Some(verdict.1));
      } else if route == Help {
        AddMessage(message, Help, User, None, None, None);
        reply := explain(message, q.question, text);
        AddMessage(reply, Explanation, Assistant, None, None, None);
      } else {
        AddMessage(OtherReply, Other, Assistant, None, None, None);
        reply := OtherReply;
      }
    }

    /** The "next" branch of `process_user_message`: the request logged,
        the current question marked answered, then the next one asked, or
        the end reported. */
    method SkipQuestion(message: string) returns (reply: string)
      requires Valid() && current.Some?
      modifies this
      ensures Valid() && questions == old(questions)
      ensures var q := old(current).value;
        var st := Log((old(session), old(nextId)), User, NextQuestion, message, q.id, None, None);
        var k := FirstUnanswered(old(questions), old(answered) + {q.id});
        && answered == old(answered) + {q.id}
        && (k.None? ==> reply == AllDone && current == old(current) && (session, nextId) == st)
        && (k.Some? ==>
              var next := old(questions)[k.value];
              && reply == next.question && current == Some(next)
              && (session, nextId) == Log(st, Assistant, Question, next.question, next.id, None, None))
    {
      var q := current.value;
      AddMessage(message, NextQuestion, User, None, None, None);
      answered := answered + {q.id};
      var next := GetNextQuestion();
      if next.None? {
        return AllDone;
      }
      return next.value.question;
    }

    /** `finish_chat_session`: nothing without a session. Otherwise the
        overall score is computed first (an error there changes nothing),
        then score and question count are set on the session, which is
        inserted; a session saved before is refused by its duplicate id. */
    method FinishChatSession() returns (r: Outcome)
      requires Valid()
      modifies this, repo
      ensures Valid()
      ensures old(session).None? ==> r == Pass && unchanged(this) && repo.docs == old(repo.docs)
      ensures old(session).Some? ==>
        var s := old(session).value;
        var score := OverallScore(old(session));
        && (score.Err? ==> r == Fail(score.error) && unchanged(this) && repo.docs == old(repo.docs))
        && (score.Ok? ==>
              var saved := s.(overallScore := Some(score.value), numberOfQuestions := |old(questions)|);
              && session == Some(saved) && nextId == old(nextId)
              && questions == old(questions) && answered == old(answered) && current == old(current)
              && (s.id in old(repo.docs) ==> r == Fail(DuplicateKeyError) && repo.docs == old(repo.docs))
              && (s.id !in old(repo.docs) ==> r == Pass && repo.docs == old(repo.docs)[s.id := saved]))
    {
      if session.None? {
        return Pass;
      }
      var score := OverallScore(session);
      if score.Err? {
        return Fail(score.error);
      }
      var saved := session.value.(overallScore := Some(score.value), numberOfQuestions := |questions|);
      SoundRescored(session.value, saved, nextId);
      r := Save(saved);
    }

    /** The last step of `finish_chat_session`: the session object takes the
        new values, then `insert_one` stores it unless its id is taken. */
    method Save(saved: Session) returns (r: Outcome)
      requires Sound((Some(saved), nextId))
      modifies this, repo
      ensures Valid() && session == Some(saved) && nextId == old(nextId)
      ensures questions == old(questions) && answered == old(answered) && current == old(current)
      ensures saved.id in old(repo.docs) ==> r == Fail(DuplicateKeyError) && repo.docs == old(repo.docs)
      ensures saved.id !in old(repo.docs) ==> r == Pass && repo.docs == old(repo.docs)[saved.id := saved]
    {
      session := Some(saved);
      if saved.id in repo.docs {
        return Fail(DuplicateKeyError);
      }
      repo.docs := repo.docs[saved.id := saved];
      r := Pass;
    }

    /** `make_session_summary`: None without a session; a TypeError when the
        session's book is gone (its section list is None). Otherwise the
        saved score (0 when none), the question count, one answered question
        per feedback message, and `order. name` of each of the book's
        sections that the session covers, in collection order (see SummaryTitles). */
    function SessionSummary(): (r: Result<Option<Summary>>)
      reads this, books.repo, books.sectionRepo
      ensures session.None? <==> r == Ok(None)
      ensures session.Some? ==> (session.value.documentId !in books.repo.docs <==> r == Err(TypeError))
      ensures session.Some? && session.value.documentId in books.repo.docs ==>
        && r.Ok? && r.value.Some?
        && r.value.value.sectionTitles ==
             MapAll(Filter(books.sectionRepo.docs, Covered(session.value.documentId, session.value.sectionIds)), TitleOf)
      ensures r.Ok? && r.value.Some? ==>
        var s, m := session.value, r.value.value;
        && m.overallScore == s.overallScore.GetOr(0.0)
        && m.numberOfQuestions == s.numberOfQuestions
        && m.numberOfAnsweredQuestions == |Filter(s.messages, IsFeedback)|
        && forall t :: t in m.sectionTitles <==>
             exists d :: d in books.sectionRepo.docs && d.bookId == s.documentId && d.id in s.sectionIds &&
               t == TitleOf(d)
    {
      match session
      case None => Ok(None)
      case Some(s) =>
        match books.GetBookSections(s.documentId, false)
        case None => Err(TypeError)
        case Some(listed) =>
          var titles := MapAll(Filter(listed, InSession(s.sectionIds)), TitleOf);
          SummaryTitles(books.sectionRepo.docs, s.documentId, s.sectionIds);
          Ok(Some(Summary(s.overallScore.GetOr(0.0), s.numberOfQuestions,
                          |FeedbackScores(session)|, titles)))
    }
  }
}
