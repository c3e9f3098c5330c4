/** services/section_service.py: the section service over the sections
    collection, the book service and two language-model oracles. */
module Sections {
  import opened Common
  import opened Text
  import opened Models
  import opened Store
  import opened Books
  import opened SectionLayout

  function SectionNotFound(sectionId: Id): Error
  {
    ValueError("Section with id " + NatToString(sectionId) + " not found")
  }

  function QuestionNotFound(questionId: Id): Error
  {
    ValueError("Question with id " + NatToString(questionId) + " not found")
  }

  function NoText(sectionId: Id): Error
  {
    ValueError("Section with id " + NatToString(sectionId) + " has no text")
  }

  /** The section `create_sections_magically` stores for a span, or the
      error reading its page window raises. */
  function SectionFor(bookId: Id, span: Span, pages: seq<string>, firstPage: int, id: Id): Result<Section>
  {
    match WindowText(pages, span.startPage, span.endPage, firstPage)
    case Err(e) => Err(e)
    case Ok(text) => Ok(Section(id, bookId, span.title, span.order, span.startPage, span.endPage, Some(text), []))
  }

  /** One step of the loop of `create_sections_magically` stores exactly the
      section its span describes, or stops with the span's error. */
  lemma SpanSection(bookId: Id, sorted: seq<SectionInfo>, contentEnd: int, idx: nat,
                    pages: seq<string>, firstPage: int, id: Id)
    requires idx < |sorted|
    ensures var endPage := if idx < |sorted| - 1 then sorted[idx + 1].pageNumber else contentEnd;
      var text := GetPagesText(pages, sorted[idx].pageNumber + firstPage - 2, endPage + firstPage - 3);
      SectionFor(bookId, Spans(sorted, contentEnd)[idx], pages, firstPage, id) ==
        if text.Err? then Err(text.error)
        else Ok(Section(id, bookId, sorted[idx].title, idx + 1, sorted[idx].pageNumber, endPage, Some(text.value), []))
  {
  }

  /** `after` is `before` followed by the sections made from the first spans
      in turn, with ids from `first` on; an Ok result lists all of them, an
      error is the one the first span left over raises. */
  ghost predicate Stored(bookId: Id, spans: seq<Span>, pages: seq<string>, firstPage: int, first: nat,
                         before: seq<Section>, after: seq<Section>, r: Result<seq<Section>>)
  {
    var made := |after| - |before|;
    && 0 <= made <= |spans| && after[..|before|] == before
    && (forall i :: 0 <= i < made ==>
          SectionFor(bookId, spans[i], pages, firstPage, first + i) == Ok(after[|before| + i]))
    && (r.Ok? ==> made == |spans| && r.value == after[|before|..])
    && (r.Err? ==> made < |spans| && SectionFor(bookId, spans[made], pages, firstPage, first + made) == Err(r.error))
  }

  /** The sections made so far, appended to the collection, are what
      `Stored` describes. */
  lemma StoredAppend(bookId: Id, spans: seq<Span>, pages: seq<string>, firstPage: int, first: nat,
                     before: seq<Section>, created: seq<Section>, r: Result<seq<Section>>)
    requires |created| <= |spans|
    requires forall i :: 0 <= i < |created| ==>
      SectionFor(bookId, spans[i], pages, firstPage, first + i) == Ok(created[i])
    requires r.Ok? ==> |created| == |spans| && r.value == created
    requires r.Err? ==>
      |created| < |spans| && SectionFor(bookId, spans[|created|], pages, firstPage, first + |created|) == Err(r.error)
    ensures Stored(bookId, spans, pages, firstPage, first, before, before + created, r)
  {
    var after := before + created;
    assert after[..|before|] == before && after[|before|..] == created;
    forall i | 0 <= i < |created| ensures after[|before| + i] == created[i] {
    }
  }

  lemma LayoutIsSpans(infos: seq<SectionInfo>, contentEnd: int)
    ensures Layout(infos, contentEnd) == Spans(SortByPage(Filter(infos, WithinContent(contentEnd))), contentEnd)
  {
  }

  /** Selects the sections `delete_section` moves down. */
  function LaterThan(sectionId: Id, deleted: int): Section -> bool
  {
    (s: Section) => s.id != sectionId && s.order > deleted
  }

  /** Selects the sections `add_section_to_book` moves up. */
  function AtOrAfter(order: int): Section -> bool
  {
    (s: Section) => s.order >= order
  }

  function Dec(s: Section): (r: Section)
    ensures r.id == s.id
  {
    s.(order := s.order - 1)
  }

  function Inc(s: Section): (r: Section)
    ensures r.id == s.id
  {
    s.(order := s.order + 1)
  }

  /** `type` replaces a question's type only when it is given and not empty. */
  function Edited(q: QuestionItem, question: string, kind: Option<string>): (r: QuestionItem)
    ensures r.id == q.id && r.question == question
    ensures r.kind == (if kind.Some? && kind.value != "" then kind.value else q.kind)
  {
    q.(question := question, kind := if kind.Some? && kind.value != "" then kind.value else q.kind)
  }

  /** Selects the sections `delete_section` moves down, once the deleted
      one is gone. */
  function LoweredBy(bookId: Id, deleted: int): Section -> bool
  {
    (w: Section) => w.bookId == bookId && w.order > deleted
  }

  lemma DeletePickedIn(before: seq<Section>, sectionId: Id, toUpdate: seq<Section>, w: Section)
    requires UniqueIds(before) && Get(before, sectionId).Some?
    requires var s := Get(before, sectionId).value;
      toUpdate == Filter(ByBook(before, s.bookId), LaterThan(sectionId, s.order))
    requires w in toUpdate
    ensures var s := Get(before, sectionId).value;
      w in Remove(before, sectionId) && LoweredBy(s.bookId, s.order)(w)
  {
    var s := Get(before, sectionId).value;
    var k := IndexOf(before, sectionId).value;
    var e := Remove(before, sectionId);
    RemoveShape(before, sectionId);
    var listed := ByBook(before, s.bookId);
    assert w in listed && w.id != sectionId && w.order > s.order;
    assert w in before && w.bookId == s.bookId;
    var a :| 0 <= a < |before| && before[a] == w;
    assert a != k;
    var j := if a < k then a else a - 1;
    assert e[j] == w;
  }

  lemma DeletePickedOut(before: seq<Section>, sectionId: Id, toUpdate: seq<Section>, w: Section)
    requires UniqueIds(before) && Get(before, sectionId).Some?
    requires var s := Get(before, sectionId).value;
      toUpdate == Filter(ByBook(before, s.bookId), LaterThan(sectionId, s.order))
    requires var s := Get(before, sectionId).value;
      w in Remove(before, sectionId) && LoweredBy(s.bookId, s.order)(w)
    ensures w in toUpdate
  {
    var s := Get(before, sectionId).value;
    var k := IndexOf(before, sectionId).value;
    var e := Remove(before, sectionId);
    RemoveShape(before, sectionId);
    var j :| 0 <= j < |e| && e[j] == w;
    var a := if j < k then j else j + 1;
    assert w == before[a] && w.id != sectionId;
    var listed := ByBook(before, s.bookId);
    assert w in listed;
    var b :| 0 <= b < |listed| && listed[b] == w;
    assert LaterThan(sectionId, s.order)(listed[b]);
  }

  /** The sections `delete_section` picks are those left after the removal
      that belong to the book and come after the deleted one. */
  lemma DeletePicked(before: seq<Section>, sectionId: Id, toUpdate: seq<Section>)
    requires UniqueIds(before) && Get(before, sectionId).Some?
    requires var s := Get(before, sectionId).value;
      toUpdate == Filter(ByBook(before, s.bookId), LaterThan(sectionId, s.order))
    ensures var s := Get(before, sectionId).value;
      forall w :: w in toUpdate <==> w in Remove(before, sectionId) && LoweredBy(s.bookId, s.order)(w)
  {
    var s := Get(before, sectionId).value;
    forall w ensures w in toUpdate <==> w in Remove(before, sectionId) && LoweredBy(s.bookId, s.order)(w) {
      if w in toUpdate {
        DeletePickedIn(before, sectionId, toUpdate, w);
      }
      if w in Remove(before, sectionId) && LoweredBy(s.bookId, s.order)(w) {
        DeletePickedOut(before, sectionId, toUpdate, w);
      }
    }
  }

  /** A bulk update lowering exactly the documents `LoweredBy` picks lowers
      those in place and keeps the rest. */
  lemma LowerSelected(e: seq<Section>, toUpdate: seq<Section>, bookId: Id, deleted: int)
    requires UniqueIds(e) && UniqueIds(toUpdate)
    requires forall w :: w in toUpdate <==> w in e && LoweredBy(bookId, deleted)(w)
    ensures BulkUpdate(e, MapAll(toUpdate, Dec)) ==
      seq(|e|, i requires 0 <= i < |e| => Lowered(e[i], bookId, deleted))
  {
    BulkUpdateSelected(e, toUpdate, LoweredBy(bookId, deleted), Dec);
  }

  /** The bulk update `delete_section` issues lowers exactly the book's
      sections after the deleted one. */
  lemma DeleteBulkUpdate(before: seq<Section>, sectionId: Id, toUpdate: seq<Section>)
    requires UniqueIds(before) && Get(before, sectionId).Some?
    requires var s := Get(before, sectionId).value;
      toUpdate == Filter(ByBook(before, s.bookId), LaterThan(sectionId, s.order))
    ensures BulkUpdate(Remove(before, sectionId), MapAll(toUpdate, Dec)) == AfterDelete(before, sectionId)
  {
    var s := Get(before, sectionId).value;
    assert UniqueIds(Remove(before, sectionId)) by {
      RemoveShape(before, sectionId);
    }
    assert UniqueIds(toUpdate) by {
      FilterUnique(before, InBook(s.bookId));
      FilterUnique(ByBook(before, s.bookId), LaterThan(sectionId, s.order));
    }
    DeletePicked(before, sectionId, toUpdate);
    LowerSelected(Remove(before, sectionId), toUpdate, s.bookId, s.order);
  }

  /** Deleting keeps ids distinct and drawn before `n`. */
  lemma AfterDeleteIds(before: seq<Section>, sectionId: Id, n: nat)
    requires UniqueIds(before) && Get(before, sectionId).Some? && IdsBelow(before, n)
    ensures UniqueIds(AfterDelete(before, sectionId)) && IdsBelow(AfterDelete(before, sectionId), n)
  {
    var e := Remove(before, sectionId);
    var r := AfterDelete(before, sectionId);
    RemoveShape(before, sectionId);
    assert forall i :: 0 <= i < |r| ==> r[i].id == e[i].id;
    var k := IndexOf(before, sectionId).value;
    forall i | 0 <= i < |r| ensures r[i].id < n {
      assert e[i] == before[if i < k then i else i + 1];
    }
  }

  /** Selects the sections `add_section_to_book` moves up. */
  function RaisedBy(bookId: Id, order: int): Section -> bool
  {
    (w: Section) => w.bookId == bookId && w.order >= order
  }

  /** A bulk update raising exactly the documents `RaisedBy` picks raises
      those in place and keeps the rest; with none picked nothing changes. */
  lemma RaiseSelected(docs: seq<Section>, picked: seq<Section>, bookId: Id, order: int)
    requires UniqueIds(docs) && UniqueIds(picked)
    requires forall w :: w in picked <==> w in docs && RaisedBy(bookId, order)(w)
    ensures BulkUpdate(docs, MapAll(picked, Inc)) == RaiseFrom(docs, bookId, order)
    ensures picked == [] ==> RaiseFrom(docs, bookId, order) == docs
  {
    BulkUpdateSelected(docs, picked, RaisedBy(bookId, order), Inc);
    var r := RaiseFrom(docs, bookId, order);
    if picked == [] {
      forall j | 0 <= j < |docs| ensures r[j] == docs[j] {
        assert !(docs[j] in picked);
      }
    }
  }

  /** The bulk update `add_section_to_book` issues raises exactly the book's
      sections at or after the requested order. */
  lemma InsertBulkUpdate(docs: seq<Section>, bookId: Id, order: int, picked: seq<Section>)
    requires UniqueIds(docs)
    requires picked == Filter(ByBook(docs, bookId), AtOrAfter(order))
    ensures BulkUpdate(docs, MapAll(picked, Inc)) == RaiseFrom(docs, bookId, order)
    ensures picked == [] ==> RaiseFrom(docs, bookId, order) == docs
  {
    assert UniqueIds(picked) by {
      FilterUnique(docs, InBook(bookId));
      FilterUnique(ByBook(docs, bookId), AtOrAfter(order));
    }
    assert forall w :: w in picked <==> w in docs && RaisedBy(bookId, order)(w) by {
      forall w ensures w in picked <==> w in docs && RaisedBy(bookId, order)(w) {
        FilterMember(ByBook(docs, bookId), AtOrAfter(order), w);
        FilterMember(docs, InBook(bookId), w);
      }
    }
    RaiseSelected(docs, picked, bookId, order);
  }

  /** Raising orders keeps ids distinct and drawn before `n`. */
  lemma RaiseFromIds(docs: seq<Section>, bookId: Id, order: int, n: nat)
    requires UniqueIds(docs) && IdsBelow(docs, n)
    ensures UniqueIds(RaiseFrom(docs, bookId, order)) && IdsBelow(RaiseFrom(docs, bookId, order), n)
  {
    var r := RaiseFrom(docs, bookId, order);
    assert forall i :: 0 <= i < |r| ==> r[i].id == docs[i].id;
  }

  /** Every id in the collection was drawn before `n`. */
  ghost predicate IdsBelow(docs: seq<Section>, n: nat)
  {
    forall i :: 0 <= i < |docs| ==> docs[i].id < n
  }

  /** The loop of `add_section_to_book` over the book's sections: each one
      at or after `order`, raised by one, in list order. */
  method SectionsToRaise(existing: seq<Section>, order: int) returns (toUpdate: seq<Section>)
    ensures toUpdate == MapAll(Filter(existing, AtOrAfter(order)), Inc)
  {
    ghost var picked: seq<Section> := [];
    toUpdate := [];
    for i := 0 to |existing|
      invariant picked == Filter(existing[..i], AtOrAfter(order))
      invariant toUpdate == MapAll(picked, Inc)
    {
      FilterSnoc(existing, i, AtOrAfter(order));
      if existing[i].order >= order {
        MapAllSnoc(picked, existing[i], Inc);
        picked := picked + [existing[i]];
        toUpdate := toUpdate + [Inc(existing[i])];
      }
    }
    assert existing[..|existing|] == existing;
  }

  /** Inserting a document with a freshly drawn id keeps ids distinct. */
  lemma AppendFresh(docs: seq<Section>, s: Section, n: nat)
    requires UniqueIds(docs) && IdsBelow(docs, n) && s.id == n
    ensures UniqueIds(docs + [s]) && IdsBelow(docs + [s], n + 1)
  {
    var r := docs + [s];
    assert forall i :: 0 <= i < |docs| ==> r[i] == docs[i];
  }

  /** Appending documents numbered n, n + 1, ... from the id supply keeps ids
      distinct and below the supply. */
  lemma AppendRun(docs: seq<Section>, run: seq<Section>, n: nat)
    requires UniqueIds(docs) && IdsBelow(docs, n)
    requires forall i :: 0 <= i < |run| ==> run[i].id == n + i
    ensures UniqueIds(docs + run) && IdsBelow(docs + run, n + |run|)
  {
    var r := docs + run;
    forall i, j | 0 <= i < |r| && 0 <= j < |r| && i != j ensures r[i].id != r[j].id {
      if i >= |docs| { assert r[i] == run[i - |docs|]; }
      if j >= |docs| { assert r[j] == run[j - |docs|]; }
    }
    forall i | 0 <= i < |r| ensures r[i].id < n + |run| {
      if i >= |docs| { assert r[i] == run[i - |docs|]; }
    }
  }

  /** Replacing a stored document by a new version with the same id: only
      its position changes, and ids stay distinct. */
  lemma ReplaceInPlace(docs: seq<Section>, s: Section, n: nat)
    requires UniqueIds(docs) && IdsBelow(docs, n) && Get(docs, s.id).Some?
    ensures IndexOf(docs, s.id).Some?
    ensures Upsert(docs, s) == docs[IndexOf(docs, s.id).value := s]
    ensures UniqueIds(Upsert(docs, s)) && IdsBelow(Upsert(docs, s), n)
  {
    var k := IndexOf(docs, s.id).value;
    var r := docs[k := s];
    assert forall i :: 0 <= i < |docs| ==> r[i].id == docs[i].id;
  }

  class SectionService {
    const books: BookService
    const repo: SectionRepo
    /** `get_section_info`: the table-of-contents entries read from a preface
        text, given example titles. */
    const sectionInfo: (string, seq<string>) -> seq<SectionInfo>
    /** `generate_questions`: the question texts written for a section text. */
    const generateQuestions: (string, int) -> seq<string>
    /** Supply of fresh uuid4 values. */
    var nextId: nat

    ghost predicate Valid()
      reads this, books, books.repo, repo
    {
      && books.sectionRepo == repo
      && books.Valid()
      && UniqueIds(repo.docs)
      && IdsBelow(repo.docs, nextId)
    }

    constructor (books: BookService, repo: SectionRepo,
                 sectionInfo: (string, seq<string>) -> seq<SectionInfo>,
                 generateQuestions: (string, int) -> seq<string>)
      requires books.Valid() && books.sectionRepo == repo && repo.docs == []
      ensures Valid()
      ensures this.books == books && this.repo == repo
      ensures this.sectionInfo == sectionInfo && this.generateQuestions == generateQuestions
    {
      this.books := books;
      this.repo := repo;
      this.sectionInfo := sectionInfo;
      this.generateQuestions := generateQuestions;
      nextId := 0;
    }

    /** `get_book_content` followed by the `not book_content_file` guard. */
    function Content(bookId: Id): (r: Result<seq<string>>)
      reads books.repo, books.bucket
      ensures r.Ok? ==> bookId in books.repo.docs
      ensures bookId !in books.repo.docs ==> r == Err(ValueError("Book content not found"))
    {
      match books.GetBookContent(bookId)
      case Err(e) => Err(e)
      case Ok(None) => Err(ValueError("Book content not found"))
      case Ok(Some(pages)) => Ok(pages)
    }

    /** The text `add_section_to_book` and `update_section` read for logical
        pages start..end-1: missing content raises ValueError, a book whose
        first page was never set raises TypeError, a window outside the PDF
        raises IndexError. */
    function SectionText(bookId: Id, start: int, end: int): (r: Result<string>)
      reads books.repo, books.bucket
      ensures Content(bookId).Err? ==> r == Err(Content(bookId).error)
      ensures Content(bookId).Ok? && books.repo.docs[bookId].firstPage.None? ==> r == Err(TypeError)
      ensures r.Ok? ==>
        && Content(bookId).Ok? && books.repo.docs[bookId].firstPage.Some?
        && r == WindowText(Content(bookId).value, start, end, books.repo.docs[bookId].firstPage.value)
      ensures Content(bookId).Ok? && books.repo.docs[bookId].firstPage.Some? ==>
        r == WindowText(Content(bookId).value, start, end, books.repo.docs[bookId].firstPage.value)
    {
      match Content(bookId)
      case Err(e) => Err(e)
      case Ok(pages) =>
        match books.repo.docs[bookId].firstPage
        case None => Err(TypeError)
        case Some(fp) => WindowText(pages, start, end, fp)
    }

    /** `get_questions_by_section_id` */
    function GetQuestionsBySectionId(sectionId: Id): (r: Result<seq<QuestionItem>>)
      reads repo
      ensures Get(repo.docs, sectionId).None? <==> r == Err(SectionNotFound(sectionId))
      ensures r.Ok? ==> exists s :: s in repo.docs && s.id == sectionId && r.value == s.questions
      ensures Get(repo.docs, sectionId).Some? ==> r == Ok(Get(repo.docs, sectionId).value.questions)
    {
      match Get(repo.docs, sectionId)
      case None => Err(SectionNotFound(sectionId))
      case Some(s) => Ok(s.questions)
    }

    /** `get_question_by_id`: the first question with that id in the section. */
    function GetQuestionById(questionId: Id, sectionId: Id): (r: Result<QuestionItem>)
      reads repo
      ensures Get(repo.docs, sectionId).None? ==> r == Err(SectionNotFound(sectionId))
      ensures Get(repo.docs, sectionId).Some? ==>
        var qs := Get(repo.docs, sectionId).value.questions;
        && ((forall j :: 0 <= j < |qs| ==> qs[j].id != questionId) <==> r == Err(QuestionNotFound(questionId)))
        && (r.Ok? ==> r.value in qs && r.value.id == questionId)
        && (QuestionIndex(qs, questionId).Some? ==> r == Ok(qs[QuestionIndex(qs, questionId).value]))
    {
      match Get(repo.docs, sectionId)
      case None => Err(SectionNotFound(sectionId))
      case Some(s) =>
        match QuestionIndex(s.questions, questionId)
        case None => Err(QuestionNotFound(questionId))
        case Some(k) => Ok(s.questions[k])
    }

    /** `get_section_by_question_id`: the first section holding the question. */
    function GetSectionByQuestionId(questionId: Id): (r: Result<Section>)
      reads repo
      ensures r.Ok? ==> r.value in repo.docs && exists q :: q in r.value.questions && q.id == questionId
      ensures r.Err? <==> forall j, k :: 0 <= j < |repo.docs| && 0 <= k < |repo.docs[j].questions| ==>
        repo.docs[j].questions[k].id != questionId
      ensures r.Err? ==> r.error == QuestionNotFound(questionId)
    {
      match FindByQuestion(repo.docs, questionId)
      case None => Err(QuestionNotFound(questionId))
      case Some(s) =>
        var k := QuestionIndex(s.questions, questionId).value;
        assert s.questions[k] in s.questions;
        Ok(s)
    }

    /** `delete_section`: an unknown id raises and changes nothing; otherwise
        the section is removed and every later section of its book moves down
        by one (see DeleteKeepsContiguous). */
    method DeleteSection(sectionId: Id) returns (r: Outcome)
      requires Valid()
      modifies repo
      ensures Valid()
      ensures Get(old(repo.docs), sectionId).None? ==>
        r == Fail(SectionNotFound(sectionId)) && repo.docs == old(repo.docs)
      ensures Get(old(repo.docs), sectionId).Some? ==>
        r == Pass && repo.docs == AfterDelete(old(repo.docs), sectionId)
    {
      var found := Get(repo.docs, sectionId);
      if found.None? {
        return Fail(SectionNotFound(sectionId));
      }
      ghost var before := repo.docs;
      RemoveAndLower(sectionId, found.value);
      assert UniqueIds(repo.docs) && IdsBelow(repo.docs, nextId) by {
        AfterDeleteIds(before, sectionId, nextId);
      }
      r := Pass;
    }

    /** The found branch of `delete_section`: the section removed, then one
        bulk update lowering the book's later sections, when there are any. */
    method RemoveAndLower(sectionId: Id, section: Section)
      requires UniqueIds(repo.docs) && Get(repo.docs, sectionId) == Some(section)
      modifies repo
      ensures repo.docs == AfterDelete(old(repo.docs), sectionId)
    {
      var bookSections := ByBook(repo.docs, section.bookId);
      var deletedOrder := section.order;
      ghost var before := repo.docs;
      repo.docs := Remove(repo.docs, sectionId);
      var toUpdate := Filter(bookSections, LaterThan(sectionId, deletedOrder));
      var updated := Lowering(toUpdate);
      if updated != [] {
        repo.docs := BulkUpdate(repo.docs, updated);
      }
      DeleteBulkUpdate(before, sectionId, toUpdate);
    }

    /** The loop of `delete_section` over the picked sections: each one with
        its order lowered by one, in list order. */
    method Lowering(toUpdate: seq<Section>) returns (updated: seq<Section>)
      ensures updated == MapAll(toUpdate, Dec)
    {
      updated := [];
      for i := 0 to |toUpdate|
        invariant |updated| == i
        invariant forall k :: 0 <= k < i ==> updated[k] == Dec(toUpdate[k])
      {
        updated := updated + [Dec(toUpdate[i])];
      }
    }

    /** `add_section_to_book`: reads the section's text first (errors change
        nothing); appends at order count + 1 for order -1 or an order at or
        beyond the count, otherwise moves every section of the book at or
        after the requested order up by one and takes that order. */
    method AddSectionToBook(bookId: Id, startPage: int, endPage: int, title: string, order: int)
      returns (r: Result<Section>)
      requires Valid()
      modifies this, repo
      ensures Valid()
      ensures SectionText(bookId, startPage, endPage).Err? ==>
        r == Err(SectionText(bookId, startPage, endPage).error) && repo.docs == old(repo.docs)
      ensures SectionText(bookId, startPage, endPage).Ok? ==>
        && r == Ok(Section(old(nextId), bookId, title, NewOrder(|ByBook(old(repo.docs), bookId)|, order),
                           startPage, endPage, Some(SectionText(bookId, startPage, endPage).value), []))
        && repo.docs == Shifted(old(repo.docs), bookId, order) + [r.value]
    {
      var text := SectionText(bookId, startPage, endPage);
      if text.Err? {
        return Err(text.error);
      }
      var existing := ByBook(repo.docs, bookId);
      var newOrder;
      ghost var before := repo.docs;
      if order == -1 || order >= |existing| {
        newOrder := |existing| + 1;
      } else {
        var toUpdate := SectionsToRaise(existing, order);
        ghost var picked := Filter(existing, AtOrAfter(order));
        InsertBulkUpdate(repo.docs, bookId, order, picked);
        RaiseFromIds(repo.docs, bookId, order, nextId);
        if toUpdate != [] {
          repo.docs := BulkUpdate(repo.docs, toUpdate);
        }
        newOrder := order;
      }
      assert repo.docs == Shifted(before, bookId, order);
      assert UniqueIds(repo.docs) && IdsBelow(repo.docs, nextId);
      var section := Section(nextId, bookId, title, newOrder, startPage, endPage, Some(text.value), []);
      AppendFresh(repo.docs, section, nextId);
      nextId := nextId + 1;
      repo.docs := repo.docs + [section];
      r := Ok(section);
    }


    /** `update_section`: an unknown id raises; name and pages are always
        replaced, the text is read again, from the new page window, only when
        a page changed; an error changes nothing, otherwise only that section
        changes. */
    method UpdateSection(sectionId: Id, newName: string, newStart: int, newEnd: int) returns (r: Result<Section>)
      requires Valid()
      modifies repo
      ensures Valid()
      ensures Get(old(repo.docs), sectionId).None? ==>
        r == Err(SectionNotFound(sectionId)) && repo.docs == old(repo.docs)
      ensures Get(old(repo.docs), sectionId).Some? ==>
        var s := Get(old(repo.docs), sectionId).value;
        var k := IndexOf(old(repo.docs), sectionId).value;
        var renamed := s.(name := newName, startPage := newStart, endPage := newEnd);
        var text := SectionText(s.bookId, newStart, newEnd);
        && (s.startPage == newStart && s.endPage == newEnd ==>
              r == Ok(renamed) && repo.docs == old(repo.docs)[k := renamed])
        && ((s.startPage != newStart || s.endPage != newEnd) && text.Err? ==>
              r == Err(text.error) && repo.docs == old(repo.docs))
        && ((s.startPage != newStart || s.endPage != newEnd) && text.Ok? ==>
              r == Ok(renamed.(text := Some(text.value))) && repo.docs == old(repo.docs)[k := r.value])
    {
      var found := Get(repo.docs, sectionId);
      if found.None? {
        return Err(SectionNotFound(sectionId));
      }
      var section := found.value;
      var pagesChanged := section.startPage != newStart || section.endPage != newEnd;
      section := section.(name := newName, startPage := newStart, endPage := newEnd);
      if pagesChanged {
        var text := SectionText(section.bookId, newStart, newEnd);
        if text.Err? {
          return Err(text.error);
        }
        section := section.(text := Some(text.value));
      }
      ReplaceInPlace(repo.docs, section, nextId);
      repo.docs := Upsert(repo.docs, section);
      r := Ok(section);
    }

    /** `add_question`: an unknown section raises; otherwise a new question
        with a fresh id goes at the end of the section's list. */
    method AddQuestion(sectionId: Id, question: string, kind: string) returns (r: Result<QuestionItem>)
      requires Valid()
      modifies this, repo
      ensures Valid()
      ensures Get(old(repo.docs), sectionId).None? ==>
        r == Err(SectionNotFound(sectionId)) && repo.docs == old(repo.docs)
      ensures Get(old(repo.docs), sectionId).Some? ==>
        var s := Get(old(repo.docs), sectionId).value;
        var k := IndexOf(old(repo.docs), sectionId).value;
        && r == Ok(QuestionItem(old(nextId), question, kind))
        && repo.docs == old(repo.docs)[k := s.(questions := s.questions + [r.value])]
    {
      var found := Get(repo.docs, sectionId);
      if found.None? {
        return Err(SectionNotFound(sectionId));
      }
      var section := found.value;
      var item := QuestionItem(nextId, question, kind);
      nextId := nextId + 1;
      section := section.(questions := section.questions + [item]);
      ReplaceInPlace(repo.docs, section, nextId);
      repo.docs := Upsert(repo.docs, section);
      r := Ok(item);
    }

    /** `generate_questions_magically`: an unknown section or one without
        text raises; otherwise one new "general" question with a fresh id per
        generated text goes at the end of the section's list, in order. */
    method GenerateQuestionsMagically(sectionId: Id, count: int) returns (r: Result<seq<QuestionItem>>)
      requires Valid()
      modifies this, repo
      ensures Valid()
      ensures Get(old(repo.docs), sectionId).None? ==>
        r == Err(SectionNotFound(sectionId)) && repo.docs == old(repo.docs)
      ensures Get(old(repo.docs), sectionId).Some? ==>
        var s := Get(old(repo.docs), sectionId).value;
        var k := IndexOf(old(repo.docs), sectionId).value;
        && (s.text.None? || s.text.value == "" ==> r == Err(NoText(sectionId)) && repo.docs == old(repo.docs))
        && (s.text.Some? && s.text.value != "" ==>
              var texts := generateQuestions(s.text.value, count);
              && r.Ok? && |r.value| == |texts|
              && (forall i :: 0 <= i < |texts| ==> r.value[i] == QuestionItem(old(nextId) + i, texts[i], "general"))
              && repo.docs == old(repo.docs)[k := s.(questions := s.questions + r.value)])
    {
      var found := Get(repo.docs, sectionId);
      if found.None? {
        return Err(SectionNotFound(sectionId));
      }
      var section := found.value;
      if section.text.None? || section.text.value == "" {
        return Err(NoText(sectionId));
      }
      var texts := generateQuestions(section.text.value, count);
      var created: seq<QuestionItem> := [];
      for i := 0 to |texts|
        modifies this
        invariant |created| == i && nextId == old(nextId) + i
        invariant IdsBelow(repo.docs, nextId)
        invariant forall j :: 0 <= j < i ==> created[j] == QuestionItem(old(nextId) + j, texts[j], "general")
      {
        created := created + [QuestionItem(nextId, texts[i], "general")];
        nextId := nextId + 1;
      }
      section := section.(questions := section.questions + created);
      ReplaceInPlace(repo.docs, section, nextId);
      repo.docs := Upsert(repo.docs, section);
      r := Ok(created);
    }

    /** `update_question`: a missing section or question raises and changes
        nothing; otherwise the question text is replaced, its type only when a
        non-empty one is given, and only that question of that section changes. */
    method UpdateQuestion(questionId: Id, sectionId: Id, question: string, kind: Option<string>)
      returns (r: Result<QuestionItem>)
      requires Valid()
      modifies repo
      ensures Valid()
      ensures Get(old(repo.docs), sectionId).None? ==>
        r == Err(SectionNotFound(sectionId)) && repo.docs == old(repo.docs)
      ensures Get(old(repo.docs), sectionId).Some? ==>
        var s := Get(old(repo.docs), sectionId).value;
        var k := IndexOf(old(repo.docs), sectionId).value;
        && (QuestionIndex(s.questions, questionId).None? ==>
              r == Err(QuestionNotFound(questionId)) && repo.docs == old(repo.docs))
        && (QuestionIndex(s.questions, questionId).Some? ==>
              var j := QuestionIndex(s.questions, questionId).value;
              && r == Ok(Edited(s.questions[j], question, kind))
              && repo.docs == old(repo.docs)[k := s.(questions := s.questions[j := r.value])])
    {
      var found := Get(repo.docs, sectionId);
      if found.None? {
        return Err(SectionNotFound(sectionId));
      }
      var got := GetQuestionById(questionId, sectionId);
      if got.Err? {
        return Err(got.error);
      }
      var item := Edited(got.value, question, kind);
      var section := found.value;
      var j := QuestionIndex(section.questions, questionId).value;
      section := section.(questions := section.questions[j := item]);
      ReplaceInPlace(repo.docs, section, nextId);
      repo.docs := Upsert(repo.docs, section);
      r := Ok(item);
    }

    /** `create_sections_magically`: missing content or an unreadable
        preface raises before anything changes. Otherwise the book's first
        page is recorded and one section per entry of the layout (see Layout)
        is inserted, in order, with fresh ids; reading a window outside the
        PDF stops the loop, leaving the sections made so far in place. */
    method CreateSectionsMagically(bookId: Id, exampleTitles: seq<string>, startPage: int, contentEnd: int,
                                   prefaceStart: int, prefaceEnd: int)
      returns (r: Result<seq<Section>>)
      requires Valid()
      modifies this, repo, books.repo
      ensures Valid()
      ensures old(Content(bookId)).Err? ==>
        && r == Err(old(Content(bookId)).error)
        && repo.docs == old(repo.docs) && books.repo.docs == old(books.repo.docs)
      ensures old(Content(bookId)).Ok? && GetPagesText(old(Content(bookId)).value, prefaceStart, prefaceEnd).Err? ==>
        && r == Err(IndexError)
        && repo.docs == old(repo.docs) && books.repo.docs == old(books.repo.docs)
      ensures old(Content(bookId)).Ok? && GetPagesText(old(Content(bookId)).value, prefaceStart, prefaceEnd).Ok? ==>
        var pages := old(Content(bookId)).value;
        var spans := Layout(sectionInfo(GetPagesText(pages, prefaceStart, prefaceEnd).value, exampleTitles), contentEnd);
        && books.repo.docs == old(books.repo.docs)[bookId := old(books.repo.docs)[bookId].(firstPage := Some(startPage))]
        && Stored(bookId, spans, pages, startPage, old(nextId), old(repo.docs), repo.docs, r)
    {
      var content := Content(bookId);
      if content.Err? {
        return Err(content.error);
      }
      var pages := content.value;
      var preface := GetPagesText(pages, prefaceStart, prefaceEnd);
      if preface.Err? {
        return Err(preface.error);
      }
      var infos := sectionInfo(preface.value, exampleTitles);
      var filtered := Filter(infos, WithinContent(contentEnd));
      var _ := books.AddBookStartPage(bookId, startPage);
      var sorted := SortByPage(filtered);
      ghost var spans := Layout(infos, contentEnd);
      assert spans == Spans(sorted, contentEnd) by {
        LayoutIsSpans(infos, contentEnd);
      }
      r := StoreSections(bookId, sorted, contentEnd, pages, startPage, spans);
    }

    /** The loop of `create_sections_magically`: for each sorted entry in
        turn, the section from its page to the next entry's page (the last
        one to `contentEnd`), numbered from 1, is inserted with a fresh id;
        a page window outside the PDF stops the loop. */
    method StoreSections(bookId: Id, sorted: seq<SectionInfo>, contentEnd: int, pages: seq<string>, startPage: int,
                         ghost spans: seq<Span>)
      returns (r: Result<seq<Section>>)
      requires spans == Spans(sorted, contentEnd)
      requires UniqueIds(repo.docs) && IdsBelow(repo.docs, nextId)
      modifies this, repo
      ensures UniqueIds(repo.docs) && IdsBelow(repo.docs, nextId)
      ensures Stored(bookId, spans, pages, startPage, old(nextId), old(repo.docs), repo.docs, r)
    {
      var created: seq<Section> := [];
      ghost var before := repo.docs;
      ghost var first := nextId;
      for idx := 0 to |sorted|
        invariant |created| == idx && nextId == first + idx
        invariant repo.docs == before + created
        invariant forall i :: 0 <= i < idx ==> created[i].id == first + i
        invariant forall i :: 0 <= i < idx ==>
          SectionFor(bookId, spans[i], pages, startPage, first + i) == Ok(created[i])
      {
        SpanSection(bookId, sorted, contentEnd, idx, pages, startPage, nextId);
        var endPage := if idx < |sorted| - 1 then sorted[idx + 1].pageNumber else contentEnd;
        var text := GetPagesText(pages, sorted[idx].pageNumber + startPage - 2, endPage + startPage - 3);
        if text.Err? {
          AppendRun(before, created, first);
          StoredAppend(bookId, spans, pages, startPage, first, before, created, Err(text.error));
          return Err(text.error);
        }
        var section := Section(nextId, bookId, sorted[idx].title, idx + 1, sorted[idx].pageNumber, endPage,
                               Some(text.value), []);
        nextId := nextId + 1;
        repo.docs := repo.docs + [section];
        created := created + [section];
      }
      AppendRun(before, created, first);
      StoredAppend(bookId, spans, pages, startPage, first, before, created, Ok(created));
      r := Ok(created);
    }
  }
}
