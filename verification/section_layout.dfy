/** The pure part of services/section_service.py: page windows, the
    boundaries derived from the table-of-contents entries, and the renumbering
    of the `order` field when a section is deleted or inserted. */
module SectionLayout {
  import opened Common
  import opened Text
  import opened Models
  import opened Store
  import opened Books

  /** One table-of-contents entry the section-info extractor returns. */
  datatype SectionInfo = SectionInfo(title: string, pageNumber: int)

  /** A section boundary before its text is read. */
  datatype Span = Span(title: string, startPage: int, endPage: int, order: int)

  // ---------------------------------------------------------------- page windows

  /** The PDF page index (from 0) of logical page `p` (from 1) in a book whose
      logical page 1 is PDF page `firstPage` (from 1). */
  function PageIndex(p: int, firstPage: int): int
  {
    p + firstPage - 2
  }

  /** The window of PDF page indexes read for a section from logical page
      `start` to `end`: from `start + firstPage - 2` to `end + firstPage - 3`,
      which holds logical pages start..end-1 and no other. */
  function PageWindow(start: int, end: int, firstPage: int): (w: (int, int))
    ensures w.1 - w.0 + 1 == end - start
    ensures forall p :: start <= p < end ==> w.0 <= PageIndex(p, firstPage) <= w.1
    ensures forall p :: w.0 <= PageIndex(p, firstPage) <= w.1 ==> start <= p < end
  {
    (start + firstPage - 2, end + firstPage - 3)
  }

  /** The text `get_pages_text` returns for a section's window. */
  function WindowText(pages: seq<string>, start: int, end: int, firstPage: int): Result<string>
  {
    var w := PageWindow(start, end, firstPage);
    GetPagesText(pages, w.0, w.1)
  }

  /** Two sections that meet at page `mid` read disjoint, adjacent windows:
      their texts joined by a newline are the text of the window from `start`
      to `end`. */
  lemma WindowsTile(pages: seq<string>, start: int, mid: int, end: int, firstPage: int)
    requires start < mid < end
    requires 0 <= PageIndex(start, firstPage) && PageIndex(end, firstPage) <= |pages|
    ensures WindowText(pages, start, end, firstPage).Ok?
    ensures WindowText(pages, start, end, firstPage).value ==
      WindowText(pages, start, mid, firstPage).value + "\n" + WindowText(pages, mid, end, firstPage).value
  {
    PagesTextConcat(pages, start + firstPage - 2, mid + firstPage - 3, end + firstPage - 3);
  }

  // ------------------------------------------------------- table of contents

  function WithinContent(contentEnd: int): SectionInfo -> bool
  {
    (i: SectionInfo) => i.pageNumber <= contentEnd
  }

  function AtPage(p: int): SectionInfo -> bool
  {
    (i: SectionInfo) => i.pageNumber == p
  }

  ghost predicate SortedByPage(s: seq<SectionInfo>)
  {
    forall i, j :: 0 <= i < j < |s| ==> s[i].pageNumber <= s[j].pageNumber
  }

  /** Insert `x` after every entry whose page is not later than its own. */
  function InsertByPage(x: SectionInfo, s: seq<SectionInfo>): seq<SectionInfo>
  {
    if s == [] then [x]
    else if x.pageNumber < s[0].pageNumber then [x] + s
    else [s[0]] + InsertByPage(x, s[1..])
  }

  lemma {:induction false} InsertByPageCount(x: SectionInfo, s: seq<SectionInfo>)
    ensures multiset(InsertByPage(x, s)) == multiset(s) + multiset{x}
  {
    if s != [] && x.pageNumber >= s[0].pageNumber {
      InsertByPageCount(x, s[1..]);
      InsertBehind(x, s);
      assert s == [s[0]] + s[1..];
    }
  }

  lemma SortedTail(s: seq<SectionInfo>)
    requires s != [] && SortedByPage(s)
    ensures SortedByPage(s[1..])
  {
    var tail := s[1..];
    forall i, j | 0 <= i < j < |tail| ensures tail[i].pageNumber <= tail[j].pageNumber {
      assert tail[i] == s[i + 1] && tail[j] == s[j + 1];
    }
  }

  /** A sorted list stays sorted when an entry no later than all of it goes first. */
  lemma SortedCons(y: SectionInfo, t: seq<SectionInfo>)
    requires SortedByPage(t) && forall k :: 0 <= k < |t| ==> y.pageNumber <= t[k].pageNumber
    ensures SortedByPage([y] + t)
  {
    var r := [y] + t;
    forall i, j | 0 <= i < j < |r| ensures r[i].pageNumber <= r[j].pageNumber {
      assert r[j] == t[j - 1];
      if i > 0 {
        assert r[i] == t[i - 1];
      }
    }
  }

  lemma {:induction false} InsertByPageSorted(x: SectionInfo, s: seq<SectionInfo>)
    requires SortedByPage(s)
    ensures SortedByPage(InsertByPage(x, s))
    ensures multiset(InsertByPage(x, s)) == multiset(s) + multiset{x}
  {
    InsertByPageCount(x, s);
    if s != [] && x.pageNumber >= s[0].pageNumber {
      var tail := s[1..];
      var t := InsertByPage(x, tail);
      SortedTail(s);
      InsertByPageSorted(x, tail);
      forall k | 0 <= k < |t| ensures s[0].pageNumber <= t[k].pageNumber {
        assert t[k] in multiset(tail) + multiset{x};
        if t[k] != x {
          var a :| 0 <= a < |tail| && tail[a] == t[k];
          assert tail[a] == s[a + 1];
        }
      }
      InsertBehind(x, s);
      SortedCons(s[0], t);
    }
  }

  /** `sorted(entries, key=lambda x: x.page_number)`: ascending by page and,
      like Python's sort, stable (see SortStable). */
  function SortByPage(s: seq<SectionInfo>): (r: seq<SectionInfo>)
    ensures SortedByPage(r)
    ensures multiset(r) == multiset(s)
  {
    if s == [] then []
    else
      var init := SortByPage(s[..|s| - 1]);
      InsertByPageSorted(s[|s| - 1], init);
      assert s == s[..|s| - 1] + [s[|s| - 1]];
      InsertByPage(s[|s| - 1], init)
  }

  lemma InsertFilterFront(x: SectionInfo, s: seq<SectionInfo>, p: int)
    requires SortedByPage(s) && s != [] && x.pageNumber < s[0].pageNumber
    ensures InsertByPage(x, s) == [x] + s
    ensures Filter([x] + s, AtPage(p)) == Filter(s, AtPage(p)) + (if x.pageNumber == p then [x] else [])
  {
    FilterCons(x, s, AtPage(p));
    if x.pageNumber == p {
      assert forall i :: 0 <= i < |s| ==> !AtPage(p)(s[i]);
      FilterNone(s, AtPage(p));
    }
  }

  lemma {:induction false} InsertFilter(x: SectionInfo, s: seq<SectionInfo>, p: int)
    requires SortedByPage(s)
    ensures Filter(InsertByPage(x, s), AtPage(p)) ==
      Filter(s, AtPage(p)) + (if x.pageNumber == p then [x] else [])
    decreases |s|
  {
    if s == [] {
      FilterCons(x, [], AtPage(p));
    } else if x.pageNumber < s[0].pageNumber {
      InsertFilterFront(x, s, p);
    } else {
      SortedTail(s);
      InsertFilter(x, s[1..], p);
      InsertFilterBehind(x, s, p);
    }
  }

  lemma InsertBehind(x: SectionInfo, s: seq<SectionInfo>)
    requires s != [] && x.pageNumber >= s[0].pageNumber
    ensures InsertByPage(x, s) == [s[0]] + InsertByPage(x, s[1..])
  {
  }

  /** The step of InsertFilter where `x` goes behind the first entry. */
  lemma {:induction false} InsertFilterBehind(x: SectionInfo, s: seq<SectionInfo>, p: int)
    requires s != [] && x.pageNumber >= s[0].pageNumber
    requires Filter(InsertByPage(x, s[1..]), AtPage(p)) ==
      Filter(s[1..], AtPage(p)) + (if x.pageNumber == p then [x] else [])
    ensures Filter(InsertByPage(x, s), AtPage(p)) ==
      Filter(s, AtPage(p)) + (if x.pageNumber == p then [x] else [])
  {
    var t, f := InsertByPage(x, s[1..]), AtPage(p);
    var head, added := (if f(s[0]) then [s[0]] else []), (if x.pageNumber == p then [x] else []);
    calc {
      Filter(InsertByPage(x, s), f);
      { InsertBehind(x, s); }
      Filter([s[0]] + t, f);
      { FilterCons(s[0], t, f); }
      head + (Filter(s[1..], f) + added);
      (head + Filter(s[1..], f)) + added;
      { FilterFirst(s, f); }
      Filter(s, f) + added;
    }
  }

  /** Entries on the same page keep their relative order. */
  lemma {:induction false} SortStable(s: seq<SectionInfo>, p: int)
    ensures Filter(SortByPage(s), AtPage(p)) == Filter(s, AtPage(p))
  {
    if s != [] {
      var init, last := s[..|s| - 1], s[|s| - 1];
      assert s == init + [last];
      SortStable(init, p);
      InsertFilter(last, SortByPage(init), p);
      FilterAppend(init, [last], AtPage(p));
      FilterCons(last, [], AtPage(p));
    }
  }

  /** The (title, start page) entry a span was made from. */
  function Entries(spans: seq<Span>): (r: seq<SectionInfo>)
    ensures |r| == |spans|
  {
    seq(|spans|, i requires 0 <= i < |spans| => SectionInfo(spans[i].title, spans[i].startPage))
  }

  /** Entries in order, each ending where the next starts, the last at `contentEnd`. */
  function Spans(sorted: seq<SectionInfo>, contentEnd: int): (r: seq<Span>)
    ensures |r| == |sorted|
    ensures forall i {:trigger r[i]} :: 0 <= i < |r| ==>
      && r[i].title == sorted[i].title && r[i].startPage == sorted[i].pageNumber
      && r[i].endPage == (if i < |r| - 1 then sorted[i + 1].pageNumber else contentEnd)
      && r[i].order == i + 1
  {
    seq(|sorted|, i requires 0 <= i < |sorted| =>
      Span(sorted[i].title, sorted[i].pageNumber,
           if i < |sorted| - 1 then sorted[i + 1].pageNumber else contentEnd, i + 1))
  }

  /** The spans list exactly the entries they were built from. */
  lemma SpansEntries(sorted: seq<SectionInfo>, contentEnd: int)
    ensures Entries(Spans(sorted, contentEnd)) == sorted
  {
    var r := Spans(sorted, contentEnd);
    forall i | 0 <= i < |r| ensures Entries(r)[i] == sorted[i] {
      assert r[i].title == sorted[i].title && r[i].startPage == sorted[i].pageNumber;
    }
  }

  lemma SortedWithin(kept: seq<SectionInfo>, contentEnd: int)
    requires forall i :: 0 <= i < |kept| ==> kept[i].pageNumber <= contentEnd
    ensures forall i :: 0 <= i < |SortByPage(kept)| ==> SortByPage(kept)[i].pageNumber <= contentEnd
  {
    var sorted := SortByPage(kept);
    forall i | 0 <= i < |sorted| ensures sorted[i].pageNumber <= contentEnd {
      assert sorted[i] in multiset(kept);
    }
  }

  /** The boundaries `create_sections_magically` gives the table of contents:
      entries after the end of the content dropped, the rest in page order,
      numbered 1..k, each ending where the next one starts and the last one at
      the end of the content. */
  function Layout(infos: seq<SectionInfo>, contentEnd: int): (r: seq<Span>)
    ensures multiset(Entries(r)) == multiset(Filter(infos, WithinContent(contentEnd)))
    ensures forall i :: 0 <= i < |r| ==> r[i].order == i + 1
    ensures forall i :: 0 <= i < |r| ==> r[i].startPage <= r[i].endPage <= contentEnd
    ensures forall i, j :: 0 <= i < j < |r| ==> r[i].startPage <= r[j].startPage
    ensures forall i, j :: 0 <= i && j == i + 1 && j < |r| ==> r[i].endPage == r[j].startPage
    ensures r != [] ==> r[|r| - 1].endPage == contentEnd
  {
    var kept := Filter(infos, WithinContent(contentEnd));
    LayoutShape(kept, contentEnd);
    Spans(SortByPage(kept), contentEnd)
  }

  /** The spans of the kept entries, sorted, have every property `Layout` promises. */
  lemma LayoutShape(kept: seq<SectionInfo>, contentEnd: int)
    requires forall i :: 0 <= i < |kept| ==> WithinContent(contentEnd)(kept[i])
    ensures var r := Spans(SortByPage(kept), contentEnd);
      && multiset(Entries(r)) == multiset(kept)
      && (forall i :: 0 <= i < |r| ==> r[i].order == i + 1)
      && (forall i :: 0 <= i < |r| ==> r[i].startPage <= r[i].endPage <= contentEnd)
      && (forall i, j :: 0 <= i < j < |r| ==> r[i].startPage <= r[j].startPage)
      && (forall i, j :: 0 <= i && j == i + 1 && j < |r| ==> r[i].endPage == r[j].startPage)
      && (r != [] ==> r[|r| - 1].endPage == contentEnd)
  {
    var sorted := SortByPage(kept);
    SortedWithin(kept, contentEnd);
    SpansShape(sorted, contentEnd);
    SpansEntries(sorted, contentEnd);
  }

  /** Spans built from entries in page order, none past `contentEnd`, start in
      order, never end before they start nor past the content, and tile the
      content: each ends where the next starts, the last at `contentEnd`. */
  lemma SpansShape(sorted: seq<SectionInfo>, contentEnd: int)
    requires SortedByPage(sorted)
    requires forall i :: 0 <= i < |sorted| ==> sorted[i].pageNumber <= contentEnd
    ensures var r := Spans(sorted, contentEnd);
      && (forall i :: 0 <= i < |r| ==> r[i].startPage <= r[i].endPage <= contentEnd)
      && (forall i, j :: 0 <= i < j < |r| ==> r[i].startPage <= r[j].startPage)
      && (forall i, j :: 0 <= i && j == i + 1 && j < |r| ==> r[i].endPage == r[j].startPage)
      && (r != [] ==> r[|r| - 1].endPage == contentEnd)
  {
    var r := Spans(sorted, contentEnd);
    forall i | 0 <= i < |r| ensures r[i].startPage <= r[i].endPage <= contentEnd {
      if i < |r| - 1 {
        assert sorted[i].pageNumber <= sorted[i + 1].pageNumber;
      }
    }
    forall i, j | 0 <= i < j < |r| ensures r[i].startPage <= r[j].startPage {
      assert sorted[i].pageNumber <= sorted[j].pageNumber;
    }
  }

  // ------------------------------------------------------------- section order

  /** The orders of the book's sections all lie in 1..n and are pairwise distinct. */
  ghost predicate OrdersIn(docs: seq<Section>, bookId: Id, n: int)
  {
    && (forall i :: 0 <= i < |docs| && docs[i].bookId == bookId ==> 1 <= docs[i].order <= n)
    && (forall i, j ::
          (0 <= i < |docs| && 0 <= j < |docs| && i != j &&
           docs[i].bookId == bookId && docs[j].bookId == bookId) ==>
            docs[i].order != docs[j].order)
  }

  /** The orders of the book's sections are exactly 1..n, n being the number of
      its sections. */
  ghost predicate OrdersContiguous(docs: seq<Section>, bookId: Id)
  {
    OrdersIn(docs, bookId, |ByBook(docs, bookId)|)
  }

  lemma CountAppend(docs: seq<Section>, s: Section, bookId: Id)
    ensures |ByBook(docs + [s], bookId)| == |ByBook(docs, bookId)| + (if s.bookId == bookId then 1 else 0)
  {
    FilterAppend(docs, [s], InBook(bookId));
    FilterCons(s, [], InBook(bookId));
  }

  lemma {:induction false} CountPointwise(a: seq<Section>, b: seq<Section>, bookId: Id)
    requires |a| == |b|
    requires forall i :: 0 <= i < |a| ==> a[i].bookId == b[i].bookId
    ensures |ByBook(a, bookId)| == |ByBook(b, bookId)|
  {
    if a != [] {
      assert a == [a[0]] + a[1..] && b == [b[0]] + b[1..];
      FilterCons(a[0], a[1..], InBook(bookId));
      FilterCons(b[0], b[1..], InBook(bookId));
      CountPointwise(a[1..], b[1..], bookId);
    }
  }

  lemma CountRemoveAt(docs: seq<Section>, k: nat, bookId: Id)
    requires k < |docs|
    ensures |ByBook(docs[..k] + docs[k + 1..], bookId)| ==
      |ByBook(docs, bookId)| - (if docs[k].bookId == bookId then 1 else 0)
  {
    assert docs == docs[..k] + ([docs[k]] + docs[k + 1..]);
    FilterAppend(docs[..k], [docs[k]] + docs[k + 1..], InBook(bookId));
    FilterCons(docs[k], docs[k + 1..], InBook(bookId));
    FilterAppend(docs[..k], docs[k + 1..], InBook(bookId));
  }

  /** Every document but the k-th, in order. */
  lemma RemoveAtShape(docs: seq<Section>, k: nat)
    requires k < |docs|
    ensures var e := docs[..k] + docs[k + 1..];
      && |e| == |docs| - 1
      && (forall j :: 0 <= j < k ==> e[j] == docs[j])
      && (forall j :: k <= j < |e| ==> e[j] == docs[j + 1])
  {
    var e := docs[..k] + docs[k + 1..];
    forall j | k <= j < |e| ensures e[j] == docs[j + 1] {
      assert e[j] == docs[k + 1..][j - k];
    }
  }

  lemma RemoveAtUnique(docs: seq<Section>, k: nat)
    requires k < |docs| && UniqueIds(docs)
    ensures var e := docs[..k] + docs[k + 1..];
      UniqueIds(e) && forall j :: 0 <= j < |e| ==> e[j].id != docs[k].id
  {
    var e := docs[..k] + docs[k + 1..];
    RemoveAtShape(docs, k);
    forall j | 0 <= j < |e| ensures e[j] == docs[if j < k then j else j + 1] {
    }
    forall i, j | 0 <= i < |e| && 0 <= j < |e| && i != j ensures e[i].id != e[j].id {
      assert e[i] == docs[if i < k then i else i + 1];
      assert e[j] == docs[if j < k then j else j + 1];
    }
  }

  /** What `Remove` leaves: every document but the one at the id's position. */
  lemma RemoveShape(docs: seq<Section>, id: Id)
    requires UniqueIds(docs) && Get(docs, id).Some?
    ensures var k := IndexOf(docs, id).value; var e := Remove(docs, id);
      && e == docs[..k] + docs[k + 1..]
      && UniqueIds(e)
      && (forall j :: 0 <= j < |e| ==> e[j] == docs[if j < k then j else j + 1] && e[j].id != id)
  {
    var k := IndexOf(docs, id).value;
    var e := docs[..k] + docs[k + 1..];
    assert Remove(docs, id) == e;
    RemoveAtShape(docs, k);
    RemoveAtUnique(docs, k);
    forall j | 0 <= j < |e| ensures e[j] == docs[if j < k then j else j + 1] {
    }
  }

  /** The section as `delete_section` leaves it, the deleted one having held
      `deleted` in book `bookId`. */
  function Lowered(s: Section, bookId: Id, deleted: int): (r: Section)
    ensures r.id == s.id && r.bookId == s.bookId
  {
    if s.bookId == bookId && s.order > deleted then s.(order := s.order - 1) else s
  }

  /** The collection after `delete_section(sectionId)`: the section gone and
      every later section of its book moved down by one. */
  function AfterDelete(docs: seq<Section>, sectionId: Id): (r: seq<Section>)
    requires Get(docs, sectionId).Some?
  {
    var s := Get(docs, sectionId).value;
    var rest := Remove(docs, sectionId);
    seq(|rest|, i requires 0 <= i < |rest| => Lowered(rest[i], s.bookId, s.order))
  }

  /** Every document but the k-th, moved down past the k-th's order. */
  function LowerPast(docs: seq<Section>, k: nat): (r: seq<Section>)
    requires k < |docs|
  {
    seq(|docs| - 1, i requires 0 <= i < |docs| - 1 =>
      Lowered(docs[if i < k then i else i + 1], docs[k].bookId, docs[k].order))
  }

  lemma LowerPastKeepsOrders(docs: seq<Section>, k: nat, bookId: Id, n: int)
    requires k < |docs| && OrdersIn(docs, bookId, n)
    ensures OrdersIn(LowerPast(docs, k), bookId, if docs[k].bookId == bookId then n - 1 else n)
  {
    var r := LowerPast(docs, k);
    var sb, d := docs[k].bookId, docs[k].order;
    forall i | 0 <= i < |r| && r[i].bookId == bookId
      ensures 1 <= r[i].order <= (if sb == bookId then n - 1 else n)
    {
      var a := if i < k then i else i + 1;
      assert r[i] == Lowered(docs[a], sb, d) && a != k;
    }
    forall i, j | 0 <= i < |r| && 0 <= j < |r| && i != j && r[i].bookId == bookId && r[j].bookId == bookId
      ensures r[i].order != r[j].order
    {
      var a := if i < k then i else i + 1;
      var b := if j < k then j else j + 1;
      assert r[i] == Lowered(docs[a], sb, d) && a != k;
      assert r[j] == Lowered(docs[b], sb, d) && b != k;
      assert a != b;
    }
  }

  /** `AfterDelete` is `LowerPast` at the deleted section's position, and
      keeps each remaining document's book. */
  lemma AfterDeleteShape(docs: seq<Section>, sectionId: Id)
    requires UniqueIds(docs) && Get(docs, sectionId).Some?
    ensures var k := IndexOf(docs, sectionId).value; var e := Remove(docs, sectionId);
      && AfterDelete(docs, sectionId) == LowerPast(docs, k)
      && e == docs[..k] + docs[k + 1..]
      && |AfterDelete(docs, sectionId)| == |e|
      && forall i :: 0 <= i < |e| ==> AfterDelete(docs, sectionId)[i].bookId == e[i].bookId
  {
    var k := IndexOf(docs, sectionId).value;
    RemoveShape(docs, sectionId);
  }

  /** Deleting a section keeps the orders of every book contiguous: 1..n
      becomes 1..n-1 for its own book, and other books are untouched. */
  lemma DeleteKeepsContiguous(docs: seq<Section>, sectionId: Id, bookId: Id)
    requires UniqueIds(docs) && Get(docs, sectionId).Some?
    requires OrdersContiguous(docs, bookId)
    ensures OrdersContiguous(AfterDelete(docs, sectionId), bookId)
  {
    var k := IndexOf(docs, sectionId).value;
    var n := |ByBook(docs, bookId)|;
    var m := if docs[k].bookId == bookId then n - 1 else n;
    var r := AfterDelete(docs, sectionId);
    AfterDeleteShape(docs, sectionId);
    assert |ByBook(r, bookId)| == m by {
      CountRemoveAt(docs, k, bookId);
      CountPointwise(r, Remove(docs, sectionId), bookId);
    }
    assert OrdersIn(r, bookId, m) by {
      LowerPastKeepsOrders(docs, k, bookId, n);
    }
  }

  /** `add_section_to_book` appends (order count + 1) when asked for order -1
      or for an order at or beyond the number of the book's sections. */
  predicate AppendsAtEnd(count: nat, order: int)
  {
    order == -1 || order >= count
  }

  function NewOrder(count: nat, order: int): int
  {
    if AppendsAtEnd(count, order) then count + 1 else order
  }

  function Raised(s: Section, bookId: Id, order: int): (r: Section)
    ensures r.id == s.id && r.bookId == s.bookId
  {
    if s.bookId == bookId && s.order >= order then s.(order := s.order + 1) else s
  }

  function RaiseFrom(docs: seq<Section>, bookId: Id, order: int): (r: seq<Section>)
    ensures |r| == |docs|
  {
    seq(|docs|, i requires 0 <= i < |docs| => Raised(docs[i], bookId, order))
  }

  /** The existing sections after `add_section_to_book` has made room. */
  function Shifted(docs: seq<Section>, bookId: Id, order: int): (r: seq<Section>)
  {
    if AppendsAtEnd(|ByBook(docs, bookId)|, order) then docs else RaiseFrom(docs, bookId, order)
  }

  lemma RaiseKeepsOrders(docs: seq<Section>, bookId: Id, order: int, n: int)
    requires OrdersIn(docs, bookId, n) && 1 <= order
    ensures OrdersIn(RaiseFrom(docs, bookId, order), bookId, n + 1)
    ensures forall i :: 0 <= i < |docs| && docs[i].bookId == bookId ==>
      RaiseFrom(docs, bookId, order)[i].order != order
  {
  }

  lemma AppendKeepsOrders(docs: seq<Section>, bookId: Id, n: int, s: Section)
    requires OrdersIn(docs, bookId, n) && 1 <= s.order <= n
    requires forall i :: 0 <= i < |docs| && docs[i].bookId == bookId ==> docs[i].order != s.order
    ensures OrdersIn(docs + [s], bookId, n)
  {
    var r := docs + [s];
    assert forall i :: 0 <= i < |docs| ==> r[i] == docs[i];
  }

  /** Inserting at order -1 or at any order in 1..n (n sections) keeps the
      book's orders contiguous, 1..n+1. */
  lemma InsertKeepsContiguous(docs: seq<Section>, bookId: Id, order: int, s: Section)
    requires OrdersContiguous(docs, bookId)
    requires order == -1 || order >= 1
    requires s.bookId == bookId && s.order == NewOrder(|ByBook(docs, bookId)|, order)
    ensures OrdersContiguous(Shifted(docs, bookId, order) + [s], bookId)
  {
    var n := |ByBook(docs, bookId)|;
    var sh := Shifted(docs, bookId, order);
    if AppendsAtEnd(n, order) {
      assert OrdersIn(docs, bookId, n + 1);
      AppendKeepsOrders(docs, bookId, n + 1, s);
    } else {
      CountPointwise(sh, docs, bookId);
      RaiseKeepsOrders(docs, bookId, order, n);
      AppendKeepsOrders(sh, bookId, n + 1, s);
    }
    CountAppend(sh, s, bookId);
  }

  /** Order 0, which the order input accepts, breaks contiguity when the book
      already has a section: every section moves up and the new one takes
      order 0. */
  lemma InsertAtZeroBreaksContiguity(docs: seq<Section>, bookId: Id, s: Section)
    requires |ByBook(docs, bookId)| >= 1
    requires s.bookId == bookId && s.order == NewOrder(|ByBook(docs, bookId)|, 0)
    ensures !OrdersContiguous(Shifted(docs, bookId, 0) + [s], bookId)
  {
    var r := Shifted(docs, bookId, 0) + [s];
    assert r[|r| - 1] == s && s.order == 0;
  }
}
