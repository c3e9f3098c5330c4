/** Abstract stand-ins for the MongoDB collections and the S3 bucket.
    The sections collection is a sequence in its natural order, because the
    services observe the order in which `list` returns sections; the books and
    chat-session collections are maps keyed by id. */
module Store {
  import opened Common
  import opened Models

  ghost predicate UniqueIds(docs: seq<Section>)
  {
    forall i, j :: 0 <= i < |docs| && 0 <= j < |docs| && i != j ==> docs[i].id != docs[j].id
  }

  /** Position of the document with the given `_id`. */
  function IndexOf(docs: seq<Section>, id: Id): (r: Option<nat>)
    ensures r.Some? ==> r.value < |docs| && docs[r.value].id == id
    ensures r.Some? ==> forall j :: 0 <= j < r.value ==> docs[j].id != id
    ensures r.None? ==> forall j :: 0 <= j < |docs| ==> docs[j].id != id
  {
    if docs == [] then None
    else if docs[0].id == id then Some(0)
    else match IndexOf(docs[1..], id)
      case None => None
      case Some(k) => Some(k + 1)
  }

  /** `find_one({"_id": id})` */
  function Get(docs: seq<Section>, id: Id): (r: Option<Section>)
    ensures r.Some? ==> r.value in docs && r.value.id == id
    ensures r.None? ==> forall j :: 0 <= j < |docs| ==> docs[j].id != id
  {
    match IndexOf(docs, id)
    case None => None
    case Some(k) => Some(docs[k])
  }

  /** `replace_one({"_id": s.id}, s, upsert=True)`: replace in place, or insert at the end. */
  function Upsert(docs: seq<Section>, s: Section): (r: seq<Section>)
  {
    match IndexOf(docs, s.id)
    case None => docs + [s]
    case Some(k) => docs[k := s]
  }

  /** `delete_one({"_id": id})` */
  function Remove(docs: seq<Section>, id: Id): (r: seq<Section>)
    ensures Get(docs, id).None? ==> r == docs
    ensures Get(docs, id).Some? ==> |r| == |docs| - 1
  {
    match IndexOf(docs, id)
    case None => docs
    case Some(k) => docs[..k] + docs[k + 1..]
  }

  /** `bulk_write` of one upserting `UpdateOne` per document, in list order. */
  function BulkUpdate(docs: seq<Section>, updates: seq<Section>): seq<Section>
    decreases |updates|
  {
    if updates == [] then docs else BulkUpdate(Upsert(docs, updates[0]), updates[1..])
  }

  function InBook(bookId: Id): Section -> bool
  {
    (s: Section) => s.bookId == bookId
  }

  /** `list({"bookId": bookId})` */
  function ByBook(docs: seq<Section>, bookId: Id): seq<Section>
  {
    Filter(docs, InBook(bookId))
  }

  /** Position of the question with the given id in a question list. */
  function QuestionIndex(qs: seq<QuestionItem>, qid: Id): (r: Option<nat>)
    ensures r.Some? ==> r.value < |qs| && qs[r.value].id == qid
    ensures r.Some? ==> forall j :: 0 <= j < r.value ==> qs[j].id != qid
    ensures r.None? ==> forall j :: 0 <= j < |qs| ==> qs[j].id != qid
  {
    if qs == [] then None
    else if qs[0].id == qid then Some(0)
    else match QuestionIndex(qs[1..], qid)
      case None => None
      case Some(k) => Some(k + 1)
  }

  /** `find_one({"questions._id": qid})`: the first section holding the question. */
  function FindByQuestion(docs: seq<Section>, qid: Id): (r: Option<Section>)
    ensures r.Some? ==> r.value in docs && QuestionIndex(r.value.questions, qid).Some?
    ensures r.None? ==> forall j :: 0 <= j < |docs| ==> QuestionIndex(docs[j].questions, qid).None?
  {
    if docs == [] then None
    else if QuestionIndex(docs[0].questions, qid).Some? then Some(docs[0])
    else FindByQuestion(docs[1..], qid)
  }

  lemma UniqueTail(docs: seq<Section>)
    requires docs != [] && UniqueIds(docs)
    ensures UniqueIds(docs[1..])
    ensures forall i :: 0 <= i < |docs| - 1 ==> docs[1..][i].id != docs[0].id
  {
    var tail := docs[1..];
    forall i, j | 0 <= i < |tail| && 0 <= j < |tail| && i != j ensures tail[i].id != tail[j].id {
      assert tail[i] == docs[i + 1] && tail[j] == docs[j + 1];
    }
    forall i | 0 <= i < |tail| ensures tail[i].id != docs[0].id {
      assert tail[i] == docs[i + 1];
    }
  }

  /** Replacing a document by one with the same id keeps every id findable. */
  lemma ReplaceKeepsIds(docs: seq<Section>, k: nat, u: Section, rest: seq<Section>)
    requires k < |docs| && docs[k].id == u.id
    requires forall v :: v in rest ==> Get(docs, v.id).Some?
    ensures forall v :: v in rest ==> Get(docs[k := u], v.id).Some?
  {
    var docs' := docs[k := u];
    forall v | v in rest ensures Get(docs', v.id).Some? {
      var i := IndexOf(docs, v.id).value;
      assert docs'[i].id == v.id;
    }
  }

  lemma GetCons(docs: seq<Section>, id: Id)
    requires docs != []
    ensures Get(docs, id) == if docs[0].id == id then Some(docs[0]) else Get(docs[1..], id)
  {
  }

  /** A document with an id none of `rest` has, put in front, keeps the ids distinct. */
  lemma UniqueCons(x: Section, rest: seq<Section>)
    requires UniqueIds(rest) && forall k :: 0 <= k < |rest| ==> rest[k].id != x.id
    ensures UniqueIds([x] + rest)
  {
    var r := [x] + rest;
    forall i, j | 0 <= i < |r| && 0 <= j < |r| && i != j ensures r[i].id != r[j].id {
      if i > 0 {
        assert r[i] == rest[i - 1];
      }
      if j > 0 {
        assert r[j] == rest[j - 1];
      }
    }
  }

  /** A bulk update whose documents all exist already, with distinct ids,
      rewrites each of them in place and nothing else. */
  lemma {:induction false} BulkUpdateInPlace(docs: seq<Section>, updates: seq<Section>)
    requires UniqueIds(docs) && UniqueIds(updates)
    requires forall u :: u in updates ==> Get(docs, u.id).Some?
    ensures |BulkUpdate(docs, updates)| == |docs|
    ensures forall j :: 0 <= j < |docs| ==>
      BulkUpdate(docs, updates)[j] == Get(updates, docs[j].id).GetOr(docs[j])
    decreases |updates|
  {
    if updates != [] {
      var u, rest := updates[0], updates[1..];
      var k := IndexOf(docs, u.id).value;
      var docs' := docs[k := u];
      assert Upsert(docs, u) == docs';
      assert forall v :: v in rest ==> v in updates;
      ReplaceKeepsIds(docs, k, u, rest);
      UniqueTail(updates);
      assert UniqueIds(docs') by {
        forall i, j | 0 <= i < |docs'| && 0 <= j < |docs'| && i != j ensures docs'[i].id != docs'[j].id {
          assert docs'[i].id == docs[i].id && docs'[j].id == docs[j].id;
        }
      }
      BulkUpdateInPlace(docs', rest);
      forall j | 0 <= j < |docs|
        ensures BulkUpdate(docs, updates)[j] == Get(updates, docs[j].id).GetOr(docs[j])
      {
        GetCons(updates, docs[j].id);
        if j == k {
          assert Get(rest, u.id).None?;
        } else {
          assert docs'[j] == docs[j] && docs[j].id != u.id;
        }
      }
    }
  }

  lemma {:induction false} FilterUnique(docs: seq<Section>, p: Section -> bool)
    requires UniqueIds(docs)
    ensures UniqueIds(Filter(docs, p))
  {
    if docs != [] {
      var tail := docs[1..];
      UniqueTail(docs);
      FilterUnique(tail, p);
      FilterFirst(docs, p);
      var rest := Filter(tail, p);
      forall k | 0 <= k < |rest| ensures rest[k].id != docs[0].id {
        var a :| 0 <= a < |tail| && tail[a] == rest[k];
      }
      if p(docs[0]) {
        UniqueCons(docs[0], rest);
      }
    }
  }

  /** A bulk update that rewrites, with an id-preserving `f`, exactly the
      documents `sel` picks (listed once each) rewrites them in place and
      leaves every other document as it was. */
  lemma BulkUpdateSelected(docs: seq<Section>, picked: seq<Section>, sel: Section -> bool, f: Section -> Section)
    requires UniqueIds(docs) && UniqueIds(picked)
    requires forall w :: w in picked <==> w in docs && sel(w)
    requires forall w :: f(w).id == w.id
    ensures |BulkUpdate(docs, MapAll(picked, f))| == |docs|
    ensures forall j :: 0 <= j < |docs| ==>
      BulkUpdate(docs, MapAll(picked, f))[j] == if sel(docs[j]) then f(docs[j]) else docs[j]
  {
    var u := MapAll(picked, f);
    assert UniqueIds(u) by {
      forall i, j | 0 <= i < |u| && 0 <= j < |u| && i != j ensures u[i].id != u[j].id {
        assert u[i].id == picked[i].id && u[j].id == picked[j].id;
      }
    }
    forall v | v in u ensures Get(docs, v.id).Some? {
      var i :| 0 <= i < |u| && u[i] == v;
      assert picked[i] in docs;
      var a :| 0 <= a < |docs| && docs[a] == picked[i];
      assert docs[a].id == v.id;
    }
    BulkUpdateInPlace(docs, u);
    forall j | 0 <= j < |docs|
      ensures Get(u, docs[j].id).GetOr(docs[j]) == if sel(docs[j]) then f(docs[j]) else docs[j]
    {
      if sel(docs[j]) {
        assert docs[j] in picked;
        var i :| 0 <= i < |picked| && picked[i] == docs[j];
        assert u[i].id == docs[j].id;
        var g := Get(u, docs[j].id);
        var i' :| 0 <= i' < |u| && u[i'] == g.value;
        assert i' == i;
      } else {
        forall i | 0 <= i < |u| ensures u[i].id != docs[j].id {
          assert picked[i] in docs && sel(picked[i]);
          var a :| 0 <= a < |docs| && docs[a] == picked[i];
          assert a != j;
        }
      }
    }
  }

  /** The MongoDB `books` collection. */
  class BookRepo {
    var docs: map<Id, Book>

    constructor ()
      ensures docs == map[]
    {
      docs := map[];
    }
  }

  /** The MongoDB `sections` collection. */
  class SectionRepo {
    var docs: seq<Section>

    constructor ()
      ensures docs == []
    {
      docs := [];
    }
  }

  /** The MongoDB `chat_sessions` collection. */
  class SessionRepo {
    var docs: map<Id, Session>

    constructor ()
      ensures docs == map[]
    {
      docs := map[];
    }
  }

  /** The S3 bucket: object key to the page texts of the stored PDF. */
  class Bucket {
    const name: string
    var objects: map<string, seq<string>>

    /** S3 bucket names never contain a slash. */
    constructor (name: string)
      requires '/' !in name
      ensures this.name == name && objects == map[]
    {
      this.name := name;
      objects := map[];
    }
  }
}
