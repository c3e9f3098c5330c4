/** Book bookkeeping (services/book_service.py): S3 keys, page windows of the
    stored PDF, and the book records. A PDF is modelled as the sequence of the
    texts of its pages. */
module Books {
  import opened Common
  import opened Text
  import opened Models
  import opened Store

  const S3Scheme := "s3://"

  /** The path `upload_file` hands back for a stored object. */
  function S3Path(bucket: string, key: string): string
  {
    S3Scheme + bucket + "/" + key
  }

  /** `_get_s3_key`: the text after the third "/" of an "s3://" path, any
      other path as it is. */
  function GetS3Key(path: string): (r: string)
    ensures !StartsWith(path, S3Scheme) ==> r == path
    ensures |r| <= |path| && path[|path| - |r|..] == r
  {
    if StartsWith(path, S3Scheme) then
      var parts := Split(path, '/', 3);
      JoinEndsWithLast(parts, "/");
      parts[|parts| - 1]
    else path
  }

  lemma {:induction false} JoinEndsWithLast(parts: seq<string>, sep: string)
    requires parts != []
    ensures var j, l := Join(parts, sep), parts[|parts| - 1];
      |l| <= |j| && j[|j| - |l|..] == l
  {
    if |parts| > 1 {
      JoinEndsWithLast(parts[1..], sep);
    }
  }

  lemma FindAt(s: string, c: char, k: nat)
    requires k < |s| && s[k] == c && c !in s[..k]
    ensures Find(s, c) == Some(k)
  {
    assert s[k] in s;
    assert forall j :: 0 <= j < k ==> s[..k][j] == s[j];
    assert forall m :: k < m <= |s| ==> s[..m][k] == c;
  }

  /** Splitting at a found separator: the text before it, then the rest split once less. */
  lemma SplitAt(s: string, c: char, k: nat, maxsplit: nat)
    requires maxsplit > 0 && k < |s| && s[k] == c && c !in s[..k]
    ensures Split(s, c, maxsplit) == [s[..k]] + Split(s[k + 1..], c, maxsplit - 1)
  {
    FindAt(s, c, k);
  }

  /** Where the slashes of an S3 path are. */
  lemma S3PathShape(bucket: string, key: string)
    requires '/' !in bucket
    ensures var path := S3Path(bucket, key);
      && StartsWith(path, S3Scheme)
      && path[3] == '/' && '/' !in path[..3] && path[..3] == "s3:"
      && path[4..] == "/" + bucket + "/" + key
  {
    var path := S3Path(bucket, key);
    assert path[..|S3Scheme|] == S3Scheme;
    assert path[..3] == "s3:";
  }

  /** The key is recovered from every path `upload_file` builds, whatever the
      key holds, as long as the bucket name has no "/". */
  lemma {:induction false} S3KeyRoundTrip(bucket: string, key: string)
    requires '/' !in bucket
    ensures GetS3Key(S3Path(bucket, key)) == key
  {
    var path := S3Path(bucket, key);
    S3PathShape(bucket, key);
    var rest1 := path[4..];
    var rest2 := rest1[1..];
    assert rest2 == bucket + "/" + key;
    assert rest2[..|bucket|] == bucket;
    assert rest2[|bucket| + 1..] == key;
    SplitAt(path, '/', 3, 3);
    SplitAt(rest1, '/', 0, 2);
    SplitAt(rest2, '/', |bucket|, 1);
  }

  /** `pdf_reader.pages[i]`: pypdf counts a negative index from the end and
      raises IndexError outside the document. */
  function PageAt(pages: seq<string>, i: int): (r: Option<string>)
    ensures r.Some? <==> -|pages| <= i < |pages|
    ensures 0 <= i < |pages| ==> r == Some(pages[i])
    ensures -|pages| <= i < 0 ==> r == Some(pages[|pages| + i])
  {
    if 0 <= i < |pages| then Some(pages[i])
    else if -|pages| <= i < 0 then Some(pages[|pages| + i])
    else None
  }

  /** `[pages[i].extract_text() for i in range(start, end + 1)]`, None when an
      index raises. */
  function PageTexts(pages: seq<string>, start: int, end: int): (r: Option<seq<string>>)
    ensures r.Some? <==> end < start || (-|pages| <= start && end < |pages|)
    ensures r.Some? ==> |r.value| == if end < start then 0 else end - start + 1
    ensures r.Some? ==> forall k :: 0 <= k < |r.value| ==> PageAt(pages, start + k) == Some(r.value[k])
    decreases end - start
  {
    if end < start then Some([])
    else match PageAt(pages, start)
      case None => None
      case Some(t) =>
        match PageTexts(pages, start + 1, end)
        case None => None
        case Some(ts) => Some([t] + ts)
  }

  /** `get_pages_text`: the texts of pages start..end inclusive joined by
      newlines; the empty text for an empty range. */
  function GetPagesText(pages: seq<string>, start: int, end: int): (r: Result<string>)
    ensures end < start ==> r == Ok("")
    ensures r.Ok? <==> end < start || (-|pages| <= start && end < |pages|)
    ensures r.Err? ==> r.error == IndexError
    ensures 0 <= start <= end + 1 <= |pages| ==> r == Ok(Join(pages[start..end + 1], "\n"))
  {
    match PageTexts(pages, start, end)
    case None => Err(IndexError)
    case Some(ts) =>
      assert 0 <= start <= end + 1 <= |pages| ==> ts == pages[start..end + 1];
      Ok(Join(ts, "\n"))
  }

  /** Splitting a window in two: the text of the whole is the two texts joined
      by a newline. */
  lemma {:induction false} PagesTextConcat(pages: seq<string>, start: int, mid: int, end: int)
    requires 0 <= start <= mid < end < |pages|
    ensures GetPagesText(pages, start, end).Ok?
    ensures GetPagesText(pages, start, end).value ==
      GetPagesText(pages, start, mid).value + "\n" + GetPagesText(pages, mid + 1, end).value
  {
    assert pages[start..end + 1] == pages[start..mid + 1] + pages[mid + 1..end + 1];
    JoinAppend(pages[start..mid + 1], pages[mid + 1..end + 1], "\n");
  }

  /** `f"{user_id}/{title}_{uuid4()}"` */
  function UploadKey(userId: Id, title: string, suffix: Id): string
  {
    NatToString(userId) + "/" + title + "_" + NatToString(suffix)
  }

  /** The user already has a book with this title. */
  predicate TitleTaken(books: map<Id, Book>, userId: Id, title: string)
  {
    exists id | id in books :: books[id].userId == userId && books[id].title == title
  }

  /** `list(filter)` for `get_book_sections`: the book's sections, and with
      `withQuestions` only those holding at least one question. */
  function Listed(bookId: Id, withQuestions: bool): Section -> bool
  {
    (s: Section) => s.bookId == bookId && (withQuestions ==> |s.questions| > 0)
  }

  class BookService {
    const repo: BookRepo
    const bucket: Bucket
    const sectionRepo: SectionRepo
    /** Supply of fresh uuid4 values. */
    var nextId: nat

    ghost predicate Valid()
      reads this, repo
    {
      && '/' !in bucket.name
      && forall id :: id in repo.docs ==> repo.docs[id].id == id && id < nextId
    }

    constructor (repo: BookRepo, bucket: Bucket, sectionRepo: SectionRepo)
      requires '/' !in bucket.name
      requires repo.docs == map[]
      ensures Valid()
      ensures this.repo == repo && this.bucket == bucket && this.sectionRepo == sectionRepo
    {
      this.repo := repo;
      this.bucket := bucket;
      this.sectionRepo := sectionRepo;
      nextId := 0;
    }

    /** `get_book_content`: None for an unknown book, NoSuchKey when the
        stored object is gone, else the stored PDF. */
    function GetBookContent(bookId: Id): (r: Result<Option<seq<string>>>)
      reads repo, bucket
      ensures bookId !in repo.docs <==> r == Ok(None)
      ensures r.Ok? && r.value.Some? ==>
        GetS3Key(repo.docs[bookId].s3Path) in bucket.objects &&
        r.value.value == bucket.objects[GetS3Key(repo.docs[bookId].s3Path)]
    ensures bookId in repo.docs && GetS3Key(repo.docs[bookId].s3Path) in bucket.objects ==>
      r == Ok(Some(bucket.objects[GetS3Key(repo.docs[bookId].s3Path)]))
    ensures bookId in repo.docs && GetS3Key(repo.docs[bookId].s3Path) !in bucket.objects ==> r == Err(NoSuchKey)
    {
      if bookId !in repo.docs then Ok(None)
      else
        var key := GetS3Key(repo.docs[bookId].s3Path);
        if key in bucket.objects then Ok(Some(bucket.objects[key])) else Err(NoSuchKey)
    }

    /** `upload_book`: refuses a title the user already has, before anything
        is stored; otherwise stores the file under `user/title_uuid` and
        inserts the book record pointing at it. */
    method UploadBook(file: seq<string>, title: string, kind: string, userId: Id)
      returns (r: Result<Book>)
      requires Valid()
      modifies this, repo, bucket
      ensures Valid()
      ensures TitleTaken(old(repo.docs), userId, title) ==>
        && r == Err(ValueError("Book with this title already exists"))
        && repo.docs == old(repo.docs) && bucket.objects == old(bucket.objects)
      ensures !TitleTaken(old(repo.docs), userId, title) ==>
        var key := UploadKey(userId, title, old(nextId));
        && r.Ok?
        && r.value == Book(old(nextId) + 1, userId, title, kind, S3Path(bucket.name, key), |file|, None)
        && old(nextId) + 1 !in old(repo.docs)
        && repo.docs == old(repo.docs)[r.value.id := r.value]
        && bucket.objects == old(bucket.objects)[key := file]
        && GetS3Key(r.value.s3Path) == key
    {
      if TitleTaken(repo.docs, userId, title) {
        return Err(ValueError("Book with this title already exists"));
      }
      var suffix := nextId;
      nextId := nextId + 1;
      var key := UploadKey(userId, title, suffix);
      bucket.objects := bucket.objects[key := file];
      var path := S3Path(bucket.name, key);
      S3KeyRoundTrip(bucket.name, key);
      var id := nextId;
      nextId := nextId + 1;
      var book := Book(id, userId, title, kind, path, |file|, None);
      repo.docs := repo.docs[id := book];
      r := Ok(book);
    }

    /** `delete_book`: refuses an unknown book; otherwise deletes the object
        its path names and the record. Its sections stay in their collection. */
    method DeleteBook(bookId: Id) returns (r: Outcome)
      requires Valid()
      modifies repo, bucket
      ensures Valid()
      ensures bookId !in old(repo.docs) ==>
        && r == Fail(ValueError("Book not found"))
        && repo.docs == old(repo.docs) && bucket.objects == old(bucket.objects)
      ensures bookId in old(repo.docs) ==>
        && r == Pass
        && repo.docs == old(repo.docs) - {bookId}
        && bucket.objects == old(bucket.objects) - {GetS3Key(old(repo.docs)[bookId].s3Path)}
    {
      if bookId !in repo.docs {
        return Fail(ValueError("Book not found"));
      }
      var key := GetS3Key(repo.docs[bookId].s3Path);
      bucket.objects := bucket.objects - {key};
      repo.docs := repo.docs - {bookId};
      r := Pass;
    }

    /** `add_book_start_page`: None for an unknown book, else the book with
        only its first page changed. */
    method AddBookStartPage(bookId: Id, startPage: int) returns (r: Option<Book>)
      requires Valid()
      modifies repo
      ensures Valid()
      ensures bookId !in old(repo.docs) ==> r == None && repo.docs == old(repo.docs)
      ensures bookId in old(repo.docs) ==>
        && r == Some(old(repo.docs)[bookId].(firstPage := Some(startPage)))
        && repo.docs == old(repo.docs)[bookId := r.value]
    {
      if bookId !in repo.docs {
        return None;
      }
      var book := repo.docs[bookId].(firstPage := Some(startPage));
      repo.docs := repo.docs[bookId := book];
      r := Some(book);
    }

    /** `get_book_sections`: None for an unknown book; otherwise the book's
        sections in collection order, and with `withQuestions` only those that
        hold a question. */
    function GetBookSections(bookId: Id, withQuestions: bool): (r: Option<seq<Section>>)
      reads repo, sectionRepo
      ensures r.None? <==> bookId !in repo.docs
      ensures r.Some? ==> forall i :: 0 <= i < |r.value| ==>
        r.value[i] in sectionRepo.docs && r.value[i].bookId == bookId &&
        (withQuestions ==> r.value[i].questions != [])
      ensures r.Some? ==> forall i :: 0 <= i < |sectionRepo.docs| ==>
        (sectionRepo.docs[i].bookId == bookId && (withQuestions ==> sectionRepo.docs[i].questions != [])) ==>
        sectionRepo.docs[i] in r.value
    {
      if bookId !in repo.docs then None
      else Some(Filter(sectionRepo.docs, Listed(bookId, withQuestions)))
    }
  }
}
