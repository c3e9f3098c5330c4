/** Shared vocabulary: optional values, the exceptions the services raise,
    and order-preserving filtering (Python's list comprehension with an `if`). */
module Common {

  /** Identifiers. The source uses uuid4 values; the model only needs equality
      and a supply of fresh ones. */
  type Id = nat

  datatype Option<+T> = None | Some(value: T) {
    function GetOr(default: T): T {
      match this
      case Some(v) => v
      case None => default
    }
  }

  /** The Python exception an operation ends with. */
  datatype Error =
    | ValueError(message: string)   // raised explicitly by the services
    | TypeError                     // arithmetic on a field that is still None
    | IndexError                    // a page index outside the PDF
    | ZeroDivisionError             // mean of no scores
    | DuplicateKeyError             // insert of an _id the collection already holds
    | NoSuchKey                     // S3 object missing

  datatype Result<+T> = Ok(value: T) | Err(error: Error)

  datatype Outcome = Pass | Fail(error: Error)

  /** `[x for x in s if p(x)]` */
  function Filter<T>(s: seq<T>, p: T -> bool): (r: seq<T>)
    ensures |r| <= |s|
    ensures forall i :: 0 <= i < |r| ==> r[i] in s && p(r[i])
    ensures forall i :: 0 <= i < |s| && p(s[i]) ==> s[i] in r
  {
    if s == [] then []
    else (if p(s[0]) then [s[0]] else []) + Filter(s[1..], p)
  }

  /** `[f(x) for x in s]` */
  function MapAll<T, U>(s: seq<T>, f: T -> U): (r: seq<U>)
    ensures |r| == |s| && forall i :: 0 <= i < |s| ==> r[i] == f(s[i])
  {
    seq(|s|, i requires 0 <= i < |s| => f(s[i]))
  }

  lemma MapAllSnoc<T, U>(s: seq<T>, x: T, f: T -> U)
    ensures MapAll(s + [x], f) == MapAll(s, f) + [f(x)]
  {
    var a, b := MapAll(s + [x], f), MapAll(s, f) + [f(x)];
    forall i | 0 <= i < |a| ensures a[i] == b[i] {
      if i < |s| {
        assert (s + [x])[i] == s[i];
      }
    }
  }

  lemma FilterCons<T>(x: T, s: seq<T>, p: T -> bool)
    ensures Filter([x] + s, p) == (if p(x) then [x] else []) + Filter(s, p)
  {
    assert ([x] + s)[1..] == s;
  }

  lemma FilterFirst<T>(s: seq<T>, p: T -> bool)
    requires s != []
    ensures Filter(s, p) == (if p(s[0]) then [s[0]] else []) + Filter(s[1..], p)
  {
  }

  /** Filtering one more element of a prefix. */
  lemma FilterSnoc<T>(s: seq<T>, i: nat, p: T -> bool)
    requires i < |s|
    ensures Filter(s[..i + 1], p) == Filter(s[..i], p) + (if p(s[i]) then [s[i]] else [])
  {
    assert s[..i + 1] == s[..i] + [s[i]];
    FilterAppend(s[..i], [s[i]], p);
    FilterCons(s[i], [], p);
  }

  /** An element is kept exactly when it is in the list and passes. */
  lemma {:induction false} FilterMember<T>(s: seq<T>, p: T -> bool, x: T)
    ensures x in Filter(s, p) <==> x in s && p(x)
  {
    if s != [] {
      FilterMember(s[1..], p, x);
      assert s == [s[0]] + s[1..];
    }
  }

  lemma FilterNone<T>(s: seq<T>, p: T -> bool)
    requires forall i :: 0 <= i < |s| ==> !p(s[i])
    ensures Filter(s, p) == []
  {
  }

  lemma {:induction false} FilterAppend<T>(a: seq<T>, b: seq<T>, p: T -> bool)
    ensures Filter(a + b, p) == Filter(a, p) + Filter(b, p)
  {
    if a == [] {
      assert a + b == b;
    } else {
      assert (a + b)[1..] == a[1..] + b;
      FilterAppend(a[1..], b, p);
    }
  }

  /** The conjunction of two filters. */
  function Both<T>(p: T -> bool, q: T -> bool): T -> bool
  {
    (x: T) => p(x) && q(x)
  }

  /** Filtering twice keeps the same elements, in the same order, as filtering
      once by both predicates. */
  lemma {:induction false} FilterFilter<T>(s: seq<T>, p: T -> bool, q: T -> bool)
    ensures Filter(Filter(s, p), q) == Filter(s, Both(p, q))
  {
    if s != [] {
      FilterFilter(s[1..], p, q);
      var head := if p(s[0]) then [s[0]] else [];
      FilterFirst(s, p);
      FilterFirst(s, Both(p, q));
      FilterAppend(head, Filter(s[1..], p), q);
      if p(s[0]) {
        FilterCons(s[0], [], q);
      }
    }
  }

  /** Filtering with a predicate that agrees on every element gives the same list. */
  lemma {:induction false} FilterCongruent<T>(s: seq<T>, p: T -> bool, q: T -> bool)
    requires forall i :: 0 <= i < |s| ==> p(s[i]) == q(s[i])
    ensures Filter(s, p) == Filter(s, q)
  {
    if s != [] {
      FilterCongruent(s[1..], p, q);
    }
  }
}
