/** Sequence operations the source uses through JavaScript arrays and MongoDB queries:
    filter, reverse, the duplicate-free property and offset windows. */
module Seqs {

  /** Array.prototype.filter (and a MongoDB find by a field predicate over a collection
      kept in insertion order). */
  function Filter<T(!new)>(p: T -> bool, s: seq<T>): (r: seq<T>)
    ensures |r| <= |s|
    ensures forall x :: x in r <==> x in s && p(x)
    decreases |s|
  {
    if s == [] then []
    else
      var rest := Filter(p, s[1..]);
      assert s == [s[0]] + s[1..];
      if p(s[0]) then [s[0]] + rest else rest
  }

  /** Filter keeps every passing element as often as it occurs, and no other. */
  lemma {:induction false} FilterCount<T(!new)>(p: T -> bool, s: seq<T>, x: T)
    ensures multiset(Filter(p, s))[x] == if p(x) then multiset(s)[x] else 0
    decreases |s|
  {
    if s != [] {
      FilterCount(p, s[1..], x);
      assert s == [s[0]] + s[1..];
    }
  }

  /** Filter keeps the original order: it distributes over concatenation. */
  lemma {:induction false} FilterConcat<T(!new)>(p: T -> bool, a: seq<T>, b: seq<T>)
    ensures Filter(p, a + b) == Filter(p, a) + Filter(p, b)
    decreases |a|
  {
    if a == [] {
      assert a + b == b;
    } else {
      assert (a + b)[0] == a[0] && (a + b)[1..] == a[1..] + b;
      FilterConcat(p, a[1..], b);
    }
  }

  /** Filter removes nothing when every element passes. */
  lemma {:induction false} FilterAll<T(!new)>(p: T -> bool, s: seq<T>)
    requires forall x :: x in s ==> p(x)
    ensures Filter(p, s) == s
    decreases |s|
  {
    if s != [] {
      FilterAll(p, s[1..]);
    }
  }

  /** Filter keeps nothing when no element passes. */
  lemma {:induction false} FilterNone<T(!new)>(p: T -> bool, s: seq<T>)
    requires forall x :: x in s ==> !p(x)
    ensures Filter(p, s) == []
    decreases |s|
  {
    if s != [] {
      FilterNone(p, s[1..]);
    }
  }

  /** Filter by p after filter by q is filter by both. */
  lemma {:induction false} FilterFilter<T(!new)>(p: T -> bool, q: T -> bool, s: seq<T>)
    ensures Filter(p, Filter(q, s)) == Filter(x => q(x) && p(x), s)
    decreases |s|
  {
    if s != [] {
      FilterFilter(p, q, s[1..]);
    }
  }

  /** Filtering twice by the same predicate is filtering once. */
  lemma {:induction false} FilterIdempotent<T(!new)>(p: T -> bool, s: seq<T>)
    ensures Filter(p, Filter(p, s)) == Filter(p, s)
    decreases |s|
  {
    if s != [] {
      FilterIdempotent(p, s[1..]);
    }
  }

  /** Two filters can be applied in either order. */
  lemma {:induction false} FilterCommute<T(!new)>(p: T -> bool, q: T -> bool, s: seq<T>)
    ensures Filter(p, Filter(q, s)) == Filter(q, Filter(p, s))
    decreases |s|
  {
    if s != [] {
      FilterCommute(p, q, s[1..]);
    }
  }

  /** Filters by predicates that agree everywhere give the same result. */
  lemma {:induction false} FilterCongruent<T(!new)>(p: T -> bool, q: T -> bool, s: seq<T>)
    requires forall x :: p(x) == q(x)
    ensures Filter(p, s) == Filter(q, s)
    decreases |s|
  {
    if s != [] {
      FilterCongruent(p, q, s[1..]);
    }
  }

  function Reverse<T>(s: seq<T>): (r: seq<T>)
    ensures |r| == |s|
    ensures forall i :: 0 <= i < |s| ==> r[i] == s[|s| - 1 - i]
    decreases |s|
  {
    if s == [] then [] else Reverse(s[1..]) + [s[0]]
  }

  /** key strictly increases along s (oldest first, when key is a creation time). */
  predicate IncreasingBy<T>(key: T -> int, s: seq<T>) {
    forall i, j :: 0 <= i < j < |s| ==> key(s[i]) < key(s[j])
  }

  /** key strictly decreases along s (newest first). */
  predicate DecreasingBy<T>(key: T -> int, s: seq<T>) {
    forall i, j :: 0 <= i < j < |s| ==> key(s[i]) > key(s[j])
  }

  /** Filtering keeps an increasing order. */
  lemma {:induction false} FilterIncreasing<T(!new)>(p: T -> bool, key: T -> int, s: seq<T>)
    requires IncreasingBy(key, s)
    ensures IncreasingBy(key, Filter(p, s))
    decreases |s|
  {
    if s != [] {
      var rest := Filter(p, s[1..]);
      FilterIncreasing(p, key, s[1..]);
      var r := Filter(p, s);
      if p(s[0]) {
        assert r == [s[0]] + rest;
        forall i, j | 0 <= i < j < |r| ensures key(r[i]) < key(r[j]) {
          assert r[j] == rest[j - 1] && r[j] in s[1..];
          var k :| 0 <= k < |s[1..]| && s[1..][k] == r[j];
          assert r[j] == s[k + 1];
          if i > 0 {
            assert r[i] == rest[i - 1];
          }
        }
      } else {
        assert r == rest;
      }
    }
  }

  /** Reversing turns an increasing order into a decreasing one. */
  lemma ReverseDecreasing<T>(key: T -> int, s: seq<T>)
    requires IncreasingBy(key, s)
    ensures DecreasingBy(key, Reverse(s))
  {
  }

  predicate NoDup<T(==)>(s: seq<T>) {
    forall i, j :: 0 <= i < j < |s| ==> s[i] != s[j]
  }

  /** s[skip..skip + limit], clipped to the sequence: MongoDB's skip/limit and
      Array.prototype.slice with non-negative bounds. */
  function Window<T>(s: seq<T>, skip: nat, limit: nat): (r: seq<T>)
    ensures |r| == if skip >= |s| then 0 else if |s| - skip < limit then |s| - skip else limit
    ensures forall i :: 0 <= i < |r| ==> r[i] == s[skip + i]
  {
    if skip >= |s| then [] else if |s| - skip < limit then s[skip..] else s[skip..skip + limit]
  }

  /** A window keeps a decreasing order. */
  lemma WindowDecreasing<T>(key: T -> int, s: seq<T>, skip: nat, limit: nat)
    requires DecreasingBy(key, s)
    ensures DecreasingBy(key, Window(s, skip, limit))
  {
    var r := Window(s, skip, limit);
    forall i, j | 0 <= i < j < |r| ensures key(r[i]) > key(r[j]) {
      assert r[i] == s[skip + i] && r[j] == s[skip + j];
    }
  }

  /** A window holds only elements of the sequence. */
  lemma WindowWithin<T>(s: seq<T>, skip: nat, limit: nat)
    ensures forall x :: x in Window(s, skip, limit) ==> x in s
  {
    var r := Window(s, skip, limit);
    forall x | x in r ensures x in s {
      var i :| 0 <= i < |r| && r[i] == x;
      assert s[skip + i] == x;
    }
  }

  /** Reversing keeps the elements. */
  lemma ReverseWithin<T>(s: seq<T>)
    ensures forall x :: x in Reverse(s) ==> x in s
  {
    var r := Reverse(s);
    forall x | x in r ensures x in s {
      var i :| 0 <= i < |r| && r[i] == x;
      assert s[|s| - 1 - i] == x;
    }
  }

  /** Reversing keeps exactly the elements. */
  lemma ReverseSame<T>(s: seq<T>)
    ensures forall x :: x in Reverse(s) <==> x in s
  {
    ReverseWithin(s);
    var r := Reverse(s);
    forall x | x in s ensures x in r {
      var j :| 0 <= j < |s| && s[j] == x;
      assert r[|s| - 1 - j] == x;
    }
  }

  /** The pages of size n, one after the other, from page index k on. */
  function PagesFrom<T>(s: seq<T>, n: nat, k: nat): seq<T>
    requires n > 0
    decreases |s| - k * n
  {
    if k * n >= |s| then [] else Window(s, k * n, n) + PagesFrom(s, n, k + 1)
  }

  /** Reading page after page from page k on gives back exactly s[k * n..]. */
  lemma {:induction false} PagesFromCover<T>(s: seq<T>, n: nat, k: nat)
    requires n > 0
    ensures k * n <= |s| ==> PagesFrom(s, n, k) == s[k * n..]
    ensures k * n > |s| ==> PagesFrom(s, n, k) == []
    decreases |s| - k * n
  {
    if k * n < |s| {
      PagesFromCover(s, n, k + 1);
      assert (k + 1) * n == k * n + n;
      if |s| - k * n < n {
        assert PagesFrom(s, n, k + 1) == [];
        assert Window(s, k * n, n) == s[k * n..];
      } else {
        assert Window(s, k * n, n) == s[k * n..k * n + n];
        assert s[k * n..] == s[k * n..k * n + n] + s[k * n + n..];
      }
    }
  }
}

/** The pagination arithmetic of the list endpoints: page and limit query parameters
    with their fallbacks, the offset, and Math.ceil(total / limit). */
module Paging {
  import opened Common

  /** parseInt(x) || fallback: an absent or non-numeric parameter (None) and 0 both
      fall back. */
  function ParamOr(raw: Option<int>, fallback: int): int {
    match raw
    case Some(v) => if v != 0 then v else fallback
    case None => fallback
  }

  /** The number of documents a cursor limit lets through: MongoDB reads a negative
      limit as its absolute value. */
  function Abs(x: int): nat { if x < 0 then -x else x }

  /** Math.ceil(total / limit) for a non-zero limit of either sign. */
  function CeilDiv(total: nat, limit: int): (q: int)
    requires limit != 0
    ensures limit > 0 ==> (q - 1) * limit < total <= q * limit
    ensures limit < 0 ==> q * limit <= total < (q - 1) * limit
  {
    if limit > 0 then
      var q := (total + limit - 1) / limit;
      DivBounds(total + limit - 1, limit);
      q
    else
      var q := -(total / -limit);
      DivBounds(total, -limit);
      q
  }

  lemma DivBounds(a: int, b: int)
    requires b > 0
    ensures (a / b) * b <= a < (a / b) * b + b
  {
  }
}
