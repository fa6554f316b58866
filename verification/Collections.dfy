/** Sequence helpers shared by the models: the iterator adaptors the controller uses
    (`filter`, `map`, `flat_map`, `find`) and its stable `sort_by`. */
module Collections {

  datatype Option<+T> = None | Some(value: T)

  function GetOr<T>(o: Option<T>, default: T): T {
    if o.Some? then o.value else default
  }

  function Map<A, B>(s: seq<A>, f: A -> B): (r: seq<B>)
    ensures |r| == |s|
    ensures forall i :: 0 <= i < |s| ==> r[i] == f(s[i])
  {
    seq(|s|, i requires 0 <= i < |s| => f(s[i]))
  }

  function Map2<A, B, C>(s: seq<A>, t: seq<B>, f: (A, B) -> C): (r: seq<C>)
    requires |s| == |t|
    ensures |r| == |s|
    ensures forall i :: 0 <= i < |s| ==> r[i] == f(s[i], t[i])
  {
    seq(|s|, i requires 0 <= i < |s| => f(s[i], t[i]))
  }

  function Filter<T(!new)>(s: seq<T>, p: T -> bool): (r: seq<T>)
    ensures forall x :: x in r <==> x in s && p(x)
  {
    if s == [] then [] else (if p(s[0]) then [s[0]] else []) + Filter(s[1..], p)
  }

  function FlatMap<A, B>(s: seq<A>, f: A -> seq<B>): seq<B> {
    if s == [] then [] else f(s[0]) + FlatMap(s[1..], f)
  }

  function FindFirst<T>(s: seq<T>, p: T -> bool): (r: Option<T>)
    ensures r.None? <==> forall i :: 0 <= i < |s| ==> !p(s[i])
    ensures r.Some? ==> r.value in s && p(r.value)
  {
    if s == [] then None else if p(s[0]) then Some(s[0]) else FindFirst(s[1..], p)
  }

  lemma {:induction false} FilterConcat<T(!new)>(s: seq<T>, t: seq<T>, p: T -> bool)
    ensures Filter(s + t, p) == Filter(s, p) + Filter(t, p)
  {
    if s == [] {
      assert s + t == t;
    } else {
      assert (s + t)[1..] == s[1..] + t;
      FilterConcat(s[1..], t, p);
    }
  }

  lemma {:induction false} FilterIdempotent<T(!new)>(s: seq<T>, p: T -> bool)
    ensures Filter(Filter(s, p), p) == Filter(s, p)
  {
    if s != [] {
      FilterIdempotent(s[1..], p);
      var rest := Filter(s[1..], p);
      if p(s[0]) {
        assert Filter(s, p) == [s[0]] + rest;
        assert ([s[0]] + rest)[1..] == rest;
      } else {
        assert Filter(s, p) == rest;
      }
    }
  }

  /** Filters that agree on the elements of `s` select the same subsequence. */
  lemma {:induction false} FilterSame<T(!new)>(s: seq<T>, p: T -> bool, q: T -> bool)
    requires forall i :: 0 <= i < |s| ==> p(s[i]) == q(s[i])
    ensures Filter(s, p) == Filter(s, q)
  {
    if s != [] {
      FilterSame(s[1..], p, q);
    }
  }

  lemma {:induction false} FilterAll<T(!new)>(s: seq<T>, p: T -> bool)
    requires forall i :: 0 <= i < |s| ==> p(s[i])
    ensures Filter(s, p) == s
  {
    if s != [] {
      FilterAll(s[1..], p);
    }
  }

  lemma FilterNone<T(!new)>(s: seq<T>, p: T -> bool)
    requires forall i :: 0 <= i < |s| ==> !p(s[i])
    ensures Filter(s, p) == []
  {
    if s != [] {
      FilterNone(s[1..], p);
    }
  }

  lemma FilterStep<T(!new)>(s: seq<T>, i: nat, p: T -> bool)
    requires i < |s|
    ensures Filter(s[..i + 1], p) == Filter(s[..i], p) + if p(s[i]) then [s[i]] else []
  {
    assert s[..i + 1] == s[..i] + [s[i]];
    FilterConcat(s[..i], [s[i]], p);
  }

  lemma {:induction false} FilterMultiset<T(!new)>(s: seq<T>, p: T -> bool, x: T)
    ensures multiset(Filter(s, p))[x] == if p(x) then multiset(s)[x] else 0
  {
    if s != [] {
      FilterMultiset(s[1..], p, x);
      assert s == [s[0]] + s[1..];
    }
  }

  lemma FilterPermutation<T(!new)>(s: seq<T>, t: seq<T>, p: T -> bool)
    requires multiset(s) == multiset(t)
    ensures multiset(Filter(s, p)) == multiset(Filter(t, p))
  {
    forall x ensures multiset(Filter(s, p))[x] == multiset(Filter(t, p))[x] {
      FilterMultiset(s, p, x);
      FilterMultiset(t, p, x);
    }
  }

  lemma {:induction false} FlatMapConcat<A, B>(s: seq<A>, t: seq<A>, f: A -> seq<B>)
    ensures FlatMap(s + t, f) == FlatMap(s, f) + FlatMap(t, f)
  {
    if s == [] {
      assert s + t == t;
    } else {
      assert (s + t)[1..] == s[1..] + t;
      FlatMapConcat(s[1..], t, f);
    }
  }

  lemma TakeStep<T>(s: seq<T>, i: nat)
    requires i < |s|
    ensures s[..i + 1] == s[..i] + [s[i]]
  {
  }

  /** One more loop iteration: the next element's contribution is appended. */
  lemma FlatMapStep<A, B>(s: seq<A>, i: nat, f: A -> seq<B>)
    requires i < |s|
    ensures FlatMap(s[..i + 1], f) == FlatMap(s[..i], f) + f(s[i])
  {
    assert s[..i + 1] == s[..i] + [s[i]];
    FlatMapConcat(s[..i], [s[i]], f);
    assert FlatMap([s[i]], f) == f(s[i]) + FlatMap<A, B>([], f);
  }

  lemma {:induction false} FlatMapMember<A, B>(s: seq<A>, f: A -> seq<B>, y: B)
    ensures y in FlatMap(s, f) <==> exists i :: 0 <= i < |s| && y in f(s[i])
  {
    if s != [] {
      FlatMapMember(s[1..], f, y);
      assert forall i :: 0 <= i < |s[1..]| ==> s[1..][i] == s[i + 1];
      if i :| 0 <= i < |s| && y in f(s[i]) {
        assert i > 0 ==> s[i] == s[1..][i - 1];
      }
    }
  }

  lemma FlatMapNone<A, B>(s: seq<A>, f: A -> seq<B>)
    requires forall i :: 0 <= i < |s| ==> f(s[i]) == []
    ensures FlatMap(s, f) == []
  {
    if s != [] {
      FlatMapNone(s[1..], f);
    }
  }

  // ---- Stable sorting ----

  /** A comparator `sort_by` accepts: irreflexive, transitive, with ties forming classes. */
  ghost predicate StrictWeakOrder<T(!new)>(less: (T, T) -> bool) {
    && (forall x :: !less(x, x))
    && (forall x, y :: less(x, y) ==> !less(y, x))
    && (forall x, y, z :: less(x, z) ==> less(x, y) || less(y, z))
  }

  ghost predicate SortedBy<T>(s: seq<T>, less: (T, T) -> bool) {
    forall i, j :: 0 <= i < j < |s| ==> !less(s[j], s[i])
  }

  function Insert<T>(x: T, s: seq<T>, less: (T, T) -> bool): seq<T> {
    if s == [] || !less(s[0], x) then [x] + s else [s[0]] + Insert(x, s[1..], less)
  }

  /** The stable sort: an element goes before its equals to the right of it. */
  function SortBy<T>(s: seq<T>, less: (T, T) -> bool): seq<T> {
    if s == [] then [] else Insert(s[0], SortBy(s[1..], less), less)
  }

  lemma {:induction false} InsertPermutes<T>(x: T, s: seq<T>, less: (T, T) -> bool)
    ensures multiset(Insert(x, s, less)) == multiset([x] + s)
  {
    if !(s == [] || !less(s[0], x)) {
      InsertPermutes(x, s[1..], less);
      assert s == [s[0]] + s[1..];
    }
  }

  lemma {:induction false} SortPermutes<T(!new)>(s: seq<T>, less: (T, T) -> bool)
    ensures multiset(SortBy(s, less)) == multiset(s)
    ensures forall x :: x in SortBy(s, less) <==> x in s
    ensures |SortBy(s, less)| == |s|
  {
    if s != [] {
      SortPermutes(s[1..], less);
      InsertPermutes(s[0], SortBy(s[1..], less), less);
      assert s == [s[0]] + s[1..];
      calc {
        multiset(SortBy(s, less));
        multiset([s[0]] + SortBy(s[1..], less));
        multiset([s[0]]) + multiset(s[1..]);
        multiset(s);
      }
    }
    assert |multiset(SortBy(s, less))| == |multiset(s)|;
    forall x ensures x in SortBy(s, less) <==> x in s {
      assert x in multiset(SortBy(s, less)) <==> x in multiset(s);
    }
  }

  lemma {:induction false} InsertSorted<T(!new)>(x: T, s: seq<T>, less: (T, T) -> bool)
    requires StrictWeakOrder(less) && SortedBy(s, less)
    ensures SortedBy(Insert(x, s, less), less)
  {
    var r := Insert(x, s, less);
    if s == [] {
    } else if !less(s[0], x) {
      forall j | 0 < j < |r| ensures !less(r[j], r[0]) {
        assert r[j] == s[j - 1];
        assert j > 1 ==> !less(s[j - 1], s[0]);
      }
    } else {
      InsertSorted(x, s[1..], less);
      InsertPermutes(x, s[1..], less);
      forall j | 0 < j < |r| ensures !less(r[j], r[0]) {
        assert r[j] == Insert(x, s[1..], less)[j - 1];
        assert r[j] in multiset([x] + s[1..]);
        assert r[j] in [x] + s[1..];
      }
    }
  }

  lemma {:induction false} SortSorts<T(!new)>(s: seq<T>, less: (T, T) -> bool)
    requires StrictWeakOrder(less)
    ensures SortedBy(SortBy(s, less), less)
  {
    if s != [] {
      SortSorts(s[1..], less);
      InsertSorted(s[0], SortBy(s[1..], less), less);
    }
  }

  lemma {:induction false} FirstFound<T>(s: seq<T>, i: nat, p: T -> bool)
    requires i < |s| && p(s[i]) && forall j :: 0 <= j < i ==> !p(s[j])
    ensures FindFirst(s, p) == Some(s[i])
  {
    if i > 0 {
      FirstFound(s[1..], i - 1, p);
    }
  }

  // ---- Sort, then take the first hit ----

  /** The minimum of the elements satisfying `p`; among equals, the leftmost. */
  function Best<T>(s: seq<T>, p: T -> bool, less: (T, T) -> bool): (r: Option<T>)
    ensures r.None? <==> forall i :: 0 <= i < |s| ==> !p(s[i])
    ensures r.Some? ==> r.value in s && p(r.value)
  {
    if s == [] then None
    else
      var rest := Best(s[1..], p, less);
      if p(s[0]) && (rest.None? || !less(rest.value, s[0])) then Some(s[0]) else rest
  }

  lemma {:induction false} FindInInsert<T(!new)>(x: T, s: seq<T>, p: T -> bool, less: (T, T) -> bool)
    requires StrictWeakOrder(less) && SortedBy(s, less)
    ensures var rest := FindFirst(s, p);
            FindFirst(Insert(x, s, less), p) ==
            if p(x) && (rest.None? || !less(rest.value, x)) then Some(x) else rest
  {
    var rest := FindFirst(s, p);
    if s == [] {
    } else if !less(s[0], x) {
      assert ([x] + s)[1..] == s;
      if rest.Some? {
        var k :| 0 <= k < |s| && s[k] == rest.value;
        assert !less(s[k], x) by {
          assert k > 0 ==> !less(s[k], s[0]);
        }
      }
    } else {
      assert Insert(x, s, less)[1..] == Insert(x, s[1..], less);
      FindInInsert(x, s[1..], p, less);
    }
  }

  /** A stable sort followed by a linear search is the leftmost minimum. */
  lemma {:induction false} FindInSorted<T(!new)>(s: seq<T>, p: T -> bool, less: (T, T) -> bool)
    requires StrictWeakOrder(less)
    ensures FindFirst(SortBy(s, less), p) == Best(s, p, less)
  {
    if s != [] {
      FindInSorted(s[1..], p, less);
      SortSorts(s[1..], less);
      FindInInsert(s[0], SortBy(s[1..], less), p, less);
    }
  }

  /** What `Best` means, without its recursion: the position of the leftmost minimum. */
  ghost predicate IsBestAt<T>(s: seq<T>, p: T -> bool, less: (T, T) -> bool, k: nat) {
    && k < |s| && p(s[k])
    && (forall j :: 0 <= j < |s| && p(s[j]) ==> !less(s[j], s[k]))
    && (forall j :: 0 <= j < k && p(s[j]) ==> less(s[k], s[j]))
  }

  lemma {:induction false} BestPosition<T(!new)>(s: seq<T>, p: T -> bool, less: (T, T) -> bool) returns (k: nat)
    requires StrictWeakOrder(less)
    requires Best(s, p, less).Some?
    ensures IsBestAt(s, p, less, k) && s[k] == Best(s, p, less).value
  {
    var rest := Best(s[1..], p, less);
    if p(s[0]) && (rest.None? || !less(rest.value, s[0])) {
      k := 0;
      forall j | 0 <= j < |s| && p(s[j]) ensures !less(s[j], s[0]) {
        if j > 0 {
          assert s[j] == s[1..][j - 1];
          var m := BestPosition(s[1..], p, less);
          assert !less(s[1..][j - 1], s[1..][m]);
        }
      }
    } else {
      var m := BestPosition(s[1..], p, less);
      k := m + 1;
      forall j | 0 <= j < |s| && p(s[j])
        ensures !less(s[j], s[k]) && (j < k ==> less(s[k], s[j]))
      {
        if j > 0 {
          assert s[j] == s[1..][j - 1];
        }
      }
    }
  }

  lemma BestUnique<T(!new)>(s: seq<T>, p: T -> bool, less: (T, T) -> bool, k: nat)
    requires StrictWeakOrder(less)
    requires IsBestAt(s, p, less, k)
    ensures Best(s, p, less) == Some(s[k])
  {
    var m := BestPosition(s, p, less);
    var atK, atM := s[k], s[m];
    assert m != k ==> less(atK, atM) || less(atM, atK);
  }

  /** What a sort and a linear search return, in terms of membership only. */
  lemma FirstOfSorted<T(!new)>(s: seq<T>, p: T -> bool, less: (T, T) -> bool)
    requires StrictWeakOrder(less)
    ensures var r := FindFirst(SortBy(s, less), p);
      && (r.None? <==> forall x :: x in s ==> !p(x))
      && (r.Some? ==> r.value in s && p(r.value) && forall x :: x in s && p(x) ==> !less(x, r.value))
  {
    FindInSorted(s, p, less);
    var r := Best(s, p, less);
    if r.Some? {
      var k := BestPosition(s, p, less);
      forall x | x in s && p(x) ensures !less(x, r.value) {
        var j :| 0 <= j < |s| && s[j] == x;
        assert !less(s[j], s[k]);
      }
    }
  }

  // ---- Searching a part of the list ----

  lemma {:induction false} BestSame<T(!new)>(s: seq<T>, p: T -> bool, q: T -> bool, less: (T, T) -> bool, less': (T, T) -> bool)
    requires forall x :: x in s ==> p(x) == q(x)
    requires forall x, y :: x in s && y in s && p(x) && p(y) ==> less(x, y) == less'(x, y)
    ensures Best(s, p, less) == Best(s, q, less')
  {
    if s != [] {
      BestSame(s[1..], p, q, less, less');
    }
  }

  lemma FilterHead<T(!new)>(s: seq<T>, q: T -> bool)
    requires s != []
    ensures Filter(s, q) == if q(s[0]) then [s[0]] + Filter(s[1..], q) else Filter(s[1..], q)
  {
  }

  /** `Best` of a list, from its head and the best of its tail. */
  function BestOr<T>(x: T, rest: Option<T>, p: T -> bool, less: (T, T) -> bool): Option<T> {
    if p(x) && (rest.None? || !less(rest.value, x)) then Some(x) else rest
  }

  lemma BestCons<T>(x: T, t: seq<T>, p: T -> bool, less: (T, T) -> bool)
    ensures Best([x] + t, p, less) == BestOr(x, Best(t, p, less), p, less)
  {
    assert ([x] + t)[1..] == t;
  }

  /** Elements that cannot be hits may be dropped first. */
  lemma {:induction false} BestRestrict<T(!new)>(s: seq<T>, p: T -> bool, q: T -> bool, less: (T, T) -> bool)
    requires forall x :: x in s && p(x) ==> q(x)
    ensures Best(s, p, less) == Best(Filter(s, q), p, less)
  {
    if s != [] {
      BestRestrict(s[1..], p, q, less);
      FilterHead(s, q);
      BestCons(s[0], Filter(s[1..], q), p, less);
    }
  }

  function Not<T>(q: T -> bool): T -> bool { (x: T) => !q(x) }

  function OrElse<T>(a: Option<T>, b: Option<T>): Option<T> { if a.Some? then a else b }

  /** If the hits satisfying `q` precede all other hits, search them first, the rest after. */
  lemma {:induction false} BestDominated<T(!new)>(s: seq<T>, p: T -> bool, q: T -> bool, less: (T, T) -> bool)
    requires StrictWeakOrder(less)
    requires forall x, y :: x in s && y in s && p(x) && q(x) && p(y) && !q(y) ==> less(x, y)
    ensures Best(s, p, less) == OrElse(Best(Filter(s, q), p, less), Best(Filter(s, Not(q)), p, less))
  {
    if s != [] {
      BestDominated(s[1..], p, q, less);
      FilterHead(s, q);
      FilterHead(s, Not(q));
      var a, b := Filter(s[1..], q), Filter(s[1..], Not(q));
      BestCons(s[0], a, p, less);
      BestCons(s[0], b, p, less);
      var first, other := Best(a, p, less), Best(b, p, less);
      assert first.Some? ==> first.value in s && q(first.value) && p(first.value);
      assert other.Some? ==> other.value in s && !q(other.value) && p(other.value);
      DominatedStep(s[0], first, other, p, q, less);
    }
  }

  lemma DominatedStep<T(!new)>(x: T, first: Option<T>, other: Option<T>, p: T -> bool, q: T -> bool, less: (T, T) -> bool)
    requires StrictWeakOrder(less)
    requires p(x) && q(x) && other.Some? ==> less(x, other.value)
    requires p(x) && !q(x) && first.Some? ==> less(first.value, x)
    ensures BestOr(x, OrElse(first, other), p, less) ==
            if q(x) then OrElse(BestOr(x, first, p, less), other) else OrElse(first, BestOr(x, other, p, less))
  {
  }

  // ---- Sequences without repeats ----

  ghost predicate Distinct<T>(s: seq<T>) {
    forall i, j :: 0 <= i < j < |s| ==> s[i] != s[j]
  }

  /** Two strictly ordered sequences with the same elements are equal. */
  lemma {:induction false} StrictlySortedUnique<T(!new)>(a: seq<T>, b: seq<T>, less: (T, T) -> bool)
    requires StrictWeakOrder(less)
    requires forall i, j :: 0 <= i < j < |a| ==> less(a[i], a[j])
    requires forall i, j :: 0 <= i < j < |b| ==> less(b[i], b[j])
    requires forall x :: x in a <==> x in b
    ensures a == b
  {
    assert a != [] ==> a[0] in b;
    assert b != [] ==> b[0] in a;
    if a != [] {
      var i :| 0 <= i < |b| && b[i] == a[0];
      var j :| 0 <= j < |a| && a[j] == b[0];
      var headA, headB := a[0], b[0];
      assert i > 0 ==> less(headB, headA);
      assert j > 0 ==> less(headA, headB);
      assert a[0] == b[0];
      forall x ensures x in a[1..] <==> x in b[1..] {
        if x in a[1..] {
          var k :| 0 < k < |a| && a[k] == x;
          assert less(a[0], a[k]) && x in b;
          var m :| 0 <= m < |b| && b[m] == x;
          assert m > 0;
          assert b[1..][m - 1] == x;
        }
        if x in b[1..] {
          var k :| 0 < k < |b| && b[k] == x;
          assert less(b[0], b[k]) && x in a;
          var m :| 0 <= m < |a| && a[m] == x;
          assert m > 0;
          assert a[1..][m - 1] == x;
        }
      }
      StrictlySortedUnique(a[1..], b[1..], less);
    }
  }

  lemma {:induction false} FindConcat<T>(s: seq<T>, t: seq<T>, p: T -> bool)
    ensures FindFirst(s + t, p) == OrElse(FindFirst(s, p), FindFirst(t, p))
  {
    if s == [] {
      assert s + t == t;
    } else {
      assert (s + t)[1..] == s[1..] + t;
      FindConcat(s[1..], t, p);
    }
  }

  lemma {:induction false} BestOfTied<T(!new)>(s: seq<T>, p: T -> bool, less: (T, T) -> bool)
    requires forall a, b :: a in s && b in s ==> !less(a, b)
    ensures Best(s, p, less) == FindFirst(s, p)
  {
    if s != [] {
      BestOfTied(s[1..], p, less);
    }
  }

  lemma {:induction false} BestConcat<T(!new)>(s: seq<T>, t: seq<T>, p: T -> bool, less: (T, T) -> bool)
    requires StrictWeakOrder(less)
    ensures var a, b := Best(s, p, less), Best(t, p, less);
            Best(s + t, p, less) == if a.Some? && (b.None? || !less(b.value, a.value)) then a else b
  {
    if s == [] {
      assert s + t == t;
    } else {
      BestConcat(s[1..], t, p, less);
      assert s + t == [s[0]] + (s[1..] + t);
      BestCons(s[0], s[1..] + t, p, less);
    }
  }

  lemma BestSnoc<T(!new)>(s: seq<T>, i: nat, p: T -> bool, less: (T, T) -> bool)
    requires StrictWeakOrder(less) && i < |s|
    ensures var a := Best(s[..i], p, less);
            Best(s[..i + 1], p, less) == if p(s[i]) && (a.None? || less(s[i], a.value)) then Some(s[i]) else a
  {
    TakeStep(s, i);
    BestConcat(s[..i], [s[i]], p, less);
  }

  lemma {:induction false} FilterFilter<T(!new)>(s: seq<T>, p: T -> bool, q: T -> bool)
    requires forall x :: x in s && q(x) ==> p(x)
    ensures Filter(Filter(s, p), q) == Filter(s, q)
  {
    if s != [] {
      FilterFilter(s[1..], p, q);
      var rest := Filter(s[1..], p);
      assert ([s[0]] + rest)[1..] == rest;
      assert Filter(s, p) == if p(s[0]) then [s[0]] + rest else rest;
    }
  }
}
