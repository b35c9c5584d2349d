/** Generic facts about a table stored as a map from row id to row: the
    unique-column constraint, and the `where ... orderby ... select` query
    shape every Read operation of the repositories uses. */
module Table {
  import opened KanbanTypes

  /** Every stored id was handed out by a generator that starts at 1 and
      will hand out `next` next. */
  ghost predicate IdsBelow<R>(m: map<Id, R>, next: Id)
  {
    1 <= next && forall id :: id in m ==> 1 <= id < next
  }

  /** Some stored row holds `v` in the column `key`. */
  predicate HeldBy<R>(m: map<Id, R>, key: R -> string, v: string)
  {
    exists j :: j in m && key(m[j]) == v
  }

  /** Some stored row other than row `self` holds `v` in the column `key`:
      writing `v` into row `self` would violate a unique index on `key`. */
  predicate HeldByOther<R>(m: map<Id, R>, key: R -> string, v: string, self: Id)
  {
    exists j :: j in m && j != self && key(m[j]) == v
  }

  /** The column `key` is unique across the table. */
  ghost predicate Unique<R>(m: map<Id, R>, key: R -> string)
  {
    forall i, j :: i in m && j in m && i != j ==> key(m[i]) != key(m[j])
  }

  /** Writing row `r` under id `self` keeps a unique column unique exactly
      when no other row already holds `r`'s value. */
  lemma UniquePut<R>(m: map<Id, R>, key: R -> string, self: Id, r: R)
    requires Unique(m, key)
    ensures Unique(m[self := r], key) <==> !HeldByOther(m, key, key(r), self)
  {
    if HeldByOther(m, key, key(r), self) {
      var j :| j in m && j != self && key(m[j]) == key(r);
      var m' := m[self := r];
      assert j in m' && self in m' && m'[j] == m[j] && m'[self] == r;
    }
  }

  // ----- ordering -----

  /** Ordinal string order, code point by code point: the order of the
      store's binary collation used by `orderby` on a text column. */
  predicate Leq(a: string, b: string): (r: bool)
    ensures a <= b ==> r
    ensures r && |a| > 0 ==> |b| > 0 && a[0] <= b[0]
    decreases |a|
  {
    |a| == 0 || (|b| > 0 && (a[0] < b[0] || (a[0] == b[0] && Leq(a[1..], b[1..]))))
  }

  lemma {:induction false} LeqTotal(a: string, b: string)
    ensures Leq(a, b) || Leq(b, a)
    decreases |a|
  {
    if |a| > 0 && |b| > 0 && a[0] == b[0] {
      LeqTotal(a[1..], b[1..]);
    }
  }

  lemma {:induction false} LeqTrans(a: string, b: string, c: string)
    requires Leq(a, b) && Leq(b, c)
    ensures Leq(a, c)
    decreases |a|
  {
    if |a| > 0 && a[0] == b[0] && b[0] == c[0] {
      LeqTrans(a[1..], b[1..], c[1..]);
    }
  }

  lemma {:induction false} LeqAntisymmetric(a: string, b: string)
    requires Leq(a, b) && Leq(b, a)
    ensures a == b
    decreases |a|
  {
    if |a| > 0 {
      LeqAntisymmetric(a[1..], b[1..]);
      assert a == [a[0]] + a[1..] && b == [b[0]] + b[1..];
    }
  }

  ghost predicate SortedBy<T>(s: seq<T>, key: T -> string)
  {
    forall i, j :: 0 <= i < j < |s| ==> Leq(key(s[i]), key(s[j]))
  }

  ghost predicate Distinct<T>(s: seq<T>)
  {
    forall i, j :: 0 <= i < j < |s| ==> s[i] != s[j]
  }

  /** Places `x` before the first element whose key is not below `x`'s. */
  function Insert<T>(x: T, s: seq<T>, key: T -> string): (r: seq<T>)
    ensures |r| == |s| + 1
    decreases |s|
  {
    if |s| == 0 then [x]
    else if Leq(key(x), key(s[0])) then [x] + s
    else [s[0]] + Insert(x, s[1..], key)
  }

  /** `orderby key`: a stable insertion sort. */
  function SortBy<T>(s: seq<T>, key: T -> string): (r: seq<T>)
    ensures |r| == |s|
    decreases |s|
  {
    if |s| == 0 then [] else Insert(s[0], SortBy(s[1..], key), key)
  }

  lemma {:induction false} InsertPerm<T>(x: T, s: seq<T>, key: T -> string)
    ensures multiset(Insert(x, s, key)) == multiset{x} + multiset(s)
    decreases |s|
  {
    if |s| > 0 && !Leq(key(x), key(s[0])) {
      InsertPerm(x, s[1..], key);
      assert s == [s[0]] + s[1..];
    }
  }

  lemma {:induction false} InsertSorted<T>(x: T, s: seq<T>, key: T -> string)
    requires SortedBy(s, key)
    ensures SortedBy(Insert(x, s, key), key)
    decreases |s|
  {
    if |s| == 0 {
    } else if Leq(key(x), key(s[0])) {
      var r := [x] + s;
      forall i, j | 0 <= i < j < |r| ensures Leq(key(r[i]), key(r[j])) {
        if i == 0 && j > 1 {
          LeqTrans(key(x), key(s[0]), key(s[j - 1]));
        }
      }
    } else {
      var rest := Insert(x, s[1..], key);
      InsertSorted(x, s[1..], key);
      InsertPerm(x, s[1..], key);
      LeqTotal(key(x), key(s[0]));
      var r := [s[0]] + rest;
      forall i, j | 0 <= i < j < |r| ensures Leq(key(r[i]), key(r[j])) {
        if i == 0 {
          var y := rest[j - 1];
          assert y in multiset(rest);
          if y != x {
            assert y in multiset(s[1..]);
            var k :| 0 <= k < |s[1..]| && s[1..][k] == y;
            assert s[k + 1] == y;
          }
        }
      }
    }
  }

  lemma {:induction false} InsertDistinct<T>(x: T, s: seq<T>, key: T -> string)
    requires Distinct(s) && x !in s
    ensures Distinct(Insert(x, s, key))
    decreases |s|
  {
    if |s| > 0 && !Leq(key(x), key(s[0])) {
      assert s == [s[0]] + s[1..];
      InsertDistinct(x, s[1..], key);
      InsertPerm(x, s[1..], key);
      var rest := Insert(x, s[1..], key);
      assert s[0] !in multiset(rest);
    }
  }

  lemma {:induction false} SortByPerm<T>(s: seq<T>, key: T -> string)
    ensures multiset(SortBy(s, key)) == multiset(s)
    decreases |s|
  {
    if |s| > 0 {
      SortByPerm(s[1..], key);
      InsertPerm(s[0], SortBy(s[1..], key), key);
      assert s == [s[0]] + s[1..];
    }
  }

  lemma {:induction false} SortBySorted<T>(s: seq<T>, key: T -> string)
    ensures SortedBy(SortBy(s, key), key)
    decreases |s|
  {
    if |s| > 0 {
      SortBySorted(s[1..], key);
      InsertSorted(s[0], SortBy(s[1..], key), key);
    }
  }

  lemma {:induction false} SortByDistinct<T>(s: seq<T>, key: T -> string)
    requires Distinct(s)
    ensures Distinct(SortBy(s, key))
    decreases |s|
  {
    if |s| > 0 {
      assert s == [s[0]] + s[1..];
      SortByDistinct(s[1..], key);
      SortByPerm(s[1..], key);
      assert s[0] !in multiset(SortBy(s[1..], key));
      InsertDistinct(s[0], SortBy(s[1..], key), key);
    }
  }

  /** A set counts non-zero elements exactly when it has a member. */
  lemma CountNonZero<T>(s: set<T>)
    ensures |s| != 0 <==> exists x :: x in s
  {
  }

  /** Dropping the first element keeps a listing sorted, and keeps its keys
      pairwise different when they were. */
  lemma SortedTail<T>(s: seq<T>, key: T -> string)
    requires |s| > 0 && SortedBy(s, key)
    ensures SortedBy(s[1..], key)
    ensures (forall i, j :: 0 <= i < j < |s| ==> key(s[i]) != key(s[j])) ==>
      forall i, j :: 0 <= i < j < |s[1..]| ==> key(s[1..][i]) != key(s[1..][j])
  {
  }

  /** Two listings with the same elements and the same head have the same
      elements after it. */
  lemma MultisetTail<T>(s: seq<T>, t: seq<T>)
    requires |s| > 0 && |t| > 0 && s[0] == t[0] && multiset(s) == multiset(t)
    ensures multiset(s[1..]) == multiset(t[1..])
  {
    assert s == [s[0]] + s[1..] && t == [t[0]] + t[1..];
    assert multiset(s[1..]) == multiset(s) - multiset{s[0]};
    assert multiset(t[1..]) == multiset(t) - multiset{s[0]};
  }

  /** The head of a sorted listing has the least key of all its elements. */
  lemma HeadIsLeast<T>(s: seq<T>, x: T, key: T -> string)
    requires SortedBy(s, key) && x in s
    ensures Leq(key(s[0]), key(x))
  {
  }

  /** Two listings sorted by a key that no two of their elements share are
      equal once they hold the same elements: sorting on a unique column
      leaves no choice of order. */
  lemma {:induction false} SortedDetermined<T>(s: seq<T>, t: seq<T>, key: T -> string)
    requires SortedBy(s, key) && SortedBy(t, key)
    requires multiset(s) == multiset(t)
    requires forall i, j :: 0 <= i < j < |s| ==> key(s[i]) != key(s[j])
    ensures s == t
    decreases |s|
  {
    assert |s| == |multiset(s)| == |multiset(t)| == |t|;
    if |s| > 0 {
      assert s[0] in multiset(t) && t[0] in multiset(s);
      HeadIsLeast(s, t[0], key);
      HeadIsLeast(t, s[0], key);
      LeqAntisymmetric(key(s[0]), key(t[0]));
      var i :| 0 <= i < |s| && s[i] == t[0];
      assert i == 0;
      MultisetTail(s, t);
      SortedTail(s, key);
      SortedTail(t, key);
      SortedDetermined(s[1..], t[1..], key);
    }
  }

  // ----- queries -----

  /** `where keep select project`: scans the ids 1 .. n-1 in ascending order
      and projects each stored row that passes the filter. */
  function Select<R, D>(m: map<Id, R>, n: Id, keep: R -> bool, project: (Id, R) -> D): (r: seq<D>)
    ensures n <= 1 ==> |r| == 0
    ensures n > 1 ==> |r| <= n - 1
    ensures forall d :: d in r ==> exists id :: 1 <= id < n && id in m && keep(m[id]) && d == project(id, m[id])
    ensures forall id :: 1 <= id < n && id in m && keep(m[id]) ==> project(id, m[id]) in r
    decreases n
  {
    if n <= 1 then []
    else
      Select(m, n - 1, keep, project)
      + (if n - 1 in m && keep(m[n - 1]) then [project(n - 1, m[n - 1])] else [])
  }

  /** `where keep orderby key select project` over a table. */
  function Query<R, D>(m: map<Id, R>, n: Id, keep: R -> bool, project: (Id, R) -> D, key: D -> string): (r: seq<D>)
    ensures SortedBy(r, key)
    ensures multiset(r) == multiset(Select(m, n, keep, project))
  {
    SortBySorted(Select(m, n, keep, project), key);
    SortByPerm(Select(m, n, keep, project), key);
    SortBy(Select(m, n, keep, project), key)
  }

  lemma {:induction false} SelectSpec<R, D>(m: map<Id, R>, n: Id, keep: R -> bool, project: (Id, R) -> D, idOf: D -> Id)
    requires forall id, row :: idOf(project(id, row)) == id
    ensures forall d :: d in Select(m, n, keep, project) ==>
      1 <= idOf(d) < n && idOf(d) in m && keep(m[idOf(d)]) && d == project(idOf(d), m[idOf(d)])
    ensures forall id :: id in m && 1 <= id < n && keep(m[id]) ==> project(id, m[id]) in Select(m, n, keep, project)
    ensures forall i, j :: 0 <= i < j < |Select(m, n, keep, project)| ==>
      idOf(Select(m, n, keep, project)[i]) < idOf(Select(m, n, keep, project)[j])
    decreases n
  {
    if n > 1 {
      SelectSpec(m, n - 1, keep, project, idOf);
      var s := Select(m, n - 1, keep, project);
      if n - 1 in m && keep(m[n - 1]) {
        var r := s + [project(n - 1, m[n - 1])];
        assert Select(m, n, keep, project) == r;
        forall i, j | 0 <= i < j < |r| ensures idOf(r[i]) < idOf(r[j]) {
          assert r[i] == s[i];
          if j == |s| {
            assert s[i] in s;
          } else {
            assert r[j] == s[j];
          }
        }
      }
    }
  }

  /** A query returns, sorted by `key` and each exactly once, the
      projections of exactly the stored rows that pass the filter. */
  lemma QuerySpec<R, D>(m: map<Id, R>, n: Id, keep: R -> bool, project: (Id, R) -> D, idOf: D -> Id, key: D -> string)
    requires forall id, row :: idOf(project(id, row)) == id
    requires IdsBelow(m, n)
    ensures SortedBy(Query(m, n, keep, project, key), key)
    ensures forall d :: d in Query(m, n, keep, project, key) ==>
      idOf(d) in m && keep(m[idOf(d)]) && d == project(idOf(d), m[idOf(d)])
    ensures forall id :: id in m && keep(m[id]) ==> project(id, m[id]) in Query(m, n, keep, project, key)
    ensures forall i, j :: 0 <= i < j < |Query(m, n, keep, project, key)| ==>
      idOf(Query(m, n, keep, project, key)[i]) != idOf(Query(m, n, keep, project, key)[j])
  {
    var s := Select(m, n, keep, project);
    var r := SortBy(s, key);
    assert r == Query(m, n, keep, project, key);
    SelectSpec(m, n, keep, project, idOf);
    SortBySorted(s, key);
    SortByPerm(s, key);
    assert Distinct(s) by {
      forall i, j | 0 <= i < j < |s| ensures s[i] != s[j] {
        assert idOf(s[i]) < idOf(s[j]);
      }
    }
    SortByDistinct(s, key);
    forall d | d in r
      ensures idOf(d) in m && keep(m[idOf(d)]) && d == project(idOf(d), m[idOf(d)])
    {
      assert d in multiset(r);
    }
    forall id | id in m && keep(m[id]) ensures project(id, m[id]) in r {
      assert project(id, m[id]) in multiset(s);
    }
    forall i, j | 0 <= i < j < |r| ensures idOf(r[i]) != idOf(r[j]) {
      assert r[i] in multiset(r) && r[j] in multiset(r);
    }
  }
}
