/** Tables as maps from primary key to row, and the three things the queries do with them:
    scan in primary-key order, filter by a `WHERE` predicate, and sort by an `ORDER BY` key. */
module Tables {
  import opened Fields
  import opened Ordering

  /** An AUTO_INCREMENT table: the counter starts at 1, every key lies in [1, next) and each
      row records its own key. */
  predicate Keyed<R>(m: map<nat, R>, next: nat, id: R -> nat) {
    1 <= next && forall k :: k in m ==> 1 <= k < next && id(m[k]) == k
  }

  /** An insert under the counter's value, which then advances, keeps a table keyed. */
  lemma KeyedInsert<R>(m: map<nat, R>, next: nat, id: R -> nat, x: R)
    requires Keyed(m, next, id) && id(x) == next
    ensures Keyed(m[next := x], next + 1, id)
  {
  }

  /** Rewriting a row under its own key keeps a table keyed. */
  lemma KeyedReplace<R>(m: map<nat, R>, next: nat, id: R -> nat, k: nat, x: R)
    requires Keyed(m, next, id) && k in m && id(x) == k
    ensures Keyed(m[k := x], next, id)
  {
  }

  /** Removing a row keeps a table keyed. */
  lemma KeyedRemove<R>(m: map<nat, R>, next: nat, id: R -> nat, k: nat)
    requires Keyed(m, next, id)
    ensures Keyed(m - {k}, next, id)
  {
  }

  /** The rows whose keys are below `n`, in ascending key order (a primary-key scan). */
  function RowsBelow<R(==)>(m: map<nat, R>, n: nat): (s: seq<R>)
    ensures forall x :: x in s ==> x in m.Values
    ensures forall k :: k in m && k < n ==> m[k] in s
  {
    if n == 0 then []
    else RowsBelow(m, n - 1) + (if n - 1 in m then [m[n - 1]] else [])
  }

  /** A scan of a keyed table visits the rows in strictly ascending key order. */
  lemma {:induction false} RowsBelowAscending<R>(m: map<nat, R>, n: nat, id: R -> nat)
    requires forall k :: k in m ==> id(m[k]) == k
    ensures forall i :: 0 <= i < |RowsBelow(m, n)| ==> id(RowsBelow(m, n)[i]) < n
    ensures forall i, j :: 0 <= i < j < |RowsBelow(m, n)| ==> id(RowsBelow(m, n)[i]) < id(RowsBelow(m, n)[j])
  {
    if n > 0 {
      RowsBelowAscending(m, n - 1, id);
    }
  }

  lemma RowsBelowDistinct<R>(m: map<nat, R>, n: nat, id: R -> nat)
    ensures (forall k :: k in m ==> id(m[k]) == k) ==> Distinct(RowsBelow(m, n))
  {
    if forall k :: k in m ==> id(m[k]) == k {
      RowsBelowAscending(m, n, id);
    }
  }

  /** Adding a row under a fresh key at the end of a keyed table appends it to the scan. */
  lemma {:induction false} RowsBelowInsert<R>(m: map<nat, R>, n: nat, x: R, bound: nat)
    requires forall k :: k in m ==> k < n
    requires n < bound
    ensures RowsBelow(m[n := x], bound) == RowsBelow(m, bound) + [x]
    decreases bound
  {
    if bound == n + 1 {
      RowsBelowUnchanged(m, m[n := x], n);
    } else {
      RowsBelowInsert(m, n, x, bound - 1);
    }
  }

  /** A scan below `n` sees only the keys below `n`. */
  lemma {:induction false} RowsBelowUnchanged<R>(m: map<nat, R>, m': map<nat, R>, n: nat)
    requires forall k :: k < n ==> (k in m <==> k in m') && (k in m ==> m[k] == m'[k])
    ensures RowsBelow(m, n) == RowsBelow(m', n)
  {
    if n > 0 {
      RowsBelowUnchanged(m, m', n - 1);
    }
  }

  /** The elements of `s` satisfying `p`, in their order (an SQL `WHERE`). */
  function Filter<T(==)>(s: seq<T>, p: T -> bool): (r: seq<T>)
    ensures forall x :: x in r ==> x in s && p(x)
    ensures forall x :: x in s && p(x) ==> x in r
    ensures |r| <= |s|
    ensures Distinct(s) ==> Distinct(r)
  {
    if s == [] then []
    else
      var rest := Filter(s[1..], p);
      assert Distinct(s) ==> s[0] !in s[1..];
      (if p(s[0]) then [s[0]] else []) + rest
  }

  /** Two predicates that agree on every element of `s` select the same elements. */
  lemma {:induction false} FilterAgrees<T>(s: seq<T>, p: T -> bool, q: T -> bool)
    requires forall x :: x in s ==> (p(x) <==> q(x))
    ensures Filter(s, p) == Filter(s, q)
  {
    if s != [] {
      FilterAgrees(s[1..], p, q);
    }
  }

  /** The first element of `s` satisfying `p`, as `rows[0]` of a `SELECT ... WHERE`. */
  function FirstWhere<T(==)>(s: seq<T>, p: T -> bool): (r: Option<T>)
    ensures r.Some? ==> r.value in s && p(r.value)
    ensures r.None? <==> forall x :: x in s ==> !p(x)
  {
    if s == [] then None
    else if p(s[0]) then Some(s[0])
    else FirstWhere(s[1..], p)
  }

  /** `SELECT * FROM m WHERE p ORDER BY key`: exactly the matching rows, each once, ordered. */
  function Select<R(==)>(m: map<nat, R>, next: nat, id: R -> nat, p: R -> bool, key: R -> seq<int>): (r: seq<R>)
    requires Keyed(m, next, id)
    ensures forall x :: x in r ==> x in m.Values && p(x)
    ensures forall x :: x in m.Values && p(x) ==> x in r
    ensures SortedBy(r, key)
    ensures Distinct(r)
  {
    var scan := RowsBelow(m, next);
    RowsBelowDistinct(m, next, id);
    var matching := Filter(scan, p);
    var r := SortBy(matching, key);
    assert forall x :: x in r ==> x in multiset(matching);
    assert forall x :: x in matching ==> x in multiset(r);
    DistinctPermutation(matching, r);
    r
  }
}
