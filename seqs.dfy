/**
 * Order and selection over table rows: the row filter a SQL `DELETE ... WHERE`
 * leaves behind, and the `ORDER BY` on a TEXT column.
 */
module Seqs {
  import opened Text

  /** The rows of `s` that satisfy `keep`, in their original order. */
  function Filter<T(!new)>(s: seq<T>, keep: T -> bool): (r: seq<T>)
    ensures |r| <= |s|
    ensures forall x :: x in r <==> x in s && keep(x)
    ensures multiset(r) <= multiset(s)
  {
    if s == [] then []
    else
      assert s == [s[0]] + s[1..];
      if keep(s[0]) then [s[0]] + Filter(s[1..], keep) else Filter(s[1..], keep)
  }

  /** Filtering a sequence with one more row at the end. */
  lemma {:induction false} FilterSnoc<T(!new)>(s: seq<T>, x: T, keep: T -> bool)
    ensures Filter(s + [x], keep) == Filter(s, keep) + (if keep(x) then [x] else [])
  {
    if s == [] {
      assert [x][1..] == [];
    } else {
      assert (s + [x])[1..] == s[1..] + [x];
      FilterSnoc(s[1..], x, keep);
    }
  }

  /** The number of rows of `s` that satisfy `p`. */
  function Count<T>(s: seq<T>, p: T -> bool): nat {
    if s == [] then 0 else (if p(s[0]) then 1 else 0) + Count(s[1..], p)
  }

  /** Filtering drops exactly the rows that fail `keep`. */
  lemma {:induction false} FilterCount<T(!new)>(s: seq<T>, keep: T -> bool, drop: T -> bool)
    requires forall x :: drop(x) <==> !keep(x)
    ensures |Filter(s, keep)| + Count(s, drop) == |s|
  {
    if s != [] {
      FilterCount(s[1..], keep, drop);
    }
  }

  /** A row selected by `p` survives filtering by `keep` only if `keep` admits it. */
  lemma {:induction false} CountAfterFilter<T(!new)>(s: seq<T>, keep: T -> bool, p: T -> bool)
    requires forall x :: p(x) ==> !keep(x)
    ensures Count(Filter(s, keep), p) == 0
  {
    if s != [] {
      CountAfterFilter(s[1..], keep, p);
    }
  }

  /** Rows ordered non-decreasingly by a text key. */
  ghost predicate SortedBy<T>(s: seq<T>, key: T -> string) {
    forall i, j :: 0 <= i < j < |s| ==> TextLe(key(s[i]), key(s[j]))
  }

  /** Puts `x` in front of the first row whose key is not below its own. */
  function InsertBy<T>(x: T, s: seq<T>, key: T -> string): (r: seq<T>)
    ensures multiset(r) == multiset(s) + multiset{x}
    ensures SortedBy(s, key) ==> SortedBy(r, key)
  {
    if s == [] then [x]
    else if TextLe(key(x), key(s[0])) then
      InsertLeast(x, s, key);
      [x] + s
    else
      var t := InsertBy(x, s[1..], key);
      InsertAfterLeast(x, s, t, key);
      [s[0]] + t
  }

  lemma InsertLeast<T>(x: T, s: seq<T>, key: T -> string)
    requires s != [] && TextLe(key(x), key(s[0]))
    ensures SortedBy(s, key) ==> SortedBy([x] + s, key)
  {
    if SortedBy(s, key) {
      var r := [x] + s;
      forall i, j | 0 <= i < j < |r| ensures TextLe(key(r[i]), key(r[j])) {
        if i == 0 && j > 1 {
          TextLeTransitive(key(x), key(s[0]), key(s[j - 1]));
        }
      }
    }
  }

  lemma InsertAfterLeast<T>(x: T, s: seq<T>, t: seq<T>, key: T -> string)
    requires s != [] && !TextLe(key(x), key(s[0]))
    requires multiset(t) == multiset(s[1..]) + multiset{x}
    requires SortedBy(s, key) ==> SortedBy(t, key)
    ensures multiset([s[0]] + t) == multiset(s) + multiset{x}
    ensures SortedBy(s, key) ==> SortedBy([s[0]] + t, key)
  {
    assert s == [s[0]] + s[1..];
    if SortedBy(s, key) {
      TextLeTotal(key(x), key(s[0]));
      var r := [s[0]] + t;
      forall i, j | 0 <= i < j < |r| ensures TextLe(key(r[i]), key(r[j])) {
        if i == 0 {
          var y := t[j - 1];
          assert y in multiset(t);
          assert y == x || y in multiset(s[1..]);
          if y != x {
            var m :| 0 <= m < |s[1..]| && s[1..][m] == y;
            assert s[m + 1] == y;
          }
        } else {
          assert r[i] == t[i - 1] && r[j] == t[j - 1];
        }
      }
    }
  }

  /** The rows of `s` ordered by `key` (an insertion sort). */
  function SortBy<T>(s: seq<T>, key: T -> string): (r: seq<T>)
    ensures multiset(r) == multiset(s)
    ensures SortedBy(r, key)
  {
    if s == [] then []
    else
      assert s == [s[0]] + s[1..];
      InsertBy(s[0], SortBy(s[1..], key), key)
  }
}
