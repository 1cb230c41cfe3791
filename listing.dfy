/**
 * `findMany({ orderBy: { nameEn: 'asc' } })` over one table: the rows of a
 * map from id to row, listed in ascending order of a text key. Rows whose
 * keys are equal keep ascending id order (the store's collation and its
 * tie order are not modelled).
 */
module Listings {
  import opened JsString

  ghost predicate SortedBy<T>(s: seq<T>, name: T -> string) {
    forall i, j :: 0 <= i < j < |s| ==> LexLe(name(s[i]), name(s[j]))
  }

  ghost predicate Distinct<T>(s: seq<T>) {
    forall i, j :: 0 <= i < j < |s| ==> s[i] != s[j]
  }

  /** Different ids hold different rows. */
  ghost predicate Injective<T>(m: map<int, T>) {
    forall a, b :: a in m && b in m && a != b ==> m[a] != m[b]
  }

  /** A value of a map is stored under some key. */
  lemma ValueHasKey<K, T>(m: map<K, T>, x: T)
    requires x in m.Values
    ensures exists k :: k in m && m[k] == x
  {
  }

  /** The ids of `m` in `1..n`, ascending. */
  function IdsUpTo<T>(m: map<int, T>, n: int): (r: seq<int>)
    ensures forall k :: k in r <==> k in m && 0 < k <= n
    ensures forall i, j :: 0 <= i < j < |r| ==> r[i] < r[j]
    decreases n
  {
    if n <= 0 then []
    else
      var rest := IdsUpTo(m, n - 1);
      assert forall i :: 0 <= i < |rest| ==> rest[i] in rest;
      if n in m then rest + [n] else rest
  }

  /** An ascending sequence holding exactly the elements of a set is as
      long as the set is large. */
  lemma {:induction false} AscendingLength(s: seq<int>, keys: set<int>)
    requires forall i, j :: 0 <= i < j < |s| ==> s[i] < s[j]
    requires forall k :: k in s <==> k in keys
    ensures |s| == |keys|
  {
    if s != [] {
      var x := s[|s| - 1];
      var p := s[..|s| - 1];
      assert x in keys;
      forall k ensures k in p <==> k in keys - {x} {
        if k in keys - {x} {
          var i :| 0 <= i < |s| && s[i] == k;
          assert i < |s| - 1 && p[i] == k;
        }
      }
      AscendingLength(p, keys - {x});
      assert |keys - {x}| + 1 == |keys|;
    } else {
      assert forall k :: k in keys ==> k in s;
      assert keys == {};
    }
  }

  /** The rows stored under the given ids, in the order of the ids. */
  function RowsAt<T>(m: map<int, T>, ids: seq<int>): (r: seq<T>)
    requires forall i :: 0 <= i < |ids| ==> ids[i] in m
    ensures |r| == |ids|
    ensures forall i :: 0 <= i < |ids| ==> r[i] == m[ids[i]]
  {
    if ids == [] then [] else [m[ids[0]]] + RowsAt(m, ids[1..])
  }

  /** Where `x` goes in `s`: after every element whose key is not above
      `key(x)`, before the first one whose key is. */
  function InsertPos<T>(x: T, s: seq<T>, name: T -> string): (p: nat)
    ensures p <= |s|
    ensures forall i :: 0 <= i < p ==> LexLe(name(s[i]), name(x))
    ensures p < |s| ==> !LexLe(name(s[p]), name(x))
  {
    if s == [] then 0
    else if LexLe(name(s[0]), name(x)) then 1 + InsertPos(x, s[1..], name)
    else 0
  }

  /** `x` inserted into the sorted `s`: the result is sorted and holds `x`
      and the elements of `s`, and nothing else. */
  function Insert<T(!new)>(x: T, s: seq<T>, name: T -> string): (r: seq<T>)
    requires SortedBy(s, name)
    ensures SortedBy(r, name)
    ensures |r| == |s| + 1
    ensures forall y :: y in r <==> y == x || y in s
    ensures Distinct(s) && x !in s ==> Distinct(r)
  {
    var p := InsertPos(x, s, name);
    var r := s[..p] + [x] + s[p..];
    assert forall i :: 0 <= i < p ==> r[i] == s[i];
    assert forall i :: p < i < |r| ==> r[i] == s[i - 1];
    assert forall y :: y in r <==> y == x || y in s by {
      assert s == s[..p] + s[p..];
    }
    assert SortedBy(r, name) by {
      if p < |s| {
        LexLeTotal(name(s[p]), name(x));
        forall j | p < j < |s| ensures LexLe(name(x), name(s[j])) {
          LexLeTransitive(name(x), name(s[p]), name(s[j]));
        }
      }
      forall i, j | 0 <= i < j < |r| ensures LexLe(name(r[i]), name(r[j])) {
        if i < p && j > p {
          LexLeTransitive(name(r[i]), name(x), name(r[j]));
        }
      }
    }
    r
  }

  /** Insertion sort on the key: a sorted arrangement of the same elements. */
  function SortBy<T(!new)>(s: seq<T>, name: T -> string): (r: seq<T>)
    ensures SortedBy(r, name)
    ensures |r| == |s|
    ensures forall y :: y in r <==> y in s
    ensures Distinct(s) ==> Distinct(r)
  {
    if s == [] then []
    else
      var rest := SortBy(s[1..], name);
      assert s == [s[0]] + s[1..];
      assert Distinct(s) ==> s[0] !in s[1..] && Distinct(s[1..]) by {
        if Distinct(s) {
          forall i | 0 <= i < |s[1..]| ensures s[1..][i] != s[0] {
            assert s[1..][i] == s[i + 1];
          }
        }
      }
      Insert(s[0], rest, name)
  }

  /** The listing of a table whose ids all lie in `1..n`: sorted ascending
      by the key, as long as the table, holding exactly the table's rows,
      each once when different ids hold different rows. */
  function Listing<T(==,!new)>(m: map<int, T>, n: int, name: T -> string): (r: seq<T>)
    requires forall k :: k in m ==> 0 < k <= n
    ensures SortedBy(r, name)
    ensures |r| == |m|
    ensures forall x :: x in r <==> x in m.Values
    ensures Injective(m) ==> Distinct(r)
  {
    var ids := IdsUpTo(m, n);
    var rows := RowsAt(m, ids);
    AscendingLength(ids, m.Keys);
    RowsOfAllIds(m, ids);
    SortBy(rows, name)
  }

  lemma RowsOfAllIds<T(!new)>(m: map<int, T>, ids: seq<int>)
    requires forall k :: k in ids <==> k in m
    requires forall i :: 0 <= i < |ids| ==> ids[i] in m
    requires forall i, j :: 0 <= i < j < |ids| ==> ids[i] < ids[j]
    ensures forall x :: x in RowsAt(m, ids) <==> x in m.Values
    ensures Injective(m) ==> Distinct(RowsAt(m, ids))
  {
    var rows := RowsAt(m, ids);
    forall k | k in m ensures m[k] in rows {
      var i :| 0 <= i < |ids| && ids[i] == k;
      assert rows[i] == m[k];
    }
    forall x | x in m.Values ensures x in rows {
      assert exists k :: k in m && m[k] == x;
    }
    if Injective(m) {
      forall i, j | 0 <= i < j < |rows| ensures rows[i] != rows[j] {
        assert ids[i] < ids[j];
      }
    }
  }
}
