/**
 * A table of the key-value store as the core sees it: a sequence of items in
 * the (unspecified but fixed) order a scan or query returns them. A query is
 * an order-preserving filter, "take the first item or nothing" is `FirstWhere`,
 * a put is an upsert on the primary key and a delete removes by primary key.
 */
module Tables {
  import opened Wrappers

  /** The items of `t` that satisfy `p`, in table order (`.filter(p)`). */
  function Select<T(!new)>(t: seq<T>, p: T -> bool): (r: seq<T>)
    ensures |r| <= |t|
    ensures forall x :: x in r <==> x in t && p(x)
  {
    if t == [] then []
    else (if p(t[0]) then [t[0]] else []) + Select(t[1..], p)
  }

  /** The first item of a query result, or nothing (`.then(_.first)`). */
  function First<T(!new)>(s: seq<T>): (r: Option<T>)
    ensures r.None? <==> s == []
    ensures r.Some? ==> r.value == s[0]
  {
    if s == [] then None else Some(s[0])
  }

  /** The first item of `t` satisfying `p`, or nothing. */
  function FirstWhere<T(!new)>(t: seq<T>, p: T -> bool): (r: Option<T>)
    ensures r.None? <==> forall i :: 0 <= i < |t| ==> !p(t[i])
    ensures r.Some? ==> p(r.value) && exists i :: 0 <= i < |t| && t[i] == r.value && forall j :: 0 <= j < i ==> !p(t[j])
  {
    if t == [] then None
    else if p(t[0]) then Some(t[0])
    else
      var r := FirstWhere(t[1..], p);
      assert r.Some? ==> exists i :: 1 <= i < |t| && t[i] == r.value && forall j :: 0 <= j < i ==> !p(t[j]) by {
        if r.Some? {
          var k :| 0 <= k < |t[1..]| && t[1..][k] == r.value && forall j :: 0 <= j < k ==> !p(t[1..][j]);
          assert t[k + 1] == r.value;
          forall j | 0 <= j < k + 1 ensures !p(t[j]) {
            if j > 0 { assert t[j] == t[1..][j - 1]; }
          }
        }
      }
      r
  }

  /** Filtering, then taking the first item, is taking the first item that passes the filter. */
  lemma {:induction false} FirstOfSelect<T(!new)>(t: seq<T>, p: T -> bool)
    ensures First(Select(t, p)) == FirstWhere(t, p)
  {
    if t != [] && !p(t[0]) {
      FirstOfSelect(t[1..], p);
    }
  }

  /** Every item passed through `f`, in order (`.map(f)`). */
  function MapAll<T, U>(s: seq<T>, f: T -> U): (r: seq<U>)
    ensures |r| == |s|
    ensures forall i :: 0 <= i < |s| ==> r[i] == f(s[i])
  {
    if s == [] then [] else [f(s[0])] + MapAll(s[1..], f)
  }

  /** Mapping a concatenation maps each part. */
  lemma MapAllAppend<T, U>(s: seq<T>, t: seq<T>, f: T -> U)
    ensures MapAll(s + t, f) == MapAll(s, f) + MapAll(t, f)
  {
    var l, r := MapAll(s + t, f), MapAll(s, f) + MapAll(t, f);
    assert |l| == |r|;
    forall i | 0 <= i < |l|
      ensures l[i] == r[i]
    {
      if i < |s| {
        assert (s + t)[i] == s[i];
      } else {
        assert (s + t)[i] == t[i - |s|];
      }
    }
  }

  /** Mapping every item and then taking the first maps the first item. */
  lemma FirstOfMap<T(!new), U(!new)>(s: seq<T>, f: T -> U)
    ensures First(MapAll(s, f)) == MapOption(First(s), f)
  {
  }

  /** A first match in `t + [x]` is the first match in `t`, or else `x` if it matches. */
  lemma {:induction false} FirstWhereAppend<T(!new)>(t: seq<T>, x: T, p: T -> bool)
    ensures FirstWhere(t + [x], p) ==
            if FirstWhere(t, p).Some? then FirstWhere(t, p) else if p(x) then Some(x) else None
  {
    if t != [] {
      assert (t + [x])[1..] == t[1..] + [x];
      FirstWhereAppend(t[1..], x, p);
    }
  }

  /** A filter depends only on what its predicate says about the table's items. */
  lemma {:induction false} SelectExt<T(!new)>(t: seq<T>, p: T -> bool, q: T -> bool)
    requires forall x :: x in t ==> p(x) == q(x)
    ensures Select(t, p) == Select(t, q)
  {
    if t != [] {
      assert forall x :: x in t[1..] ==> x in t;
      SelectExt(t[1..], p, q);
    }
  }

  /** So does "first match". */
  lemma {:induction false} FirstWhereExt<T(!new)>(t: seq<T>, p: T -> bool, q: T -> bool)
    requires forall x :: x in t ==> p(x) == q(x)
    ensures FirstWhere(t, p) == FirstWhere(t, q)
  {
    if t != [] {
      assert forall x :: x in t[1..] ==> x in t;
      FirstWhereExt(t[1..], p, q);
    }
  }

  /** Two filters in a row are one filter by their conjunction. */
  lemma {:induction false} SelectSelect<T(!new)>(t: seq<T>, p: T -> bool, q: T -> bool, pq: T -> bool)
    requires forall x :: pq(x) == (p(x) && q(x))
    ensures Select(Select(t, p), q) == Select(t, pq)
  {
    if t != [] {
      SelectSelect(t[1..], p, q, pq);
      var s := Select(t, p);
      if p(t[0]) {
        assert s == [t[0]] + Select(t[1..], p);
        assert s[0] == t[0] && s[1..] == Select(t[1..], p);
        assert Select(s, q) == (if q(s[0]) then [s[0]] else []) + Select(s[1..], q);
      } else {
        assert s == Select(t[1..], p);
      }
    }
  }

  /** The first match in a filtered table is the first match of both conditions. */
  lemma FirstWhereOfSelect<T(!new)>(t: seq<T>, p: T -> bool, q: T -> bool, pq: T -> bool)
    requires forall x :: pq(x) == (p(x) && q(x))
    ensures FirstWhere(Select(t, p), q) == FirstWhere(t, pq)
  {
    FirstOfSelect(Select(t, p), q);
    SelectSelect(t, p, q, pq);
    FirstOfSelect(t, pq);
  }

  /** No two items share a primary key. */
  ghost predicate KeysUnique<T(!new), K>(t: seq<T>, key: T -> K) {
    forall i, j :: 0 <= i < j < |t| ==> key(t[i]) != key(t[j])
  }

  /** Under unique keys two stored items with the same key are the same item. */
  lemma KeyIdentifies<T(!new), K>(t: seq<T>, key: T -> K, x: T, y: T)
    requires KeysUnique(t, key) && x in t && y in t && key(x) == key(y)
    ensures x == y
  {
    var i :| 0 <= i < |t| && t[i] == x;
    var j :| 0 <= j < |t| && t[j] == y;
    assert i == j;
  }

  /** The first item whose primary key is `k`. */
  function Find<T(!new), K(==)>(t: seq<T>, key: T -> K, k: K): Option<T> {
    FirstWhere(t, x => key(x) == k)
  }

  /** `deleteItem` by primary key: every item with key `k` goes, the rest stay in order. */
  function RemoveKey<T(!new), K(==)>(t: seq<T>, key: T -> K, k: K): (r: seq<T>)
    ensures forall x :: x in r <==> x in t && key(x) != k
    ensures Find(r, key, k) == None
  {
    Select(t, x => key(x) != k)
  }

  /** `putItem`: the item replaces whatever had its primary key. */
  function Upsert<T(!new), K(==)>(t: seq<T>, key: T -> K, x: T): (r: seq<T>)
    ensures forall y :: y in r <==> y == x || (y in t && key(y) != key(x))
    ensures Find(r, key, key(x)) == Some(x)
  {
    var kept := RemoveKey(t, key, key(x));
    FindAppend(kept, key, x, key(x));
    kept + [x]
  }

  /** A first match in `t + [x]` is the first match in `t`, or else `x` if it matches. */
  lemma {:induction false} FindAppend<T(!new), K>(t: seq<T>, key: T -> K, x: T, k: K)
    ensures Find(t + [x], key, k) ==
            if Find(t, key, k).Some? then Find(t, key, k) else if key(x) == k then Some(x) else None
  {
    if t != [] {
      assert (t + [x])[1..] == t[1..] + [x];
      FindAppend(t[1..], key, x, k);
    }
  }

  /** A filter keeps the keys of a table with unique keys unique. */
  lemma {:induction false} SelectKeepsKeysUnique<T(!new), K>(t: seq<T>, p: T -> bool, key: T -> K)
    requires KeysUnique(t, key)
    ensures KeysUnique(Select(t, p), key)
  {
    if t != [] {
      var rest := t[1..];
      assert KeysUnique(rest, key) by {
        forall i, j | 0 <= i < j < |rest| ensures key(rest[i]) != key(rest[j]) {
          assert rest[i] == t[i + 1] && rest[j] == t[j + 1];
        }
      }
      SelectKeepsKeysUnique(rest, p, key);
      var s := Select(rest, p);
      if p(t[0]) {
        var r := [t[0]] + s;
        forall i, j | 0 <= i < j < |r| ensures key(r[i]) != key(r[j]) {
          if i == 0 {
            assert r[j] == s[j - 1] && r[j] in rest;
            var k :| 0 <= k < |rest| && rest[k] == r[j];
            assert t[k + 1] == r[j];
          } else {
            assert r[i] == s[i - 1] && r[j] == s[j - 1];
          }
        }
      }
    }
  }

  /** Deleting by key keeps primary keys unique. */
  lemma RemoveKeyKeepsKeysUnique<T(!new), K>(t: seq<T>, key: T -> K, k: K)
    requires KeysUnique(t, key)
    ensures KeysUnique(RemoveKey(t, key, k), key)
  {
    SelectKeepsKeysUnique(t, x => key(x) != k, key);
  }

  /** An upsert keeps primary keys unique. */
  lemma UpsertKeepsKeysUnique<T(!new), K>(t: seq<T>, key: T -> K, x: T)
    requires KeysUnique(t, key)
    ensures KeysUnique(Upsert(t, key, x), key)
  {
    var kept := RemoveKey(t, key, key(x));
    RemoveKeyKeepsKeysUnique(t, key, key(x));
    var r := kept + [x];
    forall i, j | 0 <= i < j < |r| ensures key(r[i]) != key(r[j]) {
      if j == |r| - 1 {
        assert r[i] == kept[i] && r[i] in kept;
      } else {
        assert r[i] == kept[i] && r[j] == kept[j];
      }
    }
  }

  /** After an upsert of `x`, a condition that only items with `x`'s key meet in `t` is met by `x` alone. */
  lemma FirstWhereAfterUpsert<T(!new), K>(t: seq<T>, key: T -> K, x: T, p: T -> bool)
    requires forall y :: y in t && p(y) ==> key(y) == key(x)
    ensures FirstWhere(Upsert(t, key, x), p) == if p(x) then Some(x) else None
  {
    var kept := RemoveKey(t, key, key(x));
    assert FirstWhere(kept, p) == None by {
      forall i | 0 <= i < |kept| ensures !p(kept[i]) {
        assert kept[i] in kept;
      }
    }
    FirstWhereAppend(kept, x, p);
  }

  /** An upsert of `x` leaves alone a condition no item with `x`'s key can meet. */
  lemma FirstWhereAfterUpsertOther<T(!new), K>(t: seq<T>, key: T -> K, x: T, p: T -> bool)
    requires forall y :: p(y) ==> key(y) != key(x)
    ensures FirstWhere(Upsert(t, key, x), p) == FirstWhere(t, p)
  {
    var k := key(x);
    FirstWhereOfSelect(t, x => key(x) != k, p, p);
    FirstWhereAppend(RemoveKey(t, key, k), x, p);
  }

  /** After deleting key `k`, a condition only items with key `k` can meet is met by none. */
  lemma FirstWhereAfterRemove<T(!new), K>(t: seq<T>, key: T -> K, k: K, p: T -> bool)
    requires forall y :: p(y) ==> key(y) == k
    ensures FirstWhere(RemoveKey(t, key, k), p) == None
  {
    var r := RemoveKey(t, key, k);
    forall i | 0 <= i < |r| ensures !p(r[i]) {
      assert r[i] in r;
    }
  }

  /** Deleting key `k` leaves alone a condition no item with key `k` can meet. */
  lemma FirstWhereAfterRemoveOther<T(!new), K>(t: seq<T>, key: T -> K, k: K, p: T -> bool)
    requires forall y :: p(y) ==> key(y) != k
    ensures FirstWhere(RemoveKey(t, key, k), p) == FirstWhere(t, p)
  {
    FirstWhereOfSelect(t, x => key(x) != k, p, p);
  }

  /** With unique keys, the first item with key `k` meeting `q` is the item with key `k`, if it meets `q`. */
  lemma FirstWhereKeyed<T(!new), K>(t: seq<T>, key: T -> K, k: K, q: T -> bool, kq: T -> bool)
    requires KeysUnique(t, key)
    requires forall y :: kq(y) == (key(y) == k && q(y))
    ensures FirstWhere(t, kq) ==
            match Find(t, key, k) case Some(c) => (if q(c) then Some(c) else None) case None => None
  {
    var f := Find(t, key, k);
    var r := FirstWhere(t, kq);
    if r.Some? {
      var j :| 0 <= j < |t| && t[j] == r.value && forall m :: 0 <= m < j ==> !kq(t[m]);
      var i :| 0 <= i < |t| && t[i] == f.value && forall m :: 0 <= m < i ==> key(t[m]) != k;
      assert i == j;
    }
  }

  /** Removing key `k` leaves every other key's first match as it was. */
  lemma FindAfterRemoveOther<T(!new), K>(t: seq<T>, key: T -> K, k: K, other: K)
    requires other != k
    ensures Find(RemoveKey(t, key, k), key, other) == Find(t, key, other)
  {
    var p := (x: T) => key(x) != k;
    var q := (x: T) => key(x) == other;
    FirstWhereOfSelect(t, p, q, q);
  }

  /** An upsert of key `k` leaves every other key's first match as it was. */
  lemma FindAfterUpsertOther<T(!new), K>(t: seq<T>, key: T -> K, x: T, other: K)
    requires other != key(x)
    ensures Find(Upsert(t, key, x), key, other) == Find(t, key, other)
  {
    var kept := RemoveKey(t, key, key(x));
    FindAfterRemoveOther(t, key, key(x), other);
    FindAppend(kept, key, x, other);
  }
}
