/**
  The stable ascending sort that the TypeScript sources call as `Array.sort((a, b) => key(a) - key(b))`.
  ECMAScript requires `Array.sort` to be stable, so the result is determined by the input: these
  lemmas say what it is and that nothing else has the same properties.
*/
module StableSort {

  /** Inserts x before the first element whose key is not smaller, so x stays ahead of its equals. */
  function Insert<T>(x: T, s: seq<T>, key: T -> real): (r: seq<T>)
    ensures |r| == |s| + 1
  {
    if s == [] || key(x) <= key(s[0]) then [x] + s else [s[0]] + Insert(x, s[1..], key)
  }

  function Sort<T>(s: seq<T>, key: T -> real): (r: seq<T>)
    ensures |r| == |s|
  {
    if s == [] then [] else Insert(s[0], Sort(s[1..], key), key)
  }

  ghost predicate Ascending<T>(s: seq<T>, key: T -> real) {
    forall i, j :: 0 <= i < j < |s| ==> key(s[i]) <= key(s[j])
  }

  /** The elements whose key is k, in the order in which s lists them. */
  function WithKey<T(!new)>(s: seq<T>, key: T -> real, k: real): (r: seq<T>)
    ensures forall x :: x in r <==> x in s && key(x) == k
  {
    if s == [] then []
    else if key(s[0]) == k then [s[0]] + WithKey(s[1..], key, k)
    else WithKey(s[1..], key, k)
  }

  /** Two lists that agree, key by key, on which elements there are and in which order. */
  ghost predicate SameOrderWithinKeys<T(!new)>(a: seq<T>, b: seq<T>, key: T -> real) {
    forall k :: WithKey(a, key, k) == WithKey(b, key, k)
  }

  lemma {:induction false} InsertPermutes<T>(x: T, s: seq<T>, key: T -> real)
    ensures multiset(Insert(x, s, key)) == multiset{x} + multiset(s)
  {
    if s == [] || key(x) <= key(s[0]) {
    } else {
      InsertPermutes(x, s[1..], key);
      assert s == [s[0]] + s[1..];
    }
  }

  lemma {:induction false} InsertAscends<T>(x: T, s: seq<T>, key: T -> real)
    requires Ascending(s, key)
    ensures Ascending(Insert(x, s, key), key)
  {
    if s == [] || key(x) <= key(s[0]) {
    } else {
      InsertAscends(x, s[1..], key);
      var tail := Insert(x, s[1..], key);
      forall i | 0 <= i < |tail| ensures key(s[0]) <= key(tail[i]) {
        InsertPermutes(x, s[1..], key);
        assert tail[i] in multiset(tail);
        assert tail[i] == x || tail[i] in s[1..];
      }
    }
  }

  lemma {:induction false} InsertIsStable<T(!new)>(x: T, s: seq<T>, key: T -> real, k: real)
    ensures WithKey(Insert(x, s, key), key, k) == WithKey([x] + s, key, k)
  {
    if s == [] || key(x) <= key(s[0]) {
    } else {
      InsertIsStable(x, s[1..], key, k);
      var tail := Insert(x, s[1..], key);
      assert ([s[0]] + tail)[1..] == tail && ([x] + s)[1..] == s && ([x] + s[1..])[1..] == s[1..];
    }
  }

  /** The sort is an ascending permutation that never reorders elements of equal key. */
  lemma {:induction false} SortIsStable<T(!new)>(s: seq<T>, key: T -> real)
    ensures Ascending(Sort(s, key), key)
    ensures multiset(Sort(s, key)) == multiset(s)
    ensures SameOrderWithinKeys(Sort(s, key), s, key)
  {
    if s != [] {
      var rest := Sort(s[1..], key);
      SortIsStable(s[1..], key);
      InsertAscends(s[0], rest, key);
      InsertPermutes(s[0], rest, key);
      assert s == [s[0]] + s[1..];
      forall k ensures WithKey(Sort(s, key), key, k) == WithKey(s, key, k) {
        InsertIsStable(s[0], rest, key, k);
        assert ([s[0]] + rest)[1..] == rest;
        assert WithKey(rest, key, k) == WithKey(s[1..], key, k);
      }
    }
  }

  /** An insertion displaces the last element only when it is strictly larger. */
  lemma {:induction false} InsertLast<T>(x: T, s: seq<T>, key: T -> real)
    requires Ascending(s, key)
    ensures Insert(x, s, key)[|s|] == if s != [] && key(x) <= key(s[|s| - 1]) then s[|s| - 1] else x
  {
    if s != [] && key(x) > key(s[0]) {
      InsertLast(x, s[1..], key);
    }
  }

  lemma {:induction false} MembersOfSort<T(!new)>(s: seq<T>, key: T -> real)
    ensures forall x :: x in Sort(s, key) <==> x in s
  {
    SortIsStable(s, key);
    forall x ensures x in Sort(s, key) <==> x in s {
      assert x in Sort(s, key) <==> x in multiset(Sort(s, key));
    }
  }

  lemma {:induction false} HeadsAgree<T(!new)>(a: seq<T>, b: seq<T>, key: T -> real)
    requires Ascending(a, key) && Ascending(b, key) && SameOrderWithinKeys(a, b, key) && a != []
    ensures b != [] && a[0] == b[0]
  {
    var k := key(a[0]);
    assert WithKey(a, key, k) == WithKey(b, key, k);
    assert a[0] in WithKey(b, key, k);
    assert b[0] in WithKey(a, key, key(b[0])) by {
      assert WithKey(a, key, key(b[0])) == WithKey(b, key, key(b[0]));
    }
    assert key(b[0]) == k;
    assert a[0] == WithKey(a, key, k)[0] == WithKey(b, key, k)[0] == b[0];
  }

  /** Ascending order and order within keys leave no freedom at all. */
  lemma {:induction false} StableOrderIsUnique<T(!new)>(a: seq<T>, b: seq<T>, key: T -> real)
    requires Ascending(a, key) && Ascending(b, key) && SameOrderWithinKeys(a, b, key)
    ensures a == b
  {
    if a == [] {
      if b != [] { HeadsAgree(b, a, key); }
    } else {
      HeadsAgree(a, b, key);
      forall q ensures WithKey(a[1..], key, q) == WithKey(b[1..], key, q) {
        assert WithKey(a, key, q) == WithKey(b, key, q);
        assert WithKey(a[1..], key, q) == if q == key(a[0]) then WithKey(a, key, q)[1..] else WithKey(a, key, q);
        assert WithKey(b[1..], key, q) == if q == key(b[0]) then WithKey(b, key, q)[1..] else WithKey(b, key, q);
      }
      StableOrderIsUnique(a[1..], b[1..], key);
      assert a == [a[0]] + a[1..] && b == [b[0]] + b[1..];
    }
  }

  /** Reorderings that keep equal keys in relative order sort to the same list. */
  lemma {:induction false} SortForgetsOrderBetweenKeys<T(!new)>(a: seq<T>, b: seq<T>, key: T -> real)
    requires SameOrderWithinKeys(a, b, key)
    ensures Sort(a, key) == Sort(b, key)
  {
    SortIsStable(a, key);
    SortIsStable(b, key);
    StableOrderIsUnique(Sort(a, key), Sort(b, key), key);
  }

  lemma {:induction false} WithKeyAppend<T(!new)>(a: seq<T>, b: seq<T>, key: T -> real, k: real)
    ensures WithKey(a + b, key, k) == WithKey(a, key, k) + WithKey(b, key, k)
  {
    if a == [] {
      assert a + b == b;
    } else {
      WithKeyAppend(a[1..], b, key, k);
      assert (a + b)[1..] == a[1..] + b;
    }
  }

  lemma {:induction false} AscendingOrder<T>(s: seq<T>, key: T -> real, i: nat, j: nat)
    requires i < |s| && j < |s| && Ascending(s, key) && key(s[j]) < key(s[i])
    ensures j < i
  {
  }

  /** In the sort, smaller keys stand strictly before larger ones. */
  lemma {:induction false} SmallerComesFirst<T(!new)>(s: seq<T>, key: T -> real, i: nat, j: nat)
    requires i < |s| && j < |s| && key(Sort(s, key)[j]) < key(Sort(s, key)[i])
    ensures j < i
  {
    var sorted := Sort(s, key);
    assert Ascending(sorted, key) by { SortIsStable(s, key); }
    AscendingOrder(sorted, key, i, j);
  }

  /** A list that is already ascending is its own sort. */
  lemma {:induction false} SortOfAscending<T(!new)>(s: seq<T>, key: T -> real)
    requires Ascending(s, key)
    ensures Sort(s, key) == s
  {
    SortIsStable(s, key);
    StableOrderIsUnique(Sort(s, key), s, key);
  }

  /** Elements with the same key are the same element. */
  ghost predicate KeyIdentifies<T>(s: seq<T>, key: T -> real) {
    forall i, j :: 0 <= i < |s| && 0 <= j < |s| && key(s[i]) == key(s[j]) ==> s[i] == s[j]
  }

  lemma {:induction false} HeadIsCanonical<T>(a: seq<T>, b: seq<T>, key: T -> real)
    requires Ascending(a, key) && Ascending(b, key) && multiset(a) == multiset(b) && a != []
    requires KeyIdentifies(a, key)
    ensures b != [] && a[0] == b[0]
  {
    assert a[0] in multiset(b);
    var i :| 0 <= i < |b| && b[i] == a[0];
    assert b[0] in multiset(a);
    var j :| 0 <= j < |a| && a[j] == b[0];
    assert i == 0 || key(b[0]) <= key(b[i]);
    assert j == 0 || key(a[0]) <= key(a[j]);
  }

  /** When the key identifies an element, an ascending list is determined by its contents. */
  lemma {:induction false} AscendingIsCanonical<T>(a: seq<T>, b: seq<T>, key: T -> real)
    requires Ascending(a, key) && Ascending(b, key) && multiset(a) == multiset(b)
    requires KeyIdentifies(a, key)
    ensures a == b
  {
    if a == [] {
      assert |multiset(b)| == 0;
    } else {
      HeadIsCanonical(a, b, key);
      SameTails(a, b);
      AscendingIsCanonical(a[1..], b[1..], key);
      assert a == [a[0]] + a[1..] && b == [b[0]] + b[1..];
    }
  }

  lemma {:induction false} SameTails<T>(a: seq<T>, b: seq<T>)
    requires a != [] && b != [] && a[0] == b[0] && multiset(a) == multiset(b)
    ensures multiset(a[1..]) == multiset(b[1..])
  {
    assert a == [a[0]] + a[1..] && b == [b[0]] + b[1..];
    assert multiset(a[1..]) == multiset(a) - multiset{a[0]};
    assert multiset(b[1..]) == multiset(b) - multiset{b[0]};
  }

  lemma {:induction false} SortIsCanonical<T(!new)>(a: seq<T>, b: seq<T>, key: T -> real)
    requires multiset(a) == multiset(b)
    requires KeyIdentifies(a, key)
    ensures Sort(a, key) == Sort(b, key)
  {
    SortIsStable(a, key);
    SortIsStable(b, key);
    var sorted := Sort(a, key);
    forall i, j | 0 <= i < |sorted| && 0 <= j < |sorted| && key(sorted[i]) == key(sorted[j])
      ensures sorted[i] == sorted[j]
    {
      MembersOfSort(a, key);
      assert sorted[i] in a && sorted[j] in a;
    }
    AscendingIsCanonical(sorted, Sort(b, key), key);
  }
}
