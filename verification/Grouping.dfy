/**
  Grouping into a JavaScript `Map` of arrays, which remembers its keys in the order of first insertion.
  `fairOrder` groups jobs by tenant this way and `suggestAgentGroups` groups rows by boundary.
*/
module Grouping {

  datatype Group<K, V> = Group(key: K, members: seq<V>)

  /** Where `map.get(key)` finds its entry; the length when it is undefined. */
  function IndexOf<K(==), V>(groups: seq<Group<K, V>>, key: K): (i: nat)
    ensures i <= |groups|
    ensures i < |groups| ==> groups[i].key == key
    ensures forall j :: 0 <= j < i ==> groups[j].key != key
  {
    if groups == [] then 0 else if groups[0].key == key then 0 else 1 + IndexOf(groups[1..], key)
  }

  /** Set a new entry with one member, or push onto the one that exists. */
  function Put<K(==), V>(groups: seq<Group<K, V>>, key: K, value: V): seq<Group<K, V>> {
    var i := IndexOf(groups, key);
    if i == |groups| then groups + [Group(key, [value])]
    else groups[i := Group(key, groups[i].members + [value])]
  }

  /** The map after every item has been put, in order. */
  function GroupAll<K(==), V>(items: seq<(K, V)>): seq<Group<K, V>> {
    if items == [] then []
    else var last := items[|items| - 1]; Put(GroupAll(items[..|items| - 1]), last.0, last.1)
  }

  /** The values filed under one key, in input order. */
  function ValuesFor<K(==), V>(items: seq<(K, V)>, key: K): seq<V> {
    if items == [] then []
    else
      var last := items[|items| - 1];
      var before := ValuesFor(items[..|items| - 1], key);
      if last.0 == key then before + [last.1] else before
  }

  /** The distinct keys in order of first appearance. */
  function FirstSeen<K(==), V>(items: seq<(K, V)>): seq<K> {
    if items == [] then []
    else
      var seen := FirstSeen(items[..|items| - 1]);
      var last := items[|items| - 1].0;
      if last in seen then seen else seen + [last]
  }

  function Keys<K, V>(groups: seq<Group<K, V>>): (r: seq<K>) { seq(|groups|, i requires 0 <= i < |groups| => groups[i].key) }

  function Values<K, V>(items: seq<(K, V)>): (r: seq<V>) { seq(|items|, i requires 0 <= i < |items| => items[i].1) }

  function Flatten<K, V>(groups: seq<Group<K, V>>): seq<V> {
    if groups == [] then [] else groups[0].members + Flatten(groups[1..])
  }

  ghost predicate Distinct<K>(s: seq<K>) {
    forall i, j :: 0 <= i < j < |s| ==> s[i] != s[j]
  }

  lemma {:induction false} FirstSeenIsDistinct<K, V>(items: seq<(K, V)>)
    ensures Distinct(FirstSeen(items))
    ensures forall j :: 0 <= j < |items| ==> items[j].0 in FirstSeen(items)
  {
    if items != [] {
      var front := items[..|items| - 1];
      FirstSeenIsDistinct(front);
      forall j | 0 <= j < |items| ensures items[j].0 in FirstSeen(items) {
        if j < |front| { assert items[j] == front[j]; }
      }
    }
  }

  lemma {:induction false} PutAddsKey<K, V>(groups: seq<Group<K, V>>, key: K, value: V)
    ensures Keys(Put(groups, key, value)) == if key in Keys(groups) then Keys(groups) else Keys(groups) + [key]
  {
    var at := IndexOf(groups, key);
    if at < |groups| {
      assert Keys(groups)[at] == key;
    } else {
      assert forall j :: 0 <= j < |groups| ==> groups[j].key == Keys(groups)[j];
    }
  }

  lemma {:induction false} KeysAreFirstSeen<K, V>(items: seq<(K, V)>)
    ensures Keys(GroupAll(items)) == FirstSeen(items)
  {
    if items != [] {
      var last := items[|items| - 1];
      KeysAreFirstSeen(items[..|items| - 1]);
      PutAddsKey(GroupAll(items[..|items| - 1]), last.0, last.1);
    }
  }

  ghost predicate HoldsItsValues<K, V>(g: Group<K, V>, items: seq<(K, V)>) {
    g.members == ValuesFor(items, g.key) != []
  }

  lemma {:induction false} PutHoldsValues<K, V>(groups: seq<Group<K, V>>, front: seq<(K, V)>, item: (K, V))
    requires Keys(groups) == FirstSeen(front) && Distinct(Keys(groups))
    requires forall j :: 0 <= j < |front| ==> front[j].0 in FirstSeen(front)
    requires forall g :: g in groups ==> HoldsItsValues(g, front)
    ensures forall g :: g in Put(groups, item.0, item.1) ==> HoldsItsValues(g, front + [item])
  {
    var at := IndexOf(groups, item.0);
    assert (front + [item])[..|front|] == front;
    assert forall j :: 0 <= j < |groups| ==> groups[j].key == Keys(groups)[j];
    if at == |groups| { NoValuesUnseen(front, item.0); }
    forall g | g in Put(groups, item.0, item.1) ensures HoldsItsValues(g, front + [item]) {
      var i :| 0 <= i < |Put(groups, item.0, item.1)| && g == Put(groups, item.0, item.1)[i];
      if i != at { assert g == groups[i] && g in groups; } else if at < |groups| { assert groups[at] in groups; }
    }
  }

  lemma {:induction false} MembersAreTheValues<K, V>(items: seq<(K, V)>)
    ensures forall g :: g in GroupAll(items) ==> HoldsItsValues(g, items)
  {
    if items != [] {
      var front, last := items[..|items| - 1], items[|items| - 1];
      MembersAreTheValues(front);
      KeysAreFirstSeen(front);
      FirstSeenIsDistinct(front);
      PutHoldsValues(GroupAll(front), front, last);
      assert front + [last] == items;
    }
  }

  /**
    Grouping is determined by the items: the keys are the distinct ones in order of first
    appearance, and each entry holds exactly its key's values in input order.
   */
  lemma {:induction false} GroupsAreTheFibres<K, V>(items: seq<(K, V)>)
    ensures Keys(GroupAll(items)) == FirstSeen(items) && Distinct(FirstSeen(items))
    ensures forall i :: 0 <= i < |GroupAll(items)| ==>
              GroupAll(items)[i].members == ValuesFor(items, GroupAll(items)[i].key) != []
    ensures forall j :: 0 <= j < |items| ==> items[j].0 in FirstSeen(items)
  {
    KeysAreFirstSeen(items);
    FirstSeenIsDistinct(items);
    MembersAreTheValues(items);
    forall i | 0 <= i < |GroupAll(items)|
      ensures GroupAll(items)[i].members == ValuesFor(items, GroupAll(items)[i].key) != []
    {
      assert HoldsItsValues(GroupAll(items)[i], items);
    }
  }

  lemma {:induction false} ValuesForAppend<K, V>(a: seq<(K, V)>, b: seq<(K, V)>, key: K)
    ensures ValuesFor(a + b, key) == ValuesFor(a, key) + ValuesFor(b, key)
  {
    if b == [] {
      assert a + b == a;
    } else {
      ValuesForAppend(a, b[..|b| - 1], key);
      assert (a + b)[..|a + b| - 1] == a + b[..|b| - 1];
    }
  }

  lemma {:induction false} NoValuesUnseen<K, V>(items: seq<(K, V)>, key: K)
    requires forall j :: 0 <= j < |items| ==> items[j].0 in FirstSeen(items)
    requires key !in FirstSeen(items)
    ensures ValuesFor(items, key) == []
  {
    forall j | 0 <= j < |items| ensures items[j].0 != key {}
    NoValues(items, key);
  }

  lemma {:induction false} NoValues<K, V>(items: seq<(K, V)>, key: K)
    requires forall j :: 0 <= j < |items| ==> items[j].0 != key
    ensures ValuesFor(items, key) == []
  {
    if items != [] { NoValues(items[..|items| - 1], key); }
  }

  lemma {:induction false} FlattenUpdate<K, V>(groups: seq<Group<K, V>>, i: nat, v: V)
    requires i < |groups|
    ensures multiset(Flatten(groups[i := Group(groups[i].key, groups[i].members + [v])])) == multiset(Flatten(groups)) + multiset{v}
  {
    var after := groups[i := Group(groups[i].key, groups[i].members + [v])];
    if i == 0 {
      assert after[1..] == groups[1..];
    } else {
      FlattenUpdate(groups[1..], i - 1, v);
      assert after[1..] == groups[1..][i - 1 := Group(groups[i].key, groups[i].members + [v])];
    }
  }

  lemma {:induction false} FlattenAppend<K, V>(groups: seq<Group<K, V>>, g: Group<K, V>)
    ensures Flatten(groups + [g]) == Flatten(groups) + g.members
  {
    if groups == [] {
      assert (groups + [g])[1..] == [];
    } else {
      FlattenAppend(groups[1..], g);
      assert (groups + [g])[1..] == groups[1..] + [g];
    }
  }

  /** Nothing is lost and nothing is invented. */
  lemma {:induction false} GroupingIsAPartition<K, V>(items: seq<(K, V)>)
    ensures multiset(Flatten(GroupAll(items))) == multiset(Values(items))
  {
    if items == [] {
      assert Values(items) == [];
    } else {
      var front := items[..|items| - 1];
      var last := items[|items| - 1];
      GroupingIsAPartition(front);
      assert Values(items) == Values(front) + [last.1];
      var at := IndexOf(GroupAll(front), last.0);
      if at == |GroupAll(front)| {
        FlattenAppend(GroupAll(front), Group(last.0, [last.1]));
      } else {
        FlattenUpdate(GroupAll(front), at, last.1);
      }
    }
  }

  lemma {:induction false} DistinctMeansOnce<K>(s: seq<K>)
    requires Distinct(s)
    ensures forall i :: 0 <= i < |s| ==> multiset(s)[s[i]] == 1
  {
    if s != [] {
      var front := s[..|s| - 1];
      DistinctMeansOnce(front);
      assert s == front + [s[|s| - 1]];
      forall i | 0 <= i < |s| ensures multiset(s)[s[i]] == 1 {
        if i < |front| { assert front[i] == s[i]; }
      }
    }
  }

  lemma {:induction false} OnceMeansDistinct<K>(s: seq<K>)
    requires forall i :: 0 <= i < |s| ==> multiset(s)[s[i]] == 1
    ensures Distinct(s)
  {
    if s != [] {
      var front := s[..|s| - 1];
      var last := s[|s| - 1];
      assert s == front + [last];
      forall i | 0 <= i < |front| ensures multiset(front)[front[i]] == 1 {
        assert front[i] == s[i] && front[i] in multiset(front);
      }
      OnceMeansDistinct(front);
      assert multiset(s)[last] == multiset(front)[last] + 1;
      assert last !in multiset(front);
    }
  }

  /** A permutation of a list without repetitions has none either. */
  lemma {:induction false} DistinctSurvivesPermutation<K>(a: seq<K>, b: seq<K>)
    requires Distinct(a) && multiset(a) == multiset(b)
    ensures Distinct(b)
  {
    DistinctMeansOnce(a);
    forall i | 0 <= i < |b| ensures multiset(b)[b[i]] == 1 {
      assert b[i] in multiset(a);
    }
    OnceMeansDistinct(b);
  }

  lemma {:induction false} Regroup<T>(x: seq<T>, y: seq<T>, z: seq<T>)
    ensures x + (y + z) == (x + y) + z
  {
  }

  lemma {:induction false} FlattenFirst<K, V>(g: Group<K, V>, rest: seq<Group<K, V>>)
    ensures Flatten([g] + rest) == g.members + Flatten(rest)
  {
    assert ([g] + rest)[1..] == rest;
  }

  lemma {:induction false} FlattenConcat<K, V>(a: seq<Group<K, V>>, b: seq<Group<K, V>>)
    ensures Flatten(a + b) == Flatten(a) + Flatten(b)
  {
    if a == [] {
      assert a + b == b;
    } else {
      var g, rest := a[0], a[1..];
      FlattenConcat(rest, b);
      assert a == [g] + rest && a + b == [g] + (rest + b);
      FlattenFirst(g, rest + b);
      FlattenFirst(g, rest);
      Regroup(g.members, Flatten(rest), Flatten(b));
    }
  }

  lemma {:induction false} FlattenTakeOut<K, V>(before: seq<Group<K, V>>, g: Group<K, V>, later: seq<Group<K, V>>)
    ensures multiset(Flatten(before + [g] + later)) == multiset(Flatten(before + later)) + multiset(g.members)
  {
    FlattenConcat(before + [g], later);
    FlattenAppend(before, g);
    FlattenConcat(before, later);
  }

  lemma {:induction false} MatchingEnds<T>(front: seq<T>, last: T, before: seq<T>, later: seq<T>)
    requires multiset(front + [last]) == multiset(before + [last] + later)
    ensures multiset(front) == multiset(before + later)
  {
    assert multiset(front + [last]) == multiset(front) + multiset{last};
    assert multiset(before + [last] + later) == multiset(before + later) + multiset{last};
    assert multiset(front) == multiset(front) + multiset{last} - multiset{last};
  }

  /** Listing the groups in another order keeps their contents. */
  lemma {:induction false} FlattenIgnoresOrder<K, V>(a: seq<Group<K, V>>, b: seq<Group<K, V>>)
    requires multiset(a) == multiset(b)
    ensures multiset(Flatten(a)) == multiset(Flatten(b))
  {
    if a == [] {
      assert |multiset(b)| == 0;
    } else {
      var last, front := a[|a| - 1], a[..|a| - 1];
      assert a == front + [last];
      assert last in multiset(b);
      var i :| 0 <= i < |b| && b[i] == last;
      var before, later := b[..i], b[i + 1..];
      assert b == before + [last] + later;
      MatchingEnds(front, last, before, later);
      FlattenIgnoresOrder(front, before + later);
      FlattenTakeOut(before, last, later);
      FlattenAppend(front, last);
    }
  }

  /** Lists without repetitions and with the same members are permutations of each other. */
  lemma {:induction false} SameMembersPermute<T(!new)>(a: seq<T>, b: seq<T>)
    requires Distinct(a) && Distinct(b) && forall x :: x in a <==> x in b
    ensures multiset(a) == multiset(b)
  {
    DistinctMeansOnce(a);
    DistinctMeansOnce(b);
    forall x: T ensures multiset(a)[x] == multiset(b)[x] {
      if x in a {
        var i :| 0 <= i < |a| && a[i] == x;
        assert x in b;
        var j :| 0 <= j < |b| && b[j] == x;
      }
    }
  }
}
