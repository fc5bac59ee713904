/** Putting things in order, oldest first. */
module Ages {
  /** Compared by the first number, then by the second. */
  datatype Age = Age(first: real, second: real)

  predicate NotAfter(a: Age, b: Age) {
    a.first < b.first || (a.first == b.first && a.second <= b.second)
  }

  predicate Ordered<K(!new)>(order: seq<K>, age: map<K, Age>)
    requires forall k :: k in order ==> k in age
  {
    forall i, j :: 0 <= i < j < |order| ==>
      assert order[i] in order && order[j] in order; NotAfter(age[order[i]], age[order[j]])
  }

  predicate Distinct<K(==)>(order: seq<K>) {
    forall i, j :: 0 <= i < j < |order| ==> order[i] != order[j]
  }

  lemma InsertDistinct<K>(order: seq<K>, i: nat, key: K)
    requires i <= |order| && Distinct(order) && key !in order
    ensures Distinct(order[..i] + [key] + order[i..])
  {
  }

  lemma InsertOrdered<K(!new)>(order: seq<K>, i: nat, key: K, age: map<K, Age>)
    requires (forall k :: k in order ==> k in age) && key in age && i <= |order| && Ordered(order, age)
    requires forall j :: 0 <= j < i ==> NotAfter(age[order[j]], age[key])
    requires forall j :: i <= j < |order| ==> NotAfter(age[key], age[order[j]])
    ensures var after := order[..i] + [key] + order[i..];
      (forall k :: k in after ==> k in age) && Ordered(after, age)
  {
  }

  ghost predicate Holds<K(!new)>(order: seq<K>, keys: set<K>) {
    forall k :: k in order <==> k in keys
  }

  lemma InsertHolds<K(!new)>(order: seq<K>, keys: set<K>, i: nat, key: K)
    requires i <= |order| && Holds(order, keys)
    ensures Holds(order[..i] + [key] + order[i..], keys + {key})
  {
    var after := order[..i] + [key] + order[i..];
    assert order == order[..i] + order[i..];
    forall k ensures k in after <==> k in order || k == key {
    }
  }

  /** The keys in order of age. Keys of the same age may come in any order. */
  method SortByAge<K(==, !new)>(keys: set<K>, age: map<K, Age>) returns (order: seq<K>)
    requires keys <= age.Keys
    ensures Holds(order, keys) && Distinct(order)
    ensures Ordered(order, age)
  {
    order := [];
    var left := keys;
    while left != {}
      invariant left <= keys
      invariant Holds(order, keys - left)
      invariant Distinct(order) && Ordered(order, age)
      decreases left
    {
      var key :| key in left;
      var i := |order|;
      forall j | 0 <= j < |order| ensures order[j] in age {
        assert order[j] in order;
      }
      while i > 0 && !NotAfter(age[order[i - 1]], age[key])
        invariant 0 <= i <= |order|
        invariant forall j :: i <= j < |order| ==> order[j] in age && NotAfter(age[key], age[order[j]])
      {
        i := i - 1;
      }
      assert i > 0 ==> forall j :: 0 <= j < i ==> NotAfter(age[order[j]], age[order[i - 1]]);
      InsertDistinct(order, i, key);
      InsertOrdered(order, i, key, age);
      InsertHolds(order, keys - left, i, key);
      order := order[..i] + [key] + order[i..];
      assert keys - left + {key} == keys - (left - {key});
      left := left - {key};
    }
  }

  /** The first `n` of a list. */
  function First<K(==)>(order: seq<K>, n: nat): set<K>
    requires n <= |order|
  {
    if n == 0 then {} else First(order, n - 1) + {order[n - 1]}
  }

  lemma {:induction false} FirstFacts<K(!new)>(order: seq<K>, n: nat)
    requires n <= |order| && Distinct(order)
    ensures |First(order, n)| == n
    ensures forall k :: k in First(order, n) <==> exists i :: 0 <= i < n && order[i] == k
  {
    if n > 0 {
      FirstFacts(order, n - 1);
    }
  }

  /** As many as allowed, and none younger than one that is left. */
  ghost predicate OldestOf<K(!new)>(keys: set<K>, age: map<K, Age>, limit: nat, chosen: set<K>)
    requires keys <= age.Keys
  {
    && chosen <= keys
    && |chosen| == (if limit < |keys| then limit else |keys|)
    && forall k, k' :: k in chosen && k' in keys - chosen ==> NotAfter(age[k], age[k'])
  }

  lemma FirstAll<K(!new)>(keys: set<K>, order: seq<K>)
    requires Holds(order, keys) && Distinct(order)
    ensures First(order, |order|) == keys && |order| == |keys|
  {
    FirstFacts(order, |order|);
    forall k ensures k in First(order, |order|) <==> k in keys {
    }
  }

  /** The first of a sorted list are the oldest. */
  lemma FirstAreOldest<K(!new)>(keys: set<K>, age: map<K, Age>, order: seq<K>, n: nat)
    requires keys <= age.Keys && Holds(order, keys) && Distinct(order) && Ordered(order, age) && n <= |order|
    ensures First(order, n) <= keys && |First(order, n)| == n
    ensures forall k, k' :: k in First(order, n) && k' in keys - First(order, n) ==> NotAfter(age[k], age[k'])
  {
    FirstFacts(order, n);
    forall k, k' | k in First(order, n) && k' in keys - First(order, n) ensures NotAfter(age[k], age[k']) {
      var i :| 0 <= i < n && order[i] == k;
      var j :| 0 <= j < |order| && order[j] == k';
      assert n <= j;
    }
  }

  lemma {:induction false} FirstOfPrefix<K(!new)>(order: seq<K>, n: nat, k: nat)
    requires k <= n <= |order|
    ensures First(order[..n], k) == First(order, k)
  {
    if k > 0 {
      FirstOfPrefix(order, n, k - 1);
    }
  }

  /** Sorts, and keeps the first. */
  method TakeOldest<K(==, !new)>(keys: set<K>, age: map<K, Age>, limit: nat) returns (chosen: seq<K>)
    requires keys <= age.Keys
    ensures OldestOf(keys, age, limit, First(chosen, |chosen|))
    ensures (forall k :: k in chosen ==> k in keys)
    ensures Distinct(chosen) && Ordered(chosen, age)
    ensures |First(chosen, |chosen|)| == |chosen|
  {
    var order := SortByAge(keys, age);
    FirstAll(keys, order);
    var n := if limit < |order| then limit else |order|;
    FirstAreOldest(keys, age, order, n);
    PrefixFacts(keys, age, order, n);
    chosen := order[..n];
  }

  lemma PrefixFacts<K(!new)>(keys: set<K>, age: map<K, Age>, order: seq<K>, n: nat)
    requires keys <= age.Keys && Holds(order, keys) && Distinct(order) && Ordered(order, age) && n <= |order|
    ensures Distinct(order[..n]) && (forall k :: k in order[..n] ==> k in keys) && Ordered(order[..n], age)
    ensures First(order[..n], n) == First(order, n)
  {
    FirstOfPrefix(order, n, n);
    forall k | k in order[..n] ensures k in keys {
      assert k in order;
    }
  }
}
