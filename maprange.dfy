/**
 Go leaves the order of a `for ... range` over a map unspecified: each run may visit the keys in a
 different order. This module describes "some order in which a range loop visits a key set", so
 that the rest of the model can state its properties for every such order.
 */
module MapRange {

  /** No element of `s` occurs twice. */
  ghost predicate Distinct<T>(s: seq<T>) {
    forall i, j | 0 <= i < j < |s| :: s[i] != s[j]
  }

  /** `order` visits every key of `keys` exactly once and nothing else. */
  ghost predicate Enumerates<T>(order: seq<T>, keys: set<T>) {
    && Distinct(order)
    && (forall i | 0 <= i < |order| :: order[i] in keys)
    && (forall k | k in keys :: k in order)
  }

  /** A visit order has as many steps as there are keys. */
  lemma {:induction false} EnumerationLength<T>(order: seq<T>, keys: set<T>)
    requires Enumerates(order, keys)
    ensures |order| == |keys|
  {
    if order == [] {
      assert forall k :: k !in keys;
      assert keys == {};
    } else {
      var k := order[0];
      var rest := order[1..];
      assert order == [k] + rest;
      assert Distinct(rest) by {
        forall i, j | 0 <= i < j < |rest| ensures rest[i] != rest[j] {
          assert rest[i] == order[i + 1] && rest[j] == order[j + 1];
        }
      }
      assert k !in rest by {
        forall i | 0 <= i < |rest| ensures rest[i] != k {
          assert rest[i] == order[i + 1];
        }
      }
      assert forall x :: x in rest <==> x in keys - {k};
      EnumerationLength(rest, keys - {k});
      assert keys == (keys - {k}) + {k};
    }
  }

  /** Only the empty order visits the empty key set. */
  lemma EnumerationOfNothing<T>(order: seq<T>)
    requires Enumerates(order, {})
    ensures order == []
  {
    EnumerationLength(order, {});
  }

  /** Visiting two disjoint key sets one after the other visits their union. */
  lemma EnumerationConcat<T>(a: seq<T>, b: seq<T>, ka: set<T>, kb: set<T>)
    requires Enumerates(a, ka) && Enumerates(b, kb) && ka !! kb
    ensures Enumerates(a + b, ka + kb)
  {
  }

  /** In a sequence without repetitions every element occurs once. */
  lemma {:induction false} DistinctMultiplicity<T>(s: seq<T>, x: T)
    requires Distinct(s)
    ensures multiset(s)[x] == if x in s then 1 else 0
  {
    if s != [] {
      var rest := s[1..];
      assert s == [s[0]] + rest;
      assert Distinct(rest) by {
        forall i, j | 0 <= i < j < |rest| ensures rest[i] != rest[j] {
          assert rest[i] == s[i + 1] && rest[j] == s[j + 1];
        }
      }
      assert s[0] !in rest by {
        forall i | 0 <= i < |rest| ensures rest[i] != s[0] {
          assert rest[i] == s[i + 1];
        }
      }
      DistinctMultiplicity(rest, x);
    }
  }

  /** Two visit orders of one key set are permutations of each other. */
  lemma EnumerationsArePermutations<T>(a: seq<T>, b: seq<T>, keys: set<T>)
    requires Enumerates(a, keys) && Enumerates(b, keys)
    ensures multiset(a) == multiset(b)
  {
    forall x ensures multiset(a)[x] == multiset(b)[x] {
      DistinctMultiplicity(a, x);
      DistinctMultiplicity(b, x);
    }
  }
}
