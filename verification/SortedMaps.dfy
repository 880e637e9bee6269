/** The values of a map in ascending order of their keys, which is how every snapshot lists its records. */
module SortedMaps {
  import opened Basics

  lemma {:induction false} HasLeast(keys: set<U64>, k: U64)
    requires k in keys
    ensures exists least :: least in keys && forall other <- keys :: least <= other
    decreases k
  {
    if other :| other in keys && other < k {
      HasLeast(keys, other);
    }
  }

  function Least(keys: set<U64>): (k: U64)
    requires keys != {}
    ensures k in keys && forall other <- keys :: k <= other
  {
    var any :| any in keys;
    HasLeast(keys, any);
    var k :| k in keys && forall other <- keys :: k <= other;
    k
  }

  function SortedKeys(keys: set<U64>): (s: seq<U64>)
    ensures |s| == |keys|
    decreases |keys|
  {
    if keys == {} then [] else [Least(keys)] + SortedKeys(keys - {Least(keys)})
  }

  predicate Ascending(s: seq<U64>) {
    forall i, j :: 0 <= i < j < |s| ==> s[i] < s[j]
  }

  lemma {:induction false} SortedKeysAre(keys: set<U64>)
    ensures Ascending(SortedKeys(keys))
    ensures forall k: U64 :: k in SortedKeys(keys) <==> k in keys
    decreases |keys|
  {
    if keys != {} {
      var least := Least(keys);
      var rest := SortedKeys(keys - {least});
      SortedKeysAre(keys - {least});
      LeastFirst(least, rest);
      assert SortedKeys(keys) == [least] + rest;
      hide SortedKeys, Ascending;
      forall k: U64 ensures k in [least] + rest <==> k in keys {
        assert k in [least] + rest <==> k == least || k in rest;
      }
    }
  }

  lemma LeastFirst(least: U64, rest: seq<U64>)
    requires Ascending(rest) && forall k <- rest :: least < k
    ensures Ascending([least] + rest)
  {
    assert forall i :: 0 <= i < |rest| ==> rest[i] in rest;
  }

  /** There is only one ascending list of the same keys. */
  lemma {:induction false} AscendingIsUnique(a: seq<U64>, b: seq<U64>)
    requires Ascending(a) && Ascending(b)
    requires forall k: U64 :: k in a <==> k in b
    ensures a == b
  {
    assert a == [] <==> b == [] by {
      if a != [] {
        assert a[0] in b;
      }
      if b != [] {
        assert b[0] in a;
      }
    }
    if a != [] {
      assert a[0] in b && b[0] in a;
      assert a[0] == b[0];
      forall k: U64 ensures k in a[1..] <==> k in b[1..] {
        assert k in a[1..] ==> k in a && k > a[0];
        assert k in b[1..] ==> k in b && k > b[0];
        assert k in a <==> k == a[0] || k in a[1..];
        assert k in b <==> k == b[0] || k in b[1..];
      }
      AscendingIsUnique(a[1..], b[1..]);
      assert a == [a[0]] + a[1..] && b == [b[0]] + b[1..];
    }
  }

  function SortedValues<T>(m: map<U64, T>): (s: seq<T>)
    ensures |s| == |m|
  {
    var keys := SortedKeys(m.Keys);
    seq(|keys|, i requires 0 <= i < |keys| => SortedAt(m, i))
  }

  function SortedAt<T>(m: map<U64, T>, i: nat): T
    requires i < |m|
  {
    SortedKeysAre(m.Keys);
    assert SortedKeys(m.Keys)[i] in SortedKeys(m.Keys);
    m[SortedKeys(m.Keys)[i]]
  }

  // ---------- Maps collected from lists ----------

  /** A later record replaces an earlier one with the same key. */
  function Collected<A>(items: seq<A>, key: A -> U64): map<U64, A> {
    if items == [] then map[]
    else Collected(items[..|items| - 1], key)[key(items[|items| - 1]) := items[|items| - 1]]
  }

  lemma {:induction false} CollectedAt<A>(items: seq<A>, key: A -> U64, k: U64)
    ensures k in Collected(items, key) <==> exists i :: 0 <= i < |items| && key(items[i]) == k
    ensures k in Collected(items, key) ==> key(Collected(items, key)[k]) == k && Collected(items, key)[k] in items
    ensures (forall i, j :: 0 <= i < j < |items| ==> key(items[i]) != key(items[j])) ==>
              forall i :: 0 <= i < |items| && key(items[i]) == k ==> Collected(items, key)[k] == items[i]
  {
    if items != [] {
      var n := |items| - 1;
      CollectedAt(items[..n], key, k);
      assert forall i :: 0 <= i < n ==> items[..n][i] == items[i];
    }
  }
}
