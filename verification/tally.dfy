/** Counting shared by both scripts: a multiset is the per-key count of a
    column, and summing the counts of a list of distinct keys that covers
    every observed key gives back the number of rows.
 */
module Tally {

  /** No element occurs twice. */
  predicate Distinct<T(==)>(s: seq<T>) {
    forall i, j :: 0 <= i < j < |s| ==> s[i] != s[j]
  }

  /** The counts in `m` of the elements of `keys`, added up. */
  function SumOver<T>(keys: seq<T>, m: multiset<T>): nat {
    if |keys| == 0 then 0 else m[keys[0]] + SumOver(keys[1..], m)
  }

  /** The sum only looks at the counts of the listed keys. */
  lemma {:induction false} SumOverAgrees<T>(keys: seq<T>, m1: multiset<T>, m2: multiset<T>)
    requires forall i :: 0 <= i < |keys| ==> m1[keys[i]] == m2[keys[i]]
    ensures SumOver(keys, m1) == SumOver(keys, m2)
  {
    if |keys| > 0 {
      SumOverAgrees(keys[1..], m1, m2);
    }
  }

  /** Summing the counts over distinct keys that include every element of
      `m` counts every element exactly once. */
  lemma {:induction false} SumOverCoversAll<T>(keys: seq<T>, m: multiset<T>)
    requires Distinct(keys)
    requires forall x :: x in m ==> x in keys
    ensures SumOver(keys, m) == |m|
  {
    if |keys| > 0 {
      var x := keys[0];
      var rest := m[x := 0];
      forall i | 0 <= i < |keys[1..]|
        ensures m[keys[1..][i]] == rest[keys[1..][i]]
      {
        assert keys[1..][i] == keys[i + 1] != keys[0];
      }
      SumOverAgrees(keys[1..], m, rest);
      forall y | y in rest
        ensures y in keys[1..]
      {
        assert y in keys && y != x;
        var j :| 0 <= j < |keys| && keys[j] == y;
        assert keys[1..][j - 1] == y;
      }
      assert Distinct(keys[1..]) by {
        forall i, j | 0 <= i < j < |keys[1..]|
          ensures keys[1..][i] != keys[1..][j]
        {
          assert keys[1..][i] == keys[i + 1] && keys[1..][j] == keys[j + 1];
        }
      }
      SumOverCoversAll(keys[1..], rest);
      assert m == rest + multiset{}[x := m[x]];
    }
  }
}
