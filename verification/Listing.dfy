/** Sequences that list a set: how a loop over a map visits its keys. */
module Listing {

  /** `keys` lists the set `s`, each element once. */
  ghost predicate Lists(keys: seq<nat>, s: set<nat>) {
    && (forall i, j | 0 <= i < j < |keys| :: keys[i] != keys[j])
    && (forall k :: k in keys <==> k in s)
  }

  lemma ListsSnoc(keys: seq<nat>, s: set<nat>, k: nat)
    requires Lists(keys, s) && k !in s
    ensures Lists(keys + [k], s + {k})
  {
  }

  lemma {:induction false} ListLength(keys: seq<nat>, s: set<nat>)
    requires Lists(keys, s)
    ensures |keys| == |s|
  {
    if keys == [] {
      assert s == {};
    } else {
      var n := |keys| - 1;
      assert keys == keys[..n] + [keys[n]];
      assert forall k :: k in keys[..n] <==> k in s - {keys[n]};
      ListLength(keys[..n], s - {keys[n]});
    }
  }
}
