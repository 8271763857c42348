/**
 * Histories of actions on many keys. An action on one key does not concern the
 * others, so a history is the family of its projections, and every family of
 * projections is a history.
 */
module Interleaving {
  datatype Action<K, T> = Action(key: K, step: T)

  /** What a history does to one key. */
  function For<K(==), T>(actions: seq<Action<K, T>>, k: K): (r: seq<T>)
    ensures |r| <= |actions|
  {
    if actions == [] then []
    else
      var before, last := For(actions[..|actions| - 1], k), actions[|actions| - 1];
      if last.key == k then before + [last.step] else before
  }

  lemma ForSnoc<K, T>(actions: seq<Action<K, T>>, a: Action<K, T>, k: K)
    ensures For(actions + [a], k) == if a.key == k then For(actions, k) + [a.step] else For(actions, k)
  {
    assert (actions + [a])[..|actions|] == actions;
  }

  predicate KeysIn<K(==), T>(actions: seq<Action<K, T>>, keys: set<K>)
  {
    forall i :: 0 <= i < |actions| ==> actions[i].key in keys
  }

  lemma {:induction false} OneKeyMore<K, T>(actions: seq<Action<K, T>>, k: K, steps: seq<T>)
    returns (all: seq<Action<K, T>>)
    ensures forall q :: For(all, q) == if q == k then For(actions, q) + steps else For(actions, q)
    ensures forall keys: set<K> :: KeysIn(actions, keys) && k in keys ==> KeysIn(all, keys)
  {
    if steps == [] {
      all := actions;
      assert forall q :: For(actions, q) + steps == For(actions, q);
    } else {
      var n := |steps| - 1;
      var before := OneKeyMore(actions, k, steps[..n]);
      all := before + [Action(k, steps[n])];
      forall q
        ensures For(all, q) == if q == k then For(actions, q) + steps else For(actions, q)
      {
        ForSnoc(before, Action(k, steps[n]), q);
        assert steps == steps[..n] + [steps[n]];
        assert For(actions, q) + steps[..n] + [steps[n]] == For(actions, q) + steps;
      }
    }
  }

  /** The keys may each go through the same steps, one after the other. */
  lemma {:induction false} Everywhere<K, T>(keys: set<K>, steps: seq<T>) returns (all: seq<Action<K, T>>)
    ensures KeysIn(all, keys)
    ensures forall q :: For(all, q) == if q in keys then steps else []
    decreases keys
  {
    if keys == {} {
      all := [];
    } else {
      var k :| k in keys;
      var before := Everywhere(keys - {k}, steps);
      all := OneKeyMore(before, k, steps);
      assert KeysIn(before, keys);
      assert [] + steps == steps;
    }
  }
}
