/**
 * A dictionary filled in a loop: for every item that passes a filter, in order,
 * `d[key(item)] = make(item)`. Both exporters build their documents this way.
 */
module Keyed {

  /** No kept item after position `i` has the same key as `items[i]`. */
  ghost predicate LastWithKey<T>(items: seq<T>, keep: T -> bool, key: T -> string, i: nat)
    requires i < |items|
  {
    forall j | i < j < |items| && keep(items[j]) :: key(items[j]) != key(items[i])
  }

  /** No two kept items share a key (object names are unique in a scene). */
  ghost predicate DistinctKeys<T>(items: seq<T>, keep: T -> bool, key: T -> string) {
    forall i, j | 0 <= i < j < |items| && keep(items[i]) && keep(items[j]) :: key(items[i]) != key(items[j])
  }

  /**
   * The dictionary holds one entry per key of a kept item and nothing else; each
   * entry is built from the last kept item with that key.
   */
  function Collect<T, R>(items: seq<T>, keep: T -> bool, key: T -> string, make: T -> R): (m: map<string, R>)
    ensures m.Keys == set x | x in items && keep(x) :: key(x)
    ensures forall i | 0 <= i < |items| && keep(items[i]) && LastWithKey(items, keep, key, i) ::
              m[key(items[i])] == make(items[i])
    decreases |items|
  {
    if |items| == 0 then map[]
    else
      var init := items[..|items| - 1];
      var last := items[|items| - 1];
      var m0 := Collect(init, keep, key, make);
      assert items == init + [last];
      if keep(last) then m0[key(last) := make(last)] else m0
  }

  /** With unique keys, every kept item has its own entry. */
  lemma CollectDistinct<T, R>(items: seq<T>, keep: T -> bool, key: T -> string, make: T -> R)
    requires DistinctKeys(items, keep, key)
    ensures forall i | 0 <= i < |items| && keep(items[i]) :: Collect(items, keep, key, make)[key(items[i])] == make(items[i])
  {
    forall i | 0 <= i < |items| && keep(items[i])
      ensures Collect(items, keep, key, make)[key(items[i])] == make(items[i])
    {
      assert LastWithKey(items, keep, key, i);
    }
  }
}
