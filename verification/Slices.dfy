/** Slices as the program uses them: the first elements of an array, shifted, appended to and cut off in place. */
module Slices {

  /** The last n elements, or all where there are fewer. */
  function LastOf<T>(s: seq<T>, n: nat): seq<T> {
    if |s| <= n then s else s[|s| - n..]
  }

  /** append(s[:0], s[1:]...), or copy(s, s[1:]): source and target overlap by all but one element. The slice is
      one shorter afterwards. */
  method DropFirst<T>(store: array<T>, len: nat)
    requires 0 < len <= store.Length
    modifies store
    ensures store[..len - 1] == old(store[..len])[1..]
  {
    ghost var before := store[..len];
    for i := 0 to len - 1
      invariant forall j | 0 <= j < i :: store[j] == before[j + 1]
      invariant forall j | i <= j < len :: store[j] == before[j]
    {
      store[i] := store[i + 1];
    }
  }

  /** append(s, x): in place while the storage lasts, else in new storage. */
  method Append<T>(store: array<T>, len: nat, x: T) returns (grown: array<T>)
    requires len <= store.Length
    modifies store
    ensures grown == store || fresh(grown)
    ensures len < grown.Length && grown[..len + 1] == old(store[..len]) + [x]
  {
    grown := store;
    if len == store.Length {
      grown := new T[2 * len + 1](_ => x);
      forall i | 0 <= i < len { grown[i] := store[i]; }
    }
    grown[len] := x;
  }
}
