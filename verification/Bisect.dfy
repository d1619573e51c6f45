// bisect.bisect_right over an ascending sequence of offsets.
module Bisect {

  predicate Ascending(keys: seq<int>) {
    forall i, j :: 0 <= i < j < |keys| ==> keys[i] <= keys[j]
  }

  /** The number of keys at or below x, which is where x would be inserted after them. */
  function Right(keys: seq<int>, x: int): (r: nat)
    requires Ascending(keys)
    ensures r <= |keys|
    ensures forall i :: 0 <= i < r ==> keys[i] <= x
    ensures forall i :: r <= i < |keys| ==> x < keys[i]
  {
    if keys == [] || x < keys[|keys| - 1] then
      if keys == [] then 0 else Right(keys[..|keys| - 1], x)
    else |keys|
  }
}
