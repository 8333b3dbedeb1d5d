/**
 * The binary search that FindRegion, FindRegionIndex and FindFunction of trace_reader.h share.
 */
module Searching {

  predicate Sorted(keys: seq<int>) {
    forall i, j :: 0 <= i < j < |keys| ==> keys[i] <= keys[j]
  }

  predicate StrictlySorted(keys: seq<int>) {
    forall i, j :: 0 <= i < j < |keys| ==> keys[i] < keys[j]
  }

  /** k is the position of a greatest key at or below addr, or -1 if every key is above it. */
  predicate IsClosest(keys: seq<int>, addr: int, k: int) {
    -1 <= k < |keys| &&
    (k >= 0 ==> keys[k] <= addr) &&
    forall j :: 0 <= j < |keys| && keys[j] <= addr ==> k >= 0 && keys[j] <= keys[k]
  }

  lemma {:induction false} ClosestIsUnique(keys: seq<int>, addr: int, k: int, l: int)
    requires StrictlySorted(keys) && IsClosest(keys, addr, k) && IsClosest(keys, addr, l)
    ensures k == l
  {}

  /** The number of leading keys below v. */
  function Place(keys: seq<int>, v: int): (k: nat)
    ensures k <= |keys| && (k < |keys| ==> v <= keys[k])
    ensures forall i :: 0 <= i < k ==> keys[i] < v
  {
    if keys == [] || v <= keys[0] then 0 else 1 + Place(keys[1..], v)
  }

  lemma InsertedInOrder(keys: seq<int>, v: int)
    requires Sorted(keys)
    ensures var k := Place(keys, v); Sorted(keys[..k] + [v] + keys[k..])
  {
    var k := Place(keys, v);
    assert forall j :: k <= j < |keys| ==> v <= keys[j];
  }

  method Closest(keys: seq<int>, addr: int) returns (k: int)
    requires Sorted(keys)
    ensures IsClosest(keys, addr, k)
  {
    var high: int := |keys|;
    k := -1;
    while k + 1 < high
      invariant -1 <= k < high <= |keys|
      invariant forall j :: 0 <= j <= k ==> keys[j] < addr
      invariant forall j :: high <= j < |keys| ==> keys[j] > addr
    {
      var middle := (high + k) / 2;
      if keys[middle] == addr {
        return middle;
      }
      if keys[middle] > addr {
        high := middle;
      } else {
        k := middle;
      }
    }
  }
}
