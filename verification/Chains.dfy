/** Singly linked lists threaded through a block of cells by index: what "the list from start" means. */
module Chains {

  const NULL := -1

  /** The pointer that leads to position i of a list. */
  function Link(list: seq<int>, i: nat): int {
    if i < |list| then list[i] else NULL
  }

  /** Following next from start visits exactly list and then ends. */
  ghost predicate Chain(next: seq<int>, start: int, list: seq<int>) {
    start == Link(list, 0) &&
    forall i :: 0 <= i < |list| ==> 0 <= list[i] < |next| && next[list[i]] == Link(list, i + 1)
  }

  ghost predicate Distinct(list: seq<int>) {
    forall i, j :: 0 <= i < j < |list| ==> list[i] != list[j]
  }

  lemma ChainFrame(next: seq<int>, start: int, list: seq<int>, x: int, to: int)
    requires Chain(next, start, list) && 0 <= x < |next| && x !in list
    ensures Chain(next[x := to], start, list)
  {}

  lemma ChainGrow(next: seq<int>, start: int, list: seq<int>, more: seq<int>)
    requires Chain(next, start, list)
    ensures Chain(next + more, start, list)
  {}

  lemma ChainPush(next: seq<int>, start: int, list: seq<int>, x: int)
    requires Chain(next, start, list) && 0 <= x < |next| && x !in list
    ensures Chain(next[x := start], x, [x] + list)
  {
    var l := [x] + list;
    forall i | 0 <= i < |l| ensures 0 <= l[i] < |next| && next[x := start][l[i]] == Link(l, i + 1) {
      if i > 0 {
        assert l[i] == list[i - 1];
      }
    }
  }

  lemma ChainPop(next: seq<int>, start: int, list: seq<int>)
    requires Chain(next, start, list) && list != []
    ensures start == list[0] && 0 <= start < |next| && Chain(next, next[start], list[1..])
  {
    assert forall i :: 0 <= i < |list[1..]| ==> list[1..][i] == list[i + 1];
  }

  function LinkedAfter(next: seq<int>, x: int, prev: int): seq<int>
    requires 0 <= x < |next| && 0 <= prev < |next|
  {
    next[x := next[prev]][prev := x]
  }

  /** Linking x in after position i - 1 of the list. */
  lemma ChainInsert(next: seq<int>, start: int, list: seq<int>, i: nat, x: int)
    requires Chain(next, start, list) && Distinct(list) && 0 < i <= |list| && 0 <= x < |next| && x !in list
    ensures Chain(LinkedAfter(next, x, list[i - 1]), start, list[..i] + [x] + list[i..])
  {
    var next2 := LinkedAfter(next, x, list[i - 1]);
    var l := list[..i] + [x] + list[i..];
    forall j | 0 <= j < |l| ensures 0 <= l[j] < |next2| && next2[l[j]] == Link(l, j + 1) {
      InsertedAt(list, i, x, j);
      if j + 1 < |l| {
        InsertedAt(list, i, x, j + 1);
      }
    }
  }

  lemma InsertedAt(list: seq<int>, i: nat, x: int, j: nat)
    requires i <= |list| && j <= |list|
    ensures (list[..i] + [x] + list[i..])[j] == if j < i then list[j] else if j == i then x else list[j - 1]
  {}

  /** Linking x in at the end: through the last cell, or as the first if there is none. */
  lemma ChainAppend(next: seq<int>, start: int, list: seq<int>, x: int)
    requires Chain(next, start, list) && Distinct(list) && 0 <= x < |next| && x !in list
    ensures list == [] ==> Chain(next[x := NULL], x, [x])
    ensures list != [] ==> Chain(next[x := NULL][list[|list| - 1] := x], start, list + [x])
  {
    if list != [] {
      var l, next2 := list + [x], next[x := NULL][list[|list| - 1] := x];
      forall j | 0 <= j < |l| ensures 0 <= l[j] < |next2| && next2[l[j]] == Link(l, j + 1) {
        if j < |list| - 1 {
          assert l[j] == list[j] && l[j + 1] == list[j + 1];
        }
      }
    }
  }

  /** Unlinking the cell at position i, which its predecessor leads past. */
  lemma ChainRemove(next: seq<int>, start: int, list: seq<int>, i: nat)
    requires Chain(next, start, list) && Distinct(list) && 0 < i < |list|
    ensures Chain(next[list[i - 1] := next[list[i]]], start, list[..i] + list[i + 1..])
  {
    var next2, l := next[list[i - 1] := next[list[i]]], list[..i] + list[i + 1..];
    forall j | 0 <= j < |l| ensures 0 <= l[j] < |next2| && next2[l[j]] == Link(l, j + 1) {
      if j >= i {
        assert l[j] == list[j + 1];
      }
    }
  }

  /** What the cells of a list hold. */
  function Held<T>(cells: seq<T>, list: seq<int>): (v: seq<T>)
    requires forall i :: 0 <= i < |list| ==> 0 <= list[i] < |cells|
    ensures |v| == |list|
  {
    seq(|list|, i requires 0 <= i < |list| => cells[list[i]])
  }
}
