/** The chained hash table of the trace tools (hash_table.h). Entries are numbered as they are allocated. */
module HashTables {
  import opened Words
  import opened Options
  import opened Chains
  import opened Bits

  /** A C string: its characters, which the platform may take as signed. */
  type Key = seq<int>

  datatype Entry<V> = Entry(key: Key, value: V)

  // --- A table as a sequence of buckets -------------------------------------------------------------

  /** Bernstein's hash, in 32 bits. */
  function HashFrom(hash: uint32, key: Key): uint32
    decreases |key|
  {
    if key == [] then hash else HashFrom((hash * 33 + key[0]) % TWO32, key[1..])
  }

  /** The bucket a key belongs to: the hash, masked. */
  function Position(key: Key, size: nat): (b: nat)
    requires size > 0
    ensures b < size
  {
    BitAnd(HashFrom(5381, key), size - 1)
  }

  /** The position of a key in a bucket, or the bucket's length. */
  function IndexIn<V>(bucket: seq<Entry<V>>, key: Key): (i: nat)
    ensures i <= |bucket|
    ensures i < |bucket| ==> bucket[i].key == key
    ensures forall j :: 0 <= j < i ==> bucket[j].key != key
  {
    if bucket == [] || bucket[0].key == key then 0 else 1 + IndexIn(bucket[1..], key)
  }

  ghost predicate UniqueKeys<V>(bucket: seq<Entry<V>>) {
    forall i, j :: 0 <= i < j < |bucket| ==> bucket[i].key != bucket[j].key
  }

  /** Every key is in the bucket its hash selects, and in no bucket twice. */
  ghost predicate Tidy<V>(table: seq<seq<Entry<V>>>) {
    |table| > 0 &&
    (forall b :: 0 <= b < |table| ==> UniqueKeys(table[b])) &&
    forall b, i :: 0 <= b < |table| && 0 <= i < |table[b]| ==> Position(table[b][i].key, |table|) == b
  }

  function GetFrom<V>(bucket: seq<Entry<V>>, key: Key): Option<V> {
    var i := IndexIn(bucket, key);
    if i < |bucket| then Some(bucket[i].value) else None
  }

  function PutIn<V>(bucket: seq<Entry<V>>, key: Key, value: V): seq<Entry<V>> {
    var i := IndexIn(bucket, key);
    if i < |bucket| then bucket[i := Entry(key, value)] else [Entry(key, value)] + bucket
  }

  function DropFrom<V>(bucket: seq<Entry<V>>, key: Key): seq<Entry<V>> {
    var i := IndexIn(bucket, key);
    if i < |bucket| then bucket[..i] + bucket[i + 1..] else bucket
  }

  /** The first position with a key is the only position. */
  lemma IndexIs<V>(bucket: seq<Entry<V>>, key: Key, i: nat)
    requires UniqueKeys(bucket) && i < |bucket| && bucket[i].key == key
    ensures IndexIn(bucket, key) == i
  {}

  lemma IndexNone<V>(bucket: seq<Entry<V>>, key: Key)
    requires forall i :: 0 <= i < |bucket| ==> bucket[i].key != key
    ensures IndexIn(bucket, key) == |bucket|
  {}

  ghost predicate Passed<V>(bucket: seq<Entry<V>>, key: Key, i: nat) {
    forall j :: 0 <= j < i && j < |bucket| ==> bucket[j].key != key
  }

  lemma PassedAll<V>(bucket: seq<Entry<V>>, key: Key, i: nat)
    requires i <= |bucket| && Passed(bucket, key, i) && (i < |bucket| ==> bucket[i].key == key)
    ensures IndexIn(bucket, key) == i
  {}

  lemma PutInGet<V>(bucket: seq<Entry<V>>, key: Key, value: V, k: Key)
    requires UniqueKeys(bucket)
    ensures UniqueKeys(PutIn(bucket, key, value))
    ensures GetFrom(PutIn(bucket, key, value), k) == if k == key then Some(value) else GetFrom(bucket, k)
  {
    var now, i, j := PutIn(bucket, key, value), IndexIn(bucket, key), IndexIn(bucket, k);
    if k == key {
      IndexIs(now, key, if i < |bucket| then i else 0);
    } else if j < |bucket| {
      IndexIs(now, k, if i < |bucket| then j else j + 1);
    } else {
      IndexNone(now, k);
    }
  }

  lemma CutUnique<V>(bucket: seq<Entry<V>>, i: nat)
    requires UniqueKeys(bucket) && i < |bucket|
    ensures var now := bucket[..i] + bucket[i + 1..];
            UniqueKeys(now) && (forall j :: 0 <= j < |now| ==> now[j] == bucket[if j < i then j else j + 1]) &&
            forall j :: 0 <= j < |now| ==> now[j].key != bucket[i].key
  {
    var now := bucket[..i] + bucket[i + 1..];
    assert forall j :: 0 <= j < |now| ==> now[j] == bucket[if j < i then j else j + 1];
  }

  lemma DropFromGet<V>(bucket: seq<Entry<V>>, key: Key, k: Key)
    requires UniqueKeys(bucket)
    ensures UniqueKeys(DropFrom(bucket, key))
    ensures GetFrom(DropFrom(bucket, key), k) == if k == key then None else GetFrom(bucket, k)
  {
    var now, i, j := DropFrom(bucket, key), IndexIn(bucket, key), IndexIn(bucket, k);
    if i < |bucket| {
      CutUnique(bucket, i);
      if k == key || j == |bucket| {
        IndexNone(now, k);
      } else {
        assert now[if j < i then j else j - 1] == bucket[j];
        IndexIs(now, k, if j < i then j else j - 1);
      }
    }
  }

  /** The finite map a table stands for. */
  function Get<V>(table: seq<seq<Entry<V>>>, key: Key): Option<V>
    requires |table| > 0
  {
    GetFrom(table[Position(key, |table|)], key)
  }

  function Put<V>(table: seq<seq<Entry<V>>>, key: Key, value: V): seq<seq<Entry<V>>>
    requires |table| > 0
  {
    var b := Position(key, |table|);
    table[b := PutIn(table[b], key, value)]
  }

  function Drop<V>(table: seq<seq<Entry<V>>>, key: Key): seq<seq<Entry<V>>>
    requires |table| > 0
  {
    var b := Position(key, |table|);
    table[b := DropFrom(table[b], key)]
  }

  lemma BucketChanged<V>(table: seq<seq<Entry<V>>>, b: nat, bucket: seq<Entry<V>>)
    requires Tidy(table) && b < |table| && UniqueKeys(bucket)
    requires forall i :: 0 <= i < |bucket| ==> Position(bucket[i].key, |table|) == b
    ensures Tidy(table[b := bucket])
  {}

  /** Update is map update: it changes what is found for its key and nothing else. */
  lemma PutGet<V>(table: seq<seq<Entry<V>>>, key: Key, value: V, k: Key)
    requires Tidy(table)
    ensures Tidy(Put(table, key, value))
    ensures Get(Put(table, key, value), k) == if k == key then Some(value) else Get(table, k)
  {
    var b := Position(key, |table|);
    PutInGet(table[b], key, value, k);
    BucketChanged(table, b, PutIn(table[b], key, value));
  }

  /** Remove is map removal. */
  lemma DropGet<V>(table: seq<seq<Entry<V>>>, key: Key, k: Key)
    requires Tidy(table)
    ensures Tidy(Drop(table, key))
    ensures Get(Drop(table, key), k) == if k == key then None else Get(table, k)
  {
    var b := Position(key, |table|);
    DropFromGet(table[b], key, k);
    BucketChanged(table, b, DropFrom(table[b], key));
    if Position(k, |table|) != b {
      assert Drop(table, key)[Position(k, |table|)] == table[Position(k, |table|)];
    }
  }

  // --- A table as linked chains -----------------------------------------------------------------------

  /** The list heads in table lead through next along the chains. */
  ghost predicate Linked(next: seq<int>, table: seq<int>, chains: seq<seq<int>>) {
    |table| == |chains| && forall b :: 0 <= b < |table| ==> Chain(next, table[b], chains[b])
  }

  /** The buckets the chains stand for. */
  function Buckets<V>(entries: seq<Entry<V>>, chains: seq<seq<int>>): (t: seq<seq<Entry<V>>>)
    requires forall b, i :: 0 <= b < |chains| && 0 <= i < |chains[b]| ==> 0 <= chains[b][i] < |entries|
    ensures |t| == |chains|
  {
    seq(|chains|, b requires 0 <= b < |chains| => Held(entries, chains[b]))
  }

  ghost predicate Sound<V>(entries: seq<Entry<V>>, next: seq<int>, table: seq<int>, chains: seq<seq<int>>) {
    |entries| == |next| && Linked(next, table, chains) && Tidy(Buckets(entries, chains))
  }

  /** Where the search along chain b stands after i steps. */
  lemma EntryAt<V>(entries: seq<Entry<V>>, next: seq<int>, table: seq<int>, chains: seq<seq<int>>, b: nat, i: nat)
    requires Sound(entries, next, table, chains) && b < |chains| && i <= |chains[b]|
    ensures |Buckets(entries, chains)[b]| == |chains[b]| && table[b] == Link(chains[b], 0)
    ensures Link(chains[b], i) != NULL ==> i < |chains[b]|
    ensures i < |chains[b]| ==>
              0 <= chains[b][i] < |entries| && Buckets(entries, chains)[b][i] == entries[chains[b][i]] &&
              next[chains[b][i]] == Link(chains[b], i + 1)
  {
    assert Chain(next, table[b], chains[b]);
  }

  /** The keys keep the chains apart: an entry is in one place only. */
  lemma OnePlace<V>(entries: seq<Entry<V>>, next: seq<int>, table: seq<int>, chains: seq<seq<int>>, b: nat, i: nat, c: nat, j: nat)
    requires Sound(entries, next, table, chains) && b < |chains| && c < |chains| && i < |chains[b]| && j < |chains[c]|
    requires chains[b][i] == chains[c][j]
    ensures b == c && i == j
  {
    var t: seq<seq<Entry<V>>> := Buckets(entries, chains);
    assert t[b][i].key == t[c][j].key;
    assert Position(t[b][i].key, |t|) == b && Position(t[c][j].key, |t|) == c;
  }

  lemma NoRepeats<V>(entries: seq<Entry<V>>, next: seq<int>, table: seq<int>, chains: seq<seq<int>>, b: nat)
    requires Sound(entries, next, table, chains) && b < |chains|
    ensures Distinct(chains[b])
  {
    forall i, j | 0 <= i < j < |chains[b]|
      ensures chains[b][i] != chains[b][j]
    {
      if chains[b][i] == chains[b][j] {
        OnePlace(entries, next, table, chains, b, i, b, j);
      }
    }
  }

  /** A new entry at the front of chain b. */
  lemma PushedFront<V>(entries: seq<Entry<V>>, next: seq<int>, table: seq<int>, chains: seq<seq<int>>, b: nat, e: Entry<V>)
    requires Sound(entries, next, table, chains) && b < |chains|
    ensures var after := chains[b := [|entries|] + chains[b]];
            Linked(next + [table[b]], table[b := |entries|], after) &&
            Buckets(entries + [e], after) == Buckets(entries, chains)[b := [e] + Buckets(entries, chains)[b]]
  {
    var x, t := |entries|, Buckets(entries, chains);
    var after := chains[b := [x] + chains[b]];
    forall c | 0 <= c < |chains|
      ensures Chain(next + [table[b]], table[b := x][c], after[c])
    {
      ChainGrow(next, table[c], chains[c], [table[b]]);
      if c == b {
        ChainPush(next + [table[b]], table[b], chains[b], x);
        assert (next + [table[b]])[x := table[b]] == next + [table[b]];
      }
    }
    forall c | 0 <= c < |chains|
      ensures Held(entries + [e], after[c]) == if c == b then [e] + t[b] else t[c]
    {}
  }

  /** A new value in the entry at position i of chain b. */
  lemma ValueSet<V>(entries: seq<Entry<V>>, next: seq<int>, table: seq<int>, chains: seq<seq<int>>, b: nat, i: nat, e: Entry<V>)
    requires Sound(entries, next, table, chains) && b < |chains| && i < |chains[b]|
    ensures var t := Buckets(entries, chains);
            Buckets(entries[chains[b][i] := e], chains) == t[b := t[b][i := e]]
  {
    var t := Buckets(entries, chains);
    forall c | 0 <= c < |chains|
      ensures Held(entries[chains[b][i] := e], chains[c]) == if c == b then t[b][i := e] else t[c]
    {
      forall j | 0 <= j < |chains[c]| && chains[c][j] == chains[b][i]
        ensures c == b && j == i
      {
        OnePlace(entries, next, table, chains, b, i, c, j);
      }
    }
  }

  /** The chains without the entry at position i of chain b. */
  function Cut(chains: seq<seq<int>>, b: nat, i: nat): seq<seq<int>>
    requires b < |chains| && i < |chains[b]|
  {
    chains[b := chains[b][..i] + chains[b][i + 1..]]
  }

  lemma CutBuckets<V>(entries: seq<Entry<V>>, next: seq<int>, table: seq<int>, chains: seq<seq<int>>, b: nat, i: nat)
    requires Sound(entries, next, table, chains) && b < |chains| && i < |chains[b]|
    ensures forall c, j :: 0 <= c < |chains| && 0 <= j < |Cut(chains, b, i)[c]| ==> 0 <= Cut(chains, b, i)[c][j] < |entries|
    ensures var t := Buckets(entries, chains);
            Buckets(entries, Cut(chains, b, i)) == t[b := t[b][..i] + t[b][i + 1..]]
  {
    var after, t := Cut(chains, b, i), Buckets(entries, chains);
    forall c, j | 0 <= c < |chains| && 0 <= j < |after[c]|
      ensures after[c][j] == chains[c][if c == b && j >= i then j + 1 else j]
    {}
    forall c | 0 <= c < |chains|
      ensures Held(entries, after[c]) == if c == b then t[b][..i] + t[b][i + 1..] else t[c]
    {}
  }

  /** Its first entry leaves a chain through the list head. */
  lemma FirstUnlinked<V>(entries: seq<Entry<V>>, next: seq<int>, table: seq<int>, chains: seq<seq<int>>, b: nat)
    requires Sound(entries, next, table, chains) && b < |chains| && chains[b] != []
    ensures Linked(next, table[b := next[chains[b][0]]], Cut(chains, b, 0))
  {
    ChainPop(next, table[b], chains[b]);
    assert chains[b][..0] + chains[b][1..] == chains[b][1..];
  }

  /** Any other through its predecessor. */
  lemma LaterUnlinked<V>(entries: seq<Entry<V>>, next: seq<int>, table: seq<int>, chains: seq<seq<int>>, b: nat, i: nat)
    requires Sound(entries, next, table, chains) && b < |chains| && 0 < i < |chains[b]|
    ensures Linked(next[chains[b][i - 1] := next[chains[b][i]]], table, Cut(chains, b, i))
  {
    NoRepeats(entries, next, table, chains, b);
    ChainRemove(next, table[b], chains[b], i);
    forall c | 0 <= c < |chains| && c != b
      ensures Chain(next[chains[b][i - 1] := next[chains[b][i]]], table[c], chains[c])
    {
      OtherChain(entries, next, table, chains, b, i - 1, c, next[chains[b][i]]);
    }
  }

  /** Redirecting an entry of one chain leaves every other chain alone. */
  lemma OtherChain<V>(entries: seq<Entry<V>>, next: seq<int>, table: seq<int>, chains: seq<seq<int>>, b: nat, i: nat, c: nat, to: int)
    requires Sound(entries, next, table, chains) && b < |chains| && i < |chains[b]| && c < |chains| && c != b
    ensures Chain(next[chains[b][i] := to], table[c], chains[c])
  {
    forall j | 0 <= j < |chains[c]|
      ensures chains[c][j] != chains[b][i]
    {
      if chains[c][j] == chains[b][i] {
        OnePlace(entries, next, table, chains, b, i, c, j);
      }
    }
    ChainFrame(next, table[c], chains[c], chains[b][i], to);
  }

  // --- The order of iteration -----------------------------------------------------------------------

  function Flatten(chains: seq<seq<int>>): seq<int> {
    if chains == [] then [] else chains[0] + Flatten(chains[1..])
  }

  ghost predicate Apart(chains: seq<seq<int>>) {
    forall b, i, c, j :: 0 <= b < |chains| && 0 <= c < |chains| && 0 <= i < |chains[b]| && 0 <= j < |chains[c]| ==>
      chains[b][i] == chains[c][j] ==> b == c && i == j
  }

  lemma SoundIsApart<V>(entries: seq<Entry<V>>, next: seq<int>, table: seq<int>, chains: seq<seq<int>>)
    requires Sound(entries, next, table, chains)
    ensures Apart(chains)
  {
    forall b, i, c, j | 0 <= b < |chains| && 0 <= c < |chains| && 0 <= i < |chains[b]| && 0 <= j < |chains[c]| &&
                        chains[b][i] == chains[c][j]
      ensures b == c && i == j
    {
      OnePlace(entries, next, table, chains, b, i, c, j);
    }
  }

  ghost predicate OnSomeChain(chains: seq<seq<int>>, x: int) {
    exists b :: 0 <= b < |chains| && x in chains[b]
  }

  lemma {:induction false} FlattenHas(chains: seq<seq<int>>, x: int)
    ensures x in Flatten(chains) <==> OnSomeChain(chains, x)
  {
    if chains != [] {
      FlattenHas(chains[1..], x);
      if b :| 0 < b < |chains| && x in chains[b] {
        assert x in chains[1..][b - 1];
      }
    }
  }

  lemma NotIn(chains: seq<seq<int>>, b: nat, i: nat, c: nat)
    requires Apart(chains) && b < |chains| && c < |chains| && b != c && i < |chains[b]|
    ensures chains[b][i] !in chains[c]
  {}

  /** The iteration order names every entry of every chain, and none twice. */
  lemma {:induction false} FlattenOnce(chains: seq<seq<int>>)
    requires Apart(chains)
    ensures Distinct(Flatten(chains))
  {
    if chains != [] {
      var tail := chains[1..];
      forall b, i, c, j | 0 <= b < |tail| && 0 <= c < |tail| && 0 <= i < |tail[b]| && 0 <= j < |tail[c]| && tail[b][i] == tail[c][j]
        ensures b == c && i == j
      {
        assert chains[b + 1][i] == chains[c + 1][j];
      }
      FlattenOnce(tail);
      forall x | x in chains[0]
        ensures x !in Flatten(tail)
      {
        FlattenHas(tail, x);
        var i :| 0 <= i < |chains[0]| && chains[0][i] == x;
        forall b | 0 <= b < |tail|
          ensures x !in tail[b]
        {
          NotIn(chains, 0, i, b + 1);
        }
      }
      DistinctConcat(chains[0], Flatten(tail));
    }
  }

  lemma DistinctConcat(a: seq<int>, b: seq<int>)
    requires Distinct(a) && Distinct(b) && forall x :: x in a ==> x !in b
    ensures Distinct(a + b)
  {
    forall i, j | 0 <= i < j < |a + b|
      ensures (a + b)[i] != (a + b)[j]
    {
      if i < |a| <= j {
        assert (a + b)[i] in a;
      }
    }
  }

  /** An empty chain adds nothing; one that is not puts its first entry first. */
  lemma FlattenAt(next: seq<int>, table: seq<int>, chains: seq<seq<int>>, b: nat)
    requires Linked(next, table, chains) && b < |chains|
    ensures var tail := Flatten(chains[b + 1..]);
            if table[b] == NULL then Flatten(chains[b..]) == tail
            else chains[b] != [] && table[b] == chains[b][0] &&
                 Flatten(chains[b..]) != [] && Flatten(chains[b..])[0] == table[b] &&
                 Flatten(chains[b..])[1..] == chains[b][1..] + tail
  {
    assert chains[b..][1..] == chains[b + 1..];
    assert Chain(next, table[b], chains[b]);
    if chains[b] != [] {
      assert chains[b] + Flatten(chains[b + 1..]) == [chains[b][0]] + (chains[b][1..] + Flatten(chains[b + 1..]));
    }
  }

  /** The iteration stands at position at of a chain, or before the start; rest is what comes behind. */
  ghost predicate Standing(chains: seq<seq<int>>, index: nat, ptr: int, at: nat, rest: seq<int>) {
    if ptr == NULL then index == 0 && rest == Flatten(chains)
    else
      index < |chains| && at < |chains[index]| && ptr == chains[index][at] &&
      rest == chains[index][at + 1..] + Flatten(chains[index + 1..])
  }

  lemma RestAt(chain: seq<int>, at: nat, tail: seq<int>)
    requires at < |chain|
    ensures at + 1 == |chain| ==> chain[at + 1..] + tail == tail
    ensures at + 1 < |chain| ==> (chain[at + 1..] + tail)[0] == chain[at + 1] && (chain[at + 1..] + tail)[1..] == chain[at + 2..] + tail
  {}

  lemma MoveOne(done: seq<int>, todo: seq<int>, all: seq<int>)
    requires done + todo == all && todo != []
    ensures done + [todo[0]] + todo[1..] == all
  {}

  class HashTable<V> {
    const size: nat
    const defaultValue: V

    var entries: seq<Entry<V>>
    var next: seq<int>
    var table: seq<int>
    ghost var chains: seq<seq<int>>

    var currentIndex: nat
    var currentPtr: int
    ghost var at: nat             // where in its chain the current entry is
    ghost var rest: seq<int>      // the entries the iteration has yet to visit

    ghost predicate Valid()
      reads this
    {
      |table| == size && Sound(entries, next, table, chains)
    }

    ghost function View(): (t: seq<seq<Entry<V>>>)
      requires Valid()
      reads this
      ensures |t| == size > 0
    {
      Buckets(entries, chains)
    }

    /** The size is the least power of two that is at least 2 and at least what is asked for. */
    constructor (minimum: int, defaultValue: V)
      ensures Valid() && (forall k :: Get(View(), k) == None) && this.defaultValue == defaultValue
      ensures PowerOfTwo(size) && size >= minimum && size >= 2 && (size == 2 || size < 2 * minimum)
    {
      var pow2 := 2;
      while pow2 < minimum
        invariant PowerOfTwo(pow2) && pow2 >= 2 && (pow2 == 2 || pow2 < 2 * minimum)
      {
        pow2 := pow2 * 2;
      }
      size, this.defaultValue := pow2, defaultValue;
      entries, next, table := [], [], seq(pow2, _ => NULL);
      chains := seq(pow2, _ => []);
      currentIndex, currentPtr, at, rest := 0, NULL, 0, [];
    }

    method HashFunction(key: Key) returns (hash: uint32)
      ensures hash == HashFrom(5381, key)
    {
      hash := 5381;
      assert key[0..] == key;
      for i := 0 to |key|
        invariant HashFrom(hash, key[i..]) == HashFrom(5381, key)
      {
        assert key[i..][1..] == key[i + 1..];
        hash := (hash * 33 + key[i]) % TWO32;
      }
    }

    /** The search that Update, Remove and Find share. */
    method Locate(key: Key) returns (pos: nat, prev: int, ptr: int, ghost i: nat)
      requires Valid()
      ensures pos == Position(key, size) && i == IndexIn(View()[pos], key)
      ensures ptr == Link(chains[pos], i) && prev == if i == 0 then NULL else chains[pos][i - 1]
    {
      var hash := HashFunction(key);
      pos, prev := BitAnd(hash, size - 1), NULL;
      ptr, i := table[pos], 0;
      ghost var bucket := View()[pos];
      EntryAt(entries, next, table, chains, pos, 0);
      while ptr != NULL && entries[ptr].key != key
        invariant i <= |bucket| == |chains[pos]| && Passed(bucket, key, i)
        invariant ptr == Link(chains[pos], i) && prev == if i == 0 then NULL else chains[pos][i - 1]
        invariant ptr != NULL ==> i < |bucket| && 0 <= ptr < |entries| && bucket[i] == entries[ptr] && next[ptr] == Link(chains[pos], i + 1)
        decreases |bucket| - i
      {
        prev, ptr, i := ptr, next[ptr], i + 1;
        EntryAt(entries, next, table, chains, pos, i);
      }
      PassedAll(bucket, key, i);
    }

    method Update(key: Key, value: V)
      requires Valid()
      modifies `entries, `next, `table, `chains
      ensures Valid() && View() == Put(old(View()), key, value)
    {
      PutGet(View(), key, value, key);
      ghost var i: nat;
      var pos, prev, ptr;
      pos, prev, ptr, i := Locate(key);
      if ptr != NULL {
        ValueSet(entries, next, table, chains, pos, i, Entry(key, value));
        entries := entries[ptr := Entry(key, value)];
      } else {
        PushedFront(entries, next, table, chains, pos, Entry(key, value));
        ptr := |entries|;
        chains := chains[pos := [ptr] + chains[pos]];
        entries, next := entries + [Entry(key, value)], next + [table[pos]];
        table := table[pos := ptr];
      }
    }

    /** Takes the entry at position i of its chain out of it. */
    method Unlink(pos: nat, prev: int, ptr: int, ghost i: nat)
      requires Valid() && pos < size && i < |chains[pos]|
      requires ptr == chains[pos][i] && prev == if i == 0 then NULL else chains[pos][i - 1]
      modifies `next, `table, `chains
      ensures |next| == |entries| && |table| == size && Linked(next, table, chains) && chains == Cut(old(chains), pos, i)
    {
      if prev == NULL {
        EntryAt(entries, next, table, chains, pos, 0);
        FirstUnlinked(entries, next, table, chains, pos);
        table := table[pos := next[ptr]];
      } else {
        LaterUnlinked(entries, next, table, chains, pos, i);
        next := next[prev := next[ptr]];
      }
      chains := Cut(chains, pos, i);
    }

    method Remove(key: Key) returns (found: bool)
      requires Valid()
      modifies `next, `table, `chains
      ensures Valid() && View() == Drop(old(View()), key) && found == Get(old(View()), key).Some?
    {
      DropGet(View(), key, key);
      ghost var i: nat;
      var pos, prev, ptr;
      pos, prev, ptr, i := Locate(key);
      EntryAt(entries, next, table, chains, pos, i);
      found := ptr != NULL;
      if found {
        CutBuckets(entries, next, table, chains, pos, i);
        Unlink(pos, prev, ptr, i);
      }
    }

    method Find(key: Key) returns (value: V)
      requires Valid()
      ensures value == match Get(View(), key) case Some(v) => v case None => defaultValue
    {
      ghost var i: nat;
      var pos, prev, ptr;
      pos, prev, ptr, i := Locate(key);
      if ptr != NULL {
        return entries[ptr].value;
      }
      value := defaultValue;
    }

    // --- Iteration -----------------------------------------------------------------------------

    ghost predicate Iterating()
      reads this
    {
      Standing(chains, currentIndex, currentPtr, at, rest)
    }

    /** The search for the next chain that is not empty. */
    method SkipEmpty()
      requires Valid() && currentIndex <= size
      modifies `currentIndex
      ensures currentIndex <= size && Flatten(chains[currentIndex..]) == old(Flatten(chains[currentIndex..]))
      ensures currentIndex < size ==> table[currentIndex] != NULL
    {
      while currentIndex < size && table[currentIndex] == NULL
        invariant currentIndex <= size && Flatten(chains[currentIndex..]) == old(Flatten(chains[currentIndex..]))
        decreases size - currentIndex
      {
        FlattenAt(next, table, chains, currentIndex);
        currentIndex := currentIndex + 1;
      }
    }

    /** Its first entry, or NULL when no chain is left. */
    method NextChain() returns (ptr: int)
      requires Valid() && currentIndex <= size && rest == Flatten(chains[currentIndex..])
      modifies `currentIndex, `currentPtr, `at, `rest
      ensures if old(rest) == [] then ptr == NULL && currentIndex == size && rest == [] && currentPtr == old(currentPtr)
              else ptr == old(rest)[0] && rest == old(rest)[1..] && currentPtr == ptr && currentIndex < size && Iterating()
    {
      SkipEmpty();
      if currentIndex == size {
        return NULL;
      }
      FlattenAt(next, table, chains, currentIndex);
      currentPtr := table[currentIndex];
      at, rest := 0, rest[1..];
      ptr := currentPtr;
    }

    /** GetFirst starts over; NULL only if the table is empty. */
    method GetFirst() returns (ptr: int)
      requires Valid()
      modifies `currentIndex, `currentPtr, `at, `rest
      ensures var all := Flatten(chains);
              if all == [] then ptr == NULL && rest == []
              else ptr == all[0] && rest == all[1..] && currentPtr == ptr && Iterating()
    {
      currentIndex, rest := 0, Flatten(chains);
      assert chains[0..] == chains;
      ptr := NextChain();
    }

    /** The next entry of the same chain, or NULL with the index on the next chain. */
    method NextInChain() returns (ptr: int)
      requires Valid() && Iterating() && currentPtr != NULL
      modifies `currentIndex, `currentPtr, `at, `rest
      ensures if ptr == NULL then currentIndex <= size && rest == old(rest) == Flatten(chains[currentIndex..]) && currentPtr == NULL
              else old(rest) != [] && ptr == old(rest)[0] && rest == old(rest)[1..] && currentPtr == ptr && Iterating()
    {
      RestAt(chains[currentIndex], at, Flatten(chains[currentIndex + 1..]));
      EntryAt(entries, next, table, chains, currentIndex, at);
      EntryAt(entries, next, table, chains, currentIndex, at + 1);
      currentPtr := next[currentPtr];
      ptr := currentPtr;
      if ptr != NULL {
        at, rest := at + 1, rest[1..];
      } else {
        currentIndex := currentIndex + 1;
      }
    }

    /** GetNext moves to the first of the entries not yet visited; NULL at the end, where it will start over. */
    method GetNext() returns (ptr: int)
      requires Valid() && Iterating()
      modifies `currentIndex, `currentPtr, `at, `rest
      ensures Iterating()
      ensures if old(rest) == [] then ptr == NULL && currentPtr == NULL
              else ptr == old(rest)[0] && rest == old(rest)[1..] && currentPtr == ptr
    {
      assert chains[0..] == chains;
      if currentPtr != NULL {
        ptr := NextInChain();
        if ptr != NULL {
          return;
        }
      }
      ptr := NextChain();
      if currentIndex == size {
        currentIndex, rest := 0, Flatten(chains);
        return NULL;
      }
    }

    lemma VisitsAll()
      requires Valid()
      ensures Distinct(Flatten(chains)) && forall x :: x in Flatten(chains) <==> OnSomeChain(chains, x)
    {
      SoundIsApart(entries, next, table, chains);
      FlattenOnce(chains);
      forall x
        ensures x in Flatten(chains) <==> OnSomeChain(chains, x)
      {
        FlattenHas(chains, x);
      }
    }

    /** The loop every client writes: it meets each entry of the table once, in the order of the chains. */
    method VisitAll() returns (visited: seq<int>)
      requires Valid()
      modifies `currentIndex, `currentPtr, `at, `rest
      ensures visited == Flatten(chains) && Distinct(visited)
      ensures forall x :: x in visited <==> OnSomeChain(chains, x)
    {
      VisitsAll();
      ghost var all := Flatten(chains);
      visited := [];
      var ptr := GetFirst();
      ghost var todo := all;
      while ptr != NULL
        invariant visited + todo == all && (ptr == NULL ==> todo == [])
        invariant ptr != NULL ==> Iterating() && todo != [] && todo[0] == ptr && todo[1..] == rest
        decreases |todo|
      {
        MoveOne(visited, todo, all);
        visited, todo := visited + [ptr], rest;
        ptr := GetNext();
      }
    }
  }
}
