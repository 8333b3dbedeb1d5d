/** The gtrace output file (gtrace.cpp): blocks of 1024 entries of two 32-bit words each. */
module GtraceFile {
  import opened Words

  const ENTRIES_PER_BLOCK := 1024
  const TICS_PER_SECOND := 200_000_000
  const BASE_TIC := 0x1000
  const MAX_FILES := 0x10000       // 16 bits, as the first header says
  const MAX_PROCEDURES := 0x1000   // 12 bits

  /** One entry: two words. */
  datatype Entry = Entry(first: uint32, second: uint32)

  const ZERO := Entry(0, 0)

  datatype Rec = Rec(filenum: int, procnum: int, cycle: uint32, pid: uint32, isExit: bool)

  /** What the headers repeat. */
  datatype Setup = Setup(startSec: uint32, pdate: uint32, ptime: uint32)

  /** A block: the process it is for, the cycle its header gives, and its records. */
  datatype Block = Block(pid: uint32, cycle: uint32, records: seq<Rec>)

  function EntryOf(r: Rec): Entry {
    Entry((r.cycle + BASE_TIC) % TWO32, (r.filenum * 0x2000 + r.procnum * 2 + if r.isExit then 1 else 0) % TWO32)
  }

  /** The fields of the second word do not run into each other. */
  predicate InRange(r: Rec) {
    0 <= r.filenum < MAX_FILES && 0 <= r.procnum < MAX_PROCEDURES
  }

  /** The fields of a record can be read back from its entry. */
  lemma EntryReadsBack(r: Rec)
    requires InRange(r)
    ensures var e := EntryOf(r).second;
            e / 0x2000 == r.filenum && e / 2 % 0x1000 == r.procnum && (e % 2 == 1 <==> r.isExit)
    ensures (EntryOf(r).first - BASE_TIC) % TWO32 == r.cycle
  {
    var e := EntryOf(r).second;
    assert e / 2 == r.filenum * 0x1000 + r.procnum;
  }

  function Entries(records: seq<Rec>): (s: seq<Entry>)
    ensures |s| == |records|
  {
    seq(|records|, i requires 0 <= i < |records| => EntryOf(records[i]))
  }

  /** The header of block number i: half the entries of the first header are its own. */
  function Header(s: Setup, i: nat, b: Block): (h: seq<Entry>)
    ensures |h| == if i == 0 then 8 else 4
  {
    var common := [
      Entry(i % TWO32, 8), Entry((b.cycle + BASE_TIC) % TWO32, (s.startSec + b.cycle / TICS_PER_SECOND) % TWO32),
      Entry(0, b.pid), ZERO];
    if i == 0 then
      common + [Entry(BASE_TIC + 1, 1), Entry(TICS_PER_SECOND, s.startSec), Entry(5, 16 * 256 + 12), Entry(s.pdate, s.ptime)]
    else common
  }

  /** The entries of a block in use. */
  function Used(i: nat, b: Block): nat {
    (if i == 0 then 8 else 4) + |b.records|
  }

  function Zeros(n: nat): (z: seq<Entry>)
    ensures |z| == n
  {
    seq(n, _ => ZERO)
  }

  /** Every block fits, and holds only records added under its pid. */
  ghost predicate WellFormed(blocks: seq<Block>) {
    forall i :: 0 <= i < |blocks| ==>
      Used(i, blocks[i]) <= ENTRIES_PER_BLOCK &&
      forall k :: 0 <= k < |blocks[i].records| ==> InRange(blocks[i].records[k]) && blocks[i].records[k].pid == blocks[i].pid
  }

  function Body(s: Setup, i: nat, b: Block): (r: seq<Entry>)
    ensures |r| == Used(i, b)
  {
    Header(s, i, b) + Entries(b.records)
  }

  /** A block filled up with zeros. */
  function Padded(s: Setup, i: nat, b: Block): (r: seq<Entry>)
    requires Used(i, b) <= ENTRIES_PER_BLOCK
    ensures |r| == ENTRIES_PER_BLOCK
  {
    Body(s, i, b) + Zeros(ENTRIES_PER_BLOCK - Used(i, b))
  }

  /** Complete blocks, one after the other. */
  function Sealed(s: Setup, blocks: seq<Block>): (f: seq<Entry>)
    requires WellFormed(blocks)
    ensures |f| == ENTRIES_PER_BLOCK * |blocks|
  {
    if blocks == [] then []
    else
      var n := |blocks| - 1;
      assert WellFormed(blocks[..n]);
      Sealed(s, blocks[..n]) + Padded(s, n, blocks[n])
  }

  /** The file while its last block is still open. */
  function Image(s: Setup, blocks: seq<Block>): (f: seq<Entry>)
    requires WellFormed(blocks) && blocks != []
  {
    var n := |blocks| - 1;
    assert WellFormed(blocks[..n]);
    Sealed(s, blocks[..n]) + Body(s, n, blocks[n])
  }

  function Recorded(blocks: seq<Block>): seq<Rec> {
    if blocks == [] then [] else Recorded(blocks[..|blocks| - 1]) + blocks[|blocks| - 1].records
  }

  function StartOf(i: nat): nat { ENTRIES_PER_BLOCK * i }

  lemma {:induction false} LastBlock(s: Setup, blocks: seq<Block>, n: nat)
    requires WellFormed(blocks) && |blocks| == n + 1
    ensures Sealed(s, blocks)[StartOf(n)..StartOf(n) + Used(n, blocks[n])] == Body(s, n, blocks[n])
  {
    assert WellFormed(blocks[..n]);
    SliceSuffix(Sealed(s, blocks[..n]), Body(s, n, blocks[n]), Zeros(ENTRIES_PER_BLOCK - Used(n, blocks[n])));
  }

  /** A further block leaves the part of the file before it alone. */
  lemma {:induction false} EarlierBlock(s: Setup, blocks: seq<Block>, n: nat, lo: nat, hi: nat)
    requires WellFormed(blocks) && |blocks| == n + 1 && WellFormed(blocks[..n]) && lo <= hi <= StartOf(n)
    ensures Sealed(s, blocks)[lo..hi] == Sealed(s, blocks[..n])[lo..hi]
  {
    SlicePrefix(Sealed(s, blocks[..n]), Padded(s, n, blocks[n]), lo, hi);
  }

  /** Block i of a closed file starts at entry 1024 i, with the header numbered i and the block's records behind it. */
  lemma {:induction false} BlockAt(s: Setup, blocks: seq<Block>, i: nat)
    requires WellFormed(blocks) && i < |blocks|
    ensures Sealed(s, blocks)[StartOf(i)..StartOf(i) + Used(i, blocks[i])] == Body(s, i, blocks[i])
  {
    var n := |blocks| - 1;
    if i < n {
      var front := blocks[..n];
      assert WellFormed(front) && front[i] == blocks[i];
      BlockAt(s, front, i);
      EarlierBlock(s, blocks, n, StartOf(i), StartOf(i) + Used(i, blocks[i]));
    } else {
      LastBlock(s, blocks, i);
    }
  }

  lemma SlicePrefix<T>(a: seq<T>, b: seq<T>, lo: nat, hi: nat)
    requires lo <= hi <= |a|
    ensures (a + b)[lo..hi] == a[lo..hi]
  {}

  lemma SliceSuffix<T>(a: seq<T>, b: seq<T>, c: seq<T>)
    ensures (a + (b + c))[|a|..|a| + |b|] == b
  {}

  /** The blocks with one more record in the last. */
  ghost function WithRecord(blocks: seq<Block>, r: Rec): seq<Block>
    requires blocks != []
  {
    var n := |blocks| - 1;
    blocks[n := blocks[n].(records := blocks[n].records + [r])]
  }

  lemma {:induction false} RecordAppended(s: Setup, blocks: seq<Block>, r: Rec)
    requires WellFormed(blocks) && blocks != [] && InRange(r) && r.pid == blocks[|blocks| - 1].pid
    requires Used(|blocks| - 1, blocks[|blocks| - 1]) < ENTRIES_PER_BLOCK
    ensures var after := WithRecord(blocks, r);
            WellFormed(after) && Image(s, after) == Image(s, blocks) + [EntryOf(r)] && Recorded(after) == Recorded(blocks) + [r]
  {
    var n, after := |blocks| - 1, WithRecord(blocks, r);
    assert after[..n] == blocks[..n] && WellFormed(blocks[..n]);
    assert Entries(after[n].records) == Entries(blocks[n].records) + [EntryOf(r)];
    Associative(Header(s, n, blocks[n]), Entries(blocks[n].records), [EntryOf(r)]);
    Associative(Sealed(s, blocks[..n]), Body(s, n, blocks[n]), [EntryOf(r)]);
    Associative(Recorded(blocks[..n]), blocks[n].records, [r]);
  }

  lemma {:induction false} FullIsSealed(s: Setup, blocks: seq<Block>)
    requires WellFormed(blocks) && blocks != [] && Used(|blocks| - 1, blocks[|blocks| - 1]) == ENTRIES_PER_BLOCK
    ensures Image(s, blocks) == Sealed(s, blocks)
  {}

  lemma {:induction false} PaddedIsSealed(s: Setup, blocks: seq<Block>)
    requires WellFormed(blocks) && blocks != []
    ensures var u := Used(|blocks| - 1, blocks[|blocks| - 1]);
            Image(s, blocks) + Zeros(ENTRIES_PER_BLOCK - u) == Sealed(s, blocks) &&
            |Image(s, blocks)| == ENTRIES_PER_BLOCK * (|blocks| - 1) + u
  {
    var n := |blocks| - 1;
    assert WellFormed(blocks[..n]);
    Associative(Sealed(s, blocks[..n]), Body(s, n, blocks[n]), Zeros(ENTRIES_PER_BLOCK - Used(n, blocks[n])));
  }

  lemma RoundUp(k: nat, u: nat)
    requires 0 < u <= ENTRIES_PER_BLOCK
    ensures (ENTRIES_PER_BLOCK * k + u + (ENTRIES_PER_BLOCK - 1)) / ENTRIES_PER_BLOCK == k + 1
  {}

  class Gtrace {
    const setup: Setup
    var file: seq<Entry>
    var numEntries: nat
    var blockno: nat
    var currentPid: uint32
    ghost var blocks: seq<Block>
    ghost var added: seq<Rec>       // every record added, in order

    ghost predicate Valid()
      reads this
    {
      WellFormed(blocks) && blocks != [] && file == Image(setup, blocks) && blockno == |blocks| &&
      numEntries == Used(|blocks| - 1, blocks[|blocks| - 1]) && currentPid == blocks[|blocks| - 1].pid &&
      added == Recorded(blocks)
    }

    /** Open and WriteFirstHeader */
    constructor (setup: Setup, pid: uint32)
      ensures Valid() && added == [] && this.setup == setup && blocks == [Block(pid, 0, [])]
    {
      this.setup := setup;
      currentPid, numEntries, blockno := pid, 8, 1;
      file := Header(setup, 0, Block(pid, 0, []));
      blocks, added := [Block(pid, 0, [])], [];
    }

    /** A new block behind one that is full. */
    method WriteBlockHeader(cycle: uint32, pid: uint32)
      requires WellFormed(blocks) && blocks != [] && file == Sealed(setup, blocks) && blockno == |blocks|
      requires added == Recorded(blocks)
      modifies `file, `blockno, `blocks, `numEntries, `currentPid
      ensures Valid() && currentPid == pid && numEntries == 4 && blocks == old(blocks) + [Block(pid, cycle, [])]
    {
      var b := Block(pid, cycle, []);
      assert (blocks + [b])[..|blocks|] == blocks;
      file := file + Header(setup, blockno, b);
      blockno, numEntries, currentPid := blockno + 1, 4, pid;
      blocks := blocks + [b];
    }

    /** AddGtraceRecord: a new block for a new process or when the last is full, then the record. */
    method AddGtraceRecord(r: Rec)
      requires Valid() && InRange(r)
      modifies this
      ensures Valid() && added == old(added) + [r] && currentPid == r.pid
    {
      if currentPid != r.pid {
        PadLast();
        WriteBlockHeader(r.cycle, r.pid);
      } else if numEntries == ENTRIES_PER_BLOCK {
        FullIsSealed(setup, blocks);
        WriteBlockHeader(r.cycle, r.pid);
      }
      Append(r);
    }

    /** Fills the last block with zeros, of which a full block needs none. */
    method PadLast()
      requires Valid()
      modifies `file
      ensures file == Sealed(setup, blocks)
    {
      PaddedIsSealed(setup, blocks);
      file := file + Zeros(ENTRIES_PER_BLOCK - numEntries);
    }

    method Append(r: Rec)
      requires Valid() && InRange(r) && numEntries < ENTRIES_PER_BLOCK && r.pid == currentPid
      modifies `file, `numEntries, `blocks, `added
      ensures Valid() && added == old(added) + [r]
    {
      RecordAppended(setup, blocks, r);
      file := file + [EntryOf(r)];
      numEntries := numEntries + 1;
      blocks, added := WithRecord(blocks, r), added + [r];
    }

    /** The destructor extends the file to whole blocks; what it adds reads as zeros. */
    method Close()
      requires Valid()
      modifies `file
      ensures file == Sealed(setup, blocks) && |file| % ENTRIES_PER_BLOCK == 0
    {
      PaddedIsSealed(setup, blocks);
      RoundUp(|blocks| - 1, numEntries);
      var pos := |file|;
      var posEnd := (pos + (ENTRIES_PER_BLOCK - 1)) / ENTRIES_PER_BLOCK * ENTRIES_PER_BLOCK;
      file := file + Zeros(posEnd - pos);
    }
  }
}
