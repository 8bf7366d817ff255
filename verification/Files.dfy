/**
 The bytes of a file under Seek and Write, and what a set of block writes at
 fixed distances leaves behind, whatever the order they were made in.
 */
module Files {
  import opened Prelude

  // The first n bytes, with zeros for those that do not exist.
  function Head(f: Bytes, n: nat): Bytes {
    seq(n, i requires 0 <= i < n => if i < |f| then f[i] else 0)
  }

  // What is left after the first n bytes.
  function Tail(f: Bytes, n: nat): Bytes {
    seq(if n < |f| then |f| - n else 0, i requires 0 <= i < |f| - n => f[n + i])
  }

  // A write past the end fills the gap with zeros; an empty write changes nothing.
  function WriteAt(f: Bytes, off: nat, data: Bytes): Bytes {
    if data == [] then f else Head(f, off) + data + Tail(f, off + |data|)
  }

  // data, and what f had beyond it.
  function Over(f: Bytes, data: Bytes): Bytes {
    data + Tail(f, |data|)
  }

  // Where block i begins.
  function Offset(i: nat, blockSize: nat): nat {
    if i == 0 then 0 else Offset(i - 1, blockSize) + blockSize
  }

  // The first n blocks written one after the other.
  function Written(f: Bytes, blockSize: nat, blocks: seq<Bytes>, n: nat): Bytes
    requires n <= |blocks|
  {
    if n == 0 then f
    else WriteAt(Written(f, blockSize, blocks, n - 1), Offset(n - 1, blockSize), blocks[n - 1])
  }

  function InOrder(f: Bytes, blockSize: nat, blocks: seq<Bytes>): Bytes {
    Written(f, blockSize, blocks, |blocks|)
  }

  function Joined(blocks: seq<Bytes>, n: nat): Bytes
    requires n <= |blocks|
  {
    if n == 0 then [] else Joined(blocks, n - 1) + blocks[n - 1]
  }

  function Concat(blocks: seq<Bytes>): Bytes {
    Joined(blocks, |blocks|)
  }

  /******* Any order *******/

  // Position p belongs to block i.
  ghost predicate Covers(blockSize: nat, got: map<nat, Bytes>, i: nat, p: nat) {
    i in got && Offset(i, blockSize) <= p < Offset(i, blockSize) + |got[i]|
  }

  ghost predicate Uncovered(blockSize: nat, got: map<nat, Bytes>, p: nat) {
    forall i :: !Covers(blockSize, got, i, p)
  }

  ghost predicate HoldsAt(f: Bytes, off: nat, data: Bytes) {
    data != [] ==> off + |data| <= |f| && forall p :: 0 <= p < |data| ==> f[off + p] == data[p]
  }

  ghost predicate HoldsAll(f: Bytes, blockSize: nat, got: map<nat, Bytes>) {
    forall i :: i in got ==> HoldsAt(f, Offset(i, blockSize), got[i])
  }

  // Some block of got ends where the file ends.
  ghost predicate EndsWith(f: Bytes, blockSize: nat, got: map<nat, Bytes>, i: nat) {
    i in got && got[i] != [] && |f| == Offset(i, blockSize) + |got[i]|
  }

  // after is before with exactly the blocks of got written into it.
  ghost predicate Painted(before: Bytes, after: Bytes, blockSize: nat, got: map<nat, Bytes>) {
    && |before| <= |after|
    && HoldsAll(after, blockSize, got)
    && (forall p: nat :: p < |after| && Uncovered(blockSize, got, p) ==>
          after[p] == if p < |before| then before[p] else 0)
    && (|after| == |before| || exists i :: EndsWith(after, blockSize, got, i))
  }

  ghost predicate AllFit(blockSize: nat, got: map<nat, Bytes>) {
    forall i :: i in got ==> |got[i]| <= blockSize
  }

  lemma {:induction false} Apart(blockSize: nat, i: nat, j: nat)
    requires i < j
    ensures Offset(i, blockSize) + blockSize <= Offset(j, blockSize)
  {
    if i + 1 < j {
      Apart(blockSize, i, j - 1);
    }
  }

  lemma WriteKeepsOthers(f: Bytes, off: nat, data: Bytes, at: nat, other: Bytes)
    requires at + |other| <= off || off + |data| <= at
    requires HoldsAt(f, at, other)
    ensures HoldsAt(WriteAt(f, off, data), at, other)
  {
  }

  lemma WriteIsHeld(f: Bytes, off: nat, data: Bytes)
    ensures HoldsAt(WriteAt(f, off, data), off, data)
  {
  }

  lemma HoldOneMore(f: Bytes, blockSize: nat, got: map<nat, Bytes>, i: nat, data: Bytes)
    requires HoldsAll(f, blockSize, got) && AllFit(blockSize, got) && i !in got && |data| <= blockSize
    ensures HoldsAll(WriteAt(f, Offset(i, blockSize), data), blockSize, got[i := data])
  {
    forall j | j in got[i := data]
      ensures HoldsAt(WriteAt(f, Offset(i, blockSize), data), Offset(j, blockSize), got[i := data][j])
    {
      if j == i {
        WriteIsHeld(f, Offset(i, blockSize), data);
      } else {
        if i < j { Apart(blockSize, i, j); } else { Apart(blockSize, j, i); }
        WriteKeepsOthers(f, Offset(i, blockSize), data, Offset(j, blockSize), got[j]);
      }
    }
  }

  lemma PaintOneMore(before: Bytes, f: Bytes, blockSize: nat, got: map<nat, Bytes>, i: nat, data: Bytes)
    requires Painted(before, f, blockSize, got) && AllFit(blockSize, got)
    requires i !in got && |data| <= blockSize
    ensures Painted(before, WriteAt(f, Offset(i, blockSize), data), blockSize, got[i := data])
  {
    var g, more := WriteAt(f, Offset(i, blockSize), data), got[i := data];
    HoldOneMore(f, blockSize, got, i, data);
    forall p: nat | p < |g| && Uncovered(blockSize, more, p)
      ensures g[p] == if p < |before| then before[p] else 0
    {
      assert !Covers(blockSize, more, i, p);
      forall j ensures !Covers(blockSize, got, j, p) {
        assert !Covers(blockSize, more, j, p);
      }
    }
    if |g| != |f| {
      assert EndsWith(g, blockSize, more, i);
    } else if |f| != |before| {
      var j :| EndsWith(f, blockSize, got, j);
      assert EndsWith(g, blockSize, more, j);
    }
  }

  // The blocks written decide the file.
  lemma PaintedIsUnique(before: Bytes, a: Bytes, b: Bytes, blockSize: nat, got: map<nat, Bytes>)
    requires Painted(before, a, blockSize, got) && Painted(before, b, blockSize, got)
    ensures a == b
  {
    PaintedNotLonger(before, a, b, blockSize, got);
    PaintedNotLonger(before, b, a, blockSize, got);
    forall p: nat | p < |a| ensures a[p] == b[p] {
      if i :| Covers(blockSize, got, i, p) {
        var s := Offset(i, blockSize);
        assert HoldsAt(a, s, got[i]) && HoldsAt(b, s, got[i]);
        assert a[s + (p - s)] == got[i][p - s] == b[s + (p - s)];
      }
    }
  }

  lemma PaintedNotLonger(before: Bytes, a: Bytes, b: Bytes, blockSize: nat, got: map<nat, Bytes>)
    requires Painted(before, a, blockSize, got) && Painted(before, b, blockSize, got)
    ensures |a| <= |b|
  {
    if |a| != |before| {
      var i :| EndsWith(a, blockSize, got, i);
      assert HoldsAt(b, Offset(i, blockSize), got[i]);
    }
  }

  function AsMap(blocks: seq<Bytes>): map<nat, Bytes> {
    FirstAsMap(blocks, |blocks|)
  }

  function FirstAsMap(blocks: seq<Bytes>, n: nat): (m: map<nat, Bytes>)
    requires n <= |blocks|
    ensures forall i: nat :: i in m <==> i < n
    ensures forall i: nat :: i < n ==> m[i] == blocks[i]
  {
    if n == 0 then map[] else FirstAsMap(blocks, n - 1)[n - 1 := blocks[n - 1]]
  }

  // One block more, as a step from one file and one set of blocks to the next.
  lemma PaintNext(before: Bytes, f: Bytes, g: Bytes, blockSize: nat, got: map<nat, Bytes>, more: map<nat, Bytes>,
          i: nat, data: Bytes)
    requires Painted(before, f, blockSize, got) && AllFit(blockSize, got) && i !in got && |data| <= blockSize
    requires g == WriteAt(f, Offset(i, blockSize), data) && more == got[i := data]
    ensures Painted(before, g, blockSize, more)
  {
    PaintOneMore(before, f, blockSize, got, i, data);
  }

  lemma NothingPainted(before: Bytes, blockSize: nat)
    ensures Painted(before, before, blockSize, map[])
  {}

  lemma {:induction false} WrittenPaints(before: Bytes, blockSize: nat, blocks: seq<Bytes>, n: nat)
    requires n <= |blocks| && forall i :: 0 <= i < |blocks| ==> |blocks[i]| <= blockSize
    ensures Painted(before, Written(before, blockSize, blocks, n), blockSize, FirstAsMap(blocks, n))
  {
    if n == 0 {
      NothingPainted(before, blockSize);
    } else {
      WrittenPaints(before, blockSize, blocks, n - 1);
      PaintNext(before, Written(before, blockSize, blocks, n - 1), Written(before, blockSize, blocks, n), blockSize,
        FirstAsMap(blocks, n - 1), FirstAsMap(blocks, n), n - 1, blocks[n - 1]);
    }
  }

  // Writing in any order is writing in order.
  lemma AnyOrderIsInOrder(before: Bytes, after: Bytes, blockSize: nat, blocks: seq<Bytes>)
    requires forall i :: 0 <= i < |blocks| ==> |blocks[i]| <= blockSize
    requires Painted(before, after, blockSize, AsMap(blocks))
    ensures after == InOrder(before, blockSize, blocks)
  {
    WrittenPaints(before, blockSize, blocks, |blocks|);
    PaintedIsUnique(before, after, Written(before, blockSize, blocks, |blocks|), blockSize, AsMap(blocks));
  }

  /******* Full blocks *******/

  // Every block but the last is full.
  ghost predicate FullBlocks(blockSize: nat, blocks: seq<Bytes>) {
    && (forall i :: 0 <= i < |blocks| - 1 ==> |blocks[i]| == blockSize)
    && (blocks != [] ==> |blocks[|blocks| - 1]| <= blockSize)
  }

  lemma WriteAfterPrefix(before: Bytes, done: Bytes, last: Bytes)
    ensures WriteAt(Over(before, done), |done|, last) == Over(before, done + last)
  {
    var g, h := WriteAt(Over(before, done), |done|, last), Over(before, done + last);
    assert |g| == |h|;
    forall p | 0 <= p < |g| ensures g[p] == h[p] {}
  }

  lemma {:induction false} JoinedSize(blockSize: nat, blocks: seq<Bytes>, n: nat)
    requires n <= |blocks| && forall i :: 0 <= i < n ==> |blocks[i]| == blockSize
    ensures |Joined(blocks, n)| == Offset(n, blockSize)
  {
    if n > 0 {
      JoinedSize(blockSize, blocks, n - 1);
    }
  }

  lemma OverNothing(before: Bytes)
    ensures Over(before, []) == before
  {
    assert Tail(before, 0) == before;
  }

  lemma WriteNext(before: Bytes, blockSize: nat, blocks: seq<Bytes>, n: nat, f: Bytes)
    requires n < |blocks| && FullBlocks(blockSize, blocks) && f == Over(before, Joined(blocks, n))
    ensures WriteAt(f, Offset(n, blockSize), blocks[n]) == Over(before, Joined(blocks, n + 1))
  {
    JoinedSize(blockSize, blocks, n);
    WriteAfterPrefix(before, Joined(blocks, n), blocks[n]);
  }

  lemma {:induction false} WrittenJoins(before: Bytes, blockSize: nat, blocks: seq<Bytes>, n: nat)
    requires n <= |blocks| && FullBlocks(blockSize, blocks)
    ensures Written(before, blockSize, blocks, n) == Over(before, Joined(blocks, n))
  {
    if n == 0 {
      OverNothing(before);
    } else {
      WrittenJoins(before, blockSize, blocks, n - 1);
      WriteNext(before, blockSize, blocks, n - 1, Written(before, blockSize, blocks, n - 1));
    }
  }

  lemma FullBlocksConcat(before: Bytes, blockSize: nat, blocks: seq<Bytes>)
    requires FullBlocks(blockSize, blocks)
    ensures InOrder(before, blockSize, blocks) == Over(before, Concat(blocks))
    ensures blocks != [] ==>
              |Concat(blocks)| == Offset(|blocks| - 1, blockSize) + |blocks[|blocks| - 1]|
  {
    WrittenJoins(before, blockSize, blocks, |blocks|);
    if blocks != [] {
      JoinedSize(blockSize, blocks, |blocks| - 1);
    }
  }

  /******* An open file *******/

  class Inode {
    var bytes: Bytes

    constructor (bytes: Bytes)
      ensures this.bytes == bytes
    {
      this.bytes := bytes;
    }
  }

  class File {
    const inode: Inode
    var pos: nat
    ghost var faults: nat

    constructor (inode: Inode)
      ensures this.inode == inode && pos == 0 && faults == 0
    {
      this.inode := inode;
      pos, faults := 0, 0;
    }

    // A seek fails, on record, or sets the position; to a negative offset it fails.
    method Seek(off: int) returns (ok: bool)
      modifies `pos, `faults
      ensures off < 0 ==> !ok
      ensures if ok then pos == off && faults == old(faults) else pos == old(pos) && faults == old(faults) + 1
    {
      var broken: bool := *;
      ok := !broken && off >= 0;
      if ok {
        pos := off;
      } else {
        faults := faults + 1;
      }
    }

    // A failed write, on record, may have stored a first part of the data.
    method Write(data: Bytes) returns (n: nat)
      modifies `pos, `faults, inode
      ensures n <= |data| && pos == old(pos) + n
      ensures inode.bytes == WriteAt(old(inode.bytes), old(pos), data[..n])
      ensures faults == old(faults) + if n == |data| then 0 else 1
    {
      var k: int := *;
      n := if 0 <= k < |data| then k else |data|;
      inode.bytes := WriteAt(inode.bytes, pos, data[..n]);
      pos := pos + n;
      faults := faults + if n == |data| then 0 else 1;
    }
  }
}
