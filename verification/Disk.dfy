/** The block-device cursor: byte-granular reads and writes through whole-block transfers. */
module Disk {
  import opened ByteSeqs
  import opened Wrappers

  const BLOCK_SIZE: nat := 512

  type Block = b: seq<Byte> | |b| == BLOCK_SIZE witness seq(512, _ => 0)

  // ---------- the device as one byte array ----------

  function Flat(blocks: seq<Block>): (f: seq<Byte>)
    ensures |f| == BLOCK_SIZE * |blocks|
  {
    if blocks == [] then [] else blocks[0] + Flat(blocks[1..])
  }

  lemma TailSlice(a: seq<Byte>, r: seq<Byte>, at: nat, n: nat)
    requires |a| <= at && at + n <= |a| + |r|
    ensures (a + r)[at..at + n] == r[at - |a|..at - |a| + n]
  {
  }

  lemma {:induction false} FlatBlock(blocks: seq<Block>, b: nat, at: nat)
    requires b < |blocks| && at == BLOCK_SIZE * b
    ensures at + BLOCK_SIZE <= |Flat(blocks)| && Flat(blocks)[at..at + BLOCK_SIZE] == blocks[b]
    decreases b
  {
    var first: seq<Byte>, rest := blocks[0], Flat(blocks[1..]);
    assert Flat(blocks) == first + rest;
    hide Flat;
    if b == 0 {
      assert (first + rest)[..BLOCK_SIZE] == first;
    } else {
      FlatBlock(blocks[1..], b - 1, at - BLOCK_SIZE);
      TailSlice(first, rest, at, BLOCK_SIZE);
    }
  }

  /** Bytes inside one block are bytes of the flat array. */
  lemma FlatSlice(blocks: seq<Block>, b: nat, at: nat, lo: nat, hi: nat)
    requires b < |blocks| && at == BLOCK_SIZE * b && lo <= hi <= BLOCK_SIZE
    ensures at + hi <= |Flat(blocks)| && Flat(blocks)[at + lo..at + hi] == blocks[b][lo..hi]
  {
    hide Flat;
    FlatBlock(blocks, b, at);
    var f, blk := Flat(blocks), blocks[b];
    forall k | 0 <= k < hi - lo ensures f[at + lo..at + hi][k] == blk[lo..hi][k] {
      assert blk[lo + k] == f[at..at + BLOCK_SIZE][lo + k];
    }
  }

  lemma {:induction false} FlatReplace(blocks: seq<Block>, b: nat, blk: Block)
    requires b < |blocks|
    ensures Flat(blocks[b := blk]) == Overlay(Flat(blocks), BLOCK_SIZE * b, blk)
    decreases b
  {
    if b == 0 {
      assert blocks[0 := blk][1..] == blocks[1..];
    } else {
      FlatReplace(blocks[1..], b - 1, blk);
      assert blocks[b := blk][1..] == blocks[1..][b - 1 := blk];
    }
  }

  lemma PatchInside(f: seq<Byte>, at: nat, blk: seq<Byte>, start: nat, bs: seq<Byte>)
    requires at + |blk| <= |f| && f[at..at + |blk|] == blk && start + |bs| <= |blk|
    ensures Overlay(f, at, Overlay(blk, start, bs)) == Overlay(f, at + start, bs)
  {
    var l, r := Overlay(f, at, Overlay(blk, start, bs)), Overlay(f, at + start, bs);
    forall k | 0 <= k < |f| ensures l[k] == r[k] {
      if at <= k < at + |blk| {
        assert f[k] == f[at..at + |blk|][k - at];
      }
    }
  }

  /** Writing back a block with some of its bytes replaced replaces those bytes alone. */
  lemma FlatPatch(blocks: seq<Block>, b: nat, start: nat, bs: seq<Byte>)
    requires b < |blocks| && start + |bs| <= BLOCK_SIZE
    ensures Flat(blocks[b := Overlay(blocks[b], start, bs)]) == Overlay(Flat(blocks), BLOCK_SIZE * b + start, bs)
  {
    hide Flat, Overlay;
    FlatReplace(blocks, b, Overlay(blocks[b], start, bs));
    FlatBlock(blocks, b, BLOCK_SIZE * b);
    PatchInside(Flat(blocks), BLOCK_SIZE * b, blocks[b], start, bs);
  }

  // ---------- the device and its cursor ----------

  class BlockDevice {
    var blocks: seq<Block>

    constructor (blocks: seq<Block>)
      ensures this.blocks == blocks
    {
      this.blocks := blocks;
    }

    method ReadBlock(id: nat) returns (data: Block)
      requires id < |blocks|
      ensures data == blocks[id]
    {
      data := blocks[id];
    }

    method WriteBlock(id: nat, data: Block)
      requires id < |blocks|
      modifies this
      ensures blocks == old(blocks)[id := data]
    {
      blocks := blocks[id := data];
    }
  }

  function Min(a: nat, b: nat): nat {
    if a <= b then a else b
  }

  class Cursor {
    var blockId: nat
    var offset: nat
    const dev: BlockDevice

    constructor (dev: BlockDevice)
      ensures Valid() && this.dev == dev && Pos() == 0
    {
      this.dev, blockId, offset := dev, 0, 0;
    }

    ghost predicate Valid()
      reads this
    {
      offset < BLOCK_SIZE
    }

    ghost function Pos(): nat
      reads this
    {
      BLOCK_SIZE * blockId + offset
    }

    ghost function Contents(): seq<Byte>
      reads this, dev
    {
      Flat(dev.blocks)
    }

    method Position() returns (pos: nat)
      ensures pos == Pos()
    {
      pos := blockId * BLOCK_SIZE + offset;
    }

    method SetPosition(pos: nat)
      modifies this
      ensures Valid() && Pos() == pos
    {
      blockId := pos / BLOCK_SIZE;
      offset := pos % BLOCK_SIZE;
    }

    /** Moves n bytes on inside the current block, into the next one at its end. */
    method Advance(n: nat)
      requires Valid() && offset + n <= BLOCK_SIZE
      modifies this
      ensures Valid() && Pos() == old(Pos()) + n
    {
      offset := offset + n;
      if offset >= BLOCK_SIZE {
        blockId := blockId + 1;
        offset := offset - BLOCK_SIZE;
      }
    }

    /** Reads up to the end of the block into buf from `start` on. */
    method ReadOne(buf: array<Byte>, start: nat) returns (r: Result<nat, int>)
      requires Valid() && start <= buf.Length && blockId < |dev.blocks|
      modifies this, buf
      ensures Valid() && r == Ok(Min(buf.Length - start, BLOCK_SIZE - old(offset)))
      ensures Pos() == old(Pos()) + r.value <= |Contents()|
      ensures buf[..] == Overlay(old(buf[..]), start, Contents()[old(Pos())..old(Pos()) + r.value])
    {
      hide Flat, Overlay;
      if offset == 0 && buf.Length - start >= BLOCK_SIZE {
        FlatSlice(dev.blocks, blockId, BLOCK_SIZE * blockId, 0, BLOCK_SIZE);
        var data := dev.ReadBlock(blockId);
        assert data[0..BLOCK_SIZE] == data;
        CopyFromSlice(buf, start, data);
        blockId := blockId + 1;
        return Ok(BLOCK_SIZE);
      } else {
        var count := Min(buf.Length - start, BLOCK_SIZE - offset);
        FlatSlice(dev.blocks, blockId, BLOCK_SIZE * blockId, offset, offset + count);
        var data := dev.ReadBlock(blockId);
        CopyFromSlice(buf, start, data[offset..offset + count]);
        Advance(count);
        return Ok(count);
      }
    }

    /** Writes up to the end of the block: a whole block outright, part of one by reading,
        patching and writing back. */
    method WriteOne(buf: seq<Byte>) returns (r: Result<nat, int>)
      requires Valid() && blockId < |dev.blocks|
      modifies this, dev
      ensures Valid() && r == Ok(Min(|buf|, BLOCK_SIZE - old(offset)))
      ensures Pos() == old(Pos()) + r.value <= |Contents()| == |old(Contents())|
      ensures Contents() == Overlay(old(Contents()), old(Pos()), buf[..r.value])
    {
      hide Flat, Overlay;
      if offset == 0 && |buf| >= BLOCK_SIZE {
        FlatReplace(dev.blocks, blockId, buf[..BLOCK_SIZE]);
        dev.WriteBlock(blockId, buf[..BLOCK_SIZE]);
        blockId := blockId + 1;
        return Ok(BLOCK_SIZE);
      } else {
        var count := Min(|buf|, BLOCK_SIZE - offset);
        FlatPatch(dev.blocks, blockId, offset, buf[..count]);
        var data := dev.ReadBlock(blockId);
        dev.WriteBlock(blockId, Overlay(data, offset, buf[..count]));
        Advance(count);
        return Ok(count);
      }
    }

    /** Fills buf with the bytes from the cursor on. */
    method Read(buf: array<Byte>) returns (r: Result<nat, int>)
      requires Valid() && Pos() + buf.Length <= |Contents()|
      modifies this, buf
      ensures Valid() && r == Ok(buf.Length) && Pos() == old(Pos()) + buf.Length
      ensures buf[..] == Contents()[old(Pos())..old(Pos()) + buf.Length]
    {
      hide Flat;
      var done := 0;
      while done < buf.Length
        invariant Valid() && done <= buf.Length && Pos() == old(Pos()) + done
        invariant buf[..done] == Contents()[old(Pos())..old(Pos()) + done]
      {
        ghost var was, from := buf[..], Pos();
        var one := ReadOne(buf, done);
        JoinSlices(was, buf[..], Contents(), done, from, one.value);
        done := done + one.value;
      }
      return Ok(done);
    }

    /** Replaces the bytes from the cursor on by buf. */
    method Write(buf: seq<Byte>) returns (r: Result<nat, int>)
      requires Valid() && Pos() + |buf| <= |Contents()|
      modifies this, dev
      ensures Valid() && r == Ok(|buf|) && Pos() == old(Pos()) + |buf| <= |old(Contents())|
      ensures Contents() == Overlay(old(Contents()), old(Pos()), buf)
    {
      var done := 0;
      assert Contents() == Overlay(old(Contents()), old(Pos()), buf[..0]);
      hide Flat, Overlay;
      while done < |buf|
        invariant Valid() && done <= |buf| && Pos() == old(Pos()) + done
        invariant |Contents()| == |old(Contents())|
        invariant Contents() == Overlay(old(Contents()), old(Pos()), buf[..done])
      {
        ghost var was := Contents();
        var one := WriteOne(buf[done..]);
        JoinWrites(old(Contents()), was, Contents(), old(Pos()), buf, done, one.value);
        done := done + one.value;
      }
      assert buf[..|buf|] == buf;
      return Ok(done);
    }
  }

  lemma JoinWrites(f0: seq<Byte>, f1: seq<Byte>, f2: seq<Byte>, pos: nat, buf: seq<Byte>, done: nat, n: nat)
    requires done + n <= |buf| && pos + |buf| <= |f0|
    requires f1 == Overlay(f0, pos, buf[..done]) && f2 == Overlay(f1, pos + done, buf[done..][..n])
    ensures f2 == Overlay(f0, pos, buf[..done + n])
  {
    hide Overlay;
    OverlayTwice(f0, pos, buf[..done], buf[done..][..n]);
    assert buf[..done] + buf[done..][..n] == buf[..done + n];
  }

  lemma JoinSlices(was: seq<Byte>, now: seq<Byte>, f: seq<Byte>, done: nat, from: nat, n: nat)
    requires done + n <= |was| && done <= from && from + n <= |f|
    requires was[..done] == f[from - done..from] && now == Overlay(was, done, f[from..from + n])
    ensures now[..done + n] == f[from - done..from + n]
  {
  }
}
