/** Appending records to a log (LevelDB db/log_writer.cc). */
module LogWriter {
  import opened DbFormat
  import opened LogFormat

  class Writer {
    const crc: Checksum
    var dest: Bytes
    var blockOffset: nat
    ghost var block: nat
    ghost var frames: seq<Frame>

    /** The writer stands in a block at `blockOffset`, and the next frame belongs there. */
    ghost predicate InStep()
      reads this
    {
      && Written(crc, dest, frames) && blockOffset <= BLOCK_SIZE
      && |dest| == block * BLOCK_SIZE + blockOffset
    }

    ghost predicate Valid()
      reads this
    {
      InStep() && |dest| == EndOf(frames)
    }

    ghost predicate Ready()
      reads this
    {
      InStep() && blockOffset + HEADER_SIZE <= BLOCK_SIZE && NextPlace(frames, |frames|) == (block, blockOffset)
    }

    constructor (crc: Checksum)
      ensures Valid() && frames == [] && dest == [] && this.crc == crc
    {
      this.crc, dest, blockOffset, block, frames := crc, [], 0, 0, [];
    }

    /** Goes on with a log that already holds `content`. */
    constructor Append(crc: Checksum, content: Bytes, ghost written: seq<Frame>)
      requires Written(crc, content, written) && |content| == EndOf(written)
      ensures Valid() && frames == written && dest == content && this.crc == crc
    {
      this.crc, dest, blockOffset := crc, content, |content| % BLOCK_SIZE;
      block, frames := |content| / BLOCK_SIZE, written;
    }

    /** Leaves a block too full for another header, zeros in its trailer. */
    method SwitchBlock()
      requires Valid()
      modifies `dest, `blockOffset, `block
      ensures Ready() && old(dest) <= dest
      ensures blockOffset == if old(blockOffset) + HEADER_SIZE <= BLOCK_SIZE then old(blockOffset) else 0
    {
      var leftover := BLOCK_SIZE - blockOffset;
      if leftover < HEADER_SIZE {
        if leftover > 0 {
          PadIsWritten(crc, dest, frames, leftover);
          dest := dest + seq(leftover, _ => 0);
        }
        blockOffset, block := 0, block + 1;
      }
    }

    method EmitPhysicalRecord(t: RecordType, payload: Bytes)
      requires Ready() && blockOffset + HEADER_SIZE + |payload| <= BLOCK_SIZE
      modifies this
      ensures Valid() && old(dest) <= dest
      ensures frames == old(frames) + [Frame(t, payload, old(block), old(blockOffset))]
      ensures blockOffset == old(blockOffset) + HEADER_SIZE + |payload| && block == old(block)
    {
      ghost var f := Frame(t, payload, block, blockOffset);
      FrameIsWritten(crc, dest, frames, f);
      assert dest + FrameBytes(crc, f) == dest + Header(crc, TypeByte(t), payload) + payload;
      dest := dest + Header(crc, TypeByte(t), payload);
      dest := dest + payload;
      blockOffset := blockOffset + HEADER_SIZE + |payload|;
      frames := frames + [f];
    }

    /** The record goes out as one full frame, or as a first one, middle ones and a last; an empty
        record still goes out as one. */
    method AddRecord(data: Bytes)
      requires Valid()
      modifies this
      ensures Valid() && old(dest) <= dest && old(frames) <= frames
      ensures IsRecord(frames, |old(frames)|, |frames|, data)
    {
      hide Written, NextPlace, EndOf;
      var ptr, left, begin := 0, |data|, true;
      ghost var lo := |frames|;
      while begin || left > 0
        invariant Valid() && old(dest) <= dest && old(frames) <= frames
        invariant 0 <= ptr && 0 <= left && ptr + left == |data| && Joined(frames, lo, |frames|) == data[..ptr]
        invariant begin ==> ptr == 0 && |frames| == lo
        invariant !begin ==> |frames| > lo && (left > 0 ==> blockOffset == BLOCK_SIZE)
        invariant forall i :: lo <= i < |frames| ==> frames[i].kind == KindOf(i == lo, left == 0 && i == |frames| - 1)
        decreases left, begin
      {
        SwitchBlock();
        var avail := BLOCK_SIZE - blockOffset - HEADER_SIZE;
        var fragmentLength := if left < avail then left else avail;
        var end := left == fragmentLength;
        var t := if begin && end then Full else if begin then First else if end then Last else Middle;
        ghost var before := frames;
        EmitPhysicalRecord(t, data[ptr..ptr + fragmentLength]);
        JoinedKept(before, frames, lo, |before|);
        assert data[..ptr + fragmentLength] == data[..ptr] + data[ptr..ptr + fragmentLength];
        ptr, left, begin := ptr + fragmentLength, left - fragmentLength, false;
      }
      assert data[..ptr] == data;
    }
  }

  lemma PadIsWritten(crc: Checksum, bytes: Bytes, frames: seq<Frame>, n: nat)
    requires Written(crc, bytes, frames)
    ensures Written(crc, bytes + seq(n, _ => 0), frames)
  {
    var more := bytes + seq(n, _ => 0);
    forall i | 0 <= i < |frames|
      ensures Holds(crc, more, frames[i])
    {
      FramesEnd(frames, i);
    }
    forall i | 0 < i < |frames|
      ensures ZeroFrom(more, frames[i - 1].End(), frames[i].Start())
    {
      FramesEnd(frames, i);
    }
  }

  lemma FrameIsPlaced(frames: seq<Frame>, f: Frame)
    requires Placed(frames) && f.Fits() && NextPlace(frames, |frames|) == (f.block, f.offset)
    ensures Placed(frames + [f])
  {
    var all := frames + [f];
    forall i | 0 <= i < |all|
      ensures all[i].Fits() && InPlace(all, i)
    {
      if i < |frames| {
        assert InPlace(frames, i);
      }
    }
  }

  lemma StillHolds(crc: Checksum, bytes: Bytes, more: Bytes, f: Frame)
    requires f.Fits() && bytes <= more && f.End() <= |bytes| && Holds(crc, bytes, f)
    ensures Holds(crc, more, f)
  {
    hide FrameBytes;
  }

  lemma NewFrameHolds(crc: Checksum, bytes: Bytes, f: Frame)
    requires f.Fits() && |bytes| == f.Start()
    ensures Holds(crc, bytes + FrameBytes(crc, f), f)
  {
  }

  lemma StillZero(bytes: Bytes, more: Bytes, lo: nat, hi: nat)
    requires bytes <= more && hi <= |bytes| && ZeroFrom(bytes, lo, hi)
    ensures ZeroFrom(more, lo, hi)
  {
  }

  lemma FrameIsWritten(crc: Checksum, bytes: Bytes, frames: seq<Frame>, f: Frame)
    requires Written(crc, bytes, frames)
    requires f.Fits() && NextPlace(frames, |frames|) == (f.block, f.offset) && |bytes| == f.Start()
    ensures Written(crc, bytes + FrameBytes(crc, f), frames + [f])
  {
    hide Placed, Holds, ZeroFrom, FrameBytes, NextPlace;
    var more, all := bytes + FrameBytes(crc, f), frames + [f];
    FrameIsPlaced(frames, f);
    NewFrameHolds(crc, bytes, f);
    forall i | 0 <= i < |frames|
      ensures frames[i].Fits() && frames[i].End() <= |bytes| && Holds(crc, more, frames[i])
    {
      FrameFits(frames, i);
      FramesEnd(frames, i);
      StillHolds(crc, bytes, more, frames[i]);
    }
    forall i | 0 < i < |all|
      ensures ZeroFrom(more, all[i - 1].End(), all[i].Start())
    {
      StillZero(bytes, more, all[i - 1].End(), all[i].Start());
    }
    NothingBehind(more, f.End());
  }

  lemma FrameFits(frames: seq<Frame>, i: nat)
    requires Placed(frames) && i < |frames|
    ensures frames[i].Fits()
  {
  }

  lemma NothingBehind(bytes: Bytes, end: nat)
    requires |bytes| <= end
    ensures ZeroFrom(bytes, end, |bytes|)
  {
  }
}
