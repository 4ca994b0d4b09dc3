/** What LevelDB writes, byte by byte (util/coding.cc, db/write_batch.cc, db/log_format.h). */
module OnDisk {
  import opened DbFormat
  import opened Coding
  import opened Division
  import opened LogFormat
  import opened WriteBatches

  // ---------------------------------------------------------------------------------------------
  // Numbers

  /** The i-th byte of a fixed-width number holds its i-th eight bits. */
  lemma {:induction false} FixedByte(n: nat, w: nat, i: nat)
    requires i < w
    ensures Power(256, i) > 0 && Fixed(n, w)[i] as int == (n / Power(256, i)) % 256
  {
    if i > 0 {
      FixedByte(n / 256, w - 1, i - 1);
      DigitShifts(256, n, i - 1);
    }
  }

  lemma {:induction false} FixedOfDecoded(b: Bytes)
    ensures Fixed(DecodeFixed(b), |b|) == b
  {
    if b != [] {
      FixedOfDecoded(b[1..]);
    }
  }

  /** The i-th byte of a varint holds the i-th seven bits of the number, its high bit says that more follow, and
      there are no more bytes than the number needs. */
  lemma VarintByteOnDisk(v: nat, i: nat)
    requires v < 0x1_0000_0000 && i < |PutVarint32(v)|
    ensures Power(128, i) > 0
    ensures PutVarint32(v)[i] as int == (v / Power(128, i)) % 128 + (if i == |PutVarint32(v)| - 1 then 0 else 128)
    ensures i == |PutVarint32(v)| - 1 ==> v < Power(128, i + 1) && (i > 0 ==> Power(128, i) <= v)
  {
    PowersOf128();
    hide Power;
  }

  lemma PowersOf128()
    ensures Power(128, 0) == 1 && Power(128, 1) == 0x80 && Power(128, 2) == 0x4000 && Power(128, 3) == 0x20_0000
    ensures Power(128, 4) == 0x1000_0000 && Power(128, 5) == 0x8_0000_0000
  {
    assert Power(128, 2) == 128 * Power(128, 1);
    assert Power(128, 3) == 128 * Power(128, 2);
    assert Power(128, 4) == 128 * Power(128, 3);
    assert Power(128, 5) == 128 * Power(128, 4);
  }

  // ---------------------------------------------------------------------------------------------
  // Batches

  /** A batch is its sequence number in eight bytes, its count in four, and its operations. */
  lemma BatchIsLaidOut(rep: Bytes, ops: seq<Op>)
    requires |rep| >= 12 && AllEncodable(ops) && rep[12..] == OpsBytes(ops)
    ensures rep == Fixed(DecodeFixed(rep[..8]), 8) + Fixed(DecodeFixed(rep[8..12]), 4) + OpsBytes(ops)
  {
    FixedOfDecoded(rep[..8]);
    FixedOfDecoded(rep[8..12]);
    assert rep == rep[..8] + rep[8..12] + rep[12..];
  }

  /** "foo" set to "bar", and "box" deleted. */
  lemma OperationsOnDisk()
    ensures var put, delete := Put([102, 111, 111], [98, 97, 114]), Delete([98, 111, 120]);
            AllEncodable([put, delete])
            && OpsBytes([put, delete]) == [1, 3, 102, 111, 111, 3, 98, 97, 114] + [0, 3, 98, 111, 120]
  {
    var put, delete := Put([102, 111, 111], [98, 97, 114]), Delete([98, 111, 120]);
    assert OpBytes(put) == [1, 3, 102, 111, 111, 3, 98, 97, 114];
    assert OpBytes(delete) == [0, 3, 98, 111, 120];
    assert [put, delete][1..] == [delete] && [delete][1..] == [];
    assert OpsBytes([delete]) == OpBytes(delete) + OpsBytes([]);
  }

  // ---------------------------------------------------------------------------------------------
  // Log records

  /** A frame is four bytes of checksum, two of length, low one first, one of type, and the payload; the types
      are 1 for a whole record and 2, 3 and 4 for its first, middle and last part. */
  lemma FrameIsLaidOut(crc: Checksum, f: Frame)
    requires f.Fits()
    ensures var t: byte := match f.kind case Full => 1 case First => 2 case Middle => 3 case Last => 4;
            var c := crc(t, f.payload);
            FrameBytes(crc, f) == [c.0, c.1, c.2, c.3, (|f.payload| % 256) as byte, (|f.payload| / 256) as byte, t]
                                    + f.payload
  {
  }

  /** Frames lie in blocks of 32768 bytes, none in two of them, each right behind the one before unless fewer
      than the seven bytes of a header are left of the block. */
  lemma FramesAreLaidOut(frames: seq<Frame>, i: nat)
    requires Placed(frames) && i < |frames|
    ensures frames[i].End() == frames[i].Start() + 7 + |frames[i].payload|
    ensures frames[i].Start() / 32768 == (frames[i].End() - 1) / 32768
    ensures i == 0 ==> frames[i].Start() == 0
    ensures i > 0 ==>
              var end := frames[i - 1].End();
              frames[i].Start() ==
              if (end + 6) / 32768 == (end - 1) / 32768 then end else ((end - 1) / 32768 + 1) * 32768
  {
    InOneBlock(frames[i].block, frames[i].offset, frames[i].Size());
    assert InPlace(frames, i);
    if i > 0 {
      InOneBlock(frames[i - 1].block, frames[i - 1].offset, frames[i - 1].Size());
    }
  }

  lemma InOneBlock(block: nat, offset: nat, size: nat)
    requires 0 < size && offset + size <= 32768
    ensures (block * 32768 + offset) / 32768 == block == (block * 32768 + offset + size - 1) / 32768
  {
  }
}
