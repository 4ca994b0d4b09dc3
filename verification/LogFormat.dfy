/** The record log's layout: frames in blocks, and records as runs of frames (LevelDB
    db/log_format.h). */
module LogFormat {
  import opened DbFormat

  const BLOCK_SIZE: nat := 32768
  const HEADER_SIZE: nat := 7

  datatype RecordType = Full | First | Middle | Last

  const ZERO_TYPE: byte := 0

  function TypeByte(t: RecordType): byte {
    match t
    case Full => 1
    case First => 2
    case Middle => 3
    case Last => 4
  }

  /** The masked crc32c of a type and a payload, as the four bytes a header stores. */
  type Checksum = (byte, Bytes) -> (byte, byte, byte, byte)

  function Header(crc: Checksum, t: byte, payload: Bytes): (h: Bytes)
    requires |payload| <= 0xffff
    ensures |h| == HEADER_SIZE
  {
    var c := crc(t, payload);
    [c.0, c.1, c.2, c.3, (|payload| % 256) as byte, (|payload| / 256) as byte, t]
  }

  // ---------------------------------------------------------------------------------------------
  // Frames

  /** A physical record, and the place in the log it was written to. */
  datatype Frame = Frame(kind: RecordType, payload: Bytes, block: nat, offset: nat) {
    function Start(): nat {
      block * BLOCK_SIZE + offset
    }

    function Size(): nat {
      HEADER_SIZE + |payload|
    }

    function End(): nat {
      Start() + Size()
    }

    predicate Fits() {
      offset + Size() <= BLOCK_SIZE
    }
  }

  function FrameBytes(crc: Checksum, f: Frame): (b: Bytes)
    requires f.Fits()
    ensures |b| == f.Size()
  {
    Header(crc, TypeByte(f.kind), f.payload) + f.payload
  }

  /** Where the frame after the first `n` goes: right behind, unless no header fits there. */
  ghost function NextPlace(frames: seq<Frame>, n: nat): (nat, nat)
    requires n <= |frames|
  {
    if n == 0 then (0, 0)
    else
      var f := frames[n - 1];
      if BLOCK_SIZE - (f.offset + f.Size()) < HEADER_SIZE then (f.block + 1, 0) else (f.block, f.offset + f.Size())
  }

  ghost predicate InPlace(frames: seq<Frame>, i: nat)
    requires i < |frames|
  {
    (frames[i].block, frames[i].offset) == NextPlace(frames, i)
  }

  ghost predicate Placed(frames: seq<Frame>) {
    && (forall i :: 0 <= i < |frames| ==> frames[i].Fits())
    && forall i :: 0 <= i < |frames| ==> InPlace(frames, i)
  }

  function EndOf(frames: seq<Frame>): nat {
    if frames == [] then 0 else frames[|frames| - 1].End()
  }

  /** As much of the frame as the file reaches to is there. */
  ghost predicate Holds(crc: Checksum, file: Bytes, f: Frame)
    requires f.Fits()
  {
    forall k :: 0 <= k < f.Size() && f.Start() + k < |file| ==> file[f.Start() + k] == FrameBytes(crc, f)[k]
  }

  ghost predicate ZeroFrom(bytes: Bytes, lo: nat, hi: nat) {
    forall k :: lo <= k < hi && k < |bytes| ==> bytes[k] == 0
  }

  /** `bytes` are the frames, and zeros wherever there is none. */
  ghost predicate Written(crc: Checksum, bytes: Bytes, frames: seq<Frame>) {
    && Placed(frames) && EndOf(frames) <= |bytes|
    && (forall i :: 0 <= i < |frames| ==> Holds(crc, bytes, frames[i]))
    && (forall i :: 0 < i < |frames| ==> ZeroFrom(bytes, frames[i - 1].End(), frames[i].Start()))
    && ZeroFrom(bytes, EndOf(frames), |bytes|)
  }

  /** `file` is what a crash left of the frames. */
  ghost predicate Survives(crc: Checksum, file: Bytes, frames: seq<Frame>) {
    && Placed(frames) && |file| <= EndOf(frames)
    && forall i :: 0 <= i < |frames| ==> Holds(crc, file, frames[i])
  }

  lemma {:induction false} FramesAscend(frames: seq<Frame>, i: nat, j: nat)
    requires Placed(frames) && i < j < |frames|
    ensures frames[i].End() <= frames[j].Start()
    decreases j
  {
    assert InPlace(frames, j);
    if i < j - 1 {
      FramesAscend(frames, i, j - 1);
    }
  }

  lemma FramesEnd(frames: seq<Frame>, i: nat)
    requires Placed(frames) && i < |frames|
    ensures frames[i].End() <= EndOf(frames)
  {
    if i < |frames| - 1 {
      FramesAscend(frames, i, |frames| - 1);
    }
  }

  lemma CutSurvives(crc: Checksum, bytes: Bytes, frames: seq<Frame>, cut: nat)
    requires Written(crc, bytes, frames) && |bytes| == EndOf(frames) && cut <= |bytes|
    ensures Survives(crc, bytes[..cut], frames)
  {
  }

  // ---------------------------------------------------------------------------------------------
  // Records

  function Joined(frames: seq<Frame>, lo: nat, hi: nat): Bytes
    requires lo <= hi <= |frames|
  {
    if lo == hi then [] else Joined(frames, lo, hi - 1) + frames[hi - 1].payload
  }

  function KindOf(begin: bool, end: bool): RecordType {
    if begin && end then Full else if begin then First else if end then Last else Middle
  }

  /** Frames `lo` up to `hi` are one record, whose payloads joined are `data`. */
  ghost predicate IsRecord(frames: seq<Frame>, lo: nat, hi: nat, data: Bytes) {
    && lo < hi <= |frames| && Joined(frames, lo, hi) == data
    && forall i :: lo <= i < hi ==> frames[i].kind == KindOf(i == lo, i == hi - 1)
  }

  /** The frames are the records one after the other; record j is frames `bounds[j]` to `bounds[j + 1]`. */
  ghost predicate AreRecords(frames: seq<Frame>, bounds: seq<nat>, records: seq<Bytes>) {
    && |bounds| == |records| + 1 && bounds[0] == 0 && bounds[|records|] == |frames|
    && forall j :: 0 <= j < |records| ==> IsRecord(frames, bounds[j], bounds[j + 1], records[j])
  }

  lemma {:induction false} JoinedKept(frames: seq<Frame>, more: seq<Frame>, lo: nat, hi: nat)
    requires lo <= hi <= |frames| && frames <= more
    ensures Joined(more, lo, hi) == Joined(frames, lo, hi)
  {
    if lo < hi {
      JoinedKept(frames, more, lo, hi - 1);
    }
  }

  lemma OneMoreRecord(frames: seq<Frame>, bounds: seq<nat>, records: seq<Bytes>, more: seq<Frame>, data: Bytes)
    requires AreRecords(frames, bounds, records) && frames <= more
    requires IsRecord(more, |frames|, |more|, data)
    ensures AreRecords(more, bounds + [|more|], records + [data])
  {
    forall j | 0 <= j < |records|
      ensures IsRecord(more, bounds[j], bounds[j + 1], records[j])
    {
      JoinedKept(frames, more, bounds[j], bounds[j + 1]);
    }
  }
}
