/** Reading a log back, whole or cut short by a crash (LevelDB db/log_reader.cc, with an initial
    offset of zero). */
module LogReader {
  import opened DbFormat
  import opened LogFormat

  /** What ReadPhysicalRecord answers besides the type byte of a record. */
  const END_OF_FILE: nat := 5
  const BAD_RECORD: nat := 6

  /** What the header and payload at the front of a buffer say, when the buffer stands at frame f. */
  lemma HeaderSays(crc: Checksum, file: Bytes, f: Frame, buffer: Bytes)
    requires f.Fits() && Holds(crc, file, f) && HEADER_SIZE <= |buffer| && f.Start() + |buffer| <= |file|
    requires forall k :: 0 <= k < |buffer| ==> buffer[k] == file[f.Start() + k]
    ensures buffer[6] == TypeByte(f.kind) && buffer[4] as nat + buffer[5] as nat * 256 == |f.payload|
    ensures f.Size() <= |buffer| ==> buffer[HEADER_SIZE..f.Size()] == f.payload
    ensures f.Size() <= |buffer| ==> (buffer[0], buffer[1], buffer[2], buffer[3]) == crc(TypeByte(f.kind), f.payload)
  {
    var b := FrameBytes(crc, f);
    assert forall k :: 0 <= k < f.Size() && k < |buffer| ==> buffer[k] == b[k];
    assert b[4] == (|f.payload| % 256) as byte && b[5] == (|f.payload| / 256) as byte;
    if f.Size() <= |buffer| {
      assert b[HEADER_SIZE..] == f.payload;
      assert buffer[HEADER_SIZE..f.Size()] == b[HEADER_SIZE..];
    }
  }

  /** A fragment of a record, and where its header begins. */
  datatype Part = Part(off: int, payload: Bytes)

  ghost function Payloads(parts: seq<Part>): Bytes {
    if parts == [] then [] else Payloads(parts[..|parts| - 1]) + parts[|parts| - 1].payload
  }

  /** Each begins behind the one before, and the last ends at `end`. */
  ghost predicate InSequence(parts: seq<Part>, end: int) {
    && parts != [] && parts[|parts| - 1].off + HEADER_SIZE + |parts[|parts| - 1].payload| == end
    && forall i :: 0 < i < |parts| ==> parts[i - 1].off + HEADER_SIZE + |parts[i - 1].payload| <= parts[i].off
  }

  /** What one fragment comes to: a record goes on, or it is complete, or there is nothing more. */
  datatype Progress = More(inFragmented: bool, scratch: Bytes, offset: int) | Got(record: Bytes) | NoMore

  class Reader {
    const crc: Checksum
    const file: Bytes
    const checksum: bool
    /** How far the file has been read. */
    var filePos: nat
    var buffer: Bytes
    var eof: bool
    var endOfBufferOffset: nat
    var lastRecordOffset: int
    /** The sizes of the drops reported as corruption. */
    var reports: seq<nat>
    /** How many blocks have been asked for, and what the writer wrote before the crash. */
    ghost var blocks: nat
    ghost const frames: seq<Frame>
    ghost const bounds: seq<nat>
    ghost const records: seq<Bytes>

    ghost predicate Shape()
      reads `filePos, `buffer, `eof, `endOfBufferOffset, `blocks
    {
      && |buffer| <= filePos <= |file| && endOfBufferOffset == filePos
      && (forall k :: 0 <= k < |buffer| ==> buffer[k] == file[filePos - |buffer| + k])
      && filePos <= blocks * BLOCK_SIZE <= filePos - |buffer| + BLOCK_SIZE
      && (if eof then filePos == |file| else filePos == blocks * BLOCK_SIZE)
    }

    /** Nothing is left to read. */
    ghost predicate Drained()
      reads `filePos, `buffer
    {
      buffer == [] && filePos == |file|
    }

    /** The next thing to read is frame i: at the front of the buffer, or at the front of the next block. */
    ghost predicate At(i: nat)
      reads `filePos, `buffer, `blocks
    {
      && Survives(crc, file, frames) && i <= |frames|
      && if i == |frames| then Drained()
         else if frames[i].block == blocks then frames[i].offset == 0 && |buffer| < HEADER_SIZE
         else frames[i].block + 1 == blocks && filePos - |buffer| == frames[i].Start()
    }

    ghost predicate AtRecord(j: nat)
      reads `filePos, `buffer, `blocks
    {
      AreRecords(frames, bounds, records) && j <= |records| && bounds[j] <= |frames| && At(bounds[j])
    }

    ghost function Unread(): int
      reads `filePos, `buffer
    {
      |file| - filePos + |buffer|
    }

    /** Where it stands in the file. */
    ghost function Pos(): int
      reads `filePos, `buffer
    {
      |file| - Unread()
    }

    /** The file has a header there with this type and with the length and checksum of this payload, which
        follows. */
    ghost predicate Checked(off: int, t: nat, payload: Bytes) {
      && 0 <= off && off + HEADER_SIZE + |payload| <= |file|
      && file[off + HEADER_SIZE..off + HEADER_SIZE + |payload|] == payload
      && file[off + 6] as nat == t && file[off + 4] as nat + file[off + 5] as nat * 256 == |payload|
      && (file[off], file[off + 1], file[off + 2], file[off + 3]) == crc(file[off + 6], payload)
    }

    /** What a fragment read may be if checksums are looked at, on any file at all. */
    ghost predicate Vouched(t: nat, fragment: Bytes, before: int)
      reads `filePos, `buffer, `endOfBufferOffset
    {
      checksum && t != END_OF_FILE && t != BAD_RECORD ==>
        var off := endOfBufferOffset - |buffer| - HEADER_SIZE - |fragment|;
        before <= off && off + HEADER_SIZE + |fragment| == Pos() && Checked(off, t, fragment)
    }

    /** The beginning of a record: a first fragment and middle ones. */
    ghost predicate Gathered(parts: seq<Part>, scratch: Bytes, end: int) {
      && InSequence(parts, end) && scratch == Payloads(parts)
      && forall i :: 0 <= i < |parts| ==>
           Checked(parts[i].off, TypeByte(KindOf(i == 0, false)) as nat, parts[i].payload)
    }

    ghost predicate IsWhole(parts: seq<Part>, record: Bytes, end: int) {
      && InSequence(parts, end) && record == Payloads(parts)
      && forall i :: 0 <= i < |parts| ==>
           Checked(parts[i].off, TypeByte(KindOf(i == 0, i == |parts| - 1)) as nat, parts[i].payload)
    }

    lemma GathersFirst(off: int, fragment: Bytes)
      requires Checked(off, TypeByte(First) as nat, fragment)
      ensures Gathered([Part(off, fragment)], fragment, off + HEADER_SIZE + |fragment|)
    {
    }

    lemma IsFull(off: int, fragment: Bytes)
      requires Checked(off, TypeByte(Full) as nat, fragment)
      ensures IsWhole([Part(off, fragment)], fragment, off + HEADER_SIZE + |fragment|)
    {
    }

    lemma GathersMore(parts: seq<Part>, scratch: Bytes, end: int, off: int, t: nat, fragment: Bytes)
      requires Gathered(parts, scratch, end) && end <= off && Checked(off, t, fragment)
      ensures t == TypeByte(Middle) as nat ==>
                Gathered(parts + [Part(off, fragment)], scratch + fragment, off + HEADER_SIZE + |fragment|)
      ensures t == TypeByte(Last) as nat ==>
                IsWhole(parts + [Part(off, fragment)], scratch + fragment, off + HEADER_SIZE + |fragment|)
    {
      hide Checked;
      assert (parts + [Part(off, fragment)])[..|parts|] == parts;
    }

    /** The record being put together. */
    ghost predicate SoFar(inFragmented: bool, scratch: Bytes, parts: seq<Part>, start: int)
      reads `filePos, `buffer
    {
      && start <= Pos()
      && (checksum && inFragmented ==> parts != [] && start <= parts[0].off && Gathered(parts, scratch, Pos()))
    }

    /** A record put together from fragments that stand in the file one behind the other, from `start` on and up
        to here, typed as the fragments of one record and each with its checksum. */
    ghost predicate PutTogether(record: Bytes, start: int)
      reads `filePos, `buffer
    {
      exists parts: seq<Part> :: IsWhole(parts, record, Pos()) && start <= parts[0].off
    }

    ghost predicate Ready(record: Bytes, parts: seq<Part>, start: int)
      reads `filePos, `buffer
    {
      checksum ==> parts != [] && start <= parts[0].off && IsWhole(parts, record, Pos())
    }

    /** What one more fragment makes of the record being put together. */
    lemma Gathers(t: nat, fragment: Bytes, inFragmented: bool, scratch: Bytes, parts: seq<Part>, before: int,
                  start: int) returns (parts': seq<Part>)
      requires Vouched(t, fragment, before) && start <= before <= Pos()
      requires checksum && inFragmented ==> parts != [] && start <= parts[0].off && Gathered(parts, scratch, before)
      ensures start <= Pos()
      ensures t == TypeByte(Full) as nat ==> Ready(fragment, parts', start)
      ensures t == TypeByte(Last) as nat && inFragmented ==> Ready(scratch + fragment, parts', start)
      ensures t == TypeByte(First) as nat ==> SoFar(true, fragment, parts', start)
      ensures t == TypeByte(Middle) as nat && inFragmented ==> SoFar(true, scratch + fragment, parts', start)
    {
      hide Checked, Gathered, IsWhole;
      if !checksum {
        return [];
      }
      var off := endOfBufferOffset - |buffer| - HEADER_SIZE - |fragment|;
      parts' := [Part(off, fragment)];
      if t == TypeByte(Full) as nat {
        IsFull(off, fragment);
      } else if t == TypeByte(First) as nat {
        GathersFirst(off, fragment);
      } else if (t == TypeByte(Middle) as nat || t == TypeByte(Last) as nat) && inFragmented {
        parts' := parts + [Part(off, fragment)];
        GathersMore(parts, scratch, before, off, t, fragment);
      }
    }

    constructor (crc: Checksum, file: Bytes, checksum: bool,
        ghost frames: seq<Frame>, ghost bounds: seq<nat>, ghost records: seq<Bytes>)
      ensures Shape() && reports == []
      ensures this.crc == crc && this.file == file && this.checksum == checksum
      ensures this.frames == frames && this.bounds == bounds && this.records == records
      ensures Survives(crc, file, frames) && AreRecords(frames, bounds, records) ==> AtRecord(0)
    {
      this.crc, this.file, this.checksum := crc, file, checksum;
      filePos, buffer, eof, endOfBufferOffset, lastRecordOffset, reports, blocks := 0, [], false, 0, 0, [], 0;
      this.frames, this.bounds, this.records := frames, bounds, records;
      new;
      assert frames != [] && Placed(frames) ==> InPlace(frames, 0);
    }

    method ReportCorruption(bytes: nat)
      modifies `reports
      ensures reports == old(reports) + [bytes]
    {
      reports := reports + [bytes];
    }

    /** What is left in the buffer is a trailer to skip; read the next block. */
    method ReadBlock(ghost i: nat)
      requires Shape() && !eof && |buffer| < HEADER_SIZE
      modifies `filePos, `buffer, `eof, `endOfBufferOffset, `blocks
      ensures Shape() && Unread() <= old(Unread()) && filePos >= old(filePos)
      ensures eof || filePos > old(filePos)
      ensures old(At(i)) ==> At(i)
    {
      ghost var before := filePos;
      var n := if |file| - filePos < BLOCK_SIZE then |file| - filePos else BLOCK_SIZE;
      buffer := file[filePos..filePos + n];
      filePos, endOfBufferOffset, blocks := filePos + n, endOfBufferOffset + n, blocks + 1;
      if |buffer| < BLOCK_SIZE {
        eof := true;
      }
    }

    /** Reading frame i came to the frame if all of it is there, and otherwise to the end. */
    ghost predicate FrameCame(i: nat, t: nat, fragment: Bytes)
      reads `filePos, `buffer, `blocks, `endOfBufferOffset
    {
      && Survives(crc, file, frames)
      && if i < |frames| && frames[i].End() <= |file| then
           && t == TypeByte(frames[i].kind) as nat && fragment == frames[i].payload && At(i + 1)
           && frames[i].End() == endOfBufferOffset - |buffer|
         else t == END_OF_FILE && Drained()
    }

    /** The next physical record: its type byte and payload, END_OF_FILE, or BAD_RECORD.  On a log
        cut short, the frame that comes next if all of it is there, and otherwise the end. */
    method ReadPhysicalRecord(ghost i: nat) returns (t: nat, fragment: Bytes)
      requires Shape()
      modifies this
      ensures Shape() && Unread() <= old(Unread()) && (t != END_OF_FILE ==> Unread() < old(Unread()))
      ensures lastRecordOffset == old(lastRecordOffset)
      ensures old(At(i)) ==> reports == old(reports) && FrameCame(i, t, fragment)
      ensures Vouched(t, fragment, old(Pos()))
    {
      fragment := [];
      while |buffer| < HEADER_SIZE
        invariant Shape() && Unread() <= old(Unread())
        invariant reports == old(reports) && lastRecordOffset == old(lastRecordOffset)
        invariant old(At(i)) ==> At(i)
        decreases |file| - filePos, !eof
      {
        if eof {
          // A header cut short is no corruption: the writer died while it wrote it.
          buffer := [];
          return END_OF_FILE, [];
        }
        ReadBlock(i);
      }
      t, fragment := ParseRecord(i);
    }

    /** The record at the front of the buffer is all there: zeros and bad checksums are refused. */
    method Accept(ghost i: nat, length: nat) returns (t: nat, fragment: Bytes)
      requires Shape() && HEADER_SIZE + length <= |buffer|
      requires length == buffer[4] as nat + buffer[5] as nat * 256
      requires At(i) ==>
                 && i < |frames| && Survives(crc, file, frames) && length == |frames[i].payload|
                 && buffer[6] == TypeByte(frames[i].kind)
                 && buffer[HEADER_SIZE..HEADER_SIZE + length] == frames[i].payload
                 && (buffer[0], buffer[1], buffer[2], buffer[3]) == crc(buffer[6], frames[i].payload)
      modifies `buffer, `reports
      ensures Shape() && Unread() < old(Unread())
      ensures old(At(i)) ==> reports == old(reports) && FrameCame(i, t, fragment)
      ensures Vouched(t, fragment, old(Pos()))
    {
      hide Survives, Holds, FrameBytes, Header, InPlace, EndOf, Checked;
      ghost var good, was := At(i), buffer;
      var stored := (buffer[0], buffer[1], buffer[2], buffer[3]);
      t := buffer[6] as nat;
      fragment := buffer[HEADER_SIZE..HEADER_SIZE + length];
      if t == ZERO_TYPE as nat && length == 0 {
        // Space preallocated for the file, skipped without a report.
        buffer := [];
        return BAD_RECORD, [];
      }
      if checksum && crc(buffer[6], fragment) != stored {
        var dropSize := |buffer|;
        buffer := [];
        ReportCorruption(dropSize);
        return BAD_RECORD, [];
      }
      buffer := buffer[HEADER_SIZE + length..];
      IsChecked(was, filePos - |was|, length);
      if good {
        NextIsAt(i);
      }
    }

    method ParseRecord(ghost i: nat) returns (t: nat, fragment: Bytes)
      requires Shape() && HEADER_SIZE <= |buffer|
      modifies `buffer, `reports
      ensures Shape() && Unread() < old(Unread())
      ensures old(At(i)) ==> reports == old(reports) && FrameCame(i, t, fragment)
      ensures Vouched(t, fragment, old(Pos()))
    {
      hide Holds, FrameBytes, Header, InPlace, EndOf;
      ghost var good := At(i);
      if good {
        HeaderSays(crc, file, frames[i], buffer);
        FramesEnd(frames, i);
      }
      var length := buffer[4] as nat + buffer[5] as nat * 256;
      if HEADER_SIZE + length > |buffer| {
        var dropSize := |buffer|;
        buffer := [];
        if !eof {
          ReportCorruption(dropSize);
          return BAD_RECORD, [];
        }
        // A payload cut short is no corruption either.
        return END_OF_FILE, [];
      }
      t, fragment := Accept(i, length);
    }

    /** What stands in the buffer stands in the file. */
    lemma IsChecked(was: Bytes, off: int, length: nat)
      requires HEADER_SIZE + length <= |was| && 0 <= off && off + |was| <= |file|
      requires forall k :: 0 <= k < |was| ==> was[k] == file[off + k]
      requires length == was[4] as nat + was[5] as nat * 256
      ensures var payload := was[HEADER_SIZE..HEADER_SIZE + length];
              (was[0], was[1], was[2], was[3]) == crc(was[6], payload) ==> Checked(off, was[6] as nat, payload)
    {
    }

    lemma NextIsAt(i: nat)
      requires Shape() && Survives(crc, file, frames) && i < |frames|
      requires frames[i].End() == filePos - |buffer| && frames[i].block + 1 == blocks
      ensures At(i + 1)
    {
      if i + 1 < |frames| {
        assert InPlace(frames, i + 1);
      }
    }

    /** Record j is wholly there. */
    ghost predicate Intact(j: nat)
      requires j < |records| && AreRecords(frames, bounds, records)
    {
      assert IsRecord(frames, bounds[j], bounds[j + 1], records[j]);
      frames[bounds[j + 1] - 1].End() <= |file|
    }

    /** Inside record j, the frames before i have been joined in `scratch`. */
    ghost predicate Joining(j: nat, i: nat, inFragmented: bool, scratch: Bytes) {
      && AreRecords(frames, bounds, records) && Survives(crc, file, frames)
      && if j == |records| then i == |frames|
         else
           && j < |records| && bounds[j] <= i < bounds[j + 1] <= |frames|
           && inFragmented == (i > bounds[j]) && scratch == Joined(frames, bounds[j], i)
    }

    lemma StartsJoining(j: nat)
      requires AtRecord(j)
      ensures Joining(j, bounds[j], false, [])
    {
      if j < |records| {
        assert IsRecord(frames, bounds[j], bounds[j + 1], records[j]);
      }
    }

    /** What the frame after those joined is; `last` says whether it ends the record. */
    lemma JoiningOne(j: nat, i: nat, inFragmented: bool, scratch: Bytes, last: bool)
      requires Joining(j, i, inFragmented, scratch) && j < |records| && last == (i + 1 == bounds[j + 1])
      ensures i < |frames| && frames[i].kind == KindOf(!inFragmented, last)
      ensures last ==> scratch + frames[i].payload == records[j]
      ensures !inFragmented ==> scratch == [] && i == bounds[j]
      ensures Intact(j) ==> frames[i].End() <= |file|
      ensures last && frames[i].End() <= |file| ==> Intact(j)
    {
      assert IsRecord(frames, bounds[j], bounds[j + 1], records[j]);
      assert Joined(frames, bounds[j], i + 1) == scratch + frames[i].payload;
      if i < bounds[j + 1] - 1 {
        FramesAscend(frames, i, bounds[j + 1] - 1);
      }
    }

    lemma JoinedOne(j: nat, i: nat, inFragmented: bool, scratch: Bytes)
      requires Joining(j, i, inFragmented, scratch) && j < |records| && At(i + 1)
      ensures i + 1 < bounds[j + 1] ==> Joining(j, i + 1, true, scratch + frames[i].payload)
      ensures i + 1 == bounds[j + 1] ==> AtRecord(j + 1)
    {
    }

    /** What reading frame i of record j came to: the end of the file, or one more frame joined. */
    ghost predicate Took(j: nat, i: nat, inFragmented: bool, scratch: Bytes, t: nat, fragment: Bytes, last: bool)
      reads `filePos, `buffer, `blocks, `endOfBufferOffset
    {
      if t == END_OF_FILE then
        Drained() && AreRecords(frames, bounds, records) && j <= |records| && (j == |records| || !Intact(j))
      else
        && AreRecords(frames, bounds, records) && j < |records| && bounds[j] < |frames|
        && t == TypeByte(KindOf(!inFragmented, last)) as nat
        && (!inFragmented ==>
              && scratch + fragment == fragment
              && frames[bounds[j]].Start() == endOfBufferOffset - |buffer| - HEADER_SIZE - |fragment|)
        && (if last then scratch + fragment == records[j] && Intact(j) && AtRecord(j + 1)
            else At(i + 1) && Joining(j, i + 1, true, scratch + fragment))
    }

    method ReadFragment(ghost j: nat, ghost i: nat, inFragmented: bool, ghost scratch: Bytes, ghost parts: seq<Part>,
                        ghost start: int)
      returns (t: nat, fragment: Bytes, ghost last: bool, ghost parts': seq<Part>)
      requires Shape()
      modifies this
      ensures Shape() && lastRecordOffset == old(lastRecordOffset)
      ensures t != END_OF_FILE ==> Unread() < old(Unread())
      ensures old(At(i)) && Joining(j, i, inFragmented, scratch) ==>
                reports == old(reports) && Took(j, i, inFragmented, scratch, t, fragment, last)
      ensures old(SoFar(inFragmented, scratch, parts, start)) ==>
                && start <= Pos()
                && (t == TypeByte(Full) as nat ==> Ready(fragment, parts', start))
                && (t == TypeByte(Last) as nat && inFragmented ==> Ready(scratch + fragment, parts', start))
                && (t == TypeByte(First) as nat ==> SoFar(true, fragment, parts', start))
                && (t == TypeByte(Middle) as nat && inFragmented ==> SoFar(true, scratch + fragment, parts', start))
    {
      hide Vouched, Gathered, IsWhole, Ready, Survives, Holds, IsRecord, Joined, InPlace;
      ghost var before, ready := Pos(), SoFar(inFragmented, scratch, parts, start);
      parts' := [];
      ghost var good := At(i) && Joining(j, i, inFragmented, scratch);
      last := good && j < |records| && i + 1 == bounds[j + 1];
      if good && j < |records| {
        JoiningOne(j, i, inFragmented, scratch, last);
      }
      t, fragment := ReadPhysicalRecord(i);
      if ready {
        parts' := Gathers(t, fragment, inFragmented, scratch, parts, before, start);
      }
      if good && t != END_OF_FILE {
        JoinedOne(j, i, inFragmented, scratch);
      }
    }

    /** Reading record j came to the record if all of it is there, and otherwise to the end. */
    ghost predicate CameNext(j: nat, ok: bool, record: Bytes)
      reads `filePos, `buffer, `blocks, `lastRecordOffset
    {
      && AreRecords(frames, bounds, records) && j <= |records|
      && if j < |records| && Intact(j) then
           && ok && record == records[j] && AtRecord(j + 1)
           && bounds[j] < |frames| && lastRecordOffset == frames[bounds[j]].Start()
         else !ok && Drained()
    }

    /** A record that starts before another has ended; an empty start is an old writer's doing. */
    method ReportPartial(inFragmented: bool, scratch: Bytes)
      modifies `reports
      ensures !inFragmented || scratch == [] ==> reports == old(reports)
    {
      if inFragmented && scratch != [] {
        ReportCorruption(|scratch|);
      }
    }

    /** The cases that do not end a record: a first or middle fragment, or something out of place. */
    method Assemble(t: nat, fragment: Bytes, inFragmented: bool, scratch: Bytes) returns (inside: bool, joined: Bytes)
      requires t == TypeByte(Last) as nat ==> !inFragmented
      modifies `reports
      ensures t == TypeByte(First) as nat && (inFragmented ==> scratch == []) ==>
                inside && joined == fragment && reports == old(reports)
      ensures t == TypeByte(Middle) as nat && inFragmented ==>
                inside && joined == scratch + fragment && reports == old(reports)
      ensures t == TypeByte(First) as nat ==> inside && joined == fragment
      ensures t == TypeByte(Middle) as nat ==> inside == inFragmented && (inside ==> joined == scratch + fragment)
      ensures t != TypeByte(First) as nat && t != TypeByte(Middle) as nat ==> !inside
    {
      inside, joined := inFragmented, scratch;
      if t == TypeByte(First) as nat {
        ReportPartial(inFragmented, scratch);
        inside, joined := true, fragment;
      } else if t == TypeByte(Middle) as nat {
        if !inFragmented {
          ReportCorruption(|fragment|);
        } else {
          joined := scratch + fragment;
        }
      } else if t == TypeByte(Last) as nat {
        ReportCorruption(|fragment|);
      } else if t == BAD_RECORD {
        if inFragmented {
          ReportCorruption(|scratch|);
          inside, joined := false, [];
        }
      } else {
        ReportCorruption(|fragment| + if inFragmented then |scratch| else 0);
        inside, joined := false, [];
      }
    }

    ghost predicate Complete(j: nat, record: Bytes, offset: int)
      reads `filePos, `buffer, `blocks
    {
      && AreRecords(frames, bounds, records) && j < |records| && Intact(j) && bounds[j] < |frames|
      && record == records[j] && offset == frames[bounds[j]].Start() && AtRecord(j + 1)
    }

    method Deliver(ghost j: nat, record: Bytes, offset: int)
      requires Shape()
      modifies `lastRecordOffset
      ensures Unread() == old(Unread())
      ensures Shape() && (old(Complete(j, record, offset)) ==> CameNext(j, true, record))
    {
      lastRecordOffset := offset;
    }

    ghost predicate StartsAt(j: nat, offset: int) {
      AreRecords(frames, bounds, records) && j < |records| && bounds[j] < |frames|
          && offset == frames[bounds[j]].Start()
    }

    /** What a fragment read from a log calls for. */
    lemma TookOne(j: nat, i: nat, inFragmented: bool, scratch: Bytes, t: nat, fragment: Bytes, last: bool, start: int)
      requires Took(j, i, inFragmented, scratch, t, fragment, last) && (inFragmented ==> StartsAt(j, start))
      ensures t == END_OF_FILE ==> CameNext(j, false, [])
      ensures t != END_OF_FILE && last ==> t == TypeByte(if inFragmented then Last else Full) as nat
      ensures t != END_OF_FILE && !last ==> t == TypeByte(if inFragmented then Middle else First) as nat
      ensures t != END_OF_FILE && last && inFragmented ==> Complete(j, scratch + fragment, start)
      ensures t != END_OF_FILE && !inFragmented ==>
                var offset := endOfBufferOffset - |buffer| - HEADER_SIZE - |fragment|;
                if last then Complete(j, fragment, offset)
                else StartsAt(j, offset) && At(i + 1) && Joining(j, i + 1, true, fragment)
      ensures t != END_OF_FILE && !last && inFragmented ==> At(i + 1) && Joining(j, i + 1, true, scratch + fragment)
    {
    }

    lemma NothingSoFar(scratch: Bytes, parts: seq<Part>, start: int)
      requires start <= Pos()
      ensures SoFar(false, scratch, parts, start)
    {
    }

    lemma ReadyMeans(record: Bytes, parts: seq<Part>, start: int)
      requires Ready(record, parts, start)
      ensures checksum ==> PutTogether(record, start)
    {
    }

    /** Where the reading of record j stands: its frames before i have been joined. */
    ghost predicate Inside(j: nat, i: nat, inFragmented: bool, scratch: Bytes, offset: int)
      reads `filePos, `buffer, `blocks
    {
      Joining(j, i, inFragmented, scratch) && At(i) && (inFragmented ==> StartsAt(j, offset))
    }

    /** One turn of the loop: the next fragment ends a record, goes on with one, or is not there. */
    method ReadOn(ghost j: nat, ghost i: nat, inFragmented: bool, scratch: Bytes, offset: int, ghost parts: seq<Part>,
                  ghost start: int)
      returns (p: Progress, ghost parts': seq<Part>)
      requires Shape()
      modifies this
      ensures Shape() && (!p.NoMore? ==> Unread() < old(Unread()))
      ensures old(Inside(j, i, inFragmented, scratch, offset)) ==>
                && reports == old(reports)
                && (p.More? ==> Inside(j, i + 1, p.inFragmented, p.scratch, p.offset))
                && (p.Got? ==> CameNext(j, true, p.record))
                && (p.NoMore? ==> CameNext(j, false, []))
      ensures old(SoFar(inFragmented, scratch, parts, start)) ==>
                && (p.More? ==> SoFar(p.inFragmented, p.scratch, parts', start))
                && (p.Got? && checksum ==> PutTogether(p.record, start))
    {
      ghost var good, ready := Inside(j, i, inFragmented, scratch, offset), SoFar(inFragmented, scratch, parts, start);
      hide Survives, AreRecords, IsRecord, Shape, At, Drained, Unread, AtRecord, Joining, Joined, Intact;
      hide FrameCame, Holds, Placed, EndOf, Took, Complete, CameNext, StartsAt, KindOf;
      hide Pos, Vouched, Gathered, Checked, IsWhole, SoFar, Ready, PutTogether;
      var t, fragment;
      ghost var last;
      t, fragment, last, parts' := ReadFragment(j, i, inFragmented, scratch, parts, start);
      var physicalRecordOffset := endOfBufferOffset - |buffer| - HEADER_SIZE - |fragment|;
      if good {
        TookOne(j, i, inFragmented, scratch, t, fragment, last, offset);
      }
      if t == END_OF_FILE {
        // The writer may have died between two frames; the record that has no end is dropped.
        return NoMore, parts';
      } else if t == TypeByte(Full) as nat {
        ReportPartial(inFragmented, scratch);
        Deliver(j, fragment, physicalRecordOffset);
        if ready {
          ReadyMeans(fragment, parts', start);
        }
        return Got(fragment), parts';
      } else if t == TypeByte(Last) as nat && inFragmented {
        Deliver(j, scratch + fragment, offset);
        if ready {
          ReadyMeans(scratch + fragment, parts', start);
        }
        return Got(scratch + fragment), parts';
      }
      var inside, joined := Assemble(t, fragment, inFragmented, scratch);
      if ready && !inside {
        NothingSoFar(joined, parts', start);
      }
      p := More(inside, joined, if t == TypeByte(First) as nat then physicalRecordOffset else offset);
    }

    lemma StartsReading(j: nat)
      ensures AtRecord(j) ==> Inside(j, bounds[j], false, [], 0)
      ensures SoFar(false, [], [], Pos())
    {
      if AtRecord(j) {
        StartsJoining(j);
      }
    }

    /** The next record, its frames joined.  On a log cut short: the next record if all of it is
        there, and otherwise nothing; no corruption is reported either way.  On any file at all, if checksums
        are looked at: a record is put together from fragments that stand in the file one behind the other,
        typed as the fragments of one record and each with its checksum. */
    method ReadRecord(ghost j: nat) returns (ok: bool, record: Bytes)
      requires Shape()
      modifies this
      ensures Shape() && (ok ==> Unread() < old(Unread()))
      ensures old(AtRecord(j)) ==> reports == old(reports) && CameNext(j, ok, record)
      ensures ok && checksum ==> PutTogether(record, old(Pos()))
    {
      StartsReading(j);
      ghost var i: nat := if AtRecord(j) then bounds[j] else 0;
      ghost var good := AtRecord(j);
      ghost var parts: seq<Part>, start := [], Pos();
      hide Survives, AreRecords, IsRecord, Shape, At, Drained, Unread, AtRecord, Joining, Joined, Intact;
      hide CameNext, Inside, Pos, SoFar, PutTogether;
      var inFragmented, scratch, offset := false, [], 0;
      while true
        invariant Shape() && Unread() <= old(Unread())
        invariant good ==> Inside(j, i, inFragmented, scratch, offset) && reports == old(reports)
        invariant SoFar(inFragmented, scratch, parts, start)
        decreases Unread()
      {
        var p;
        p, parts := ReadOn(j, i, inFragmented, scratch, offset, parts, start);
        match p
        case NoMore =>
          return false, [];
        case Got(r) =>
          return true, r;
        case More(inside, joined, from) =>
          inFragmented, scratch, offset := inside, joined, from;
        i := i + 1;
      }
    }
  }
}
