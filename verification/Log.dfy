/** A log from its first record to what a crash leaves of it. */
module Log {
  import opened DbFormat
  import opened LogFormat
  import LogReader
  import LogWriter

  /** How many of the records that end at `ends` lie wholly before `cut`. */
  function WhollyBefore(ends: seq<nat>, cut: nat): (n: nat)
    ensures n <= |ends|
  {
    if ends == [] || cut < ends[0] then 0 else 1 + WhollyBefore(ends[1..], cut)
  }

  lemma {:induction false} BeforeAndNotBefore(ends: seq<nat>, cut: nat, n: nat)
    requires n <= |ends| && forall j :: 0 <= j < n ==> ends[j] <= cut
    requires n < |ends| ==> cut < ends[n]
    ensures WhollyBefore(ends, cut) == n
  {
    if n > 0 {
      BeforeAndNotBefore(ends[1..], cut, n - 1);
    }
  }

  ghost predicate FrameEndsAt(frames: seq<Frame>, bound: nat, end: nat) {
    0 < bound <= |frames| && frames[bound - 1].End() == end
  }

  /** Record j ends at `ends[j]`. */
  ghost predicate EndAt(frames: seq<Frame>, bounds: seq<nat>, records: seq<Bytes>, ends: seq<nat>) {
    && AreRecords(frames, bounds, records) && |ends| == |records|
    && forall j :: 0 <= j < |ends| ==> FrameEndsAt(frames, bounds[j + 1], ends[j])
  }

  lemma EndAtOneMore(frames: seq<Frame>, bounds: seq<nat>, records: seq<Bytes>, ends: seq<nat>, more: seq<Frame>,
      data: Bytes)
    requires EndAt(frames, bounds, records, ends) && frames <= more
    requires IsRecord(more, |frames|, |more|, data)
    ensures EndAt(more, bounds + [|more|], records + [data], ends + [EndOf(more)])
  {
    OneMoreRecord(frames, bounds, records, more, data);
    var bounds2, ends2 := bounds + [|more|], ends + [EndOf(more)];
    forall j | 0 <= j < |ends2|
      ensures FrameEndsAt(more, bounds2[j + 1], ends2[j])
    {
      if j < |ends| {
        assert FrameEndsAt(frames, bounds[j + 1], ends[j]);
      } else {
        assert bounds2[j + 1] == |more|;
      }
    }
  }

  /** The ends ascend, and the last of them ends the log. */
  lemma EndsAscend(frames: seq<Frame>, bounds: seq<nat>, records: seq<Bytes>, ends: seq<nat>, j: nat)
    requires Placed(frames) && EndAt(frames, bounds, records, ends) && j < |ends|
    ensures 0 < j ==> ends[j - 1] < ends[j]
    ensures ends[j] <= EndOf(frames) && (j == |ends| - 1 ==> ends[j] == EndOf(frames))
  {
    assert IsRecord(frames, bounds[j], bounds[j + 1], records[j]);
    FramesEnd(frames, bounds[j + 1] - 1);
    if 0 < j {
      assert IsRecord(frames, bounds[j - 1], bounds[j], records[j - 1]);
      FramesAscend(frames, bounds[j] - 1, bounds[j + 1] - 1);
    }
  }

  lemma {:induction false} AllBefore(ends: seq<nat>, cut: nat)
    requires forall j :: 0 <= j < |ends| ==> ends[j] <= cut
    ensures WhollyBefore(ends, cut) == |ends|
  {
    BeforeAndNotBefore(ends, cut, |ends|);
  }

  /** Writes the records, and says how long the log was after each. */
  method WriteRecords(crc: Checksum, records: seq<Bytes>)
    returns (log: Bytes, ends: seq<nat>, ghost frames: seq<Frame>, ghost bounds: seq<nat>)
    ensures Written(crc, log, frames) && |log| == EndOf(frames)
    ensures EndAt(frames, bounds, records, ends)
    ensures |ends| == |records| && |log| == if records == [] then 0 else ends[|records| - 1]
  {
    hide Written, IsRecord, EndOf;
    var w := new LogWriter.Writer(crc);
    ends, bounds := [], [0];
    assert EndAt(w.frames, bounds, [], ends);
    assert records[..0] == [];
    hide EndAt;
    for j := 0 to |records|
      invariant w.Valid() && w.crc == crc && EndAt(w.frames, bounds, records[..j], ends)
      invariant |ends| == j && |w.dest| == if j == 0 then 0 else ends[j - 1]
    {
      ghost var before := w.frames;
      w.AddRecord(records[j]);
      EndAtOneMore(before, bounds, records[..j], ends, w.frames, records[j]);
      assert records[..j + 1] == records[..j] + [records[j]];
      bounds, ends := bounds + [|w.frames|], ends + [|w.dest|];
    }
    assert records[..|records|] == records;
    log, frames := w.dest, w.frames;
  }

  /** A record comes next exactly if it ends before the file does. */
  lemma WhatCameNext(r: LogReader.Reader, ends: seq<nat>, j: nat, ok: bool, record: Bytes)
    requires r.CameNext(j, ok, record) && EndAt(r.frames, r.bounds, r.records, ends)
    ensures ok <==> j < |ends| && ends[j] <= |r.file|
    ensures ok ==> record == r.records[j] && r.AtRecord(j + 1)
  {
    if j < |ends| {
      assert IsRecord(r.frames, r.bounds[j], r.bounds[j + 1], r.records[j]);
      assert FrameEndsAt(r.frames, r.bounds[j + 1], ends[j]);
    }
  }

  /** Reads records until there are no more. */
  method ReadRecords(crc: Checksum, file: Bytes, checksum: bool, ghost frames: seq<Frame>, ghost bounds: seq<nat>,
      ghost records: seq<Bytes>, ghost ends: seq<nat>)
    returns (got: seq<Bytes>, reports: seq<nat>)
    requires Survives(crc, file, frames) && EndAt(frames, bounds, records, ends)
    ensures got == records[..WhollyBefore(ends, |file|)] && reports == []
  {
    hide Survives, IsRecord, EndOf, AreRecords, EndAt;
    EndsMatch(frames, bounds, records, ends);
    var r := new LogReader.Reader(crc, file, checksum, frames, bounds, records);
    got := [];
    ghost var j := 0;
    var ok, record := r.ReadRecord(j);
    WhatCameNext(r, ends, j, ok, record);
    while ok
      invariant j <= |records| && r.Shape() && r.reports == []
      invariant got == records[..j] && forall i :: 0 <= i < j ==> ends[i] <= |file|
      invariant ok <==> j < |ends| && ends[j] <= |file|
      invariant ok ==> r.AtRecord(j + 1) && record == records[j]
      decreases |records| - j, ok
    {
      got := got + [record];
      j := j + 1;
      ok, record := r.ReadRecord(j);
      WhatCameNext(r, ends, j, ok, record);
    }
    BeforeAndNotBefore(ends, |file|, j);
    reports := r.reports;
  }

  lemma EndsMatch(frames: seq<Frame>, bounds: seq<nat>, records: seq<Bytes>, ends: seq<nat>)
    requires EndAt(frames, bounds, records, ends)
    ensures AreRecords(frames, bounds, records) && |ends| == |records|
  {
  }

  /** Whatever records are written, wherever the log is cut, exactly the records that lie wholly
      before the cut are read back, and no corruption is reported.  The log consists of `frames`, and
      the last of those of record j ends at `ends[j]`. */
  method CrashAndRead(crc: Checksum, records: seq<Bytes>, cut: nat, checksum: bool)
    returns (log: Bytes, ends: seq<nat>, got: seq<Bytes>, reports: seq<nat>, ghost frames: seq<Frame>,
             ghost bounds: seq<nat>)
    ensures Written(crc, log, frames) && EndAt(frames, bounds, records, ends)
    ensures |ends| == |records| && (forall j :: 0 < j < |ends| ==> ends[j - 1] < ends[j])
    ensures |log| == if records == [] then 0 else ends[|ends| - 1]
    ensures got == records[..WhollyBefore(ends, cut)] && reports == []
    ensures |log| <= cut ==> got == records
  {
    hide *;
    log, ends, frames, bounds := WriteRecords(crc, records);
    var file := if cut < |log| then log[..cut] else log;
    CutOff(crc, log, frames, bounds, records, ends, cut);
    got, reports := ReadRecords(crc, file, checksum, frames, bounds, records, ends);
  }

  lemma CutOff(crc: Checksum, log: Bytes, frames: seq<Frame>, bounds: seq<nat>, records: seq<Bytes>, ends: seq<nat>,
               cut: nat)
    requires Written(crc, log, frames) && |log| == EndOf(frames) && EndAt(frames, bounds, records, ends)
    ensures |ends| == |records| && forall j :: 0 < j < |ends| ==> ends[j - 1] < ends[j]
    ensures |log| == if records == [] then 0 else ends[|ends| - 1]
    ensures Survives(crc, if cut < |log| then log[..cut] else log, frames)
    ensures WhollyBefore(ends, if cut < |log| then cut else |log|) == WhollyBefore(ends, cut)
    ensures |log| <= cut ==> WhollyBefore(ends, cut) == |records| && records[..|records|] == records
  {
    forall j | 0 <= j < |ends|
      ensures ends[j] <= EndOf(frames) && (0 < j ==> ends[j - 1] < ends[j])
    {
      EndsAscend(frames, bounds, records, ends, j);
    }
    if records != [] {
      EndsAscend(frames, bounds, records, ends, |ends| - 1);
    }
    if |log| <= cut {
      AllBefore(ends, cut);
      AllBefore(ends, |log|);
    }
    CutSurvives(crc, log, frames, if cut < |log| then cut else |log|);
    assert log[..|log|] == log;
  }
}
