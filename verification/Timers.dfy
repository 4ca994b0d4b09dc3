/** Timers on a heap (libuv src/timer.c). */
module Timers {
  import opened Heaps

  const U64: nat := 0x1_0000_0000_0000_0000
  const INT_MAX: nat := 0x7fff_ffff
  const EINVAL: int := -22

  datatype Timer = Timer(timeout: nat, startId: nat, repeat: nat, active: bool, hasCallback: bool, closing: bool)

  /** What timer_less_than compares. */
  function RankOf(timers: seq<Timer>): Rank {
    seq(|timers|, i requires 0 <= i < |timers| => (timers[i].timeout, timers[i].startId))
  }

  /** `time + timeout`, but the greatest 64-bit number where that is more. */
  function Saturated(time: nat, timeout: nat): nat {
    if time + timeout < U64 then time + timeout else U64 - 1
  }

  /** Due before the other, or with it and started before it. */
  ghost predicate Earlier(timers: seq<Timer>, a: nat, b: nat) {
    && a < |timers| && b < |timers|
    && (timers[a].timeout < timers[b].timeout
        || (timers[a].timeout == timers[b].timeout && timers[a].startId < timers[b].startId))
  }

  lemma LessIsEarlier(timers: seq<Timer>, a: nat, b: nat)
    requires a < |timers| && b < |timers|
    ensures Less(RankOf(timers), a, b) <==> Earlier(timers, a, b)
  {
  }

  ghost predicate IsDue(timers: seq<Timer>, time: nat, h: nat) {
    0 < h < |timers| && timers[h].active && timers[h].timeout <= time
  }

  ghost function Due(timers: seq<Timer>, time: nat): set<nat> {
    set h | 0 < h < |timers| && IsDue(timers, time, h)
  }

  /** Starting or stopping a timer that is not in the heap leaves the order of those that are. */
  lemma OrderKept(timers: seq<Timer>, slots: seq<nat>, h: nat, t: Timer)
    requires h < |timers| && h !in slots && Ordered(RankOf(timers), slots) && Ranked(RankOf(timers), slots)
    ensures Ordered(RankOf(timers[h := t]), slots) && Ranked(RankOf(timers[h := t]), slots)
  {
    var rank, rank' := RankOf(timers), RankOf(timers[h := t]);
    assert forall k :: 0 <= k < |slots| ==> rank'[slots[k]] == rank[slots[k]];
    forall k | 0 < k < |slots|
      ensures InOrder(rank', slots, k)
    {
      UpOf(k);
      assert InOrder(rank, slots, k);
    }
  }

  class Loop {
    const heap: Heap
    var timers: seq<Timer>
    var time: nat
    var timerCounter: nat

    /** The timers in the heap are the active ones, ordered by when they are due and then by when
        they were started. */
    ghost predicate Valid()
      reads this, heap
    {
      && heap.Valid() && |heap.nodes| == |timers| && time < U64
      && Ordered(RankOf(timers), heap.slots) && Ranked(RankOf(timers), heap.slots)
      && (forall h :: 0 < h < |timers| ==> (h in heap.slots <==> timers[h].active))
      && (forall h :: 0 < h < |timers| && timers[h].active ==>
            timers[h].startId < timerCounter && timers[h].hasCallback && !timers[h].closing)
      && NULL !in heap.slots
    }

    /** A loop with n timers, none of them started. */
    constructor (n: nat, time: nat)
      requires time < U64
      ensures Valid() && fresh(heap) && |timers| == n + 1 && forall h :: 0 <= h <= n ==> !timers[h].active
    {
      heap := new Heap(n);
      timers, timerCounter := seq(n + 1, _ => Timer(0, 0, 0, false, false, false)), 0;
      this.time := time;
    }

    method TimerStop(h: nat)
      requires Valid() && 0 < h < |timers|
      modifies `timers, heap
      ensures Valid() && timers == old(timers)[h := old(timers)[h].(active := false)]
    {
      if !timers[h].active {
        return;
      }
      ghost var was := heap.slots;
      heap.Remove(RankOf(timers), h);
      SameNodes(was, heap.slots, {}, {h});
      OrderKept(timers, heap.slots, h, timers[h].(active := false));
      timers := timers[h := timers[h].(active := false)];
    }

    /** Due `timeout` from now, or at the end of time; a timer that runs already is started anew. */
    method TimerStart(h: nat, hasCallback: bool, timeout: nat, repeat: nat) returns (rc: int)
      requires Valid() && 0 < h < |timers| && timeout < U64
      modifies `timers, `timerCounter, heap
      ensures Valid()
      ensures rc == (if old(timers)[h].closing || !hasCallback then EINVAL else 0)
      ensures rc != 0 ==> timers == old(timers) && timerCounter == old(timerCounter)
      ensures rc == 0 ==>
                && timers == old(timers)[h := Timer(Saturated(time, timeout), old(timerCounter), repeat,
                                                    true, true, false)]
                && timerCounter == old(timerCounter) + 1
      ensures rc == 0 ==>
                timers[h].timeout ==
                if time + timeout < 0x1_0000_0000_0000_0000 then time + timeout else 0xFFFF_FFFF_FFFF_FFFF
    {
      if timers[h].closing || !hasCallback {
        return EINVAL;
      }
      if timers[h].active {
        TimerStop(h);
      }
      var clamped := (time + timeout) % U64;
      if clamped < timeout {
        clamped := U64 - 1;
      }
      assert clamped == Saturated(time, timeout);
      var t := Timer(clamped, timerCounter, repeat, true, true, false);
      Arm(h, t);
      return 0;
    }

    method Arm(h: nat, t: Timer)
      requires Valid() && 0 < h < |timers| && !timers[h].active
      requires t.active && t.hasCallback && !t.closing && t.startId == timerCounter
      modifies `timers, `timerCounter, heap
      ensures Valid() && timers == old(timers)[h := t] && timerCounter == old(timerCounter) + 1
    {
      ReadyToInsert(timers, heap.slots, h, t);
      ghost var was := heap.slots;
      timers, timerCounter := timers[h := t], timerCounter + 1;
      heap.Insert(RankOf(timers), h);
      SameNodes(was, heap.slots, {h}, {});
    }

    method TimerAgain(h: nat) returns (rc: int)
      requires Valid() && 0 < h < |timers| && timers[h].repeat < U64
      modifies `timers, `timerCounter, heap
      ensures Valid()
      ensures rc == if old(timers)[h].hasCallback then 0 else EINVAL
      ensures timers == if !old(timers)[h].hasCallback || old(timers)[h].repeat == 0 then old(timers)
                        else if old(timers)[h].closing then old(timers)[h := old(timers)[h].(active := false)]
                        else old(timers)[h := Timer(Saturated(time, old(timers)[h].repeat), old(timerCounter),
                                                    old(timers)[h].repeat, true, true, false)]
      ensures timerCounter == old(timerCounter)
        + if old(timers)[h].hasCallback && old(timers)[h].repeat != 0 && !old(timers)[h].closing then 1 else 0
    {
      if !timers[h].hasCallback {
        return EINVAL;
      }
      if timers[h].repeat != 0 {
        TimerStop(h);
        var started := TimerStart(h, timers[h].hasCallback, timers[h].repeat, timers[h].repeat);
      }
      return 0;
    }

    /** How long to wait for the next timer, at most INT_MAX; -1 if there is none. */
    method NextTimeout() returns (r: int)
      requires Valid()
      ensures r == -1 <==> forall h :: 0 < h < |timers| ==> !timers[h].active
      ensures r == 0 <==> Due(timers, time) != {}
      ensures r > 0 ==> forall h :: 0 < h < |timers| && timers[h].active ==> time + r <= timers[h].timeout
      ensures 0 < r < INT_MAX ==> exists h :: 0 < h < |timers| && timers[h].active && timers[h].timeout == time + r
    {
      var h := heap.min;
      FirstIsNext(timers, heap.slots, h);
      if h == NULL {
        return -1;
      }
      if timers[h].timeout <= time {
        assert h in Due(timers, time) by {
          assert IsDue(timers, time, h);
        }
        return 0;
      }
      var diff := timers[h].timeout - time;
      if diff > INT_MAX {
        diff := INT_MAX;
      }
      return diff;
    }

    method SetRepeat(h: nat, repeat: nat)
      requires Valid() && 0 < h < |timers|
      modifies `timers
      ensures Valid() && timers == old(timers)[h := old(timers)[h].(repeat := repeat)]
    {
      assert RankOf(timers[h := timers[h].(repeat := repeat)]) == RankOf(timers);
      timers := timers[h := timers[h].(repeat := repeat)];
    }

    ghost function Now(): Clock
      reads this
    {
      Clock(timers, timerCounter)
    }

    /** One of the calls that callbacks make. */
    method Perform(call: Call)
      requires Valid() && CallOk(|timers|, call) && RepeatsOk(timers)
      modifies `timers, `timerCounter, heap
      ensures Valid() && RepeatsOk(timers) && Now() == Called(old(Now()), time, call)
    {
      match call
      case Start(h, hasCallback, timeout, repeat) =>
        var rc := TimerStart(h, hasCallback, timeout, repeat);
      case Stop(h) =>
        TimerStop(h);
      case Again(h) =>
        var rc := TimerAgain(h);
      case SetRepeat(h, repeat) =>
        SetRepeat(h, repeat);
    }

    /** Stops a timer that is due, starts it anew if it repeats, and calls its callback. */
    method RunOne(h: nat, calls: seq<Call>)
      requires Valid() && RepeatsOk(timers) && IsFirst(timers, time, h)
      requires forall i :: 0 <= i < |calls| ==> CallOk(|timers|, calls[i])
      modifies `timers, `timerCounter, heap
      ensures Valid() && RepeatsOk(timers) && Now() == AfterCallback(old(Now()), time, h, calls)
    {
      hide Earlier, Called;
      Perform(Stop(h));
      Perform(Again(h));
      ghost var mid := Now();
      for i := 0 to |calls|
        invariant Valid() && RepeatsOk(timers) && Now() == AllCalled(mid, time, calls[..i])
      {
        assert calls[..i + 1] == calls[..i] + [calls[i]];
        Perform(calls[i]);
      }
      assert calls[..|calls|] == calls;
    }

    /** Runs the first timer that is due until none is.  The k-th callback makes the k-th list of calls, and
        when there are no more lists, none; any run that ends is such a run.  A timer that no callback
        touches runs if and only if it is due, once, and in its place. */
    method RunTimers(scripts: seq<seq<Call>>) returns (fired: seq<nat>, ghost states: seq<Clock>)
      requires Valid() && time < U64 - 1 && RepeatsOk(timers)
      requires forall k, i :: 0 <= k < |scripts| && 0 <= i < |scripts[k]| ==> CallOk(|timers|, scripts[k][i])
      modifies `timers, `timerCounter, heap
      ensures Valid() && |timers| == |old(timers)| && Due(timers, time) == {}
      ensures |states| == |fired| + 1 && states[0] == old(Now()) && states[|fired|] == Now()
      ensures forall k :: 0 <= k < |fired| ==> RanAt(states, time, fired, scripts, k)
      ensures forall h :: 0 < h < |timers| && h !in Touched(scripts) ==> (h in fired <==> h in Due(old(timers), time))
      ensures forall h :: 0 < h < |timers| && h !in Touched(scripts) ==>
                if h in fired then WasRun(old(timers)[h], timers[h], time) else timers[h] == old(timers)[h]
      ensures forall a, b :: 0 <= a < b < |fired| && fired[a] !in Touched(scripts) && fired[b] !in Touched(scripts) ==>
                fired[a] != fired[b] && Earlier(old(timers), fired[a], fired[b])
    {
      hide RanAt, Touched, Earlier;
      fired, states := [], [Now()];
      ghost var touched := Touched(scripts);
      NothingRan(timers, time, touched);
      while true
        invariant Valid() && RepeatsOk(timers) && Running(old(timers), timers, time, fired, touched)
        invariant |states| == |fired| + 1 && states[0] == old(Now()) && states[|fired|] == Now()
        invariant forall k :: 0 <= k < |fired| ==> RanAt(states, time, fired, scripts, k)
        decreases if |fired| < |scripts| then |scripts| - |fired| else 0, Due(timers, time)
      {
        var h := heap.min;
        FirstIsNext(timers, heap.slots, h);
        if h == NULL || timers[h].timeout > time {
          break;
        }
        ghost var was := Now();
        var calls := CallsAt(scripts, |fired|);
        CallsAreOk(|timers|, scripts, |fired|);
        RunOne(h, calls);
        RunsOne(old(timers), was, Now(), time, fired, h, calls, scripts);
        RanOneMore(states, time, fired, scripts, h, Now());
        fired, states := fired + [h], states + [Now()];
      }
      RunEnds(old(timers), timers, time, fired, touched);
    }
  }

  // ---------------------------------------------------------------------------------------------
  // What callbacks do

  datatype Call =
    | Start(h: nat, hasCallback: bool, timeout: nat, repeat: nat)
    | Stop(h: nat)
    | Again(h: nat)
    | SetRepeat(h: nat, repeat: nat)

  predicate CallOk(n: nat, call: Call) {
    0 < call.h < n && (call.Start? ==> call.timeout < U64) && (call.Start? || call.SetRepeat? ==> call.repeat < U64)
  }

  predicate RepeatsOk(timers: seq<Timer>) {
    forall h :: 0 < h < |timers| ==> timers[h].repeat < U64
  }

  datatype Clock = Clock(timers: seq<Timer>, counter: nat)

  ghost function Called(c: Clock, time: nat, call: Call): (r: Clock)
    requires call.h < |c.timers|
    ensures |r.timers| == |c.timers| && forall n :: 0 <= n < |c.timers| && n != call.h ==> r.timers[n] == c.timers[n]
  {
    var t := c.timers[call.h];
    match call
    case Start(h, hasCallback, timeout, repeat) =>
      if t.closing || !hasCallback then c else Started(c, time, h, timeout, repeat)
    case Stop(h) => Clock(c.timers[h := t.(active := false)], c.counter)
    case Again(h) =>
      if !t.hasCallback || t.repeat == 0 then c
      else if t.closing then Clock(c.timers[h := t.(active := false)], c.counter)
      else Started(c, time, h, t.repeat, t.repeat)
    case SetRepeat(h, repeat) => Clock(c.timers[h := t.(repeat := repeat)], c.counter)
  }

  ghost function Started(c: Clock, time: nat, h: nat, timeout: nat, repeat: nat): Clock
    requires h < |c.timers|
  {
    Clock(c.timers[h := Timer(Saturated(time, timeout), c.counter, repeat, true, true, false)], c.counter + 1)
  }

  ghost function AllCalled(c: Clock, time: nat, calls: seq<Call>): (r: Clock)
    requires forall i :: 0 <= i < |calls| ==> CallOk(|c.timers|, calls[i])
    ensures |r.timers| == |c.timers|
  {
    if calls == [] then c
    else
      assert CallOk(|c.timers|, calls[|calls| - 1]);
      Called(AllCalled(c, time, calls[..|calls| - 1]), time, calls[|calls| - 1])
  }

  ghost function AfterCallback(c: Clock, time: nat, h: nat, calls: seq<Call>): Clock
    requires h < |c.timers| && forall i :: 0 <= i < |calls| ==> CallOk(|c.timers|, calls[i])
  {
    AllCalled(Called(Called(c, time, Stop(h)), time, Again(h)), time, calls)
  }

  /** A timer is stopped and started anew before its callback, so that what the callback does to it stands, and
      what the callback starts comes after it. */
  lemma CallbackHasTheLastWord(c: Clock, time: nat, h: nat, calls: seq<Call>, g: nat, timeout: nat, repeat: nat)
    requires h < |c.timers| && g < |c.timers| && forall i :: 0 <= i < |calls| ==> CallOk(|c.timers|, calls[i])
    ensures calls != [] && calls[|calls| - 1] == Stop(h) ==> !AfterCallback(c, time, h, calls).timers[h].active
    ensures calls == [Start(g, true, timeout, repeat)] && g != h && c.timers[h].hasCallback && c.timers[h].repeat > 0
            && !c.timers[h].closing && !c.timers[g].closing ==>
              var r := AfterCallback(c, time, h, calls);
              r.timers[h].active && r.timers[g].active && r.timers[h].startId < r.timers[g].startId
  {
    if calls == [Start(g, true, timeout, repeat)] {
      assert calls[..0] == [] && CallOk(|c.timers|, calls[0]);
      assert AllCalled(Called(Called(c, time, Stop(h)), time, Again(h)), time, calls[..0])
             == Called(Called(c, time, Stop(h)), time, Again(h));
    }
  }

  function CallsAt(scripts: seq<seq<Call>>, k: nat): seq<Call> {
    if k < |scripts| then scripts[k] else []
  }

  /** The timers that callbacks start, stop or change. */
  ghost function Touched(scripts: seq<seq<Call>>): set<nat> {
    set k, i | 0 <= k < |scripts| && 0 <= i < |scripts[k]| :: scripts[k][i].h
  }

  lemma CallsAreOk(n: nat, scripts: seq<seq<Call>>, k: nat)
    requires forall k, i :: 0 <= k < |scripts| && 0 <= i < |scripts[k]| ==> CallOk(n, scripts[k][i])
    ensures forall i :: 0 <= i < |CallsAt(scripts, k)| ==> CallOk(n, CallsAt(scripts, k)[i])
  {
  }

  /** The k-th timer to run was the first of those due, and its callback did what the script says. */
  ghost predicate RanAt(states: seq<Clock>, time: nat, fired: seq<nat>, scripts: seq<seq<Call>>, k: nat)
    requires k < |fired| < |states|
  {
    && IsFirst(states[k].timers, time, fired[k])
    && (forall i :: 0 <= i < |CallsAt(scripts, k)| ==> CallOk(|states[k].timers|, CallsAt(scripts, k)[i]))
    && states[k + 1] == AfterCallback(states[k], time, fired[k], CallsAt(scripts, k))
  }

  ghost predicate IsFirst(timers: seq<Timer>, time: nat, h: nat) {
    IsDue(timers, time, h) && forall n: nat :: IsActive(timers, n) && n != h ==> Earlier(timers, h, n)
  }

  lemma RanOneMore(states: seq<Clock>, time: nat, fired: seq<nat>, scripts: seq<seq<Call>>, h: nat, now: Clock)
    requires |states| == |fired| + 1 && IsFirst(states[|fired|].timers, time, h)
    requires forall i :: 0 <= i < |CallsAt(scripts, |fired|)| ==>
              CallOk(|states[|fired|].timers|, CallsAt(scripts, |fired|)[i])
    requires now == AfterCallback(states[|fired|], time, h, CallsAt(scripts, |fired|))
    requires forall k :: 0 <= k < |fired| ==> RanAt(states, time, fired, scripts, k)
    ensures forall k :: 0 <= k <= |fired| ==> RanAt(states + [now], time, fired + [h], scripts, k)
  {
    hide IsFirst, AfterCallback;
    forall k | 0 <= k < |fired|
      ensures RanAt(states + [now], time, fired + [h], scripts, k)
    {
      assert RanAt(states, time, fired, scripts, k);
    }
  }

  lemma {:induction false} OthersUntouched(c: Clock, time: nat, calls: seq<Call>, n: nat)
    requires n < |c.timers| && forall i :: 0 <= i < |calls| ==> CallOk(|c.timers|, calls[i]) && calls[i].h != n
    ensures AllCalled(c, time, calls).timers[n] == c.timers[n]
  {
    hide Called;
    if calls != [] {
      OthersUntouched(c, time, calls[..|calls| - 1], n);
    }
  }

  /** What running a due timer makes of it. */
  ghost predicate WasRun(before: Timer, after: Timer, time: nat) {
    if before.repeat == 0 then after == before.(active := false)
    else
      && after.active && after.repeat == before.repeat
      && after.timeout == Saturated(time, before.repeat) && after.timeout > time
  }

  /** In the middle of a run: of the timers that callbacks do not touch, what has fired came first among what
      was active, and in order. */
  ghost predicate Running(before: seq<Timer>, now: seq<Timer>, time: nat, fired: seq<nat>, touched: set<nat>) {
    && |now| == |before|
    && (forall h :: h in fired && h !in touched ==> IsDue(before, time, h) && WasRun(before[h], now[h], time))
    && (forall h :: 0 <= h < |now| && h !in fired && h !in touched ==> now[h] == before[h])
    && (forall a, b :: 0 <= a < b < |fired| && fired[a] !in touched && fired[b] !in touched ==>
          fired[a] != fired[b] && Earlier(before, fired[a], fired[b]))
    && forall f, n :: f in fired && f !in touched && n !in fired && n !in touched && IsActive(before, n) ==>
         Earlier(before, f, n)
  }

  ghost predicate IsActive(timers: seq<Timer>, n: nat) {
    0 < n < |timers| && timers[n].active
  }

  lemma NothingRan(timers: seq<Timer>, time: nat, touched: set<nat>)
    ensures Running(timers, timers, time, [], touched)
  {
  }

  /** One timer runs, before its callback is called. */
  lemma RunsAlone(before: seq<Timer>, was: seq<Timer>, now: seq<Timer>, time: nat, fired: seq<nat>, h: nat,
                  touched: set<nat>)
    requires Running(before, was, time, fired, touched) && IsFirst(was, time, h)
    requires |now| == |was| && now == was[h := now[h]] && WasRun(was[h], now[h], time)
    ensures Running(before, now, time, fired + [h], touched)
  {
    var fired' := fired + [h];
    if h !in touched {
      assert h !in fired;
      forall n | n !in fired' && n !in touched && IsActive(before, n)
        ensures Earlier(before, h, n)
      {
        assert IsActive(was, n);
      }
    }
  }

  lemma Untouched(before: seq<Timer>, now: seq<Timer>, now': seq<Timer>, time: nat, fired: seq<nat>, touched: set<nat>)
    requires Running(before, now, time, fired, touched) && |now'| == |now|
    requires forall n :: 0 <= n < |now| && n !in touched ==> now'[n] == now[n]
    ensures Running(before, now', time, fired, touched)
  {
  }

  lemma OneRun(c: Clock, time: nat, h: nat) returns (mid: Clock)
    requires time < U64 - 1 && 0 < h < |c.timers| && IsDue(c.timers, time, h)
    requires c.timers[h].hasCallback && !c.timers[h].closing
    ensures mid == Called(Called(c, time, Stop(h)), time, Again(h))
    ensures |mid.timers| == |c.timers| && mid.timers == c.timers[h := mid.timers[h]]
    ensures WasRun(c.timers[h], mid.timers[h], time)
    ensures Due(mid.timers, time) < Due(c.timers, time)
  {
    mid := Called(Called(c, time, Stop(h)), time, Again(h));
    assert forall n :: n in Due(mid.timers, time) ==> IsDue(c.timers, time, n);
    assert h in Due(c.timers, time) && h !in Due(mid.timers, time);
  }

  lemma RunsOne(before: seq<Timer>, was: Clock, now: Clock, time: nat, fired: seq<nat>, h: nat, calls: seq<Call>,
                scripts: seq<seq<Call>>)
    requires Running(before, was.timers, time, fired, Touched(scripts)) && IsFirst(was.timers, time, h)
    requires time < U64 - 1
    requires was.timers[h].hasCallback && !was.timers[h].closing && calls == CallsAt(scripts, |fired|)
    requires forall i :: 0 <= i < |calls| ==> CallOk(|was.timers|, calls[i])
    requires now == AfterCallback(was, time, h, calls)
    ensures Running(before, now.timers, time, fired + [h], Touched(scripts))
    ensures |fired| >= |scripts| ==> Due(now.timers, time) < Due(was.timers, time)
  {
    hide Running, WasRun, Due, Called;
    var mid := OneRun(was, time, h);
    RunsAlone(before, was.timers, mid.timers, time, fired, h, Touched(scripts));
    forall n | 0 <= n < |mid.timers| && n !in Touched(scripts)
      ensures now.timers[n] == mid.timers[n]
    {
      OthersUntouched(mid, time, calls, n);
    }
    Untouched(before, mid.timers, now.timers, time, fired + [h], Touched(scripts));
  }

  lemma RunEnds(before: seq<Timer>, now: seq<Timer>, time: nat, fired: seq<nat>, touched: set<nat>)
    requires Running(before, now, time, fired, touched) && forall n: nat :: IsActive(now, n) ==> now[n].timeout > time
    ensures Due(now, time) == {}
    ensures forall h :: 0 < h < |now| && h !in touched ==> (h in fired <==> h in Due(before, time))
    ensures forall h :: 0 < h < |now| && h !in touched ==>
              if h in fired then WasRun(before[h], now[h], time) else now[h] == before[h]
  {
    forall h | h in Due(before, time) && h !in touched
      ensures h in fired
    {
      if h !in fired {
        assert IsActive(now, h);
      }
    }
  }

  /** The root of the heap is the active timer that comes first. */
  lemma FirstIsNext(timers: seq<Timer>, slots: seq<nat>, h: nat)
    requires Ordered(RankOf(timers), slots) && Ranked(RankOf(timers), slots) && NULL !in slots && h == Slot(slots, 0)
    requires forall n :: 0 < n < |timers| ==> (n in slots <==> timers[n].active)
    ensures h == NULL <==> forall n :: 0 < n < |timers| ==> !timers[n].active
    ensures h != NULL ==> h < |timers| && timers[h].active
    ensures h != NULL ==> forall n :: 0 < n < |timers| && timers[n].active && n != h ==>
                            Earlier(timers, h, n) && timers[h].timeout <= timers[n].timeout
  {
    assert forall k :: 0 <= k < |slots| ==> slots[k] in slots && 0 < slots[k] < |timers|;
    forall n | 0 < n < |timers| && timers[n].active && n != h
      ensures h != NULL && Earlier(timers, h, n) && timers[h].timeout <= timers[n].timeout
    {
      var k :| 0 <= k < |slots| && slots[k] == n;
      RootIsLeast(RankOf(timers), slots, k);
    }
  }

  lemma SameNodes(slots: seq<nat>, slots': seq<nat>, more: set<nat>, less: set<nat>)
    requires Nodes(slots') == Nodes(slots) + more - less
    ensures forall n :: n in slots' <==> (n in slots || n in more) && n !in less
  {
    assert forall n :: n in slots <==> n in Nodes(slots);
    assert forall n :: n in slots' <==> n in Nodes(slots');
  }

  /** A timer about to be started, numbered after all that run. */
  lemma ReadyToInsert(timers: seq<Timer>, slots: seq<nat>, h: nat, t: Timer)
    requires Ordered(RankOf(timers), slots) && Ranked(RankOf(timers), slots) && h < |timers| && h !in slots
    requires NULL !in slots
    requires forall n :: 0 < n < |timers| && n in slots ==> timers[n].startId < t.startId
    ensures Ordered(RankOf(timers[h := t]), slots) && Ranked(RankOf(timers[h := t]), slots + [h])
  {
    OrderKept(timers, slots, h, t);
    assert forall k :: 0 <= k < |slots| ==> slots[k] in slots && slots[k] < |timers|;
  }
}
