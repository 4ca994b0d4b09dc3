/** The thread pool: workers, a queue with a sentinel for slow I/O, cancellation and the loops that
    collect what is done (libuv src/threadpool.c).  A step is what one thread does under a mutex,
    or one call of a work or done function; a worker keeps the pool's mutex from turn to turn of
    its loop until it waits, runs work or exits. */
module ThreadPool {
  import opened Options

  /** What hangs in `wq`. */
  datatype Entry = Work(id: nat) | SlowMessage | ExitMessage

  /** The work pointer of a request: as submitted, cleared once run, or replaced by uv__cancelled. */
  datatype WorkPtr = Original | Null | Cancelled

  /** Where a request is; for the specification only. */
  datatype Place = InWq | InPending | With(worker: nat) | Cancelling | InLoop | InLocal | Delivered

  const ECANCELED: int := -125

  /** A request: `linked` unless its queue links point to itself, `cancelled` once uv_cancel has
      returned 0, how often its work ran and what its done callback was told. */
  datatype Item = Item(slow: bool, loop: nat, place: Place, linked: bool, work: WorkPtr, cancelled: bool,
                       ran: nat, results: seq<int>)

  datatype Worker =
    | Ready(slow: bool)
    | Waiting(signalled: bool)
    | Executing(id: nat, slow: bool)
    | Ran(id: nat, slow: bool)
    | Exited

  datatype Pool = Pool(workers: seq<Worker>, holder: Option<nat>, wq: seq<Entry>, pending: seq<nat>, scheduled: bool,
                       idle: int, slowRunning: int, items: seq<Item>, queues: seq<seq<nat>>, locals: seq<seq<nat>>)

  datatype Action =
    | Submit(slow: bool, loop: nat, wakes: nat)
    | PostExit(wakes: nat)
    | Lock(worker: nat)
    | Turn(worker: nat, wakes: nat)
    | Run(worker: nat)
    | Complete(worker: nat)
    | Cancel(id: nat)
    | HandOver(id: nat)
    | Move(loop: nat)
    | Deliver(loop: nat)

  function Threshold(s: Pool): int {
    (|s.workers| + 1) / 2
  }

  function Without<T(==)>(q: seq<T>, x: T): seq<T> {
    if q == [] then [] else if q[0] == x then Without(q[1..], x) else [q[0]] + Without(q[1..], x)
  }

  /** uv_cond_signal: one thread that is asleep wakes, if there is any. */
  ghost predicate Signals(ws: seq<Worker>, v: nat, ws': seq<Worker>) {
    if v < |ws| && ws[v] == Waiting(false) then ws' == ws[v := Waiting(true)]
    else (forall i :: 0 <= i < |ws| ==> ws[i] != Waiting(false)) && ws' == ws
  }

  ghost predicate SignalsIfIdle(s: Pool, v: nat, ws': seq<Worker>) {
    if s.idle > 0 then Signals(s.workers, v, ws') else ws' == s.workers
  }

  // ---------------------------------------------------------------------------------------------
  // The steps

  /** Nothing to do: an empty queue, or only slow I/O and no room for more of it. */
  predicate Blocked(s: Pool) {
    s.wq == [] || (s.wq == [SlowMessage] && s.slowRunning >= Threshold(s))
  }

  /** uv__work_submit and post. */
  ghost predicate Submits(s: Pool, slow: bool, loop: nat, v: nat, s': Pool) {
    && s.holder.None? && loop < |s.queues|
    && var id := |s.items|;
    && var items := s.items + [Item(slow, loop, if slow then InPending else InWq, true, Original, false, 0, [])];
    && if slow && s.scheduled then
         s' == s.(items := items, pending := s.pending + [id])
       else
         && SignalsIfIdle(s, v, s'.workers)
         && s' == s.(items := items, workers := s'.workers,
                     pending := if slow then s.pending + [id] else s.pending,
                     scheduled := s.scheduled || slow,
                     wq := s.wq + [if slow then SlowMessage else Work(id)])
  }

  ghost predicate PostsExit(s: Pool, v: nat, s': Pool) {
    && s.holder.None? && ExitMessage !in s.wq
    && SignalsIfIdle(s, v, s'.workers)
    && s' == s.(workers := s'.workers, wq := s.wq + [ExitMessage])
  }

  /** A worker that starts, comes back from work or wakes up takes the mutex. */
  ghost predicate Locks(s: Pool, w: nat, s': Pool) {
    && s.holder.None? && w < |s.workers|
    && match s.workers[w]
       case Ready(slow) => s' == s.(holder := Some(w), workers := s.workers[w := Ready(false)],
                                    slowRunning := if slow then s.slowRunning - 1 else s.slowRunning)
       case Waiting(_) => s' == s.(holder := Some(w), workers := s.workers[w := Ready(false)], idle := s.idle - 1)
       case _ => false
  }

  function Taken(item: Item, w: nat): Item {
    item.(linked := false, place := With(w))
  }

  /** One turn of the worker's loop. */
  ghost predicate Turns(s: Pool, w: nat, v: nat, s': Pool) {
    && s.holder == Some(w) && w < |s.workers|
    && if Blocked(s) then
         s' == s.(holder := None, workers := s.workers[w := Waiting(false)], idle := s.idle + 1)
       else
         match s.wq[0]
         case ExitMessage =>
           && Signals(s.workers[w := Exited], v, s'.workers)
           && s' == s.(holder := None, workers := s'.workers)
         case Work(id) =>
           && id < |s.items|
           && s' == s.(holder := None, wq := s.wq[1..], items := s.items[id := Taken(s.items[id], w)],
                       workers := s.workers[w := Executing(id, false)])
         case SlowMessage => TakesMessage(s, w, v, s')
  }

  ghost predicate TakesMessage(s: Pool, w: nat, v: nat, s': Pool)
    requires s.wq != [] && w < |s.workers|
  {
    var rest := s.wq[1..];
    if s.slowRunning >= Threshold(s) then
      s' == s.(wq := rest + [SlowMessage])
    else if s.pending == [] then
      s' == s.(wq := rest, scheduled := false)
    else
      && s.pending[0] < |s.items|
      && var id := s.pending[0];
      && var more := s.pending[1..];
      && var busy := s.(workers := s.workers[w := Executing(id, true)]);
      && (if more == [] then s'.workers == busy.workers else SignalsIfIdle(busy, v, s'.workers))
      && s' == s.(holder := None, wq := if more == [] then rest else rest + [SlowMessage], scheduled := more != [],
                  pending := more, slowRunning := s.slowRunning + 1,
                  items := s.items[id := Taken(s.items[id], w)], workers := s'.workers)
  }

  /** The work function runs; uv__cancelled would abort. */
  ghost predicate Runs(s: Pool, w: nat, s': Pool) {
    && w < |s.workers| && s.workers[w].Executing?
    && var id := s.workers[w].id;
    && id < |s.items| && s.items[id].work.Original?
    && s' == s.(workers := s.workers[w := Ran(id, s.workers[w].slow)],
                items := s.items[id := s.items[id].(ran := s.items[id].ran + 1)])
  }

  ghost predicate Completes(s: Pool, w: nat, s': Pool) {
    && w < |s.workers| && s.workers[w].Ran?
    && var id := s.workers[w].id;
    && id < |s.items| && s.items[id].loop < |s.queues|
    && var l := s.items[id].loop;
    && s' == s.(workers := s.workers[w := Ready(s.workers[w].slow)],
                items := s.items[id := s.items[id].(work := Null, linked := true, place := InLoop)],
                queues := s.queues[l := s.queues[l] + [id]])
  }

  /** uv__work_cancel up to its unlocking, of a request whose done callback has not been called. */
  ghost predicate Cancels(s: Pool, id: nat, s': Pool) {
    && s.holder.None? && id < |s.items|
    && var item := s.items[id];
    && item.loop < |s.queues| && item.loop < |s.locals|
    && !item.place.Delivered? && !item.place.Cancelling?
    && if item.linked && !item.work.Null? then
         s' == s.(wq := Without(s.wq, Work(id)), pending := Without(s.pending, id),
                  queues := s.queues[item.loop := Without(s.queues[item.loop], id)],
                  locals := s.locals[item.loop := Without(s.locals[item.loop], id)],
                  items := s.items[id := item.(place := Cancelling, cancelled := true)])
       else s' == s
  }

  /** The rest of uv__work_cancel, where it has not returned UV_EBUSY. */
  ghost predicate HandsOver(s: Pool, id: nat, s': Pool) {
    && id < |s.items| && s.items[id].place.Cancelling? && s.items[id].loop < |s.queues|
    && var l := s.items[id].loop;
    && s' == s.(items := s.items[id := s.items[id].(work := Cancelled, linked := true, place := InLoop)],
                queues := s.queues[l := s.queues[l] + [id]])
  }

  /** uv__work_done takes over all that is done. */
  ghost predicate Moves(s: Pool, l: nat, s': Pool) {
    && l < |s.queues| && l < |s.locals| && s.locals[l] == []
    && |s'.items| == |s.items|
    && (forall id :: 0 <= id < |s.items| ==>
          s'.items[id] == if s.items[id].place.InLoop? && s.items[id].loop == l then s.items[id].(place := InLocal)
                          else s.items[id])
    && s' == s.(items := s'.items, locals := s.locals[l := s.queues[l]], queues := s.queues[l := []])
  }

  /** The done callback is called. */
  ghost predicate Delivers(s: Pool, l: nat, s': Pool) {
    && l < |s.locals| && s.locals[l] != []
    && var id := s.locals[l][0];
    && id < |s.items|
    && var err := if s.items[id].work.Cancelled? then ECANCELED else 0;
    && s' == s.(locals := s.locals[l := s.locals[l][1..]],
                items := s.items[id := s.items[id].(place := Delivered, results := s.items[id].results + [err])])
  }

  ghost predicate Step(s: Pool, a: Action, s': Pool) {
    match a
    case Submit(slow, loop, v) => Submits(s, slow, loop, v, s')
    case PostExit(v) => PostsExit(s, v, s')
    case Lock(w) => Locks(s, w, s')
    case Turn(w, v) => Turns(s, w, v, s')
    case Run(w) => Runs(s, w, s')
    case Complete(w) => Completes(s, w, s')
    case Cancel(id) => Cancels(s, id, s')
    case HandOver(id) => HandsOver(s, id, s')
    case Move(l) => Moves(s, l, s')
    case Deliver(l) => Delivers(s, l, s')
  }

  // ---------------------------------------------------------------------------------------------
  // The invariant: workers and counters

  predicate IsIdle(w: Worker) {
    w.Waiting?
  }

  predicate IsAsleep(w: Worker) {
    w == Waiting(false)
  }

  /** On its way to look at the queue. */
  predicate IsLooking(w: Worker) {
    w.Ready? || w == Waiting(true)
  }

  predicate IsSlow(w: Worker) {
    (w.Ready? && w.slow) || (w.Executing? && w.slow) || (w.Ran? && w.slow)
  }

  /** In the middle of slow work, as opposed to done with it but not yet back at the mutex. */
  predicate IsSlowBusy(w: Worker) {
    (w.Executing? && w.slow) || (w.Ran? && w.slow)
  }

  function Count(ws: seq<Worker>, p: Worker -> bool): (n: nat)
    ensures n <= |ws|
  {
    if ws == [] then 0 else Count(ws[..|ws| - 1], p) + (if p(ws[|ws| - 1]) then 1 else 0)
  }

  lemma {:induction false} CountUpdate(ws: seq<Worker>, i: nat, x: Worker, p: Worker -> bool)
    requires i < |ws|
    ensures Count(ws[i := x], p) == Count(ws, p) - (if p(ws[i]) then 1 else 0) + (if p(x) then 1 else 0)
  {
    var last := |ws| - 1;
    if i < last {
      CountUpdate(ws[..last], i, x, p);
      assert ws[i := x][..last] == ws[..last][i := x];
    } else {
      assert ws[i := x][..last] == ws[..last];
    }
  }

  lemma {:induction false} CountPositive(ws: seq<Worker>, p: Worker -> bool) returns (i: nat)
    requires Count(ws, p) > 0
    ensures i < |ws| && p(ws[i])
  {
    if p(ws[|ws| - 1]) {
      i := |ws| - 1;
    } else {
      i := CountPositive(ws[..|ws| - 1], p);
    }
  }

  lemma {:induction false} CountZero(ws: seq<Worker>, p: Worker -> bool, i: nat)
    requires i < |ws| && p(ws[i])
    ensures Count(ws, p) > 0
  {
    if i < |ws| - 1 {
      CountZero(ws[..|ws| - 1], p, i);
    }
  }

  /** The entries that slow work under way does not keep from being taken. */
  function Takeable(s: Pool): int {
    |s.wq| - (if s.scheduled && Count(s.workers, IsSlowBusy) >= Threshold(s) then 1 else 0)
  }

  ghost predicate CountersInv(s: Pool) {
    && |s.workers| >= 1
    && (s.holder.Some? ==> s.holder.value < |s.workers| && s.workers[s.holder.value] == Ready(false))
    && s.idle == Count(s.workers, IsIdle)
    && s.slowRunning == Count(s.workers, IsSlow) <= Threshold(s)
  }

  /** While a worker sleeps, at least as many are on their way as there are entries to take. */
  ghost predicate NoneSleepsInVain(s: Pool) {
    Count(s.workers, IsAsleep) > 0 ==> Count(s.workers, IsLooking) >= Takeable(s)
  }

  lemma CountsUpdate(ws: seq<Worker>, i: nat, x: Worker)
    requires i < |ws|
    ensures var before, more := ws[i], ws[i := x];
            && Count(more, IsIdle) == Count(ws, IsIdle) - (if IsIdle(before) then 1 else 0)
                                      + (if IsIdle(x) then 1 else 0)
            && Count(more, IsAsleep) == Count(ws, IsAsleep) - (if IsAsleep(before) then 1 else 0)
                                      + (if IsAsleep(x) then 1 else 0)
            && Count(more, IsLooking) == Count(ws, IsLooking) - (if IsLooking(before) then 1 else 0)
                                      + (if IsLooking(x) then 1 else 0)
            && Count(more, IsSlowBusy) == Count(ws, IsSlowBusy) - (if IsSlowBusy(before) then 1 else 0)
                                      + (if IsSlowBusy(x) then 1 else 0)
            && Count(more, IsSlow) == Count(ws, IsSlow) - (if IsSlow(before) then 1 else 0)
                                      + (if IsSlow(x) then 1 else 0)
  {
    CountUpdate(ws, i, x, IsIdle);
    CountUpdate(ws, i, x, IsAsleep);
    CountUpdate(ws, i, x, IsLooking);
    CountUpdate(ws, i, x, IsSlow);
    CountUpdate(ws, i, x, IsSlowBusy);
  }

  lemma SignalCounts(ws: seq<Worker>, v: nat, ws': seq<Worker>)
    requires Signals(ws, v, ws')
    ensures |ws'| == |ws| && Count(ws', IsIdle) == Count(ws, IsIdle) && Count(ws', IsSlow) == Count(ws, IsSlow)
    ensures Count(ws', IsSlowBusy) == Count(ws, IsSlowBusy)
    ensures Count(ws, IsAsleep) > 0 ==>
              Count(ws', IsAsleep) == Count(ws, IsAsleep) - 1 && Count(ws', IsLooking) == Count(ws, IsLooking) + 1
    ensures Count(ws, IsAsleep) == 0 ==> ws' == ws
    ensures forall i :: 0 <= i < |ws| && ws[i] != Waiting(false) ==> ws'[i] == ws[i]
  {
    if v < |ws| && ws[v] == Waiting(false) {
      CountsUpdate(ws, v, Waiting(true));
      CountZero(ws, IsAsleep, v);
    } else if Count(ws, IsAsleep) > 0 {
      var i := CountPositive(ws, IsAsleep);
    }
  }

  lemma {:induction false} AsleepIsIdle(ws: seq<Worker>)
    ensures Count(ws, IsAsleep) <= Count(ws, IsIdle)
  {
    if ws != [] {
      AsleepIsIdle(ws[..|ws| - 1]);
    }
  }

  /** A signal where some thread is idle, or none where none is: one that is asleep wakes if there is any. */
  lemma IdleSignalCounts(s: Pool, v: nat, ws': seq<Worker>)
    requires SignalsIfIdle(s, v, ws') && s.idle == Count(s.workers, IsIdle)
    ensures var ws := s.workers;
            && |ws'| == |ws| && Count(ws', IsIdle) == Count(ws, IsIdle) && Count(ws', IsSlow) == Count(ws, IsSlow)
            && Count(ws', IsSlowBusy) == Count(ws, IsSlowBusy)
            && (Count(ws, IsAsleep) > 0 ==>
                  Count(ws', IsAsleep) == Count(ws, IsAsleep) - 1 && Count(ws', IsLooking) == Count(ws, IsLooking) + 1)
            && (Count(ws, IsAsleep) == 0 ==> ws' == ws)
            && (forall i :: 0 <= i < |ws| && ws[i] != Waiting(false) ==> ws'[i] == ws[i])
  {
    AsleepIsIdle(s.workers);
    if s.idle > 0 {
      SignalCounts(s.workers, v, ws');
    }
  }

  /** Slow work that is not under way any more is a worker's on its way back. */
  lemma {:induction false} SlowSplits(ws: seq<Worker>)
    ensures Count(ws, IsSlowBusy) <= Count(ws, IsSlow) <= Count(ws, IsSlowBusy) + Count(ws, IsLooking)
  {
    if ws != [] {
      SlowSplits(ws[..|ws| - 1]);
    }
  }

  ghost predicate WorkersInv(s: Pool) {
    CountersInv(s) && NoneSleepsInVain(s)
  }

  lemma SubmitKeepsWorkers(s: Pool, slow: bool, loop: nat, v: nat, s': Pool)
    requires WorkersInv(s) && Submits(s, slow, loop, v, s')
    ensures WorkersInv(s')
  {
    hide Count;
    if !(slow && s.scheduled) {
      IdleSignalCounts(s, v, s'.workers);
    }
  }

  lemma ExitKeepsWorkers(s: Pool, v: nat, s': Pool)
    requires WorkersInv(s) && PostsExit(s, v, s')
    ensures WorkersInv(s')
  {
    IdleSignalCounts(s, v, s'.workers);
  }

  lemma LockKeepsWorkers(s: Pool, w: nat, s': Pool)
    requires WorkersInv(s) && Locks(s, w, s')
    ensures WorkersInv(s')
  {
    hide Count;
    CountsUpdate(s.workers, w, Ready(false));
  }

  lemma MessageKeepsWorkers(s: Pool, w: nat, v: nat, s': Pool)
    requires WorkersInv(s) && s.holder == Some(w) && s.wq != [] && s.wq[0].SlowMessage? && TakesMessage(s, w, v, s')
    requires s.scheduled && !Blocked(s)
    ensures WorkersInv(s')
  {
    hide Count;
    SlowSplits(s.workers);
    var busy := s.(workers := s.workers[w := Executing(if s.pending == [] then 0 else s.pending[0], true)]);
    if s.slowRunning < Threshold(s) && s.pending != [] {
      CountsUpdate(s.workers, w, busy.workers[w]);
      if s.pending[1..] != [] {
        IdleSignalCounts(busy, v, s'.workers);
      }
    }
  }

  lemma WaitKeepsWorkers(s: Pool, w: nat, v: nat, s': Pool)
    requires WorkersInv(s) && (SlowMessage in s.wq <==> s.scheduled) && Turns(s, w, v, s') && Blocked(s)
    ensures WorkersInv(s')
  {
    SlowSplits(s'.workers);
    CountsUpdate(s.workers, w, Waiting(false));
    hide Count;
  }

  lemma ExitingKeepsWorkers(s: Pool, w: nat, v: nat, s': Pool)
    requires WorkersInv(s) && Turns(s, w, v, s') && !Blocked(s) && s.wq[0].ExitMessage?
    ensures WorkersInv(s')
  {
    CountsUpdate(s.workers, w, Exited);
    SignalCounts(s.workers[w := Exited], v, s'.workers);
    hide Count, Signals, Turns;
  }

  lemma TakeKeepsWorkers(s: Pool, w: nat, v: nat, s': Pool)
    requires WorkersInv(s) && Turns(s, w, v, s') && !Blocked(s) && s.wq[0].Work?
    ensures WorkersInv(s')
  {
    CountsUpdate(s.workers, w, Executing(s.wq[0].id, false));
    hide Count;
  }

  lemma TurnKeepsWorkers(s: Pool, w: nat, v: nat, s': Pool)
    requires WorkersInv(s) && (SlowMessage in s.wq <==> s.scheduled) && Turns(s, w, v, s')
    ensures WorkersInv(s')
  {
    hide WorkersInv, Count;
    if Blocked(s) {
      WaitKeepsWorkers(s, w, v, s');
    } else if s.wq[0].SlowMessage? {
      MessageKeepsWorkers(s, w, v, s');
    } else if s.wq[0].Work? {
      TakeKeepsWorkers(s, w, v, s');
    } else {
      ExitingKeepsWorkers(s, w, v, s');
    }
  }

  lemma RunKeepsWorkers(s: Pool, a: Action, s': Pool)
    requires WorkersInv(s) && (a.Run? || a.Complete?) && Step(s, a, s')
    ensures WorkersInv(s')
  {
    hide Count;
    CountsUpdate(s.workers, a.worker, s'.workers[a.worker]);
  }

  // ---------------------------------------------------------------------------------------------
  // The invariant: requests

  ghost predicate Distinct<T(!new)>(q: seq<T>) {
    forall i, j :: 0 <= i < j < |q| ==> q[i] != q[j]
  }

  ghost predicate IsAt(items: seq<Item>, id: nat, p: Place) {
    id < |items| && items[id].place == p
  }

  ghost predicate IsIn(items: seq<Item>, id: nat, l: nat, p: Place) {
    id < |items| && items[id].place == p && items[id].loop == l
  }

  ghost predicate WqInv(wq: seq<Entry>, scheduled: bool, items: seq<Item>) {
    && Distinct(wq) && (SlowMessage in wq <==> scheduled)
    && forall id: nat :: Work(id) in wq <==> IsAt(items, id, InWq)
  }

  ghost predicate PendingInv(pending: seq<nat>, scheduled: bool, items: seq<Item>) {
    && Distinct(pending) && (pending != [] ==> scheduled)
    && forall id: nat :: id in pending <==> IsAt(items, id, InPending)
  }

  ghost predicate LoopInv(q: seq<nat>, l: nat, p: Place, items: seq<Item>) {
    Distinct(q) && forall id: nat :: id in q <==> IsIn(items, id, l, p)
  }

  ghost predicate LoopsInv(queues: seq<seq<nat>>, locals: seq<seq<nat>>, items: seq<Item>) {
    && |queues| == |locals| && (forall id :: 0 <= id < |items| ==> items[id].loop < |queues|)
    && (forall l :: 0 <= l < |queues| ==> LoopInv(queues[l], l, InLoop, items))
    && (forall l :: 0 <= l < |locals| ==> LoopInv(locals[l], l, InLocal, items))
  }

  ghost predicate HasInHand(w: Worker, id: nat) {
    (w.Executing? || w.Ran?) && w.id == id
  }

  ghost predicate HandInv(w: nat, worker: Worker, items: seq<Item>) {
    worker.Executing? || worker.Ran? ==> IsAt(items, worker.id, With(w))
  }

  ghost predicate HandsInv(workers: seq<Worker>, items: seq<Item>) {
    forall w :: 0 <= w < |workers| ==> HandInv(w, workers[w], items)
  }

  /** Run exactly if it was not cancelled, and marked accordingly. */
  ghost predicate Settled(item: Item) {
    if item.cancelled then item.work.Cancelled? && item.ran == 0 else item.work.Null? && item.ran == 1
  }

  ghost predicate ItemOk(item: Item, id: nat, workers: seq<Worker>) {
    match item.place
    case InWq => item.work.Original? && item.linked && !item.cancelled && item.ran == 0 && item.results == []
                 && !item.slow
    case InPending => item.work.Original? && item.linked && !item.cancelled && item.ran == 0 && item.results == []
                      && item.slow
    case With(w) =>
      && w < |workers| && HasInHand(workers[w], id)
      && item.work.Original? && !item.linked && !item.cancelled && item.results == []
      && item.ran == (if workers[w].Ran? then 1 else 0) && item.slow == workers[w].slow
    case Cancelling => item.cancelled && item.linked && !item.work.Null? && item.ran == 0 && item.results == []
    case InLoop => item.linked && item.results == [] && Settled(item)
    case InLocal => item.linked && item.results == [] && Settled(item)
    case Delivered => item.results == [if item.cancelled then ECANCELED else 0] && Settled(item)
  }

  ghost predicate ItemsInv(items: seq<Item>, workers: seq<Worker>) {
    forall id :: 0 <= id < |items| ==> ItemOk(items[id], id, workers)
  }

  ghost predicate RequestsInv(s: Pool) {
    && WqInv(s.wq, s.scheduled, s.items) && PendingInv(s.pending, s.scheduled, s.items)
    && LoopsInv(s.queues, s.locals, s.items) && HandsInv(s.workers, s.items) && ItemsInv(s.items, s.workers)
  }

  lemma {:induction false} WithoutKeeps<T(!new)>(q: seq<T>, x: T)
    requires Distinct(q)
    ensures Distinct(Without(q, x)) && (forall y :: y in Without(q, x) <==> y in q && y != x)
    ensures |Without(q, x)| == |q| - (if x in q then 1 else 0)
  {
    if q != [] {
      assert Distinct(q[1..]);
      WithoutKeeps(q[1..], x);
      assert q == [q[0]] + q[1..];
      assert q[0] !in q[1..];
    }
  }

  lemma Appended<T(!new)>(q: seq<T>, x: T)
    requires Distinct(q) && x !in q
    ensures Distinct(q + [x]) && forall y :: y in q + [x] <==> y in q || y == x
  {
  }

  lemma Shifted<T(!new)>(q: seq<T>)
    requires Distinct(q) && q != []
    ensures Distinct(q[1..]) && forall y :: y in q[1..] <==> y in q && y != q[0]
  {
    forall y
      ensures y in q[1..] <==> y in q && y != q[0]
    {
      assert q == [q[0]] + q[1..];
    }
  }

  // What becomes of each part when one request changes

  lemma WqUpdate(wq: seq<Entry>, scheduled: bool, items: seq<Item>, id: nat, x: Item)
    requires WqInv(wq, scheduled, items) && id < |items| && !items[id].place.InWq? && !x.place.InWq?
    ensures WqInv(wq, scheduled, items[id := x])
  {
    assert forall i: nat :: IsAt(items[id := x], i, InWq) <==> IsAt(items, i, InWq);
  }

  lemma PendingUpdate(pending: seq<nat>, scheduled: bool, items: seq<Item>, id: nat, x: Item)
    requires PendingInv(pending, scheduled, items) && id < |items| && !items[id].place.InPending? && !x.place.InPending?
    ensures PendingInv(pending, scheduled, items[id := x])
  {
    assert forall i: nat :: IsAt(items[id := x], i, InPending) <==> IsAt(items, i, InPending);
  }

  lemma LoopUpdate(q: seq<nat>, l: nat, p: Place, items: seq<Item>, id: nat, x: Item)
    requires LoopInv(q, l, p, items) && id < |items| && x.loop == items[id].loop
    requires (items[id].place != p && x.place != p) || x.loop != l
    ensures LoopInv(q, l, p, items[id := x])
  {
    assert forall i: nat :: IsIn(items[id := x], i, l, p) <==> IsIn(items, i, l, p);
  }

  lemma LoopsUpdate(queues: seq<seq<nat>>, locals: seq<seq<nat>>, items: seq<Item>, id: nat, x: Item)
    requires LoopsInv(queues, locals, items) && id < |items| && x.loop == items[id].loop
    requires items[id].place.InLoop? ==> x.place.InLoop?
    requires !items[id].place.InLocal? && !x.place.InLocal? && !items[id].place.InLoop? && !x.place.InLoop?
    ensures LoopsInv(queues, locals, items[id := x])
  {
    forall l | 0 <= l < |queues|
      ensures LoopInv(queues[l], l, InLoop, items[id := x]) && LoopInv(locals[l], l, InLocal, items[id := x])
    {
      LoopUpdate(queues[l], l, InLoop, items, id, x);
      LoopUpdate(locals[l], l, InLocal, items, id, x);
    }
  }

  /** A request joins a loop's queue. */
  lemma LoopsJoin(queues: seq<seq<nat>>, locals: seq<seq<nat>>, items: seq<Item>, id: nat, x: Item)
    requires LoopsInv(queues, locals, items) && id < |items| && x.loop == items[id].loop
    requires !items[id].place.InLocal? && !items[id].place.InLoop? && x.place.InLoop?
    ensures LoopsInv(queues[x.loop := queues[x.loop] + [id]], locals, items[id := x])
  {
    var queues' := queues[x.loop := queues[x.loop] + [id]];
    forall l | 0 <= l < |queues|
      ensures LoopInv(queues'[l], l, InLoop, items[id := x]) && LoopInv(locals[l], l, InLocal, items[id := x])
    {
      LoopUpdate(locals[l], l, InLocal, items, id, x);
      if l == x.loop {
        assert id in queues[l] <==> IsIn(items, id, l, InLoop);
        Appended(queues[l], id);
        assert forall i: nat :: IsIn(items[id := x], i, l, InLoop) <==> IsIn(items, i, l, InLoop) || i == id;
      } else {
        LoopUpdate(queues[l], l, InLoop, items, id, x);
      }
    }
  }

  /** A request leaves whatever queue of its loop it is in. */
  lemma LoopsLeave(queues: seq<seq<nat>>, locals: seq<seq<nat>>, items: seq<Item>, id: nat, x: Item)
    requires LoopsInv(queues, locals, items) && id < |items| && x.loop == items[id].loop
    requires !x.place.InLoop? && !x.place.InLocal?
    ensures LoopsInv(queues[x.loop := Without(queues[x.loop], id)], locals[x.loop := Without(locals[x.loop], id)],
          items[id := x])
  {
    var queues' := queues[x.loop := Without(queues[x.loop], id)];
    var locals' := locals[x.loop := Without(locals[x.loop], id)];
    forall l | 0 <= l < |queues|
      ensures LoopInv(queues'[l], l, InLoop, items[id := x]) && LoopInv(locals'[l], l, InLocal, items[id := x])
    {
      if l == x.loop {
        WithoutKeeps(queues[l], id);
        WithoutKeeps(locals[l], id);
        assert forall i: nat :: IsIn(items[id := x], i, l, InLoop) <==> IsIn(items, i, l, InLoop) && i != id;
        assert forall i: nat :: IsIn(items[id := x], i, l, InLocal) <==> IsIn(items, i, l, InLocal) && i != id;
      } else {
        LoopUpdate(queues[l], l, InLoop, items, id, x);
        LoopUpdate(locals[l], l, InLocal, items, id, x);
      }
    }
  }

  lemma HandsUpdate(ws: seq<Worker>, items: seq<Item>, id: nat, x: Item)
    requires HandsInv(ws, items) && id < |items| && (items[id].place.With? ==> x.place == items[id].place)
    ensures HandsInv(ws, items[id := x])
  {
    forall w | 0 <= w < |ws|
      ensures HandInv(w, ws[w], items[id := x])
    {
      assert HandInv(w, ws[w], items);
    }
  }

  lemma ItemsUpdate(items: seq<Item>, ws: seq<Worker>, id: nat, x: Item)
    requires ItemsInv(items, ws) && id < |items| && ItemOk(x, id, ws)
    ensures ItemsInv(items[id := x], ws)
  {
    hide ItemOk;
  }

  /** Workers that differ only in who sleeps or looks. */
  ghost predicate SameHands(ws: seq<Worker>, ws': seq<Worker>) {
    |ws'| == |ws| && forall i :: 0 <= i < |ws| ==> ws'[i] == ws[i] || (EmptyHanded(ws[i]) && EmptyHanded(ws'[i]))
  }

  predicate EmptyHanded(w: Worker) {
    !w.Executing? && !w.Ran?
  }

  lemma SameHandsKeep(ws: seq<Worker>, ws': seq<Worker>, items: seq<Item>)
    requires SameHands(ws, ws') && HandsInv(ws, items) && ItemsInv(items, ws)
    ensures HandsInv(ws', items) && ItemsInv(items, ws')
  {
    forall w | 0 <= w < |ws'|
      ensures HandInv(w, ws'[w], items)
    {
      assert HandInv(w, ws[w], items);
    }
    forall id | 0 <= id < |items|
      ensures ItemOk(items[id], id, ws')
    {
      assert ItemOk(items[id], id, ws);
    }
  }

  /** Worker w takes request id in hand, or goes on with the one it has. */
  lemma HandTaken(ws: seq<Worker>, items: seq<Item>, w: nat, worker: Worker, id: nat, x: Item)
    requires HandsInv(ws, items) && ItemsInv(items, ws) && w < |ws| && id < |items|
    requires EmptyHanded(ws[w]) || ws[w].id == id
    requires HasInHand(worker, id) && x.place == With(w) && ItemOk(x, id, ws[w := worker])
    requires items[id].place.With? ==> items[id].place == With(w)
    ensures HandsInv(ws[w := worker], items[id := x]) && ItemsInv(items[id := x], ws[w := worker])
  {
    var ws', items' := ws[w := worker], items[id := x];
    forall v | 0 <= v < |ws|
      ensures HandInv(v, ws'[v], items')
    {
      assert HandInv(v, ws[v], items);
    }
    forall i | 0 <= i < |items|
      ensures ItemOk(items'[i], i, ws')
    {
      assert ItemOk(items[i], i, ws);
    }
  }

  /** Worker w gives request id out of its hands. */
  lemma HandEmptied(ws: seq<Worker>, items: seq<Item>, w: nat, worker: Worker, id: nat, x: Item)
    requires HandsInv(ws, items) && ItemsInv(items, ws) && w < |ws| && id < |items|
    requires HasInHand(ws[w], id) && EmptyHanded(worker) && !x.place.With? && ItemOk(x, id, ws)
    ensures HandsInv(ws[w := worker], items[id := x]) && ItemsInv(items[id := x], ws[w := worker])
  {
    var ws', items' := ws[w := worker], items[id := x];
    assert HandInv(w, ws[w], items);
    forall v | 0 <= v < |ws|
      ensures HandInv(v, ws'[v], items')
    {
      assert HandInv(v, ws[v], items);
    }
    forall i | 0 <= i < |items|
      ensures ItemOk(items'[i], i, ws')
    {
      assert ItemOk(items[i], i, ws);
    }
  }

  // ---------------------------------------------------------------------------------------------
  // Each step keeps the requests in place

  lemma NewWq(wq: seq<Entry>, scheduled: bool, items: seq<Item>, x: Item)
    requires WqInv(wq, scheduled, items)
    ensures if x.place.InWq? then WqInv(wq + [Work(|items|)], scheduled, items + [x])
          else WqInv(wq, scheduled, items + [x])
  {
    var id := |items|;
    assert Work(id) in wq <==> IsAt(items, id, InWq);
    Appended(wq, Work(id));
    assert forall i: nat :: IsAt(items + [x], i, InWq) <==> IsAt(items, i, InWq) || (i == id && x.place.InWq?);
  }

  lemma MoreWq(wq: seq<Entry>, items: seq<Item>)
    requires WqInv(wq, false, items)
    ensures WqInv(wq + [SlowMessage], true, items)
  {
    Appended(wq, SlowMessage);
  }

  lemma NewPending(pending: seq<nat>, scheduled: bool, items: seq<Item>, x: Item)
    requires PendingInv(pending, scheduled, items)
    ensures if x.place.InPending? then PendingInv(pending + [|items|], true, items + [x])
          else PendingInv(pending, scheduled, items + [x])
  {
    var id := |items|;
    assert id in pending <==> IsAt(items, id, InPending);
    Appended(pending, id);
    assert forall i: nat :: IsAt(items + [x], i, InPending) <==>
        IsAt(items, i, InPending) || (i == id && x.place.InPending?);
  }

  lemma NewElsewhere(s: Pool, x: Item)
    requires LoopsInv(s.queues, s.locals, s.items) && HandsInv(s.workers, s.items) && ItemsInv(s.items, s.workers)
    requires x.loop < |s.queues| && (x.place.InWq? || x.place.InPending?) && ItemOk(x, |s.items|, s.workers)
    ensures var items := s.items + [x];
            LoopsInv(s.queues, s.locals, items) && HandsInv(s.workers, items) && ItemsInv(items, s.workers)
  {
    var items := s.items + [x];
    forall l | 0 <= l < |s.queues|
      ensures LoopInv(s.queues[l], l, InLoop, items) && LoopInv(s.locals[l], l, InLocal, items)
    {
      assert forall i: nat :: IsIn(items, i, l, InLoop) <==> IsIn(s.items, i, l, InLoop);
      assert forall i: nat :: IsIn(items, i, l, InLocal) <==> IsIn(s.items, i, l, InLocal);
    }
    forall w | 0 <= w < |s.workers|
      ensures HandInv(w, s.workers[w], items)
    {
      assert HandInv(w, s.workers[w], s.items);
    }
    forall id | 0 <= id < |items|
      ensures ItemOk(items[id], id, s.workers)
    {
    }
  }

  lemma SubmitKeepsRequests(s: Pool, slow: bool, loop: nat, v: nat, s': Pool)
    requires RequestsInv(s) && CountersInv(s) && Submits(s, slow, loop, v, s')
    ensures RequestsInv(s')
  {
    var x := Item(slow, loop, if slow then InPending else InWq, true, Original, false, 0, []);
    NewElsewhere(s, x);
    NewWq(s.wq, s.scheduled, s.items, x);
    NewPending(s.pending, s.scheduled, s.items, x);
    if !(slow && s.scheduled) {
      IdleSignalCounts(s, v, s'.workers);
      SignalsKeepHands(s, v, s');
      SameHandsKeep(s.workers, s'.workers, s'.items);
      if slow {
        MoreWq(s.wq, s'.items);
      }
    }
  }

  lemma SignalsKeepHands(s: Pool, v: nat, s': Pool)
    requires SignalsIfIdle(s, v, s'.workers) || Signals(s.workers, v, s'.workers)
    ensures SameHands(s.workers, s'.workers)
  {
  }

  lemma ExitKeepsRequests(s: Pool, v: nat, s': Pool)
    requires RequestsInv(s) && PostsExit(s, v, s')
    ensures RequestsInv(s')
  {
    SignalsKeepHands(s, v, s');
    SameHandsKeep(s.workers, s'.workers, s.items);
    Appended(s.wq, ExitMessage);
  }

  lemma LockKeepsRequests(s: Pool, w: nat, s': Pool)
    requires RequestsInv(s) && Locks(s, w, s')
    ensures RequestsInv(s')
  {
    SameHandsKeep(s.workers, s'.workers, s.items);
  }

  lemma WqLeave(wq: seq<Entry>, scheduled: bool, items: seq<Item>, id: nat, x: Item)
    requires WqInv(wq, scheduled, items) && wq != [] && wq[0] == Work(id) && id < |items| && !x.place.InWq?
    ensures WqInv(wq[1..], scheduled, items[id := x])
  {
    Shifted(wq);
    assert forall i: nat :: IsAt(items[id := x], i, InWq) <==> IsAt(items, i, InWq) && i != id;
  }

  lemma TakeKeepsRequests(s: Pool, w: nat, v: nat, s': Pool)
    requires RequestsInv(s) && CountersInv(s) && Turns(s, w, v, s') && !Blocked(s) && !s.wq[0].SlowMessage?
    ensures RequestsInv(s')
  {
    match s.wq[0]
    case ExitMessage =>
      SameHandsKeep(s.workers, s.workers[w := Exited], s.items);
      SameHandsKeep(s.workers[w := Exited], s'.workers, s.items);
    case Work(id) =>
      assert IsAt(s.items, id, InWq) && ItemOk(s.items[id], id, s.workers);
      var x := Taken(s.items[id], w);
      hide Count;
      WqLeave(s.wq, s.scheduled, s.items, id, x);
      PendingUpdate(s.pending, s.scheduled, s.items, id, x);
      LoopsUpdate(s.queues, s.locals, s.items, id, x);
      HandTaken(s.workers, s.items, w, Executing(id, false), id, x);
  }

  /** The message leaves the queue, and goes back to its end if `again`. */
  lemma MessageLeaves(wq: seq<Entry>, items: seq<Item>, again: bool)
    requires WqInv(wq, true, items) && wq != [] && wq[0] == SlowMessage
    ensures WqInv(if again then wq[1..] + [SlowMessage] else wq[1..], again, items)
  {
    Shifted(wq);
    if again {
      Appended(wq[1..], SlowMessage);
    }
  }

  lemma PendingLeave(pending: seq<nat>, scheduled: bool, items: seq<Item>, id: nat, x: Item)
    requires PendingInv(pending, scheduled, items) && pending != [] && pending[0] == id && id < |items|
    requires !x.place.InPending?
    ensures PendingInv(pending[1..], pending[1..] != [], items[id := x])
  {
    Shifted(pending);
    assert !IsAt(items[id := x], id, InPending);
    assert forall i: nat :: IsAt(items[id := x], i, InPending) <==> IsAt(items, i, InPending) && i != id;
  }

  lemma MessageKeepsRequests(s: Pool, w: nat, v: nat, s': Pool)
    requires RequestsInv(s) && CountersInv(s) && s.holder == Some(w) && s.wq != [] && s.wq[0].SlowMessage?
    requires TakesMessage(s, w, v, s')
    ensures RequestsInv(s')
  {
    hide Count;
    MessageLeaves(s.wq, s.items, s'.scheduled);
    if s.slowRunning < Threshold(s) && s.pending != [] {
      var id := s.pending[0];
      assert IsAt(s.items, id, InPending) && ItemOk(s.items[id], id, s.workers);
      var x, busy := Taken(s.items[id], w), s.workers[w := Executing(id, true)];
      PendingLeave(s.pending, s.scheduled, s.items, id, x);
      WqUpdate(s'.wq, s'.scheduled, s.items, id, x);
      LoopsUpdate(s.queues, s.locals, s.items, id, x);
      HandTaken(s.workers, s.items, w, busy[w], id, x);
      SameHandsKeep(busy, s'.workers, s'.items);
    }
  }

  lemma WaitKeepsRequests(s: Pool, w: nat, v: nat, s': Pool)
    requires RequestsInv(s) && CountersInv(s) && Turns(s, w, v, s') && Blocked(s)
    ensures RequestsInv(s')
  {
    SameHandsKeep(s.workers, s'.workers, s.items);
  }

  lemma RunKeepsRequests(s: Pool, w: nat, s': Pool)
    requires RequestsInv(s) && Runs(s, w, s')
    ensures RequestsInv(s')
  {
    var id := s.workers[w].id;
    assert HandInv(w, s.workers[w], s.items) && ItemOk(s.items[id], id, s.workers);
    var x := s'.items[id];
    WqUpdate(s.wq, s.scheduled, s.items, id, x);
    PendingUpdate(s.pending, s.scheduled, s.items, id, x);
    LoopsUpdate(s.queues, s.locals, s.items, id, x);
    HandTaken(s.workers, s.items, w, s'.workers[w], id, x);
  }

  lemma CompleteKeepsRequests(s: Pool, w: nat, s': Pool)
    requires RequestsInv(s) && Completes(s, w, s')
    ensures RequestsInv(s')
  {
    var id := s.workers[w].id;
    assert HandInv(w, s.workers[w], s.items) && ItemOk(s.items[id], id, s.workers);
    var x := s'.items[id];
    WqUpdate(s.wq, s.scheduled, s.items, id, x);
    PendingUpdate(s.pending, s.scheduled, s.items, id, x);
    LoopsJoin(s.queues, s.locals, s.items, id, x);
    HandEmptied(s.workers, s.items, w, s'.workers[w], id, x);
  }

  lemma WqCancel(wq: seq<Entry>, scheduled: bool, items: seq<Item>, id: nat, x: Item)
    requires WqInv(wq, scheduled, items) && id < |items| && !x.place.InWq?
    ensures WqInv(Without(wq, Work(id)), scheduled, items[id := x])
  {
    WithoutKeeps(wq, Work(id));
    assert forall i: nat :: IsAt(items[id := x], i, InWq) <==> IsAt(items, i, InWq) && i != id;
  }

  lemma PendingCancel(pending: seq<nat>, scheduled: bool, items: seq<Item>, id: nat, x: Item)
    requires PendingInv(pending, scheduled, items) && id < |items| && !x.place.InPending?
    ensures PendingInv(Without(pending, id), scheduled, items[id := x])
  {
    WithoutKeeps(pending, id);
    assert forall i: nat :: IsAt(items[id := x], i, InPending) <==> IsAt(items, i, InPending) && i != id;
  }

  lemma CancelKeepsRequests(s: Pool, id: nat, s': Pool)
    requires RequestsInv(s) && Cancels(s, id, s')
    ensures RequestsInv(s')
  {
    assert ItemOk(s.items[id], id, s.workers);
    if s.items[id].linked && !s.items[id].work.Null? {
      var x := s'.items[id];
      WqCancel(s.wq, s.scheduled, s.items, id, x);
      PendingCancel(s.pending, s.scheduled, s.items, id, x);
      LoopsLeave(s.queues, s.locals, s.items, id, x);
      HandsUpdate(s.workers, s.items, id, x);
      ItemsUpdate(s.items, s.workers, id, x);
    }
  }

  lemma HandOverKeepsRequests(s: Pool, id: nat, s': Pool)
    requires RequestsInv(s) && HandsOver(s, id, s')
    ensures RequestsInv(s')
  {
    assert ItemOk(s.items[id], id, s.workers);
    var x := s'.items[id];
    WqUpdate(s.wq, s.scheduled, s.items, id, x);
    PendingUpdate(s.pending, s.scheduled, s.items, id, x);
    LoopsJoin(s.queues, s.locals, s.items, id, x);
    HandsUpdate(s.workers, s.items, id, x);
    ItemsUpdate(s.items, s.workers, id, x);
  }

  lemma MoveKeepsLoops(s: Pool, l: nat, s': Pool)
    requires LoopsInv(s.queues, s.locals, s.items) && Moves(s, l, s')
    ensures LoopsInv(s'.queues, s'.locals, s'.items)
  {
    forall m | 0 <= m < |s.queues|
      ensures LoopInv(s'.queues[m], m, InLoop, s'.items) && LoopInv(s'.locals[m], m, InLocal, s'.items)
    {
      assert LoopInv(s.queues[m], m, InLoop, s.items) && LoopInv(s.locals[m], m, InLocal, s.items);
      if m == l {
        assert forall i: nat :: !IsIn(s.items, i, m, InLocal) by {
          assert forall i: nat :: IsIn(s.items, i, m, InLocal) ==> i in s.locals[m];
        }
        assert forall i: nat :: !IsIn(s'.items, i, m, InLoop);
        forall i: nat
          ensures IsIn(s'.items, i, m, InLocal) <==> IsIn(s.items, i, m, InLoop)
        {
          assert !IsIn(s.items, i, m, InLocal);
          if i < |s.items| {
            assert s'.items[i].loop == s.items[i].loop;
          }
        }
      } else {
        assert forall i: nat :: IsIn(s'.items, i, m, InLoop) <==> IsIn(s.items, i, m, InLoop);
        assert forall i: nat :: IsIn(s'.items, i, m, InLocal) <==> IsIn(s.items, i, m, InLocal);
      }
    }
  }

  lemma MoveKeepsRequests(s: Pool, l: nat, s': Pool)
    requires RequestsInv(s) && Moves(s, l, s')
    ensures RequestsInv(s')
  {
    MoveKeepsLoops(s, l, s');
    hide LoopsInv, Distinct;
    assert forall i: nat :: IsAt(s'.items, i, InWq) <==> IsAt(s.items, i, InWq);
    assert forall i: nat :: IsAt(s'.items, i, InPending) <==> IsAt(s.items, i, InPending);
    forall w | 0 <= w < |s.workers|
      ensures HandInv(w, s.workers[w], s'.items)
    {
      assert HandInv(w, s.workers[w], s.items);
    }
    forall id | 0 <= id < |s'.items|
      ensures ItemOk(s'.items[id], id, s.workers)
    {
      assert ItemOk(s.items[id], id, s.workers);
    }
  }

  lemma DeliverKeepsLoops(s: Pool, l: nat, id: nat, x: Item)
    requires LoopsInv(s.queues, s.locals, s.items) && l < |s.locals| && s.locals[l] != [] && id == s.locals[l][0]
    requires id < |s.items| && x.loop == s.items[id].loop && x.place.Delivered?
    ensures s.items[id].place.InLocal? && s.items[id].loop == l
    ensures LoopsInv(s.queues, s.locals[l := s.locals[l][1..]], s.items[id := x])
  {
    assert LoopInv(s.locals[l], l, InLocal, s.items) && IsIn(s.items, id, l, InLocal);
    var locals' := s.locals[l := s.locals[l][1..]];
    forall m | 0 <= m < |s.queues|
      ensures LoopInv(s.queues[m], m, InLoop, s.items[id := x]) && LoopInv(locals'[m], m, InLocal, s.items[id := x])
    {
      LoopUpdate(s.queues[m], m, InLoop, s.items, id, x);
      if m == l {
        Shifted(s.locals[l]);
        assert forall i: nat :: IsIn(s.items[id := x], i, l, InLocal) <==> IsIn(s.items, i, l, InLocal) && i != id;
      } else {
        LoopUpdate(s.locals[m], m, InLocal, s.items, id, x);
      }
    }
  }

  lemma DeliverKeepsRequests(s: Pool, l: nat, s': Pool)
    requires RequestsInv(s) && Delivers(s, l, s')
    ensures RequestsInv(s')
  {
    var id := s.locals[l][0];
    var x := s'.items[id];
    DeliverKeepsLoops(s, l, id, x);
    assert ItemOk(s.items[id], id, s.workers);
    WqUpdate(s.wq, s.scheduled, s.items, id, x);
    PendingUpdate(s.pending, s.scheduled, s.items, id, x);
    HandsUpdate(s.workers, s.items, id, x);
    ItemsUpdate(s.items, s.workers, id, x);
  }

  // ---------------------------------------------------------------------------------------------
  // What holds in every interleaving

  /** Workers exit only on the exit message, which stays for the others. */
  ghost predicate ExitInv(s: Pool) {
    forall w :: 0 <= w < |s.workers| && s.workers[w].Exited? ==> ExitMessage in s.wq
  }

  ghost predicate Inv(s: Pool) {
    WorkersInv(s) && RequestsInv(s) && ExitInv(s)
  }

  ghost predicate Init(s: Pool, nthreads: nat, loops: nat) {
    && nthreads >= 1
    && s == Pool(seq(nthreads, _ => Ready(false)), None, [], [], false, 0, 0, [], seq(loops, _ => []),
          seq(loops, _ => []))
  }

  lemma {:induction false} NoneCounted(n: nat, p: Worker -> bool)
    requires !p(Ready(false))
    ensures Count(seq(n, _ => Ready(false)), p) == 0
  {
    if n > 0 {
      NoneCounted(n - 1, p);
      assert seq(n, _ => Ready(false))[..n - 1] == seq(n - 1, _ => Ready(false));
    }
  }

  lemma InitHolds(s: Pool, nthreads: nat, loops: nat)
    requires Init(s, nthreads, loops)
    ensures Inv(s)
  {
    NoneCounted(nthreads, IsIdle);
    NoneCounted(nthreads, IsAsleep);
    NoneCounted(nthreads, IsSlow);
    assert forall id: nat :: !IsAt(s.items, id, InWq) && !IsAt(s.items, id, InPending);
  }

  lemma CancelKeepsWorkers(s: Pool, id: nat, s': Pool)
    requires Inv(s) && Cancels(s, id, s')
    ensures WorkersInv(s')
  {
    WithoutKeeps(s.wq, Work(id));
  }

  lemma StepKeepsWorkers(s: Pool, a: Action, s': Pool)
    requires Inv(s) && Step(s, a, s')
    ensures WorkersInv(s')
  {
    match a
    case Submit(slow, loop, v) => SubmitKeepsWorkers(s, slow, loop, v, s');
    case PostExit(v) => ExitKeepsWorkers(s, v, s');
    case Lock(w) => LockKeepsWorkers(s, w, s');
    case Turn(w, v) => TurnKeepsWorkers(s, w, v, s');
    case Run(w) => RunKeepsWorkers(s, a, s');
    case Complete(w) => RunKeepsWorkers(s, a, s');
    case Cancel(id) => CancelKeepsWorkers(s, id, s');
    case HandOver(_) =>
    case Move(_) =>
    case Deliver(_) =>
  }

  lemma StepKeepsRequests(s: Pool, a: Action, s': Pool)
    requires Inv(s) && Step(s, a, s')
    ensures RequestsInv(s')
  {
    match a
    case Submit(slow, loop, v) => SubmitKeepsRequests(s, slow, loop, v, s');
    case PostExit(v) => ExitKeepsRequests(s, v, s');
    case Lock(w) => LockKeepsRequests(s, w, s');
    case Turn(w, v) =>
      if Blocked(s) {
        WaitKeepsRequests(s, w, v, s');
      } else if s.wq[0].SlowMessage? {
        MessageKeepsRequests(s, w, v, s');
      } else {
        TakeKeepsRequests(s, w, v, s');
      }
    case Run(w) => RunKeepsRequests(s, w, s');
    case Complete(w) => CompleteKeepsRequests(s, w, s');
    case Cancel(id) => CancelKeepsRequests(s, id, s');
    case HandOver(id) => HandOverKeepsRequests(s, id, s');
    case Move(l) => MoveKeepsRequests(s, l, s');
    case Deliver(l) => DeliverKeepsRequests(s, l, s');
  }

  /** The exit message stays where it is. */
  lemma ExitStays(s: Pool, a: Action, s': Pool)
    requires Distinct(s.wq) && Step(s, a, s') && ExitMessage in s.wq
    ensures ExitMessage in s'.wq
  {
    hide Count;
    if a.Cancel? {
      WithoutKeeps(s.wq, Work(a.id));
    }
    if s.wq[0] != ExitMessage {
      assert s.wq == [s.wq[0]] + s.wq[1..];
      assert ExitMessage in s.wq[1..];
    }
  }

  lemma StepKeepsExit(s: Pool, a: Action, s': Pool)
    requires Inv(s) && Step(s, a, s')
    ensures ExitInv(s')
  {
    hide RequestsInv, Count, WorkersInv;
    if ExitMessage in s.wq {
      WqIsDistinct(s);
      ExitStays(s, a, s');
    }
    hide Distinct;
  }

  lemma WqIsDistinct(s: Pool)
    requires RequestsInv(s)
    ensures Distinct(s.wq)
  {
  }

  ghost predicate IsRun(run: seq<Pool>, acts: seq<Action>, nthreads: nat, loops: nat) {
    && |run| == |acts| + 1 && Init(run[0], nthreads, loops)
    && forall i :: 0 <= i < |acts| ==> Step(run[i], acts[i], run[i + 1])
  }

  /** Every reachable state, in every interleaving. */
  lemma {:induction false} RunsKeepInv(run: seq<Pool>, acts: seq<Action>, nthreads: nat, loops: nat, i: nat)
    requires IsRun(run, acts, nthreads, loops) && i < |run|
    ensures Inv(run[i])
  {
    if i == 0 {
      InitHolds(run[0], nthreads, loops);
    } else {
      RunsKeepInv(run, acts, nthreads, loops, i - 1);
      StepKeepsWorkers(run[i - 1], acts[i - 1], run[i]);
      StepKeepsRequests(run[i - 1], acts[i - 1], run[i]);
      StepKeepsExit(run[i - 1], acts[i - 1], run[i]);
    }
  }

  /** In how many places a request is. */
  ghost function Places(s: Pool, id: nat): nat {
    (if Work(id) in s.wq then 1 else 0) + (if id in s.pending then 1 else 0)
    + (if exists w :: 0 <= w < |s.workers| && HasInHand(s.workers[w], id) then 1 else 0)
    + (if id < |s.items| && s.items[id].place.Cancelling? then 1 else 0)
    + (if exists l :: 0 <= l < |s.queues| && id in s.queues[l] then 1 else 0)
    + (if exists l :: 0 <= l < |s.locals| && id in s.locals[l] then 1 else 0)
    + (if id < |s.items| && s.items[id].results != [] then 1 else 0)
  }

  /** Each request is in exactly one of the queue, the slow queue, a worker's hands, a cancelling
      thread's, its loop's queue, its loop's callbacks to call, or done with.  Its work runs at
      most once and never if cancelled, its callback is called at most once, and is told ECANCELED
      exactly if uv_cancel succeeded. */
  lemma ExactlyOnce(s: Pool, id: nat)
    requires RequestsInv(s) && id < |s.items|
    ensures Places(s, id) == 1
    ensures var item := s.items[id];
            && item.ran <= 1 && |item.results| <= 1
            && (item.cancelled ==> item.ran == 0)
            && (item.results != [] ==>
                  && (item.results[0] == ECANCELED <==> item.cancelled)
                  && (item.results[0] == 0 <==> item.ran == 1))
  {
    var item := s.items[id];
    assert ItemOk(item, id, s.workers);
    assert Work(id) in s.wq <==> IsAt(s.items, id, InWq);
    assert id in s.pending <==> IsAt(s.items, id, InPending);
    InHandsOnlyIf(s, id);
    InLoopsOnlyIf(s, id);
  }

  lemma InHandsOnlyIf(s: Pool, id: nat)
    requires HandsInv(s.workers, s.items) && ItemsInv(s.items, s.workers) && id < |s.items|
    ensures (exists w :: 0 <= w < |s.workers| && HasInHand(s.workers[w], id)) <==> s.items[id].place.With?
  {
    assert ItemOk(s.items[id], id, s.workers);
    forall w | 0 <= w < |s.workers| && HasInHand(s.workers[w], id)
      ensures s.items[id].place.With?
    {
      assert HandInv(w, s.workers[w], s.items);
    }
  }

  lemma InLoopsOnlyIf(s: Pool, id: nat)
    requires LoopsInv(s.queues, s.locals, s.items) && id < |s.items|
    ensures (exists l :: 0 <= l < |s.queues| && id in s.queues[l]) <==> s.items[id].place.InLoop?
    ensures (exists l :: 0 <= l < |s.locals| && id in s.locals[l]) <==> s.items[id].place.InLocal?
  {
    var m := s.items[id].loop;
    assert LoopInv(s.queues[m], m, InLoop, s.items) && LoopInv(s.locals[m], m, InLocal, s.items);
    assert id in s.queues[m] <==> IsIn(s.items, id, m, InLoop);
    assert id in s.locals[m] <==> IsIn(s.items, id, m, InLocal);
    forall l | 0 <= l < |s.queues|
      ensures id in s.queues[l] ==> s.items[id].place.InLoop?
      ensures id in s.locals[l] ==> s.items[id].place.InLocal?
    {
      assert LoopInv(s.queues[l], l, InLoop, s.items) && LoopInv(s.locals[l], l, InLocal, s.items);
      assert id in s.queues[l] <==> IsIn(s.items, id, l, InLoop);
      assert id in s.locals[l] <==> IsIn(s.items, id, l, InLocal);
    }
  }

  /** Slow work waiting is announced by the message, never takes more than half of the threads, and
      the counters say what the threads do. */
  lemma SlowWorkIsBounded(s: Pool)
    requires Inv(s)
    ensures s.pending != [] ==> SlowMessage in s.wq
    ensures Count(s.workers, IsSlowBusy) <= s.slowRunning == Count(s.workers, IsSlow) <= (|s.workers| + 1) / 2
    ensures s.idle == Count(s.workers, IsIdle)
  {
    SlowSplits(s.workers);
  }

  /** If there is something to take, a thread that sleeps leaves it to one on its way. */
  lemma RunnableWakesSomeone(s: Pool)
    requires Inv(s) && !Blocked(s) && Count(s.workers, IsAsleep) > 0
    ensures Count(s.workers, IsLooking) > 0
  {
    SlowSplits(s.workers);
  }

  /** A step that some thread takes of itself: no new call, and no wake-up without a signal. */
  ghost predicate Progress(s: Pool, a: Action, s': Pool) {
    && Step(s, a, s')
    && !a.Submit? && !a.PostExit? && !a.Cancel? && (a.Lock? ==> s.workers[a.worker] != Waiting(false))
  }

  lemma SignalExists(ws: seq<Worker>) returns (v: nat, ws': seq<Worker>)
    ensures Signals(ws, v, ws')
  {
    if v0 :| 0 <= v0 < |ws| && ws[v0] == Waiting(false) {
      v, ws' := v0, ws[v0 := Waiting(true)];
    } else {
      v, ws' := 0, ws;
    }
  }

  lemma HolderCanMove(s: Pool) returns (a: Action, s': Pool)
    requires Inv(s) && s.holder.Some?
    ensures Progress(s, a, s')
  {
    hide Count, ItemsInv, HandsInv, LoopsInv;
    var w := s.holder.value;
    if Blocked(s) {
      a, s' := Turn(w, 0), s.(holder := None, workers := s.workers[w := Waiting(false)], idle := s.idle + 1);
      return;
    }
    match s.wq[0]
    case ExitMessage =>
      var v, ws := SignalExists(s.workers[w := Exited]);
      a, s' := Turn(w, v), s.(holder := None, workers := ws);
    case Work(id) =>
      assert IsAt(s.items, id, InWq);
      a := Turn(w, 0);
      s' := s.(holder := None, wq := s.wq[1..], items := s.items[id := Taken(s.items[id], w)],
               workers := s.workers[w := Executing(id, false)]);
    case SlowMessage =>
      a, s' := MessageCanBeTaken(s, w);
  }

  lemma MessageCanBeTaken(s: Pool, w: nat) returns (a: Action, s': Pool)
    requires Inv(s) && s.holder == Some(w) && !Blocked(s) && s.wq[0] == SlowMessage
    ensures Progress(s, a, s')
  {
    hide Count, ItemsInv, HandsInv, LoopsInv;
    var rest := s.wq[1..];
    if s.slowRunning >= Threshold(s) {
      a, s' := Turn(w, 0), s.(wq := rest + [SlowMessage]);
    } else if s.pending == [] {
      a, s' := Turn(w, 0), s.(wq := rest, scheduled := false);
    } else {
      var id, more := s.pending[0], s.pending[1..];
      assert IsAt(s.items, id, InPending);
      var busy := s.(workers := s.workers[w := Executing(id, true)]);
      var v, ws := SignalExists(busy.workers);
      if more == [] || s.idle <= 0 {
        ws := busy.workers;
      }
      a := Turn(w, v);
      s' := s.(holder := None, wq := if more == [] then rest else rest + [SlowMessage], scheduled := more != [],
               pending := more, slowRunning := s.slowRunning + 1,
               items := s.items[id := Taken(s.items[id], w)], workers := ws);
    }
  }

  lemma WorkerCanMove(s: Pool, w: nat) returns (a: Action, s': Pool)
    requires Inv(s) && s.holder.None? && w < |s.workers| && !s.workers[w].Exited? && s.workers[w] != Waiting(false)
    ensures Progress(s, a, s')
  {
    hide Count, WqInv, PendingInv;
    match s.workers[w]
    case Ready(slow) =>
      a := Lock(w);
      s' := s.(holder := Some(w), workers := s.workers[w := Ready(false)],
               slowRunning := if slow then s.slowRunning - 1 else s.slowRunning);
    case Waiting(_) =>
      a, s' := Lock(w), s.(holder := Some(w), workers := s.workers[w := Ready(false)], idle := s.idle - 1);
    case Executing(id, slow) =>
      assert HandInv(w, s.workers[w], s.items) && ItemOk(s.items[id], id, s.workers);
      a := Run(w);
      s' := s.(workers := s.workers[w := Ran(id, slow)],
               items := s.items[id := s.items[id].(ran := s.items[id].ran + 1)]);
    case Ran(id, slow) =>
      assert HandInv(w, s.workers[w], s.items);
      var l := s.items[id].loop;
      a := Complete(w);
      s' := s.(workers := s.workers[w := Ready(slow)],
               items := s.items[id := s.items[id].(work := Null, linked := true, place := InLoop)],
               queues := s.queues[l := s.queues[l] + [id]]);
  }

  /** All threads asleep: then nothing waits for a thread. */
  lemma AllAsleep(s: Pool, id: nat)
    requires Inv(s) && id < |s.items| && forall w :: 0 <= w < |s.workers| ==> s.workers[w] == Waiting(false)
    ensures !s.items[id].place.InWq? && !s.items[id].place.InPending? && !s.items[id].place.With?
  {
    if Count(s.workers, IsSlow) > 0 {
      var i := CountPositive(s.workers, IsSlow);
    }
    CountZero(s.workers, IsAsleep, 0);
    if Count(s.workers, IsLooking) > 0 {
      var i := CountPositive(s.workers, IsLooking);
    }
    if !Blocked(s) {
      RunnableWakesSomeone(s);
    }
    assert s.wq == [] && s.pending == [];
    assert Work(id) in s.wq <==> IsAt(s.items, id, InWq);
    assert id in s.pending <==> IsAt(s.items, id, InPending);
    assert ItemOk(s.items[id], id, s.workers);
  }

  lemma LoopCanMove(s: Pool, id: nat) returns (a: Action, s': Pool)
    requires RequestsInv(s) && id < |s.items|
    requires s.items[id].place.Cancelling? || s.items[id].place.InLoop? || s.items[id].place.InLocal?
    ensures Progress(s, a, s')
  {
    var item := s.items[id];
    var l := item.loop;
    assert LoopInv(s.locals[l], l, InLocal, s.items);
    if item.place.Cancelling? {
      a := HandOver(id);
      s' := s.(items := s.items[id := item.(work := Cancelled, linked := true, place := InLoop)],
               queues := s.queues[l := s.queues[l] + [id]]);
    } else if s.locals[l] == [] {
      a := Move(l);
      var items := seq(|s.items|, i requires 0 <= i < |s.items| =>
        if s.items[i].place.InLoop? && s.items[i].loop == l then s.items[i].(place := InLocal) else s.items[i]);
      s' := s.(items := items, locals := s.locals[l := s.queues[l]], queues := s.queues[l := []]);
    } else {
      var i := s.locals[l][0];
      assert i in s.locals[l] && IsIn(s.items, i, l, InLocal);
      var err := if s.items[i].work.Cancelled? then ECANCELED else 0;
      a := Deliver(l);
      s' := s.(locals := s.locals[l := s.locals[l][1..]],
               items := s.items[i := s.items[i].(place := Delivered, results := s.items[i].results + [err])]);
    }
  }

  /** No deadlock and no lost wake-up: until the pool is shut down, as long as some request's
      callback has not been called, some thread has a step to take of itself. */
  lemma SomethingMoves(s: Pool, id: nat) returns (a: Action, s': Pool)
    requires Inv(s) && ExitMessage !in s.wq && id < |s.items| && s.items[id].results == []
    ensures Progress(s, a, s')
  {
    if s.holder.Some? {
      a, s' := HolderCanMove(s);
    } else if w :| 0 <= w < |s.workers| && s.workers[w] != Waiting(false) {
      a, s' := WorkerCanMove(s, w);
    } else {
      AllAsleep(s, id);
      assert ItemOk(s.items[id], id, s.workers);
      a, s' := LoopCanMove(s, id);
    }
  }
}
