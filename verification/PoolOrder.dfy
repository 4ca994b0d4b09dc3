/** The order in which the thread pool serves requests (libuv src/threadpool.c): queues are first in, first
    out, for fast requests, for slow ones, and for the callbacks of each loop. */
module PoolOrder {
  import opened ThreadPool

  // ---------------------------------------------------------------------------------------------
  // First come, first served

  ghost predicate WorkAscends(wq: seq<Entry>) {
    forall i, j :: 0 <= i < j < |wq| && wq[i].Work? && wq[j].Work? ==> wq[i].id < wq[j].id
  }

  ghost predicate Ascends(q: seq<nat>) {
    forall i, j :: 0 <= i < j < |q| ==> q[i] < q[j]
  }

  /** A worker has the request in hand, or has run it. */
  predicate TakenUp(item: Item) {
    item.place.With? || item.ran > 0
  }

  predicate WaitsForWorker(item: Item) {
    item.place.InWq? || item.place.InPending?
  }

  /** Requests are named in the order they were submitted: one is taken up only when no earlier one of its sort
      waits. */
  ghost predicate FirstServed(items: seq<Item>) {
    forall a, b :: 0 <= a < b < |items| && items[a].slow == items[b].slow && TakenUp(items[b]) ==>
      !WaitsForWorker(items[a])
  }

  ghost predicate OrderInv(s: Pool) {
    WorkAscends(s.wq) && Ascends(s.pending) && FirstServed(s.items)
  }

  lemma {:induction false} WithoutAscends(q: seq<nat>, x: nat)
    requires Ascends(q)
    ensures Ascends(Without(q, x)) && forall y :: y in Without(q, x) ==> y in q
  {
    if q != [] {
      WithoutAscends(q[1..], x);
      assert q == [q[0]] + q[1..];
      var r := Without(q[1..], x);
      forall k | 0 <= k < |r|
        ensures q[0] < r[k]
      {
        assert r[k] in r && r[k] in q[1..];
      }
    }
  }

  lemma {:induction false} WithoutWorkAscends(wq: seq<Entry>, x: Entry)
    requires WorkAscends(wq)
    ensures WorkAscends(Without(wq, x)) && forall y :: y in Without(wq, x) ==> y in wq
  {
    if wq != [] {
      WithoutWorkAscends(wq[1..], x);
      assert wq == [wq[0]] + wq[1..];
      forall y | y in wq[1..] && wq[0].Work? && y.Work?
        ensures wq[0].id < y.id
      {
      }
    }
  }

  /** No request comes to wait, and none is taken up that was not before. */
  lemma StillServed(items: seq<Item>, items': seq<Item>)
    requires FirstServed(items) && |items| <= |items'|
    requires forall i :: 0 <= i < |items| ==>
               && items'[i].slow == items[i].slow && (TakenUp(items'[i]) ==> TakenUp(items[i]))
               && (WaitsForWorker(items'[i]) ==> WaitsForWorker(items[i]))
    requires forall i :: |items| <= i < |items'| ==> !TakenUp(items'[i])
    ensures FirstServed(items')
  {
  }

  lemma WorkIsBelow(s: Pool, i: nat)
    requires RequestsInv(s) && i < |s.wq| && s.wq[i].Work?
    ensures s.wq[i].id < |s.items| && s.items[s.wq[i].id].place.InWq? && !s.items[s.wq[i].id].slow
  {
    assert Work(s.wq[i].id) in s.wq;
    assert IsAt(s.items, s.wq[i].id, InWq);
    assert ItemOk(s.items[s.wq[i].id], s.wq[i].id, s.workers);
  }

  lemma PendingIsBelow(s: Pool, i: nat)
    requires RequestsInv(s) && i < |s.pending|
    ensures s.pending[i] < |s.items| && s.items[s.pending[i]].place.InPending? && s.items[s.pending[i]].slow
  {
    assert s.pending[i] in s.pending;
    assert IsAt(s.items, s.pending[i], InPending);
    assert ItemOk(s.items[s.pending[i]], s.pending[i], s.workers);
  }

  lemma SubmitKeepsOrder(s: Pool, slow: bool, loop: nat, v: nat, s': Pool)
    requires RequestsInv(s) && OrderInv(s) && Submits(s, slow, loop, v, s')
    ensures OrderInv(s')
  {
    forall i | 0 <= i < |s.wq| && s.wq[i].Work?
      ensures s.wq[i].id < |s.items|
    {
      WorkIsBelow(s, i);
    }
    forall i | 0 <= i < |s.pending|
      ensures s.pending[i] < |s.items|
    {
      PendingIsBelow(s, i);
    }
    hide RequestsInv;
    StillServed(s.items, s'.items);
  }

  /** The first entry of the queue is the earliest fast request that waits. */
  lemma HeadIsFirst(s: Pool, a: nat)
    requires RequestsInv(s) && OrderInv(s) && s.wq != [] && s.wq[0].Work?
    requires a < s.wq[0].id && a < |s.items| && !s.items[a].slow
    ensures !WaitsForWorker(s.items[a])
  {
    assert ItemOk(s.items[a], a, s.workers);
    assert Work(a) in s.wq <==> IsAt(s.items, a, InWq);
    forall j | 0 <= j < |s.wq|
      ensures s.wq[j] != Work(a)
    {
    }
  }

  lemma PendingHeadIsFirst(s: Pool, a: nat)
    requires RequestsInv(s) && OrderInv(s) && s.pending != []
    requires a < s.pending[0] && a < |s.items| && s.items[a].slow
    ensures !WaitsForWorker(s.items[a])
  {
    assert ItemOk(s.items[a], a, s.workers);
    assert a in s.pending <==> IsAt(s.items, a, InPending);
    forall j | 0 <= j < |s.pending|
      ensures s.pending[j] != a
    {
    }
  }

  /** A request is taken up, and none of its sort before it waits. */
  lemma TakenInOrder(items: seq<Item>, id: nat, x: Item)
    requires FirstServed(items) && id < |items| && x.slow == items[id].slow && !WaitsForWorker(x)
    requires forall a :: 0 <= a < id && items[a].slow == x.slow ==> !WaitsForWorker(items[a])
    ensures FirstServed(items[id := x])
  {
  }

  lemma TurnKeepsOrder(s: Pool, w: nat, v: nat, s': Pool)
    requires RequestsInv(s) && OrderInv(s) && Turns(s, w, v, s')
    ensures OrderInv(s')
  {
    if !Blocked(s) && s.wq[0].Work? {
      var id := s.wq[0].id;
      WorkIsBelow(s, 0);
      forall a | 0 <= a < id && !s.items[a].slow
        ensures !WaitsForWorker(s.items[a])
      {
        HeadIsFirst(s, a);
      }
      TakenInOrder(s.items, id, Taken(s.items[id], w));
    } else if !Blocked(s) && s.wq[0].SlowMessage? && s.slowRunning < Threshold(s) && s.pending != [] {
      var id := s.pending[0];
      PendingIsBelow(s, 0);
      forall a | 0 <= a < id && s.items[a].slow
        ensures !WaitsForWorker(s.items[a])
      {
        PendingHeadIsFirst(s, a);
      }
      TakenInOrder(s.items, id, Taken(s.items[id], w));
    }
    hide RequestsInv, FirstServed, SignalsIfIdle, Signals, Threshold, Taken;
  }

  lemma RunKeepsOrder(s: Pool, a: Action, s': Pool)
    requires RequestsInv(s) && OrderInv(s) && (a.Run? || a.Complete?) && Step(s, a, s')
    ensures OrderInv(s')
  {
    var id := s.workers[a.worker].id;
    assert HandInv(a.worker, s.workers[a.worker], s.items) && ItemOk(s.items[id], id, s.workers);
    hide RequestsInv;
    StillServed(s.items, s'.items);
  }

  lemma LoopKeepsOrder(s: Pool, a: Action, s': Pool)
    requires RequestsInv(s) && OrderInv(s) && (a.Cancel? || a.HandOver? || a.Move? || a.Deliver?) && Step(s, a, s')
    ensures OrderInv(s')
  {
    if a.Cancel? {
      WithoutAscends(s.pending, a.id);
      WithoutWorkAscends(s.wq, Work(a.id));
    }
    forall i | 0 <= i < |s.items|
      ensures ItemOk(s.items[i], i, s.workers)
    {
    }
    hide RequestsInv, WorkAscends, Ascends;
    StillServed(s.items, s'.items);
  }

  lemma StepKeepsOrder(s: Pool, a: Action, s': Pool)
    requires RequestsInv(s) && OrderInv(s) && Step(s, a, s')
    ensures OrderInv(s')
  {
    match a
    case Submit(slow, loop, v) => SubmitKeepsOrder(s, slow, loop, v, s');
    case PostExit(v) => hide RequestsInv, FirstServed;
    case Lock(w) =>
    case Turn(w, v) => TurnKeepsOrder(s, w, v, s');
    case Run(_) => RunKeepsOrder(s, a, s');
    case Complete(_) => RunKeepsOrder(s, a, s');
    case _ => LoopKeepsOrder(s, a, s');
  }

  lemma {:induction false} RunsKeepOrder(run: seq<Pool>, acts: seq<Action>, nthreads: nat, loops: nat, i: nat)
    requires IsRun(run, acts, nthreads, loops) && i < |run|
    ensures OrderInv(run[i])
  {
    hide Step, OrderInv, Inv;
    if i == 0 {
      StartsInOrder(run[0], nthreads, loops);
    } else {
      RunsKeepOrder(run, acts, nthreads, loops, i - 1);
      RunsKeepInv(run, acts, nthreads, loops, i - 1);
      InvRequests(run[i - 1]);
      StepKeepsOrder(run[i - 1], acts[i - 1], run[i]);
    }
  }

  lemma InvRequests(s: Pool)
    requires Inv(s)
    ensures RequestsInv(s)
  {
    hide RequestsInv;
  }

  lemma StartsInOrder(s: Pool, nthreads: nat, loops: nat)
    requires Init(s, nthreads, loops)
    ensures OrderInv(s)
  {
  }

  /** In every reachable state: if a request is in a worker's hands or has been run, no earlier one of its sort
      is still in its queue. */
  lemma FirstComeFirstServed(run: seq<Pool>, acts: seq<Action>, nthreads: nat, loops: nat, i: nat, a: nat, b: nat)
    requires IsRun(run, acts, nthreads, loops) && i < |run| && a < b < |run[i].items|
    requires run[i].items[a].slow == run[i].items[b].slow
    requires run[i].items[b].place.With? || run[i].items[b].ran > 0
    ensures Work(a) !in run[i].wq && a !in run[i].pending
  {
    RunsKeepOrder(run, acts, nthreads, loops, i);
    RunsKeepInv(run, acts, nthreads, loops, i);
    hide IsRun, WorkersInv, ExitInv;
    var s := run[i];
    assert Work(a) in s.wq <==> IsAt(s.items, a, InWq);
    assert a in s.pending <==> IsAt(s.items, a, InPending);
  }

  // ---------------------------------------------------------------------------------------------
  // When workers wait, and when slow work starts

  /** A worker goes to sleep only if there is nothing to take, or only slow work while half of the threads do such. */
  lemma WaitsOnlyForWork(s: Pool, w: nat, v: nat, s': Pool)
    requires Turns(s, w, v, s') && s'.holder.None? && w < |s'.workers| && s'.workers[w].Waiting?
    requires s.workers[w].Ready?
    ensures s.wq == [] || (s.wq == [SlowMessage] && s.slowRunning >= (|s.workers| + 1) / 2)
  {
  }

  /** Below that half, the first slow request starts when its turn comes. */
  lemma SlowWorkStarts(s: Pool, w: nat, v: nat, s': Pool)
    requires Turns(s, w, v, s') && s.wq != [] && s.wq[0] == SlowMessage && s.pending != []
    requires s.slowRunning < (|s.workers| + 1) / 2
    ensures w < |s'.workers| && s'.workers[w] == Executing(s.pending[0], true) && s'.pending == s.pending[1..]
    ensures s.pending[0] < |s'.items| && s'.items[s.pending[0]].place == With(w)
  {
  }

  /** A request that still waits in a queue can be cancelled, and leaves it; one that a worker has taken up, or
      that has run, cannot. */
  lemma CancelledUnlessTakenUp(s: Pool, id: nat, s': Pool)
    requires RequestsInv(s) && Cancels(s, id, s')
    ensures Work(id) in s.wq || id in s.pending ==>
              s'.items[id].cancelled && Work(id) !in s'.wq && id !in s'.pending
    ensures (exists w :: 0 <= w < |s.workers| && HasInHand(s.workers[w], id)) || s.items[id].ran > 0 ==> s' == s
  {
    assert ItemOk(s.items[id], id, s.workers);
    assert Work(id) in s.wq <==> IsAt(s.items, id, InWq);
    assert id in s.pending <==> IsAt(s.items, id, InPending);
    InHandsOnlyIf(s, id);
    if Work(id) in s.wq || id in s.pending {
      WithoutKeeps(s.pending, id);
      WithoutKeeps(s.wq, Work(id));
    }
  }

  // ---------------------------------------------------------------------------------------------
  // Callbacks in order

  /** The requests that have joined a loop's queue, in order; one that is cancelled there leaves its place and
      joins again. */
  function Joins(s: Pool, a: Action, s': Pool, l: nat, before: seq<nat>): seq<nat> {
    match a
    case Complete(w) =>
      if w < |s.workers| && s.workers[w].Ran? && s.workers[w].id < |s.items| && s.items[s.workers[w].id].loop == l
      then before + [s.workers[w].id] else before
    case HandOver(id) => if id < |s.items| && s.items[id].loop == l then before + [id] else before
    case Cancel(id) => if s' != s then Without(before, id) else before
    case _ => before
  }

  function Joined(run: seq<Pool>, acts: seq<Action>, l: nat, n: nat): seq<nat>
    requires n <= |acts| < |run|
  {
    if n == 0 then [] else Joins(run[n - 1], acts[n - 1], run[n], l, Joined(run, acts, l, n - 1))
  }

  /** The requests whose callbacks have been called for a loop, in order. */
  function Called(run: seq<Pool>, acts: seq<Action>, l: nat, n: nat): seq<nat>
    requires n <= |acts| < |run|
  {
    if n == 0 then []
    else Called(run, acts, l, n - 1) + CalledBy(run[n - 1], acts[n - 1], l)
  }

  function CalledBy(s: Pool, a: Action, l: nat): seq<nat> {
    if a == Deliver(l) && l < |s.locals| && s.locals[l] != [] then [s.locals[l][0]] else []
  }

  /** Called, about to be called, and joined after that, in the order of joining. */
  ghost predicate LoopOrder(s: Pool, l: nat, joined: seq<nat>, called: seq<nat>) {
    && l < |s.queues| && |s.queues| == |s.locals|
    && joined == called + s.locals[l] + s.queues[l]
    && forall id :: id in called ==> IsAt(s.items, id, Delivered)
  }

  lemma WithoutFirst(q: seq<nat>, x: nat)
    requires q != []
    ensures Without(q, x) == (if q[0] == x then [] else [q[0]]) + Without(q[1..], x)
  {
  }

  lemma {:induction false} WithoutConcat(a: seq<nat>, b: seq<nat>, x: nat)
    ensures Without(a + b, x) == Without(a, x) + Without(b, x)
  {
    if a == [] {
      assert a + b == b;
    } else {
      hide Without;
      WithoutConcat(a[1..], b, x);
      WithoutFirst(a, x);
      WithoutFirst(a + b, x);
      assert (a + b)[1..] == a[1..] + b;
    }
  }

  lemma {:induction false} WithoutAbsent(a: seq<nat>, x: nat)
    requires x !in a
    ensures Without(a, x) == a
  {
    if a != [] {
      WithoutAbsent(a[1..], x);
    }
  }

  lemma StillDelivered(items: seq<Item>, items': seq<Item>, called: seq<nat>)
    requires forall id :: id in called ==> IsAt(items, id, Delivered)
    requires |items| <= |items'|
    requires forall id :: 0 <= id < |items| && items[id].place.Delivered? ==> items'[id].place.Delivered?
    ensures forall id :: id in called ==> IsAt(items', id, Delivered)
  {
  }

  lemma CancelKeepsLoopOrder(s: Pool, id: nat, s': Pool, l: nat, joined: seq<nat>, called: seq<nat>)
    requires RequestsInv(s) && LoopOrder(s, l, joined, called) && Cancels(s, id, s') && s' != s
    ensures LoopOrder(s', l, Without(joined, id), called)
  {
    var item := s.items[id];
    assert id !in called by {
      assert id in called ==> IsAt(s.items, id, Delivered);
    }
    WithoutConcat(called + s.locals[l], s.queues[l], id);
    WithoutConcat(called, s.locals[l], id);
    WithoutAbsent(called, id);
    if item.loop != l {
      assert LoopInv(s.queues[l], l, InLoop, s.items) && LoopInv(s.locals[l], l, InLocal, s.items);
      assert id in s.queues[l] <==> IsIn(s.items, id, l, InLoop);
      assert id in s.locals[l] <==> IsIn(s.items, id, l, InLocal);
      WithoutAbsent(s.queues[l], id);
      WithoutAbsent(s.locals[l], id);
    }
    hide RequestsInv, Without;
    StillDelivered(s.items, s'.items, called);
  }

  lemma CompleteKeepsLoopOrder(s: Pool, a: Action, s': Pool, l: nat, joined: seq<nat>, called: seq<nat>)
    requires RequestsInv(s) && LoopOrder(s, l, joined, called) && (a.Complete? || a.HandOver?) && Step(s, a, s')
    ensures LoopOrder(s', l, Joins(s, a, s', l, joined), called)
  {
    if a.Complete? {
      var id := s.workers[a.worker].id;
      assert HandInv(a.worker, s.workers[a.worker], s.items);
    }
    hide RequestsInv;
    StillDelivered(s.items, s'.items, called);
  }

  lemma MoveKeepsLoopOrder(s: Pool, m: nat, s': Pool, l: nat, joined: seq<nat>, called: seq<nat>)
    requires LoopOrder(s, l, joined, called) && Moves(s, m, s')
    ensures LoopOrder(s', l, joined, called)
  {
    StillDelivered(s.items, s'.items, called);
  }

  lemma DeliverKeepsLoopOrder(s: Pool, m: nat, s': Pool, l: nat, joined: seq<nat>, called: seq<nat>)
    requires RequestsInv(s) && LoopOrder(s, l, joined, called) && Delivers(s, m, s')
    ensures LoopOrder(s', l, joined, called + CalledBy(s, Deliver(m), l))
  {
    StillDelivered(s.items, s'.items, called);
    hide RequestsInv;
    if m == l {
      assert s.locals[l] == [s.locals[l][0]] + s.locals[l][1..];
    }
  }

  lemma OtherKeepsLoopOrder(s: Pool, a: Action, s': Pool, l: nat, joined: seq<nat>, called: seq<nat>)
    requires RequestsInv(s) && LoopOrder(s, l, joined, called) && Step(s, a, s')
    requires a.Submit? || a.PostExit? || a.Lock? || a.Turn? || a.Run?
    ensures LoopOrder(s', l, joined, called)
  {
    if a.Turn? && s.wq != [] && s.wq[0].Work? {
      WorkIsBelow(s, 0);
    }
    if a.Turn? && s.pending != [] {
      PendingIsBelow(s, 0);
    }
    if a.Run? {
      assert HandInv(a.worker, s.workers[a.worker], s.items);
    }
    hide RequestsInv, SignalsIfIdle, Signals;
    StillDelivered(s.items, s'.items, called);
  }

  lemma StepKeepsLoopOrder(s: Pool, a: Action, s': Pool, l: nat, joined: seq<nat>, called: seq<nat>)
    requires RequestsInv(s) && LoopOrder(s, l, joined, called) && Step(s, a, s')
    ensures LoopOrder(s', l, Joins(s, a, s', l, joined), called + CalledBy(s, a, l))
  {
    hide RequestsInv, LoopOrder;
    assert called + [] == called;
    match a
    case Cancel(id) =>
      if s' != s {
        CancelKeepsLoopOrder(s, id, s', l, joined, called);
      }
    case Complete(_) => CompleteKeepsLoopOrder(s, a, s', l, joined, called);
    case HandOver(_) => CompleteKeepsLoopOrder(s, a, s', l, joined, called);
    case Move(m) => MoveKeepsLoopOrder(s, m, s', l, joined, called);
    case Deliver(m) => DeliverKeepsLoopOrder(s, m, s', l, joined, called);
    case _ => OtherKeepsLoopOrder(s, a, s', l, joined, called);
  }

  lemma StartsLoopOrder(s: Pool, nthreads: nat, loops: nat, l: nat)
    requires Init(s, nthreads, loops) && l < loops
    ensures LoopOrder(s, l, [], [])
  {
  }

  /** In every run, the callbacks of a loop are called in the order in which the requests joined its queue: those
      called, and those still to be called, are all that joined. */
  lemma {:induction false} CallbacksInOrder(run: seq<Pool>, acts: seq<Action>, nthreads: nat, loops: nat, l: nat,
                                            n: nat)
    requires IsRun(run, acts, nthreads, loops) && l < loops && n <= |acts|
    ensures LoopOrder(run[n], l, Joined(run, acts, l, n), Called(run, acts, l, n))
    ensures Called(run, acts, l, n) <= Joined(run, acts, l, n)
  {
    hide Step, Inv, Joins, CalledBy, Init;
    if n == 0 {
      StartsLoopOrder(run[0], nthreads, loops, l);
    } else {
      CallbacksInOrder(run, acts, nthreads, loops, l, n - 1);
      RunsKeepInv(run, acts, nthreads, loops, n - 1);
      InvRequests(run[n - 1]);
      StepKeepsLoopOrder(run[n - 1], acts[n - 1], run[n], l, Joined(run, acts, l, n - 1), Called(run, acts, l, n - 1));
    }
  }
}
