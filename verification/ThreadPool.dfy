/**
  `ThreadPool` (set/thread_pool/ThreadPool.h): any number of workers and
  callers around one deque, one stop flag and one condition variable. The
  sections under the mutex are atomic; notifications are delivered later, after
  the lock was released; a waiting worker may also wake for no reason.
 */
module ThreadPool {

  /** A task is known by an identity; what it does, and whether it throws, is up to the run. */
  type Task = nat

  /** Where a worker stands in `bind_run`: about to lock, in `ts()`, blocked in `wait`, or gone. */
  datatype Worker = AtLoop | Running(task: Task) | Waiting | Exited

  /** The locked record `data`. */
  datatype Locked = Locked(task: seq<Task>, stoped: bool)

  datatype State = State(
    shared: Locked,
    workers: seq<Worker>,
    notifyOne: nat,           // calls of notify_one on their way
    notifyAll: nat,           // calls of notify_all on their way
    pushed: seq<Task>,        // history: every task, in push order
    taken: seq<Task>,         // history: every task handed to a worker, in order
    finished: multiset<Task>, // history: tasks that returned or threw
    orphans: seq<Task>        // history: tasks pushed when no worker was left
  )

  // ------------------------------------------------------------------------
  // The sections under the mutex, as the code runs them
  // ------------------------------------------------------------------------

  function PushLocked(d: Locked, t: Task): Locked {
    d.(task := d.task + [t])
  }

  function StopLocked(d: Locked): Locked {
    d.(stoped := true)
  }

  /** One pass of the worker's loop up to the point where the lock is given up (lines 65-79). */
  function TakeLocked(d: Locked): (Locked, Worker) {
    if d.task != [] then (d.(task := d.task[1..]), Running(d.task[0]))
    else if d.stoped then (d, Exited)
    else (d, Waiting)
  }

  // ------------------------------------------------------------------------
  // Steps
  // ------------------------------------------------------------------------

  /** The environment pushes and stops; everything else is a step of the pool itself. */
  datatype Step =
    | Push(t: Task)
    | Stop
    | Lock(w: nat)         // a worker runs its locked section
    | Finish(w: nat)       // its task returns or throws
    | WakeOne(w: nat)      // a pending notify_one wakes this waiting worker
    | WakeNone             // a pending notify_one finds nobody waiting
    | WakeEvery            // a pending notify_all
    | Spurious(w: nat)     // a waiting worker wakes unasked

  predicate Is(s: State, w: nat, kind: Worker) {
    w < |s.workers| && s.workers[w] == kind
  }

  predicate AllExited(s: State) {
    forall w :: 0 <= w < |s.workers| ==> s.workers[w] == Exited
  }

  predicate Enabled(s: State, a: Step) {
    match a
    case Push(_) => true
    case Stop => true
    case Lock(w) => Is(s, w, AtLoop)
    case Finish(w) => w < |s.workers| && s.workers[w].Running?
    case WakeOne(w) => s.notifyOne > 0 && Is(s, w, Waiting)
    case WakeNone => s.notifyOne > 0 && Waiting !in s.workers
    case WakeEvery => s.notifyAll > 0
    case Spurious(w) => Is(s, w, Waiting)
  }

  function Woken(ws: seq<Worker>): (r: seq<Worker>)
    ensures |r| == |ws|
    ensures forall i :: 0 <= i < |ws| ==> r[i] == if ws[i] == Waiting then AtLoop else ws[i]
  {
    seq(|ws|, i requires 0 <= i < |ws| => if ws[i] == Waiting then AtLoop else ws[i])
  }

  function Next(s: State, a: Step): State
    requires Enabled(s, a)
  {
    match a
    case Push(t) =>
      s.(shared := PushLocked(s.shared, t), notifyOne := s.notifyOne + 1, pushed := s.pushed + [t],
         orphans := if AllExited(s) then s.orphans + [t] else s.orphans)
    case Stop => s.(shared := StopLocked(s.shared), notifyAll := s.notifyAll + 1)
    case Lock(w) =>
      var (d, next) := TakeLocked(s.shared);
      s.(shared := d, workers := s.workers[w := next],
         taken := if next.Running? then s.taken + [next.task] else s.taken)
    case Finish(w) =>
      s.(workers := s.workers[w := AtLoop], finished := s.finished + multiset{s.workers[w].task})
    case WakeOne(w) => s.(workers := s.workers[w := AtLoop], notifyOne := s.notifyOne - 1)
    case WakeNone => s.(notifyOne := s.notifyOne - 1)
    case WakeEvery => s.(workers := Woken(s.workers), notifyAll := s.notifyAll - 1)
    case Spurious(w) => s.(workers := s.workers[w := AtLoop])
  }

  function Start(n: nat): State {
    State(Locked([], false), seq(n, _ => AtLoop), 0, 0, [], [], multiset{}, [])
  }

  /** The states of a run of the given steps from s, if every step is possible where it is taken. */
  ghost predicate Runs(s: State, steps: seq<Step>, t: State)
    decreases |steps|
  {
    if steps == [] then s == t
    else Enabled(s, steps[0]) && Runs(Next(s, steps[0]), steps[1..], t)
  }

  predicate Internal(a: Step) {
    !a.Push? && !a.Stop?
  }

  /** The calls of the pool's users in a run. */
  function Calls(steps: seq<Step>): seq<Step> {
    if steps == [] then []
    else (if Internal(steps[0]) then [] else [steps[0]]) + Calls(steps[1..])
  }

  /** The tasks that calls hand to the pool, in the order of the calls. */
  function PushedBy(calls: seq<Step>): seq<Task> {
    if calls == [] then []
    else (if calls[0].Push? then [calls[0].t] else []) + PushedBy(calls[1..])
  }

  lemma TasksAssociate(a: seq<Task>, b: seq<Task>, c: seq<Task>)
    ensures a + b + c == a + (b + c)
  {}

  /** The history of pushes is what the calls of the run asked for. */
  lemma {:induction false} PushedAsCalled(s: State, steps: seq<Step>, t: State)
    requires Runs(s, steps, t)
    ensures t.pushed == s.pushed + PushedBy(Calls(steps))
    decreases |steps|
  {
    if steps != [] {
      PushedAsCalled(Next(s, steps[0]), steps[1..], t);
      PushedFirst(steps);
      TasksAssociate(s.pushed, if steps[0].Push? then [steps[0].t] else [], PushedBy(Calls(steps[1..])));
    }
  }

  function Stops(calls: seq<Step>): nat {
    if calls == [] then 0 else (if calls[0].Stop? then 1 else 0) + Stops(calls[1..])
  }

  /** How many calls of notify_one, and of notify_all, were delivered in the run. */
  function Delivered(steps: seq<Step>): (nat, nat) {
    if steps == [] then (0, 0)
    else
      var (one, every) := Delivered(steps[1..]);
      (one + (if steps[0].WakeOne? || steps[0].WakeNone? then 1 else 0), every + (if steps[0].WakeEvery? then 1 else 0))
  }

  /** One notify_one for each push and one notify_all for each stop, delivered or still on its way. */
  lemma {:induction false} SignalsAsCalled(s: State, steps: seq<Step>, t: State)
    requires Runs(s, steps, t)
    ensures t.notifyOne + Delivered(steps).0 == s.notifyOne + |PushedBy(Calls(steps))|
    ensures t.notifyAll + Delivered(steps).1 == s.notifyAll + Stops(Calls(steps))
    decreases |steps|
  {
    if steps != [] {
      SignalsAsCalled(Next(s, steps[0]), steps[1..], t);
      PushedFirst(steps);
      if Internal(steps[0]) {
        assert Calls(steps) == Calls(steps[1..]);
      } else {
        assert Calls(steps)[1..] == Calls(steps[1..]);
      }
    }
  }

  lemma {:induction false} PushedFirst(steps: seq<Step>)
    requires steps != []
    ensures PushedBy(Calls(steps)) == (if steps[0].Push? then [steps[0].t] else []) + PushedBy(Calls(steps[1..]))
  {
    var a, later := steps[0], Calls(steps[1..]);
    if Internal(a) {
      assert [] + later == later;
    } else {
      assert ([a] + later)[1..] == later;
    }
  }

  lemma {:induction false} RunsConcat(s: State, a: seq<Step>, u: State, b: seq<Step>, t: State)
    requires Runs(s, a, u) && Runs(u, b, t)
    ensures Runs(s, a + b, t)
    decreases |a|
  {
    if a == [] {
      assert a + b == b;
    } else {
      assert (a + b)[0] == a[0] && (a + b)[1..] == a[1..] + b;
      RunsConcat(Next(s, a[0]), a[1..], u, b, t);
    }
  }

  lemma {:induction false} RunsThen(s: State, a: seq<Step>, u: State, b: Step)
    requires Runs(s, a, u) && Enabled(u, b)
    ensures Runs(s, a + [b], Next(u, b))
  {
    assert Runs(Next(u, b), [b][1..], Next(u, b));
    RunsConcat(s, a, u, [b], Next(u, b));
  }

  // ------------------------------------------------------------------------
  // The worker's code
  // ------------------------------------------------------------------------

  /** What a worker that runs the tasks `ran` and stops at `last` leaves behind. */
  ghost function Worked(s: State, w: nat, d: Locked, ran: seq<Task>, last: Worker): State
    requires w < |s.workers|
  {
    s.(shared := d, workers := s.workers[w := last], taken := s.taken + ran, finished := s.finished + multiset(ran))
  }

  lemma OneMoreTask(s: State, w: nat, d: Locked, ran: seq<Task>)
    requires w < |s.workers| && d.task != []
    ensures var t, x := Worked(s, w, d, ran, AtLoop), d.task[0];
      && Enabled(t, Lock(w)) && Enabled(Next(t, Lock(w)), Finish(w))
      && Next(Next(t, Lock(w)), Finish(w)) == Worked(s, w, d.(task := d.task[1..]), ran + [x], AtLoop)
  {
    var t, x := Worked(s, w, d, ran, AtLoop), d.task[0];
    var u := Next(t, Lock(w));
    assert u.workers == s.workers[w := Running(x)];
    assert s.taken + ran + [x] == s.taken + (ran + [x]);
    assert s.finished + multiset(ran) + multiset{x} == s.finished + multiset(ran + [x]);
  }

  /** One turn of the loop continues the run: a task taken and run, or the worker's last locked section. */
  lemma {:induction false} OneTurn(s: State, w: nat, trace: seq<Step>, d: Locked, ran: seq<Task>)
    requires w < |s.workers| && Runs(s, trace, Worked(s, w, d, ran, AtLoop))
    ensures d.task != [] ==>
      Runs(s, trace + [Lock(w)] + [Finish(w)], Worked(s, w, d.(task := d.task[1..]), ran + [d.task[0]], AtLoop))
    ensures d.task == [] ==>
      Runs(s, trace + [Lock(w)], Worked(s, w, d, ran, if d.stoped then Exited else Waiting))
  {
    var u := Worked(s, w, d, ran, AtLoop);
    RunsThen(s, trace, u, Lock(w));
    if d.task != [] {
      OneMoreTask(s, w, d, ran);
      RunsThen(s, trace + [Lock(w)], Next(u, Lock(w)), Finish(w));
    } else {
      assert Next(u, Lock(w)) == Worked(s, w, d, ran, TakeLocked(d).1);
    }
  }

  class Data {
    var task: seq<Task>
    var stoped: bool

    ghost function View(): Locked
      reads this
    {
      Locked(task, stoped)
    }

    constructor ()
      ensures View() == Locked([], false)
    {
      task, stoped := [], false;
    }

    /**
      `bind_run` (lines 61-84) from the top of its loop until the worker waits or leaves, nobody else holding
      the lock meanwhile. It runs the whole queue in order, stop or no stop, before it looks at the
      flag, and what it does is a run of the step machine.
     */
    method BindRun(ghost s: State, ghost w: nat)
      returns (ran: seq<Task>, last: Worker, ghost trace: seq<Step>, ghost t: State)
      requires Is(s, w, AtLoop) && View() == s.shared
      modifies this
      ensures ran == old(task) && task == [] && stoped == old(stoped)
      ensures last == if stoped then Exited else Waiting
      ensures Runs(s, trace, t) && t == Worked(s, w, View(), ran, last)
    {
      ran, last, trace := [], AtLoop, [];
      assert s == Worked(s, w, View(), ran, last);
      while last == AtLoop
        invariant last == AtLoop || (task == [] && last == if stoped then Exited else Waiting)
        invariant old(task) == ran + task && stoped == old(stoped)
        invariant Runs(s, trace, Worked(s, w, View(), ran, last))
        decreases |task|, last == AtLoop
      {
        OneTurn(s, w, trace, View(), ran);
        if task != [] {
          var ts := task[0];
          task := task[1..];
          ran := ran + [ts];
          trace := trace + [Lock(w)] + [Finish(w)];
        } else {
          last := if stoped then Exited else Waiting;
          trace := trace + [Lock(w)];
        }
      }
      t := Worked(s, w, View(), ran, last);
    }
  }

  // ------------------------------------------------------------------------
  // Counting workers
  // ------------------------------------------------------------------------

  function Count(ws: seq<Worker>, kind: Worker): nat {
    if ws == [] then 0 else (if ws[0] == kind then 1 else 0) + Count(ws[1..], kind)
  }

  function Hold(w: Worker): multiset<Task> {
    if w.Running? then multiset{w.task} else multiset{}
  }

  /** The tasks in the hands of workers. */
  function Held(ws: seq<Worker>): multiset<Task> {
    if ws == [] then multiset{} else Hold(ws[0]) + Held(ws[1..])
  }

  /** Steps a worker still has before it, not counting the tasks it may yet be handed. */
  function Weight(w: Worker, asleep: nat): nat {
    match w case Exited => 0 case AtLoop => 1 case Running(_) => 2 case Waiting => asleep
  }

  function Weights(ws: seq<Worker>, asleep: nat): nat {
    if ws == [] then 0 else Weight(ws[0], asleep) + Weights(ws[1..], asleep)
  }

  lemma {:induction false} Replaced(ws: seq<Worker>, w: nat, v: Worker, asleep: nat)
    requires w < |ws|
    ensures var r := ws[w := v];
      && Count(r, AtLoop) == Count(ws, AtLoop) - (if ws[w] == AtLoop then 1 else 0) + (if v == AtLoop then 1 else 0)
      && Weights(r, asleep) == Weights(ws, asleep) - Weight(ws[w], asleep) + Weight(v, asleep)
  {
    if w > 0 {
      Replaced(ws[1..], w - 1, v, asleep);
      assert ws[w := v][1..] == ws[1..][w - 1 := v];
    } else {
      assert ws[0 := v][1..] == ws[1..];
    }
  }

  lemma SumAssociates(a: multiset<Task>, b: multiset<Task>, c: multiset<Task>)
    ensures a + b + c == a + (b + c)
  {}

  lemma {:induction false} HeldReplaced(ws: seq<Worker>, w: nat, v: Worker)
    requires w < |ws|
    ensures Held(ws[w := v]) + Hold(ws[w]) == Held(ws) + Hold(v)
  {
    if w > 0 {
      HeldReplaced(ws[1..], w - 1, v);
      assert ws[w := v][1..] == ws[1..][w - 1 := v];
      SumAssociates(Hold(ws[0]), Held(ws[1..][w - 1 := v]), Hold(ws[w]));
      SumAssociates(Hold(ws[0]), Held(ws[1..]), Hold(v));
    } else {
      assert ws[0 := v][1..] == ws[1..];
      assert Hold(v) + Held(ws[1..]) + Hold(ws[0]) == Hold(ws[0]) + Held(ws[1..]) + Hold(v);
    }
  }

  /** A worker that gives up what it holds, and one that takes something on. */
  lemma {:induction false} HeldChanges(ws: seq<Worker>, w: nat, v: Worker, done: multiset<Task>, out: multiset<Task>)
    requires w < |ws| && out == done + Held(ws)
    ensures !v.Running? ==> out == done + Hold(ws[w]) + Held(ws[w := v])
    ensures !ws[w].Running? ==> out + Hold(v) == done + Held(ws[w := v])
  {
    HeldReplaced(ws, w, v);
    var h, h', x, y := Held(ws), Held(ws[w := v]), Hold(ws[w]), Hold(v);
    if !v.Running? {
      assert h == h' + x;
      assert done + (h' + x) == done + x + h';
    }
    if !ws[w].Running? {
      assert h' == h + y;
      SumAssociates(done, h, y);
    }
  }

  lemma {:induction false} WokenHolds(ws: seq<Worker>)
    ensures Held(Woken(ws)) == Held(ws)
  {
    if ws != [] {
      WokenHolds(ws[1..]);
      var rs := Woken(ws);
      assert rs[1..] == Woken(ws[1..]) && Hold(rs[0]) == Hold(ws[0]);
      assert Held(rs) == Hold(rs[0]) + Held(rs[1..]);
    }
  }

  lemma {:induction false} WokenCounts(ws: seq<Worker>)
    ensures Weights(Woken(ws), 2) <= Weights(ws, 2)
    ensures Weights(Woken(ws), 0) <= Weights(ws, 0) + |ws|
  {
    if ws != [] {
      WokenCounts(ws[1..]);
      assert Woken(ws)[1..] == Woken(ws[1..]);
    }
  }

  // ------------------------------------------------------------------------
  // What every step keeps
  // ------------------------------------------------------------------------

  /**
    A worker sleeps only while every queued task has a notification on its way to it
    or a worker about to look at the queue.
   */
  predicate NoLostWakeup(s: State) {
    Waiting in s.workers ==> |s.shared.task| <= s.notifyOne + Count(s.workers, AtLoop)
  }

  /** Tasks are handed out in push order, each once, and a task handed out is held by a worker or done. */
  predicate Dispatch(s: State) {
    && s.pushed == s.taken + s.shared.task
    && multiset(s.taken) == s.finished + Held(s.workers)
  }

  /** After stop nobody sleeps without a notify_all on its way, and nobody left before. */
  predicate StopSeen(s: State) {
    && (s.shared.stoped && Waiting in s.workers ==> s.notifyAll > 0)
    && (Exited in s.workers ==> s.shared.stoped)
    && (s.notifyAll > 0 ==> s.shared.stoped)
  }

  /** With no worker left, what is queued is what came after the last one left; before that nothing is orphaned. */
  predicate Drained(s: State) {
    if AllExited(s) then s.shared.task == s.orphans else s.orphans == []
  }

  predicate Inv(s: State) {
    NoLostWakeup(s) && Dispatch(s) && StopSeen(s) && (s.workers != [] ==> Drained(s))
  }

  lemma {:induction false} StartInv(n: nat)
    ensures Inv(Start(n))
  {
    NothingHeld(seq(n, _ => AtLoop));
    if n > 0 { assert Start(n).workers[0] == AtLoop; }
  }

  lemma {:induction false} NothingHeld(ws: seq<Worker>)
    requires forall i :: 0 <= i < |ws| ==> !ws[i].Running?
    ensures Held(ws) == multiset{}
  {
    if ws != [] { NothingHeld(ws[1..]); }
  }

  lemma {:induction false} WakeupKept(s: State, a: Step)
    requires Inv(s) && Enabled(s, a)
    ensures NoLostWakeup(Next(s, a))
  {
    match a
    case Lock(w) => Replaced(s.workers, w, TakeLocked(s.shared).1, 2);
    case Finish(w) => Replaced(s.workers, w, AtLoop, 2);
    case WakeOne(w) => Replaced(s.workers, w, AtLoop, 2);
    case Spurious(w) => Replaced(s.workers, w, AtLoop, 2);
    case _ =>
  }

  lemma {:induction false} DispatchOnLock(s: State, w: nat)
    requires Inv(s) && Enabled(s, Lock(w))
    ensures Dispatch(Next(s, Lock(w)))
  {
    var q, next := s.shared.task, TakeLocked(s.shared).1;
    HeldChanges(s.workers, w, next, s.finished, multiset(s.taken));
    if q != [] {
      assert q == [q[0]] + q[1..];
      assert s.taken + q == (s.taken + [q[0]]) + q[1..];
      assert multiset(s.taken + [q[0]]) == multiset(s.taken) + multiset{q[0]};
    }
  }

  lemma {:induction false} DispatchKept(s: State, a: Step)
    requires Inv(s) && Enabled(s, a)
    ensures Dispatch(Next(s, a))
  {
    match a
    case Lock(w) => DispatchOnLock(s, w);
    case Finish(w) => HeldChanges(s.workers, w, AtLoop, s.finished, multiset(s.taken));
    case WakeOne(w) => HeldChanges(s.workers, w, AtLoop, s.finished, multiset(s.taken));
    case Spurious(w) => HeldChanges(s.workers, w, AtLoop, s.finished, multiset(s.taken));
    case WakeEvery => WokenHolds(s.workers);
    case Push(t) =>
      assert s.taken + s.shared.task + [t] == s.taken + (s.shared.task + [t]);
    case _ =>
  }

  lemma StopSeenKept(s: State, a: Step)
    requires Inv(s) && Enabled(s, a)
    ensures StopSeen(Next(s, a))
  {}

  lemma DrainedKept(s: State, a: Step)
    requires Inv(s) && Enabled(s, a) && s.workers != []
    ensures Drained(Next(s, a))
  {
    var t := Next(s, a);
    match a
    case Lock(w) =>
      assert s.workers[w] == AtLoop;
      if t.workers[w] != Exited { assert !AllExited(t); }
    case Finish(w) => assert t.workers[w] == AtLoop && s.workers[w].Running?;
    case WakeOne(w) => assert t.workers[w] == AtLoop && s.workers[w] == Waiting;
    case Spurious(w) => assert t.workers[w] == AtLoop && s.workers[w] == Waiting;
    case WakeEvery => assert AllExited(s) <==> AllExited(t);
    case _ =>
  }

  lemma StepInv(s: State, a: Step)
    requires Inv(s) && Enabled(s, a)
    ensures Inv(Next(s, a))
  {
    WakeupKept(s, a);
    DispatchKept(s, a);
    StopSeenKept(s, a);
    if s.workers != [] { DrainedKept(s, a); }
  }

  /** Every state of every run, for any number of workers and any interleaving. */
  lemma {:induction false} RunInv(s: State, steps: seq<Step>, t: State)
    requires Inv(s) && Runs(s, steps, t)
    ensures Inv(t)
    decreases |steps|
  {
    if steps != [] {
      StepInv(s, steps[0]);
      RunInv(Next(s, steps[0]), steps[1..], t);
    }
  }

  lemma {:induction false} RunKeepsWorkers(s: State, steps: seq<Step>, t: State)
    requires Runs(s, steps, t)
    ensures |t.workers| == |s.workers|
    decreases |steps|
  {
    if steps != [] { RunKeepsWorkers(Next(s, steps[0]), steps[1..], t); }
  }

  /**
    No lost wakeup: no run ends in a state where tasks are queued, no notification is on its
    way, and every worker that has not left is asleep.
   */
  lemma {:induction false} NoTaskIsForgotten(n: nat, steps: seq<Step>, t: State)
    requires Runs(Start(n), steps, t)
    requires t.shared.task != [] && t.notifyOne == 0 && !AllExited(t)
    ensures exists w :: 0 <= w < |t.workers| && (t.workers[w] == AtLoop || t.workers[w].Running?)
  {
    StartInv(n);
    RunInv(Start(n), steps, t);
    var w :| 0 <= w < |t.workers| && t.workers[w] != Exited;
    if t.workers[w] == Waiting { SomeCounted(t.workers, AtLoop); }
  }

  /** Moreover sleepers are never too many: without pending notifications, a queued task each is being fetched. */
  lemma {:induction false} SleepersAreSurplus(n: nat, steps: seq<Step>, t: State)
    requires Runs(Start(n), steps, t) && Waiting in t.workers && t.notifyOne == 0
    ensures |t.shared.task| <= Count(t.workers, AtLoop)
  {
    StartInv(n);
    RunInv(Start(n), steps, t);
  }

  lemma {:induction false} SomeCounted(ws: seq<Worker>, kind: Worker)
    requires Count(ws, kind) > 0
    ensures exists i :: 0 <= i < |ws| && ws[i] == kind
  {
    if ws[0] != kind {
      SomeCounted(ws[1..], kind);
      var i :| 0 <= i < |ws| - 1 && ws[1..][i] == kind;
      assert ws[i + 1] == kind;
    }
  }

  /** First pushed, first handed out, each exactly once: of the tasks the calls of the run pushed, in their order. */
  lemma {:induction false} DispatchIsFifoOnce(n: nat, steps: seq<Step>, t: State)
    requires Runs(Start(n), steps, t)
    ensures t.taken + t.shared.task == PushedBy(Calls(steps))
    ensures multiset(PushedBy(Calls(steps))) == t.finished + Held(t.workers) + multiset(t.shared.task)
  {
    StartInv(n);
    RunInv(Start(n), steps, t);
    PushedFromStart(n, steps, t);
  }

  lemma {:induction false} PushedFromStart(n: nat, steps: seq<Step>, t: State)
    requires Runs(Start(n), steps, t)
    ensures t.pushed == PushedBy(Calls(steps))
  {
    PushedAsCalled(Start(n), steps, t);
    assert [] + PushedBy(Calls(steps)) == PushedBy(Calls(steps));
  }

  /** The k-th task that any worker takes is the k-th that was pushed, and the worker runs it. */
  lemma {:induction false} WorkerRunsNextPushed(n: nat, steps: seq<Step>, t: State, w: nat)
    requires Runs(Start(n), steps, t) && Enabled(t, Lock(w)) && t.shared.task != []
    ensures var k := |PushedBy(Calls(steps))| - |t.shared.task|;
      && 0 <= k && k == |t.finished| + |Held(t.workers)|
      && Next(t, Lock(w)).workers[w] == Running(PushedBy(Calls(steps))[k])
  {
    DispatchIsFifoOnce(n, steps, t);
    StartInv(n);
    RunInv(Start(n), steps, t);
    assert |multiset(t.taken)| == |t.taken|;
  }

  // ------------------------------------------------------------------------
  // Stopping
  // ------------------------------------------------------------------------

  /** What is left to do once stop was called. */
  function Measure(s: State): nat {
    3 * |s.shared.task| + Weights(s.workers, 2) + s.notifyOne + s.notifyAll
  }

  /** After stop every step of the pool brings the end nearer, whatever the schedule. */
  lemma {:induction false} MeasureFalls(s: State, a: Step)
    requires Inv(s) && s.shared.stoped && Enabled(s, a) && Internal(a)
    ensures Next(s, a).shared.stoped && Measure(Next(s, a)) < Measure(s)
  {
    match a
    case Lock(w) => Replaced(s.workers, w, TakeLocked(s.shared).1, 2);
    case Finish(w) => Replaced(s.workers, w, AtLoop, 2);
    case WakeOne(w) => Replaced(s.workers, w, AtLoop, 2);
    case Spurious(w) => Replaced(s.workers, w, AtLoop, 2);
    case WakeEvery => WokenCounts(s.workers);
    case WakeNone =>
  }

  /** While a worker is left after stop, the pool can take a step: it cannot hang. */
  lemma StoppedPoolCanStep(s: State)
    requires Inv(s) && s.shared.stoped && !AllExited(s)
    ensures exists a :: Internal(a) && Enabled(s, a)
  {
    var w :| 0 <= w < |s.workers| && s.workers[w] != Exited;
    match s.workers[w]
    case AtLoop => assert Internal(Lock(w)) && Enabled(s, Lock(w));
    case Running(_) => assert Internal(Finish(w)) && Enabled(s, Finish(w));
    case Waiting => assert Internal(WakeEvery) && Enabled(s, WakeEvery);
  }

  /** A run of the pool alone after stop has at most Measure steps. */
  lemma {:induction false} StoppedRunIsBounded(s: State, steps: seq<Step>, t: State)
    requires Inv(s) && s.shared.stoped && Runs(s, steps, t)
    requires forall a :: a in steps ==> Internal(a)
    ensures |steps| + Measure(t) <= Measure(s) && t.shared.stoped && t.pushed == s.pushed
    decreases |steps|
  {
    if steps != [] {
      assert steps[0] in steps;
      MeasureFalls(s, steps[0]);
      StepInv(s, steps[0]);
      assert Next(s, steps[0]).pushed == s.pushed;
      StoppedRunIsBounded(Next(s, steps[0]), steps[1..], t);
    }
  }

  /** Once the notify_all of stop was delivered, no worker waits, and none ever will. */
  lemma {:induction false} NobodyWaitsAfterStop(n: nat, before: seq<Step>, s: State, after: seq<Step>, t: State)
    requires Runs(Start(n), before, s) && s.shared.stoped && s.notifyAll == 0
    requires Runs(s, after, t)
    ensures Waiting !in t.workers
  {
    StartInv(n);
    RunInv(Start(n), before, s);
    AwakeStaysAwake(s, after, t);
  }

  lemma {:induction false} AwakeStaysAwake(s: State, steps: seq<Step>, t: State)
    requires s.shared.stoped && Waiting !in s.workers && Runs(s, steps, t)
    ensures t.shared.stoped && Waiting !in t.workers
    decreases |steps|
  {
    if steps != [] { AwakeStaysAwake(Next(s, steps[0]), steps[1..], t); }
  }

  /**
    Drain before exit, exactly: when the last of at least one worker has left, every pushed task
    has returned or thrown, except those pushed after the last worker left.
   */
  lemma {:induction false} DrainedOnExit(n: nat, steps: seq<Step>, t: State)
    requires n > 0 && Runs(Start(n), steps, t) && AllExited(t)
    ensures multiset(PushedBy(Calls(steps))) == t.finished + multiset(t.orphans)
    ensures t.shared.stoped && PushedBy(Calls(steps)) == t.taken + t.orphans
  {
    PushedFromStart(n, steps, t);
    StartInv(n);
    RunInv(Start(n), steps, t);
    RunKeepsWorkers(Start(n), steps, t);
    NothingHeld(t.workers);
    assert t.workers[0] == Exited;
    assert multiset(t.pushed) == multiset(t.taken) + multiset(t.orphans);
  }

  /** Once the last worker has left, nothing that is or will be queued is ever taken. */
  lemma {:induction false} GoneForGood(s: State, steps: seq<Step>, t: State)
    requires AllExited(s) && Runs(s, steps, t)
    ensures AllExited(t) && t.taken == s.taken && t.finished == s.finished
    ensures s.shared.task <= t.shared.task && |t.pushed| - |s.pushed| == |t.shared.task| - |s.shared.task|
    decreases |steps|
  {
    if steps != [] {
      GoneForGood(Next(s, steps[0]), steps[1..], t);
    }
  }

  predicate NoPushAfterStop(calls: seq<Step>) {
    forall i, j :: 0 <= i < j < |calls| && calls[i].Stop? ==> !calls[j].Push?
  }

  predicate OnlyCalls(calls: seq<Step>) {
    forall i :: 0 <= i < |calls| ==> !Internal(calls[i])
  }

  predicate NoPush(calls: seq<Step>) {
    forall i :: 0 <= i < |calls| ==> !calls[i].Push?
  }

  lemma {:induction false} CallsAfterFirst(steps: seq<Step>)
    requires steps != [] && NoPushAfterStop(Calls(steps))
    ensures NoPushAfterStop(Calls(steps[1..])) && (steps[0].Stop? ==> NoPush(Calls(steps[1..])))
    ensures NoPush(Calls(steps)) ==> NoPush(Calls(steps[1..])) && !steps[0].Push?
  {
    var calls, later := Calls(steps), Calls(steps[1..]);
    if Internal(steps[0]) {
      assert calls == later;
    } else {
      assert calls[0] == steps[0] && forall i :: 0 <= i < |later| ==> later[i] == calls[i + 1];
    }
  }

  /** If nothing is pushed after stop, nothing is orphaned. */
  lemma {:induction false} NothingOrphaned(s: State, steps: seq<Step>, t: State)
    requires Inv(s) && s.workers != [] && s.orphans == [] && Runs(s, steps, t)
    requires NoPushAfterStop(Calls(steps)) && (s.shared.stoped ==> NoPush(Calls(steps)))
    ensures t.orphans == []
    decreases |steps|
  {
    if steps != [] {
      StepInv(s, steps[0]);
      CallsAfterFirst(steps);
      if steps[0].Push? { assert s.workers[0] == Exited ==> Exited in s.workers; }
      NothingOrphaned(Next(s, steps[0]), steps[1..], t);
    }
  }

  /** What a caller can rely on: if nothing is pushed after stop, then once all workers have left every task is done. */
  lemma {:induction false} StopLosesNothing(n: nat, steps: seq<Step>, t: State)
    requires n > 0 && Runs(Start(n), steps, t) && AllExited(t) && NoPushAfterStop(Calls(steps))
    ensures t.finished == multiset(PushedBy(Calls(steps))) && t.taken == PushedBy(Calls(steps))
  {
    StartInv(n);
    NothingOrphaned(Start(n), steps, t);
    DrainedOnExit(n, steps, t);
  }

  /** A stopped pool has a way to the end from wherever it is. */
  lemma {:induction false} WayToExit(s: State) returns (steps: seq<Step>, t: State)
    requires Inv(s) && s.shared.stoped
    ensures Runs(s, steps, t) && AllExited(t) && Calls(steps) == []
    decreases Measure(s)
  {
    if AllExited(s) {
      steps, t := [], s;
    } else {
      StoppedPoolCanStep(s);
      var a :| Internal(a) && Enabled(s, a);
      MeasureFalls(s, a);
      StepInv(s, a);
      var rest, end := WayToExit(Next(s, a));
      steps, t := [a] + rest, end;
      assert steps[1..] == rest;
    }
  }

  /** Calls are possible in every state. */
  lemma {:induction false} CallsRun(s: State, calls: seq<Step>) returns (t: State)
    requires OnlyCalls(calls)
    ensures Runs(s, calls, t) && Calls(calls) == calls
    ensures |t.pushed| >= |s.pushed| && (|t.pushed| > |s.pushed| || NoPush(calls))
    ensures t.shared.stoped <==> s.shared.stoped || exists i :: 0 <= i < |calls| && calls[i].Stop?
    decreases |calls|
  {
    if calls == [] {
      t := s;
    } else {
      t := CallsRun(Next(s, calls[0]), calls[1..]);
      assert forall i :: 1 <= i < |calls| ==> calls[i] == calls[1..][i - 1];
    }
  }

  lemma StepsAssociate(a: seq<Step>, b: seq<Step>, c: seq<Step>)
    ensures a + b + c == a + (b + c)
  {}

  lemma {:induction false} CallsConcat(a: seq<Step>, b: seq<Step>)
    ensures Calls(a + b) == Calls(a) + Calls(b)
  {
    if a == [] {
      assert a + b == b;
    } else {
      assert (a + b)[0] == a[0] && (a + b)[1..] == a[1..] + b;
      CallsConcat(a[1..], b);
      StepsAssociate(if Internal(a[0]) then [] else [a[0]], Calls(a[1..]), Calls(b));
    }
  }

  /** Calls that contain a stop, and then every worker leaves. */
  lemma {:induction false} StopThenExit(n: nat, calls: seq<Step>) returns (steps: seq<Step>, t: State)
    requires OnlyCalls(calls)
    requires exists i :: 0 <= i < |calls| && calls[i].Stop?
    ensures Runs(Start(n), steps, t) && Calls(steps) == calls && AllExited(t) && Inv(t)
  {
    var s := CallsRun(Start(n), calls);
    StartInv(n);
    RunInv(Start(n), calls, s);
    var way, end := WayToExit(s);
    RunInv(s, way, end);
    RunsConcat(Start(n), calls, s, way, end);
    CallsConcat(calls, way);
    steps, t := calls + way, end;
  }

  /** Pushes to a pool without workers are never finished. */
  lemma {:induction false} LateCalls(s: State, calls: seq<Step>) returns (t: State)
    requires OnlyCalls(calls)
    requires Inv(s) && AllExited(s) && !NoPush(calls)
    ensures Runs(s, calls, t) && Calls(calls) == calls && AllExited(t) && t.finished != multiset(t.pushed)
  {
    t := CallsRun(s, calls);
    GoneForGood(s, calls, t);
    FinishedAtMostPushed(s);
    assert |multiset(t.pushed)| == |t.pushed|;
  }

  /** A push that comes after a stop can come too late. */
  lemma {:induction false} TooLate(n: nat, first: seq<Step>, later: seq<Step>) returns (steps: seq<Step>, t: State)
    requires OnlyCalls(first)
    requires OnlyCalls(later)
    requires (exists i :: 0 <= i < |first| && first[i].Stop?) && !NoPush(later)
    ensures Runs(Start(n), steps, t) && Calls(steps) == first + later && AllExited(t)
    ensures t.finished != multiset(t.pushed)
  {
    var early, s := StopThenExit(n, first);
    t := LateCalls(s, later);
    RunsConcat(Start(n), early, s, later, t);
    CallsConcat(early, later);
    steps := early + later;
  }

  lemma SplitAtStop(calls: seq<Step>) returns (first: seq<Step>, later: seq<Step>)
    requires OnlyCalls(calls) && !NoPushAfterStop(calls)
    ensures OnlyCalls(first) && OnlyCalls(later)
    ensures calls == first + later && !NoPush(later)
    ensures exists i :: 0 <= i < |first| && first[i].Stop?
  {
    var i, j :| 0 <= i < j < |calls| && calls[i].Stop? && calls[j].Push?;
    first, later := calls[..i + 1], calls[i + 1..];
    assert first[i].Stop? && later[j - i - 1].Push?;
  }

  lemma FinishedAtMostPushed(s: State)
    requires Inv(s)
    ensures |s.finished| <= |s.pushed|
  {
    assert |multiset(s.taken)| == |s.taken|;
  }

  /**
    The exact condition on the calls, whatever the schedule: every run with these calls in which all workers leave
    has then finished every task, if and only if no push comes after a stop.
   */
  lemma {:induction false} StopLosesNothingExactly(n: nat, calls: seq<Step>)
    requires n > 0 && OnlyCalls(calls)
    ensures NoPushAfterStop(calls) <==>
      forall steps, t | Runs(Start(n), steps, t) && Calls(steps) == calls && AllExited(t) ::
        t.finished == multiset(PushedBy(calls))
  {
    if NoPushAfterStop(calls) {
      forall steps, t | Runs(Start(n), steps, t) && Calls(steps) == calls && AllExited(t)
        ensures t.finished == multiset(PushedBy(calls))
      {
        StopLosesNothing(n, steps, t);
      }
    } else {
      var first, later := SplitAtStop(calls);
      var steps, t := TooLate(n, first, later);
      PushedFromStart(n, steps, t);
    }
  }

  /** The shortest case: one worker, stopped before it ever looked at the queue, then a push. */
  lemma {:induction false} PushAfterStop(x: Task)
    ensures exists t ::
      (Runs(Start(1), [Stop, Lock(0), Push(x)], t) && AllExited(t) &&
       t.pushed == t.shared.task == [x] && t.finished == multiset{})
  {
    var s := Start(1);
    var a := Next(s, Stop);
    var b := Next(a, Lock(0));
    var t := Next(b, Push(x));
    assert Runs(t, [], t);
    RunsThen(s, [], s, Stop);
    RunsThen(s, [] + [Stop], a, Lock(0));
    RunsThen(s, [] + [Stop] + [Lock(0)], b, Push(x));
    assert [] + [Stop] + [Lock(0)] + [Push(x)] == [Stop, Lock(0), Push(x)];
  }

  lemma {:induction false} InternalHasNoCalls(steps: seq<Step>)
    requires forall a :: a in steps ==> Internal(a)
    ensures Calls(steps) == []
  {
    if steps != [] {
      assert steps[0] in steps;
      InternalHasNoCalls(steps[1..]);
    }
  }

  lemma {:induction false} StillNothingOrphaned(n: nat, before: seq<Step>, s: State, steps: seq<Step>, t: State)
    requires n > 0 && Runs(Start(n), before, s) && NoPushAfterStop(Calls(before))
    requires Runs(s, steps, t) && forall a :: a in steps ==> Internal(a)
    ensures t.orphans == []
  {
    StartInv(n);
    RunsConcat(Start(n), before, s, steps, t);
    CallsConcat(before, steps);
    InternalHasNoCalls(steps);
    assert Calls(before) + [] == Calls(before);
    NothingOrphaned(Start(n), before + steps, t);
  }

  /** What holds of the pool after a stretch without calls. */
  lemma {:induction false} LeftAlone(n: nat, before: seq<Step>, s: State, steps: seq<Step>, t: State)
    requires n > 0 && Runs(Start(n), before, s)
    requires Runs(s, steps, t) && forall a :: a in steps ==> Internal(a)
    ensures Inv(s) && Inv(t) && t.workers != [] && t.pushed == PushedBy(Calls(before))
    ensures NoPushAfterStop(Calls(before)) ==> t.orphans == []
  {
    StartInv(n);
    RunInv(Start(n), before, s);
    RunInv(s, steps, t);
    RunKeepsWorkers(Start(n), before, s);
    RunKeepsWorkers(s, steps, t);
    PushedFromStart(n, before, s);
    PushedAsCalled(s, steps, t);
    InternalHasNoCalls(steps);
    assert s.pushed + [] == s.pushed;
    if NoPushAfterStop(Calls(before)) { StillNothingOrphaned(n, before, s, steps, t); }
  }

  lemma NothingUndone(t: State)
    requires Dispatch(t) && t.shared.task == t.orphans && Held(t.workers) == multiset{}
    ensures multiset(t.pushed) == t.finished + multiset(t.orphans)
  {
    assert multiset(t.pushed) == multiset(t.taken) + multiset(t.orphans);
  }

  /**
    The whole story of a stop: from any reachable stopped state with workers, the pool running on
    its own comes to rest within Measure steps, and at rest every worker has left and nothing
    that was pushed while a worker was there is undone.
   */
  lemma {:induction false} StopCompletes(n: nat, before: seq<Step>, s: State, steps: seq<Step>, t: State)
    requires n > 0 && Runs(Start(n), before, s) && s.shared.stoped
    requires Runs(s, steps, t) && forall a :: a in steps ==> Internal(a)
    requires forall a :: Internal(a) ==> !Enabled(t, a)
    ensures |steps| <= Measure(s)
    ensures AllExited(t) && multiset(PushedBy(Calls(before))) == t.finished + multiset(t.orphans)
    ensures NoPushAfterStop(Calls(before)) ==> t.finished == multiset(PushedBy(Calls(before)))
  {
    LeftAlone(n, before, s, steps, t);
    StoppedRunIsBounded(s, steps, t);
    if !AllExited(t) { StoppedPoolCanStep(t); }
    NothingHeld(t.workers);
    NothingUndone(t);
  }

  // ------------------------------------------------------------------------
  // Coming to rest without a stop
  // ------------------------------------------------------------------------

  /** What is left to do if nobody calls in and nobody wakes unasked. */
  function Rest(s: State): nat {
    2 * |s.shared.task| + Weights(s.workers, 0) + 2 * s.notifyOne + Wakings(|s.workers|, s.notifyAll)
  }

  /** k calls of notify_all, each of which may set n workers going. */
  function Wakings(n: nat, k: nat): nat {
    if k == 0 then 0 else n + 1 + Wakings(n, k - 1)
  }

  function Spurious(steps: seq<Step>): nat {
    if steps == [] then 0 else (if steps[0].Spurious? then 1 else 0) + Spurious(steps[1..])
  }

  /** Every step of the pool uses up some of the rest; only a spurious wakeup gives a step back. */
  lemma {:induction false} RestFalls(s: State, a: Step)
    requires Enabled(s, a) && Internal(a)
    ensures 1 + Rest(Next(s, a)) <= Rest(s) + (if a.Spurious? then 2 else 0)
  {
    match a
    case Lock(w) => Replaced(s.workers, w, TakeLocked(s.shared).1, 0);
    case Finish(w) => Replaced(s.workers, w, AtLoop, 0);
    case WakeOne(w) => Replaced(s.workers, w, AtLoop, 0);
    case Spurious(w) => Replaced(s.workers, w, AtLoop, 0);
    case WakeEvery => WokenCounts(s.workers);
    case WakeNone =>
  }

  lemma {:induction false} RestBoundsRun(s: State, steps: seq<Step>, t: State)
    requires Runs(s, steps, t) && forall a :: a in steps ==> Internal(a)
    ensures |steps| + Rest(t) <= Rest(s) + 2 * Spurious(steps)
    decreases |steps|
  {
    if steps != [] {
      assert steps[0] in steps;
      RestFalls(s, steps[0]);
      RestBoundsRun(Next(s, steps[0]), steps[1..], t);
    }
  }

  /**
    Liveness, stopped or not: left alone, the pool comes to rest within a number of steps that
    grows only with spurious wakeups, and at rest every task pushed while a worker was there
    has returned or thrown.
   */
  lemma {:induction false} PoolComesToRest(n: nat, before: seq<Step>, s: State, steps: seq<Step>, t: State)
    requires n > 0 && Runs(Start(n), before, s)
    requires Runs(s, steps, t) && forall a :: a in steps ==> Internal(a)
    ensures |steps| <= Rest(s) + 2 * Spurious(steps)
    ensures (forall a :: Internal(a) && !a.Spurious? ==> !Enabled(t, a)) ==>
      && multiset(PushedBy(Calls(before))) == t.finished + multiset(t.orphans)
      && (NoPushAfterStop(Calls(before)) ==> t.finished == multiset(PushedBy(Calls(before))))
  {
    RestBoundsRun(s, steps, t);
    LeftAlone(n, before, s, steps, t);
    if forall a :: Internal(a) && !a.Spurious? ==> !Enabled(t, a) {
      AtRestNothingQueued(t);
      NothingUndone(t);
    }
  }

  lemma {:induction false} AtRestNothingQueued(t: State)
    requires Inv(t) && t.workers != []
    requires forall a :: Internal(a) && !a.Spurious? ==> !Enabled(t, a)
    ensures t.shared.task == t.orphans && Held(t.workers) == multiset{}
  {
    forall w | 0 <= w < |t.workers| ensures t.workers[w] in {Waiting, Exited} {
      assert !Enabled(t, Lock(w)) && !Enabled(t, Finish(w));
    }
    NothingHeld(t.workers);
    if !AllExited(t) {
      var w :| 0 <= w < |t.workers| && t.workers[w] != Exited;
      assert !Enabled(t, WakeOne(w));
      if Count(t.workers, AtLoop) > 0 { SomeCounted(t.workers, AtLoop); }
    }
  }
}
