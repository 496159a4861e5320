/**
  `Loop` (set/loop/Loop.cpp): callback lists drained by swap, timers taken from
  a min-priority queue, one thread running both. A callback may do anything the
  loop's interface offers; which actions it takes at which call of the run is
  an arbitrary oracle.
 */
module EventLoop {

  type Callback = nat

  datatype Timer = Timer(timestamp: nat, runnable: Callback)

  /** The two lists, named as the fields `idle_` and `runable_`. */
  datatype Which = Idle | Runable

  datatype Pair<T> = Pair(idle: T, runable: T) {
    function Get(w: Which): T {
      match w case Idle => idle case Runable => runable
    }

    function Set(w: Which, x: T): Pair<T> {
      match w case Idle => this.(idle := x) case Runable => this.(runable := x)
    }
  }

  datatype Action = PushIdle(c: Callback) | PushRunable(c: Callback) | RunAt(timestamp: nat, c: Callback) | Quit

  /** A timer that ran, and the reading of the clock its pass was given. */
  datatype Firing = Firing(timer: Timer, now: nat)

  datatype State = State(
    pending: Pair<seq<Callback>>,
    timers: multiset<Timer>,
    outtime: nat,
    isQuit: bool,
    calls: nat,                    // history: callbacks run so far
    pushed: Pair<seq<Callback>>,   // history: callbacks ever put in each list
    ran: Pair<seq<Callback>>,      // history: callbacks run from each list
    scheduled: multiset<Timer>,    // history: timers ever added
    fired: seq<Firing>             // history: timers run
  )

  /** The actions of a callback, given the number of its call in the run and whether a timer pass makes it. */
  type Oracle = (nat, bool, Callback) -> seq<Action>

  function Start(): State {
    State(Pair([], []), multiset{}, 0, true, 0, Pair([], []), Pair([], []), multiset{}, [])
  }

  // ------------------------------------------------------------------------
  // The interface (lines 48-60)
  // ------------------------------------------------------------------------

  /** `pushIdle` appends to `runable_` and `pushRunable` to `idle_`. */
  function Target(a: Action): Which {
    if a.PushIdle? then Runable else Idle
  }

  function Push(s: State, w: Which, c: Callback): State {
    s.(pending := s.pending.Set(w, s.pending.Get(w) + [c]),
       pushed := s.pushed.Set(w, s.pushed.Get(w) + [c]))
  }

  function Act(s: State, a: Action): State {
    match a
    case PushIdle(c) => Push(s, Target(a), c)
    case PushRunable(c) => Push(s, Target(a), c)
    case RunAt(ts, c) =>
      var t := multiset{Timer(ts, c)};
      s.(timers := s.timers + t, scheduled := s.scheduled + t)
    case Quit => s.(isQuit := true)
  }

  function ActAll(s: State, acts: seq<Action>): State
    decreases |acts|
  {
    if acts == [] then s else ActAll(Act(s, acts[0]), acts[1..])
  }

  /** One callback runs. */
  function Call(s: State, inTimer: bool, c: Callback, o: Oracle): State {
    ActAll(s.(calls := s.calls + 1), o(s.calls, inTimer, c))
  }

  // ------------------------------------------------------------------------
  // Draining a list (lines 85-93)
  // ------------------------------------------------------------------------

  function DrainFrom(s: State, w: Which, funcs: seq<Callback>, o: Oracle): State
    decreases |funcs|
  {
    if funcs == [] then s
    else DrainFrom(DrainOne(s, w, funcs[0], o), w, funcs[1..], o)
  }

  function DrainOne(s: State, w: Which, c: Callback, o: Oracle): State {
    Call(s.(ran := s.ran.Set(w, s.ran.Get(w) + [c])), false, c, o)
  }

  /** Swap the list with an empty one, then run what was in it. */
  function Drain(s: State, w: Which, o: Oracle): State {
    DrainFrom(s.(pending := s.pending.Set(w, [])), w, s.pending.Get(w), o)
  }

  // ------------------------------------------------------------------------
  // A timer pass (lines 65-77)
  // ------------------------------------------------------------------------

  predicate IsTop(ts: multiset<Timer>, t: Timer) {
    t in ts && forall u :: u in ts ==> t.timestamp <= u.timestamp
  }

  /** The pass takes the timers of `order` off the queue, each at the top when taken, until none is due. */
  ghost predicate PassOrder(ts: multiset<Timer>, order: seq<Timer>, now: nat)
    decreases |order|
  {
    if order == [] then forall u :: u in ts ==> u.timestamp > now
    else
      && IsTop(ts, order[0]) && order[0].timestamp <= now
      && PassOrder(ts - multiset{order[0]}, order[1..], now)
  }

  /** Run the timer at the top; its callback runs before it is popped. */
  function FireOne(s: State, x: Timer, now: nat, o: Oracle): State {
    var called := Call(s, true, x.runnable, o);
    called.(timers := called.timers - multiset{x}, fired := called.fired + [Firing(x, now)])
  }

  function Fire(s: State, order: seq<Timer>, now: nat, o: Oracle): State
    decreases |order|
  {
    if order == [] then s else Fire(FireOne(s, order[0], now, o), order[1..], now, o)
  }

  /** The last timestamp looked at becomes `outtime`. */
  ghost predicate Pass(s: State, now: nat, order: seq<Timer>, o: Oracle, t: State) {
    && PassOrder(s.timers, order, now)
    && t == Fire(s, order, now, o).(outtime := t.outtime)
    && if t.timers != multiset{} then (exists top :: IsTop(t.timers, top) && t.outtime == top.timestamp)
       else t.outtime == if order == [] then s.outtime else order[|order| - 1].timestamp
  }

  /** Timer callbacks do not call `runAt`: the pass that runs them holds the mutex it would lock. */
  ghost predicate NoRunAt(o: Oracle) {
    forall k: nat, c, a :: a in o(k, true, c) ==> !a.RunAt?
  }

  // ------------------------------------------------------------------------
  // What actions and calls leave alone
  // ------------------------------------------------------------------------

  /** t has the same runs behind it as s; its lists and queues may have grown at the end. */
  ghost predicate Extends(s: State, t: State) {
    && t.ran == s.ran && t.fired == s.fired && t.outtime == s.outtime
    && (forall w :: s.pending.Get(w) <= t.pending.Get(w) && s.pushed.Get(w) <= t.pushed.Get(w))
    && (forall w :: t.pending.Get(w)[|s.pending.Get(w)|..] == t.pushed.Get(w)[|s.pushed.Get(w)|..])
    && s.timers <= t.timers && s.scheduled <= t.scheduled
    && t.timers - s.timers == t.scheduled - s.scheduled
    && (s.isQuit ==> t.isQuit)
  }

  lemma {:induction false} ExtendsTransitive(s: State, t: State, u: State)
    requires Extends(s, t) && Extends(t, u)
    ensures Extends(s, u)
  {
    forall w
      ensures s.pending.Get(w) <= u.pending.Get(w) && s.pushed.Get(w) <= u.pushed.Get(w)
      ensures u.pending.Get(w)[|s.pending.Get(w)|..] == u.pushed.Get(w)[|s.pushed.Get(w)|..]
    {
      SuffixesAgree(s.pending.Get(w), t.pending.Get(w), u.pending.Get(w),
                    s.pushed.Get(w), t.pushed.Get(w), u.pushed.Get(w));
    }
    GrowthAgrees(s.timers, t.timers, u.timers, s.scheduled, t.scheduled, u.scheduled);
  }

  lemma SuffixesAgree(a: seq<Callback>, b: seq<Callback>, c: seq<Callback>,
                      x: seq<Callback>, y: seq<Callback>, z: seq<Callback>)
    requires a <= b <= c && x <= y <= z
    requires b[|a|..] == y[|x|..] && c[|b|..] == z[|y|..]
    ensures a <= c && x <= z && c[|a|..] == z[|x|..]
  {
    assert c[|a|..] == b[|a|..] + c[|b|..];
    assert z[|x|..] == y[|x|..] + z[|y|..];
  }

  lemma GrowthAgrees(a: multiset<Timer>, b: multiset<Timer>, c: multiset<Timer>,
                     x: multiset<Timer>, y: multiset<Timer>, z: multiset<Timer>)
    requires a <= b <= c && x <= y <= z && b - a == y - x && c - b == z - y
    ensures a <= c && x <= z && c - a == z - x
  {
    forall t ensures (c - a)[t] == (z - x)[t] {
      assert (b - a)[t] == (y - x)[t] && (c - b)[t] == (z - y)[t];
    }
  }

  lemma ActExtends(s: State, a: Action)
    ensures Extends(s, Act(s, a)) && Act(s, a).calls == s.calls
    ensures !a.RunAt? ==> Act(s, a).timers == s.timers && Act(s, a).scheduled == s.scheduled
  {
    if a.RunAt? {
      var t := multiset{Timer(a.timestamp, a.c)};
      assert s.timers + t - s.timers == t && s.scheduled + t - s.scheduled == t;
    }
  }

  lemma {:induction false} ActAllExtends(s: State, acts: seq<Action>)
    ensures Extends(s, ActAll(s, acts)) && ActAll(s, acts).calls == s.calls
    ensures (forall a :: a in acts ==> !a.RunAt?) ==>
      ActAll(s, acts).timers == s.timers && ActAll(s, acts).scheduled == s.scheduled
    decreases |acts|
  {
    if acts != [] {
      ActExtends(s, acts[0]);
      ActAllExtends(Act(s, acts[0]), acts[1..]);
      ExtendsTransitive(s, Act(s, acts[0]), ActAll(s, acts));
      assert acts[0] in acts;
    }
  }

  // ------------------------------------------------------------------------
  // What was asked for, read off the actions themselves
  // ------------------------------------------------------------------------

  /** The callbacks that actions put in `idle_` (by `pushRunable`) or in `runable_` (by `pushIdle`), in order. */
  function Callbacks(acts: seq<Action>, w: Which): seq<Callback> {
    if acts == [] then []
    else
      (match acts[0]
       case PushRunable(c) => (if w == Idle then [c] else [])
       case PushIdle(c) => (if w == Runable then [c] else [])
       case _ => []) + Callbacks(acts[1..], w)
  }

  /** The timers that actions ask for, at the times asked for. */
  function TimersIn(acts: seq<Action>): multiset<Timer> {
    if acts == [] then multiset{}
    else (if acts[0].RunAt? then multiset{Timer(acts[0].timestamp, acts[0].c)} else multiset{}) + TimersIn(acts[1..])
  }

  /** The actions of callbacks called one after another, the first as the run's call number `from`. */
  function Made(o: Oracle, inTimer: bool, from: nat, cs: seq<Callback>): seq<Action>
    decreases |cs|
  {
    if cs == [] then [] else o(from, inTimer, cs[0]) + Made(o, inTimer, from + 1, cs[1..])
  }

  function Runnables(order: seq<Timer>): (cs: seq<Callback>)
    ensures |cs| == |order|
  {
    if order == [] then [] else [order[0].runnable] + Runnables(order[1..])
  }

  /** Between s and t exactly these actions were taken. */
  ghost predicate Asked(s: State, t: State, acts: seq<Action>) {
    && t.pushed.idle == s.pushed.idle + Callbacks(acts, Idle)
    && t.pushed.runable == s.pushed.runable + Callbacks(acts, Runable)
    && t.scheduled == s.scheduled + TimersIn(acts)
    && (t.isQuit <==> s.isQuit || Quit in acts)
  }

  lemma {:induction false} CallbacksConcat(a: seq<Action>, b: seq<Action>, w: Which)
    ensures Callbacks(a + b, w) == Callbacks(a, w) + Callbacks(b, w)
  {
    if a == [] {
      assert a + b == b;
    } else {
      assert (a + b)[0] == a[0] && (a + b)[1..] == a[1..] + b;
      CallbacksConcat(a[1..], b, w);
      CallbacksAssociate(Callbacks([a[0]], w), Callbacks(a[1..], w), Callbacks(b, w));
      CallbacksOne(a[0], w);
    }
  }

  lemma CallbacksOne(a: Action, w: Which)
    ensures Callbacks([a], w) ==
      match a
      case PushRunable(c) => (if w == Idle then [c] else [])
      case PushIdle(c) => (if w == Runable then [c] else [])
      case _ => []
  {
    assert [a][1..] == [];
  }

  lemma CallbacksAssociate(a: seq<Callback>, b: seq<Callback>, c: seq<Callback>)
    ensures a + b + c == a + (b + c)
  {}

  lemma TimersAssociate(a: multiset<Timer>, b: multiset<Timer>, c: multiset<Timer>)
    ensures a + b + c == a + (b + c)
  {}

  lemma {:induction false} TimersInConcat(a: seq<Action>, b: seq<Action>)
    ensures TimersIn(a + b) == TimersIn(a) + TimersIn(b)
  {
    if a == [] {
      assert a + b == b;
    } else {
      assert (a + b)[0] == a[0] && (a + b)[1..] == a[1..] + b;
      TimersInConcat(a[1..], b);
      TimersAssociate(if a[0].RunAt? then multiset{Timer(a[0].timestamp, a[0].c)} else multiset{},
                      TimersIn(a[1..]), TimersIn(b));
    }
  }

  lemma {:induction false} AskedThen(s: State, a: seq<Action>, t: State, b: seq<Action>, u: State)
    requires Asked(s, t, a) && Asked(t, u, b)
    ensures Asked(s, u, a + b)
  {
    CallbacksConcat(a, b, Idle);
    CallbacksConcat(a, b, Runable);
    CallbacksAssociate(s.pushed.idle, Callbacks(a, Idle), Callbacks(b, Idle));
    CallbacksAssociate(s.pushed.runable, Callbacks(a, Runable), Callbacks(b, Runable));
    TimersInConcat(a, b);
    TimersAssociate(s.scheduled, TimersIn(a), TimersIn(b));
  }

  lemma AskedNothing(s: State, t: State)
    requires t.pushed == s.pushed && t.scheduled == s.scheduled && t.isQuit == s.isQuit
    ensures Asked(s, t, [])
  {}

  /** One action: on the lists, the timers and the flag themselves, and on nothing else. */
  lemma {:induction false} ActAsked(s: State, a: Action)
    ensures var t := Act(s, a);
      && Asked(s, t, [a])
      && (forall w :: t.pending.Get(w) == s.pending.Get(w) + Callbacks([a], w))
      && t.timers == s.timers + TimersIn([a])
      && t == s.(pending := t.pending, pushed := t.pushed, timers := t.timers, scheduled := t.scheduled, isQuit := t.isQuit)
  {
    assert [a][1..] == [];
    CallbacksOne(a, Idle);
    CallbacksOne(a, Runable);
  }

  lemma {:induction false} ActAllAsked(s: State, acts: seq<Action>)
    ensures Asked(s, ActAll(s, acts), acts) && ActAll(s, acts).calls == s.calls
    decreases |acts|
  {
    if acts == [] {
      AskedNothing(s, s);
    } else {
      ActAsked(s, acts[0]);
      ActAllAsked(Act(s, acts[0]), acts[1..]);
      AskedThen(s, [acts[0]], Act(s, acts[0]), acts[1..], ActAll(s, acts));
      assert [acts[0]] + acts[1..] == acts;
    }
  }

  /** A callback does what its actions say. */
  lemma {:induction false} CallAsked(s: State, inTimer: bool, c: Callback, o: Oracle)
    ensures Asked(s, Call(s, inTimer, c, o), o(s.calls, inTimer, c)) && Call(s, inTimer, c, o).calls == s.calls + 1
  {
    var s1 := s.(calls := s.calls + 1);
    ActAllAsked(s1, o(s.calls, inTimer, c));
  }

  lemma {:induction false} CallsAsked(s: State, u: State, t: State, inTimer: bool, cs: seq<Callback>, o: Oracle)
    requires cs != [] && Asked(s, u, o(s.calls, inTimer, cs[0])) && Asked(u, t, Made(o, inTimer, s.calls + 1, cs[1..]))
    ensures Asked(s, t, Made(o, inTimer, s.calls, cs))
  {
    AskedThen(s, o(s.calls, inTimer, cs[0]), u, Made(o, inTimer, s.calls + 1, cs[1..]), t);
  }

  /** So do the callbacks of a drain, whatever they do to the list being drained. */
  lemma {:induction false} DrainFromAsked(s: State, w: Which, funcs: seq<Callback>, o: Oracle)
    ensures var t := DrainFrom(s, w, funcs, o);
      Asked(s, t, Made(o, false, s.calls, funcs)) && t.calls == s.calls + |funcs|
    decreases |funcs|
  {
    if funcs == [] {
      AskedNothing(s, s);
    } else {
      var u := DrainOne(s, w, funcs[0], o);
      CallAsked(s.(ran := s.ran.Set(w, s.ran.Get(w) + [funcs[0]])), false, funcs[0], o);
      DrainFromAsked(u, w, funcs[1..], o);
      CallsAsked(s, u, DrainFrom(u, w, funcs[1..], o), false, funcs, o);
    }
  }

  lemma {:induction false} DrainAsked(s: State, w: Which, o: Oracle)
    ensures var t, q := Drain(s, w, o), s.pending.Get(w);
      Asked(s, t, Made(o, false, s.calls, q)) && t.calls == s.calls + |q|
  {
    DrainFromAsked(s.(pending := s.pending.Set(w, [])), w, s.pending.Get(w), o);
  }

  lemma {:induction false} FirstFired(s: State, order: seq<Timer>, now: nat, o: Oracle) returns (u: State)
    requires order != []
    ensures Asked(s, u, o(s.calls, true, order[0].runnable)) && u.calls == s.calls + 1
    ensures Fire(s, order, now, o) == Fire(u, order[1..], now, o)
  {
    u := FireOne(s, order[0], now, o);
    CallAsked(s, true, order[0].runnable, o);
  }

  /** And those of a timer pass. */
  lemma {:induction false} FireAsked(s: State, order: seq<Timer>, now: nat, o: Oracle)
    ensures var t := Fire(s, order, now, o);
      Asked(s, t, Made(o, true, s.calls, Runnables(order))) && t.calls == s.calls + |order|
    decreases |order|
  {
    if order == [] {
      AskedNothing(s, s);
    } else {
      var u := FirstFired(s, order, now, o);
      FireAsked(u, order[1..], now, o);
      CallsAsked(s, u, Fire(u, order[1..], now, o), true, Runnables(order), o);
    }
  }

  // ------------------------------------------------------------------------
  // Drains
  // ------------------------------------------------------------------------

  /** Everything pushed on a list has been run, or is in the drain's hands, or still lies in the list, in that order. */
  ghost predicate InOrder(s: State, w: Which, inHand: seq<Callback>) {
    s.pushed.Get(w) == s.ran.Get(w) + inHand + s.pending.Get(w)
  }

  lemma ExtendsKeepsOrder(s: State, t: State, w: Which, inHand: seq<Callback>)
    requires InOrder(s, w, inHand) && Extends(s, t)
    ensures InOrder(t, w, inHand)
  {
    var p, q := s.pending.Get(w), t.pending.Get(w);
    assert q == p + q[|p|..];
    assert t.pushed.Get(w) == s.pushed.Get(w) + t.pushed.Get(w)[|s.pushed.Get(w)|..];
    assert t.pushed.Get(w) == s.ran.Get(w) + inHand + (p + q[|p|..]);
  }

  /** Running `funcs` off the front of what a drain has in hand. */
  lemma {:induction false} DrainFromOrder(s: State, w: Which, funcs: seq<Callback>, rest: seq<Callback>, o: Oracle)
    requires InOrder(s, w, funcs + rest)
    requires var v := (if w == Idle then Runable else Idle); InOrder(s, v, [])
    ensures var t := DrainFrom(s, w, funcs, o);
      && t.ran.Get(w) == s.ran.Get(w) + funcs
      && t.calls == s.calls + |funcs|
      && InOrder(t, w, rest) && s.pending.Get(w) <= t.pending.Get(w)
      && (var v := (if w == Idle then Runable else Idle);
          InOrder(t, v, []) && t.ran.Get(v) == s.ran.Get(v) && s.pending.Get(v) <= t.pending.Get(v))
    decreases |funcs|
  {
    var v := (if w == Idle then Runable else Idle);
    if funcs == [] {
      assert s.ran.Get(w) + funcs == s.ran.Get(w) && funcs + rest == rest;
    } else {
      var s1 := s.(ran := s.ran.Set(w, s.ran.Get(w) + [funcs[0]]));
      assert s.ran.Get(w) + funcs == s1.ran.Get(w) + funcs[1..];
      assert s.ran.Get(w) + (funcs + rest) == s1.ran.Get(w) + (funcs[1..] + rest);
      var s2 := s1.(calls := s1.calls + 1);
      var t := DrainOne(s, w, funcs[0], o);
      ActAllExtends(s2, o(s1.calls, false, funcs[0]));
      ExtendsKeepsOrder(s2, t, w, funcs[1..] + rest);
      ExtendsKeepsOrder(s2, t, v, []);
      DrainFromOrder(t, w, funcs[1..], rest, o);
      assert s.pending.Get(w) <= t.pending.Get(w) && s.pending.Get(v) <= t.pending.Get(v);
    }
  }

  /**
    A drain runs exactly the callbacks that were in the list at the swap, in push order; what is
    pushed meanwhile, even by every callback itself, is left for a later drain.
   */
  lemma DrainRunsList(s: State, w: Which, o: Oracle)
    requires InOrder(s, Idle, []) && InOrder(s, Runable, [])
    ensures var t := Drain(s, w, o);
      && t.ran.Get(w) == s.ran.Get(w) + s.pending.Get(w)
      && t.calls == s.calls + |s.pending.Get(w)|
      && InOrder(t, Idle, []) && InOrder(t, Runable, [])
      && t.pushed.Get(w) == s.pushed.Get(w) + t.pending.Get(w)
      && (forall v :: s.pushed.Get(v) <= t.pushed.Get(v))
      && (forall v :: v != w ==> t.ran.Get(v) == s.ran.Get(v))
  {
    var s0 := s.(pending := s.pending.Set(w, []));
    var q := s.pending.Get(w);
    assert s.ran.Get(w) + [] + q == s.ran.Get(w) + (q + []) + [];
    DrainFromOrder(s0, w, q, [], o);
    var t := Drain(s, w, o);
    assert t.ran.Get(w) + [] + t.pending.Get(w) == (s.ran.Get(w) + [] + q) + t.pending.Get(w);
    forall v | v != w ensures s.pushed.Get(v) <= t.pushed.Get(v) && t.ran.Get(v) == s.ran.Get(v) {
      assert v == (if w == Idle then Runable else Idle);
      var p, r := s.pending.Get(v), t.pending.Get(v);
      assert t.ran.Get(v) + [] + r == s.pushed.Get(v) + r[|p|..];
    }
  }

  /**
    A callback that throws ends the drain and the loop with it: the k-th does what it does before it throws, and
    those behind it in the swapped list are lost, neither run nor pending.
   */
  lemma {:induction false} ThrowInDrain(s: State, w: Which, k: nat, o: Oracle)
    requires InOrder(s, Idle, []) && InOrder(s, Runable, []) && k < |s.pending.Get(w)|
    ensures var q, t := s.pending.Get(w), DrainFrom(s.(pending := s.pending.Set(w, [])), w, s.pending.Get(w)[..k + 1], o);
      && t.ran.Get(w) == s.ran.Get(w) + q[..k + 1]
      && t.pushed.Get(w) == t.ran.Get(w) + q[k + 1..] + t.pending.Get(w)
      && t.pushed.Get(w) == s.pushed.Get(w) + t.pending.Get(w)
  {
    var q, s0 := s.pending.Get(w), s.(pending := s.pending.Set(w, []));
    assert q == q[..k + 1] + q[k + 1..];
    assert s.ran.Get(w) + [] + q == s.ran.Get(w) + (q[..k + 1] + q[k + 1..]) + [];
    DrainFromOrder(s0, w, q[..k + 1], q[k + 1..], o);
    assert s.ran.Get(w) + q[..k + 1] + q[k + 1..] == s.ran.Get(w) + [] + q;
  }

  // ------------------------------------------------------------------------
  // Timer passes
  // ------------------------------------------------------------------------

  ghost predicate Sorted(order: seq<Timer>) {
    forall i, j :: 0 <= i < j < |order| ==> order[i].timestamp <= order[j].timestamp
  }

  lemma {:induction false} TakenAreQueued(ts: multiset<Timer>, order: seq<Timer>, now: nat)
    requires PassOrder(ts, order, now)
    ensures forall i :: 0 <= i < |order| ==> order[i] in ts && order[i].timestamp <= now
    decreases |order|
  {
    if order != [] {
      TakenAreQueued(ts - multiset{order[0]}, order[1..], now);
      forall i | 1 <= i < |order| ensures order[i] in ts && order[i].timestamp <= now {
        assert order[i] == order[1..][i - 1];
      }
    }
  }

  lemma {:induction false} PassOrderSorted(ts: multiset<Timer>, order: seq<Timer>, now: nat)
    requires PassOrder(ts, order, now)
    ensures Sorted(order)
    decreases |order|
  {
    if order != [] {
      PassOrderSorted(ts - multiset{order[0]}, order[1..], now);
      TakenAreQueued(ts, order, now);
      assert forall i :: 1 <= i < |order| ==> order[i] == order[1..][i - 1];
    }
  }

  /** Of each timer, the pass takes all copies if it is due and none if it is not. */
  lemma {:induction false} PassOrderExact(ts: multiset<Timer>, order: seq<Timer>, now: nat, t: Timer)
    requires PassOrder(ts, order, now)
    ensures multiset(order)[t] == if t.timestamp <= now then ts[t] else 0
    decreases |order|
  {
    if order != [] {
      PassOrderExact(ts - multiset{order[0]}, order[1..], now, t);
      assert order == [order[0]] + order[1..];
      assert multiset(order)[t] == multiset{order[0]}[t] + multiset(order[1..])[t];
    } else if t in ts {
      assert t.timestamp > now;
    }
  }

  ghost function Firings(order: seq<Timer>, now: nat): (fs: seq<Firing>) {
    if order == [] then [] else [Firing(order[0], now)] + Firings(order[1..], now)
  }

  /** Running a timer that does not schedule takes it off the queue, and off nothing else. */
  lemma FireOneExact(s: State, x: Timer, now: nat, o: Oracle)
    requires NoRunAt(o)
    ensures var t := FireOne(s, x, now, o);
      && t.timers == s.timers - multiset{x} && t.scheduled == s.scheduled
      && t.fired == s.fired + [Firing(x, now)]
      && t.ran == s.ran && t.calls == s.calls + 1 && t.outtime == s.outtime
      && (forall w :: InOrder(s, w, []) ==> InOrder(t, w, []))
      && (forall w :: s.pushed.Get(w) <= t.pushed.Get(w))
  {
    var s1 := s.(calls := s.calls + 1);
    ActAllExtends(s1, o(s.calls, true, x.runnable));
    forall w | InOrder(s, w, []) ensures InOrder(FireOne(s, x, now, o), w, []) {
      ExtendsKeepsOrder(s1, Call(s, true, x.runnable, o), w, []);
    }
  }

  lemma PeelOne(ts: multiset<Timer>, order: seq<Timer>)
    requires order != [] && multiset(order) <= ts
    ensures order[0] in order && multiset(order[1..]) <= ts - multiset{order[0]}
    ensures ts - multiset{order[0]} - multiset(order[1..]) == ts - multiset(order)
  {
    assert order == [order[0]] + order[1..];
    assert multiset(order) == multiset{order[0]} + multiset(order[1..]);
  }

  lemma {:induction false} PassOrderWithin(ts: multiset<Timer>, order: seq<Timer>, now: nat)
    requires PassOrder(ts, order, now)
    ensures multiset(order) <= ts
  {
    forall x ensures multiset(order)[x] <= ts[x] { PassOrderExact(ts, order, now, x); }
  }

  /** The timers of the pass leave the queue. */
  lemma {:induction false} FireTakes(s: State, order: seq<Timer>, now: nat, o: Oracle)
    requires multiset(order) <= s.timers && NoRunAt(o)
    ensures Fire(s, order, now, o).timers == s.timers - multiset(order)
    ensures Fire(s, order, now, o).scheduled == s.scheduled
    decreases |order|
  {
    if order != [] {
      PeelOne(s.timers, order);
      FireOneExact(s, order[0], now, o);
      FireTakes(FireOne(s, order[0], now, o), order[1..], now, o);
    }
  }

  /** They run in that order, and nothing else does. */
  lemma {:induction false} FireLogs(s: State, order: seq<Timer>, now: nat, o: Oracle)
    requires NoRunAt(o)
    ensures var t := Fire(s, order, now, o);
      t.fired == s.fired + Firings(order, now) && t.ran == s.ran && t.outtime == s.outtime
    decreases |order|
  {
    if order == [] {
      assert s.fired + [] == s.fired;
    } else {
      FireOneExact(s, order[0], now, o);
      FireLogs(FireOne(s, order[0], now, o), order[1..], now, o);
      LogAssociates(s.fired, Firing(order[0], now), Firings(order[1..], now));
    }
  }

  lemma LogAssociates(a: seq<Firing>, f: Firing, b: seq<Firing>)
    ensures a + [f] + b == a + ([f] + b)
  {}

  lemma {:induction false} FireKeepsOrder(s: State, order: seq<Timer>, now: nat, o: Oracle, w: Which)
    requires NoRunAt(o) && InOrder(s, w, [])
    ensures InOrder(Fire(s, order, now, o), w, [])
    ensures s.pushed.Get(w) <= Fire(s, order, now, o).pushed.Get(w)
    decreases |order|
  {
    if order != [] {
      FireOneExact(s, order[0], now, o);
      FireKeepsOrder(FireOne(s, order[0], now, o), order[1..], now, o, w);
    }
  }

  /**
    A pass over callbacks that do not schedule runs exactly the timers due, in order of their
    timestamps, keeps exactly the others, and leaves in `outtime` the earliest timestamp kept, if any.
   */
  lemma {:induction false} PassExact(s: State, now: nat, order: seq<Timer>, o: Oracle, t: State)
    requires Pass(s, now, order, o, t) && NoRunAt(o)
    ensures Sorted(order) && t.fired == s.fired + Firings(order, now)
    ensures forall x :: multiset(order)[x] == if x.timestamp <= now then s.timers[x] else 0
    ensures forall x :: t.timers[x] == if x.timestamp <= now then 0 else s.timers[x]
    ensures t.timers != multiset{} ==> (exists x :: IsTop(t.timers, x) && t.outtime == x.timestamp)
    ensures t.timers == multiset{} ==>
      t.outtime == if order == [] then s.outtime else order[|order| - 1].timestamp
  {
    PassOrderSorted(s.timers, order, now);
    PassOrderWithin(s.timers, order, now);
    FireTakes(s, order, now, o);
    FireLogs(s, order, now, o);
    forall x
      ensures multiset(order)[x] == if x.timestamp <= now then s.timers[x] else 0
      ensures t.timers[x] == if x.timestamp <= now then 0 else s.timers[x]
    {
      PassOrderExact(s.timers, order, now, x);
    }
  }

  /**
    A timer callback that throws leaves before its timer is popped and before `outtime` is written: those before it
    are gone, it has run and is queued still, and the next pass that reaches its time runs it again.
   */
  lemma {:induction false} ThrowInPass(s: State, now: nat, order: seq<Timer>, k: nat, o: Oracle)
    requires PassOrder(s.timers, order, now) && k < |order| && NoRunAt(o)
    ensures var t := Call(Fire(s, order[..k], now, o), true, order[k].runnable, o);
      && t.timers == s.timers - multiset(order[..k]) && order[k] in t.timers
      && t.fired == s.fired + Firings(order[..k], now) && t.outtime == s.outtime
      && forall later, again | PassOrder(t.timers, again, later) && order[k].timestamp <= later :: order[k] in again
  {
    var t := Call(Fire(s, order[..k], now, o), true, order[k].runnable, o);
    PassOrderWithin(s.timers, order, now);
    SplitOrder(s.timers, order, k);
    FireTakes(s, order[..k], now, o);
    FireLogs(s, order[..k], now, o);
    CallLeavesTimers(Fire(s, order[..k], now, o), order[k].runnable, o);
    forall later, again | PassOrder(t.timers, again, later) && order[k].timestamp <= later ensures order[k] in again {
      PassOrderExact(t.timers, again, later, order[k]);
      assert order[k] in multiset(again);
    }
  }

  lemma CallLeavesTimers(s: State, c: Callback, o: Oracle)
    requires NoRunAt(o)
    ensures var t := Call(s, true, c, o);
      t.timers == s.timers && t.fired == s.fired && t.outtime == s.outtime
  {
    ActAllExtends(s.(calls := s.calls + 1), o(s.calls, true, c));
  }

  lemma SplitOrder(ts: multiset<Timer>, order: seq<Timer>, k: nat)
    requires k < |order| && multiset(order) <= ts
    ensures multiset(order[..k]) <= ts && order[k] in ts - multiset(order[..k])
  {
    assert order == order[..k] + [order[k]] + order[k + 1..];
    assert multiset(order)[order[k]] >= multiset(order[..k])[order[k]] + 1;
  }

  // ------------------------------------------------------------------------
  // Whole runs
  // ------------------------------------------------------------------------

  /** What the loop's thread and its callers do, in any order. */
  datatype Step =
    | Request(a: Action)
    | DrainList(w: Which)
    | TimerPass(now: nat, order: seq<Timer>)

  ghost predicate Next(s: State, step: Step, o: Oracle, t: State) {
    match step
    case Request(a) => t == Act(s, a)
    case DrainList(w) => t == Drain(s, w, o)
    case TimerPass(now, order) => NoRunAt(o) && Pass(s, now, order, o, t)
  }

  ghost predicate Runs(states: seq<State>, steps: seq<Step>, o: Oracle) {
    && |states| == |steps| + 1 && states[0] == Start()
    && forall i :: 0 <= i < |steps| ==> Next(states[i], steps[i], o, states[i + 1])
  }

  ghost function TimersOf(fs: seq<Firing>): multiset<Timer> {
    multiset(seq(|fs|, i requires 0 <= i < |fs| => fs[i].timer))
  }

  ghost predicate OnTime(fs: seq<Firing>) {
    forall i :: 0 <= i < |fs| ==> fs[i].timer.timestamp <= fs[i].now
  }

  ghost predicate Inv(s: State) {
    && InOrder(s, Idle, []) && InOrder(s, Runable, [])
    && s.scheduled == s.timers + TimersOf(s.fired)
    && OnTime(s.fired)
  }

  lemma TimersOfConcat(a: seq<Firing>, b: seq<Firing>)
    ensures TimersOf(a + b) == TimersOf(a) + TimersOf(b)
  {
    var c := a + b;
    assert seq(|c|, i requires 0 <= i < |c| => c[i].timer) ==
      seq(|a|, i requires 0 <= i < |a| => a[i].timer) + seq(|b|, i requires 0 <= i < |b| => b[i].timer);
  }

  lemma {:induction false} FiringsAt(order: seq<Timer>, now: nat)
    ensures var fs := Firings(order, now);
      |fs| == |order| && forall i :: 0 <= i < |fs| ==> fs[i] == Firing(order[i], now)
  {
    if order != [] { FiringsAt(order[1..], now); }
  }

  lemma {:induction false} FiringsOf(order: seq<Timer>, now: nat)
    requires forall i :: 0 <= i < |order| ==> order[i].timestamp <= now
    ensures TimersOf(Firings(order, now)) == multiset(order) && OnTime(Firings(order, now))
  {
    FiringsAt(order, now);
    var fs := Firings(order, now);
    assert seq(|fs|, i requires 0 <= i < |fs| => fs[i].timer) == order;
  }

  lemma {:induction false} PassInv(s: State, now: nat, order: seq<Timer>, o: Oracle, t: State)
    requires Inv(s) && NoRunAt(o) && Pass(s, now, order, o, t)
    ensures Inv(t)
  {
    PassOrderWithin(s.timers, order, now);
    FireTakes(s, order, now, o);
    FireLogs(s, order, now, o);
    FireKeepsOrder(s, order, now, o, Idle);
    FireKeepsOrder(s, order, now, o, Runable);
    TakenAreQueued(s.timers, order, now);
    FiringsOf(order, now);
    TimersOfConcat(s.fired, Firings(order, now));
    Refill(s.timers, multiset(order), TimersOf(s.fired));
  }

  lemma Refill(ts: multiset<Timer>, taken: multiset<Timer>, before: multiset<Timer>)
    requires taken <= ts
    ensures ts + before == (ts - taken) + (before + taken)
  {}

  lemma {:induction false} DrainInv(s: State, w: Which, o: Oracle)
    requires Inv(s)
    ensures Inv(Drain(s, w, o))
    ensures Drain(s, w, o).fired == s.fired && s.scheduled <= Drain(s, w, o).scheduled
  {
    DrainRunsList(s, w, o);
    DrainKeepsTimers(s.(pending := s.pending.Set(w, [])), w, s.pending.Get(w), o);
  }

  lemma {:induction false} DrainKeepsTimers(s: State, w: Which, funcs: seq<Callback>, o: Oracle)
    requires s.scheduled == s.timers + TimersOf(s.fired)
    ensures var t := DrainFrom(s, w, funcs, o);
      t.fired == s.fired && t.scheduled == t.timers + TimersOf(t.fired) && s.scheduled <= t.scheduled
    decreases |funcs|
  {
    if funcs != [] {
      CallKeepsTimers(s.(ran := s.ran.Set(w, s.ran.Get(w) + [funcs[0]])), funcs[0], o);
      DrainKeepsTimers(DrainOne(s, w, funcs[0], o), w, funcs[1..], o);
    }
  }

  lemma {:induction false} CallKeepsTimers(s: State, c: Callback, o: Oracle)
    requires s.scheduled == s.timers + TimersOf(s.fired)
    ensures var t := Call(s, false, c, o);
      t.fired == s.fired && t.scheduled == t.timers + TimersOf(s.fired) && s.scheduled <= t.scheduled
  {
    var t := Call(s, false, c, o);
    ActAllExtends(s.(calls := s.calls + 1), o(s.calls, false, c));
    SameGrowth(s.timers, t.timers, s.scheduled, t.scheduled, TimersOf(s.fired));
  }

  lemma SameGrowth(a: multiset<Timer>, b: multiset<Timer>, x: multiset<Timer>, y: multiset<Timer>, f: multiset<Timer>)
    requires a <= b && x <= y && b - a == y - x && x == a + f
    ensures y == b + f
  {
    forall t ensures y[t] == (b + f)[t] {
      assert (b - a)[t] == (y - x)[t];
    }
  }

  lemma {:induction false} StepInv(s: State, step: Step, o: Oracle, t: State)
    requires Inv(s) && Next(s, step, o, t)
    ensures Inv(t)
  {
    match step
    case Request(a) =>
      ActExtends(s, a);
      ExtendsKeepsOrder(s, t, Idle, []);
      ExtendsKeepsOrder(s, t, Runable, []);
      SameGrowth(s.timers, t.timers, s.scheduled, t.scheduled, TimersOf(s.fired));
    case DrainList(w) => DrainInv(s, w, o);
    case TimerPass(now, order) => PassInv(s, now, order, o, t);
  }

  lemma {:induction false} RunInv(states: seq<State>, steps: seq<Step>, o: Oracle, i: nat)
    requires Runs(states, steps, o) && i < |states|
    ensures Inv(states[i])
  {
    if i > 0 {
      RunInv(states, steps, o, i - 1);
      StepInv(states[i - 1], steps[i - 1], o, states[i]);
    }
  }

  /** What a run has asked for so far, how many callbacks it has run, and how many of each list's it has drained. */
  datatype Wanted = Wanted(calls: nat, acts: seq<Action>, drained: Pair<nat>)

  ghost predicate Sensible(x: Wanted) {
    forall w :: x.drained.Get(w) <= |Callbacks(x.acts, w)|
  }

  /** Computed from the step and the oracle alone: a drain runs what was asked for on its list and not drained yet. */
  ghost function WantedNext(x: Wanted, step: Step, o: Oracle): (y: Wanted)
    requires Sensible(x)
  {
    match step
    case Request(a) => x.(acts := x.acts + [a])
    case DrainList(w) =>
      var all := Callbacks(x.acts, w);
      var due := all[x.drained.Get(w)..];
      Wanted(x.calls + |due|, x.acts + Made(o, false, x.calls, due), x.drained.Set(w, |all|))
    case TimerPass(_, order) =>
      x.(calls := x.calls + |order|, acts := x.acts + Made(o, true, x.calls, Runnables(order)))
  }

  lemma {:induction false} WantedNextSensible(x: Wanted, step: Step, o: Oracle)
    requires Sensible(x)
    ensures Sensible(WantedNext(x, step, o))
  {
    var y := WantedNext(x, step, o);
    forall w ensures y.drained.Get(w) <= |Callbacks(y.acts, w)| {
      CallbacksConcat(x.acts, y.acts[|x.acts|..], w);
      assert y.acts == x.acts + y.acts[|x.acts|..];
    }
  }

  ghost function WantedBy(steps: seq<Step>, o: Oracle): (x: Wanted)
    ensures Sensible(x)
    decreases |steps|
  {
    if steps == [] then Wanted(0, [], Pair(0, 0))
    else
      var x, last := WantedBy(steps[..|steps| - 1], o), steps[|steps| - 1];
      WantedNextSensible(x, last, o);
      WantedNext(x, last, o)
  }

  /** The state has run and holds exactly what was asked for. */
  ghost predicate Delivers(s: State, x: Wanted) {
    && s.calls == x.calls && s.scheduled == TimersIn(x.acts)
    && forall w :: (s.pushed.Get(w) == Callbacks(x.acts, w) && |s.ran.Get(w)| == x.drained.Get(w))
  }

  lemma {:induction false} AskedDelivers(s: State, x: Wanted, t: State, acts: seq<Action>, y: Wanted)
    requires Delivers(s, x) && Asked(s, t, acts) && y.acts == x.acts + acts && t.calls == y.calls
    requires forall w :: |t.ran.Get(w)| == y.drained.Get(w)
    ensures Delivers(t, y)
  {
    forall w ensures t.pushed.Get(w) == Callbacks(y.acts, w) { CallbacksConcat(x.acts, acts, w); }
    TimersInConcat(x.acts, acts);
  }

  /** The lists, read off what was asked for and how much of it was drained. */
  lemma {:induction false} DeliveredLists(s: State, x: Wanted, w: Which)
    requires Inv(s) && Sensible(x) && Delivers(s, x)
    ensures s.ran.Get(w) == Callbacks(x.acts, w)[..x.drained.Get(w)]
    ensures s.pending.Get(w) == Callbacks(x.acts, w)[x.drained.Get(w)..]
  {
    assert InOrder(s, w, []);
    assert s.pushed.Get(w) == s.ran.Get(w) + s.pending.Get(w);
  }

  lemma {:induction false} DrainDelivers(s: State, w: Which, o: Oracle, x: Wanted)
    requires Inv(s) && Sensible(x) && Delivers(s, x)
    ensures Delivers(Drain(s, w, o), WantedNext(x, DrainList(w), o))
  {
    var t, y := Drain(s, w, o), WantedNext(x, DrainList(w), o);
    DrainAsked(s, w, o);
    DrainRunsList(s, w, o);
    DeliveredLists(s, x, w);
    AskedDelivers(s, x, t, Made(o, false, s.calls, s.pending.Get(w)), y);
  }

  lemma {:induction false} PassDelivers(s: State, now: nat, order: seq<Timer>, o: Oracle, t: State, x: Wanted)
    requires NoRunAt(o) && Pass(s, now, order, o, t) && Sensible(x) && Delivers(s, x)
    ensures Delivers(t, WantedNext(x, TimerPass(now, order), o))
  {
    FireAsked(s, order, now, o);
    FireLogs(s, order, now, o);
    AskedDelivers(s, x, t, Made(o, true, s.calls, Runnables(order)), WantedNext(x, TimerPass(now, order), o));
  }

  lemma {:induction false} StepDelivers(s: State, step: Step, o: Oracle, t: State, x: Wanted)
    requires Inv(s) && Next(s, step, o, t) && Sensible(x) && Delivers(s, x)
    ensures Delivers(t, WantedNext(x, step, o))
  {
    match step
    case Request(a) =>
      ActAsked(s, a);
      AskedDelivers(s, x, t, [a], WantedNext(x, step, o));
    case DrainList(w) => DrainDelivers(s, w, o, x);
    case TimerPass(now, order) => PassDelivers(s, now, order, o, t, x);
  }

  lemma {:induction false} RunDelivers(states: seq<State>, steps: seq<Step>, o: Oracle, i: nat)
    requires Runs(states, steps, o) && i < |states|
    ensures Inv(states[i]) && Delivers(states[i], WantedBy(steps[..i], o))
  {
    RunInv(states, steps, o, i);
    if i > 0 {
      RunDelivers(states, steps, o, i - 1);
      assert steps[..i][..i - 1] == steps[..i - 1];
      StepDelivers(states[i - 1], steps[i - 1], o, states[i], WantedBy(steps[..i - 1], o));
    }
  }

  /**
    Over every run, against what its requests and its callbacks asked for: each list has run what was asked for up to its
    last drain, in order, and holds the rest; no timer fired before the time asked for, and each
    timer asked for fired once or is still queued.
   */
  lemma {:induction false} RunIsFaithful(states: seq<State>, steps: seq<Step>, o: Oracle, i: nat)
    requires Runs(states, steps, o) && i < |states|
    ensures var s, x := states[i], WantedBy(steps[..i], o);
      && (forall w :: s.ran.Get(w) == Callbacks(x.acts, w)[..x.drained.Get(w)])
      && (forall w :: s.pending.Get(w) == Callbacks(x.acts, w)[x.drained.Get(w)..])
      && s.timers + TimersOf(s.fired) == TimersIn(x.acts) && OnTime(s.fired)
  {
    RunDelivers(states, steps, o, i);
    var s, x := states[i], WantedBy(steps[..i], o);
    forall w
      ensures s.ran.Get(w) == Callbacks(x.acts, w)[..x.drained.Get(w)]
      ensures s.pending.Get(w) == Callbacks(x.acts, w)[x.drained.Get(w)..]
    {
      DeliveredLists(s, x, w);
    }
  }

  // ------------------------------------------------------------------------
  // The code itself
  // ------------------------------------------------------------------------

  lemma {:induction false} ActAllSnoc(s: State, acts: seq<Action>, a: Action)
    ensures ActAll(s, acts + [a]) == Act(ActAll(s, acts), a)
    decreases |acts|
  {
    if acts == [] {
      assert [a][1..] == [];
    } else {
      assert (acts + [a])[0] == acts[0] && (acts + [a])[1..] == acts[1..] + [a];
      ActAllSnoc(Act(s, acts[0]), acts[1..], a);
    }
  }

  lemma {:induction false} FireSnoc(s: State, order: seq<Timer>, x: Timer, now: nat, o: Oracle)
    ensures Fire(s, order + [x], now, o) == FireOne(Fire(s, order, now, o), x, now, o)
    decreases |order|
  {
    if order == [] {
      assert [x][1..] == [];
    } else {
      assert (order + [x])[0] == order[0] && (order + [x])[1..] == order[1..] + [x];
      FireSnoc(FireOne(s, order[0], now, o), order[1..], x, now, o);
    }
  }

  /** `order` can be continued by whatever the queue `ts` allows. */
  ghost predicate Continues(start: multiset<Timer>, order: seq<Timer>, ts: multiset<Timer>, now: nat) {
    forall rest :: PassOrder(ts, rest, now) ==> PassOrder(start, order + rest, now)
  }

  lemma ContinuesStart(ts: multiset<Timer>, now: nat)
    ensures Continues(ts, [], ts, now)
  {
    forall rest | PassOrder(ts, rest, now) ensures PassOrder(ts, [] + rest, now) {
      assert [] + rest == rest;
    }
  }

  lemma ContinuesEnd(start: multiset<Timer>, order: seq<Timer>, ts: multiset<Timer>, now: nat)
    requires Continues(start, order, ts, now) && forall u :: u in ts ==> u.timestamp > now
    ensures PassOrder(start, order, now)
  {
    assert PassOrder(ts, [], now);
    assert order + [] == order;
  }

  predicate BothPrefixes(p: Pair<seq<Callback>>, q: Pair<seq<Callback>>) {
    p.idle <= q.idle && p.runable <= q.runable
  }

  /** Of every timer due at `now`, as many copies were run as had been scheduled. */
  ghost predicate AllFired(scheduled: multiset<Timer>, now: nat, fired: seq<Firing>) {
    forall x: Timer :: x.timestamp <= now ==> scheduled[x] <= TimersOf(fired)[x]
  }

  lemma AllFiredKept(less: multiset<Timer>, scheduled: multiset<Timer>, now: nat, fired: seq<Firing>, more: seq<Firing>)
    requires AllFired(scheduled, now, fired) && less <= scheduled && fired <= more
    ensures AllFired(less, now, more)
  {
    assert more == fired + more[|fired|..];
    TimersOfConcat(fired, more[|fired|..]);
  }

  /** One pass of the loop body: its state before, the reading it is given, the timers taken, its state after the timer phase and at its end. */
  datatype Body = Body(s: State, now: nat, order: seq<Timer>, mid: State, t: State)

  ghost predicate IsBody(b: Body, o: Oracle) {
    Pass(Drain(b.s, Idle, o), b.now, b.order, o, b.mid) && b.t == Drain(b.mid, Runable, o)
  }

  /** The actions of its callbacks up to the end of the timer phase: those in `idle_` when it began, then those of the timers. */
  ghost function EarlyActions(b: Body, o: Oracle): seq<Action> {
    Made(o, false, b.s.calls, b.s.pending.idle) + Made(o, true, b.s.calls + |b.s.pending.idle|, Runnables(b.order))
  }

  /** And of all of them, those in `runable_` after the timer phase included. */
  ghost function Actions(b: Body, o: Oracle): seq<Action> {
    EarlyActions(b, o) + Made(o, false, b.s.calls + |b.s.pending.idle| + |b.order|, b.mid.pending.runable)
  }

  lemma {:induction false} PassAsked(s: State, now: nat, order: seq<Timer>, o: Oracle, t: State)
    requires Pass(s, now, order, o, t)
    ensures Asked(s, t, Made(o, true, s.calls, Runnables(order))) && t.calls == s.calls + |order|
  {
    FireAsked(s, order, now, o);
  }

  lemma {:induction false} EarlyAsked(b: Body, o: Oracle)
    requires IsBody(b, o)
    ensures Asked(b.s, b.mid, EarlyActions(b, o))
    ensures b.mid.calls == b.s.calls + |b.s.pending.idle| + |b.order|
  {
    var s1 := Drain(b.s, Idle, o);
    DrainAsked(b.s, Idle, o);
    PassAsked(s1, b.now, b.order, o, b.mid);
    AskedThen(b.s, Made(o, false, b.s.calls, b.s.pending.idle), s1, Made(o, true, s1.calls, Runnables(b.order)), b.mid);
  }

  /** A pass asks for exactly what its callbacks ask for. */
  lemma {:induction false} BodyAsked(b: Body, o: Oracle)
    requires IsBody(b, o)
    ensures Asked(b.s, b.mid, EarlyActions(b, o)) && Asked(b.s, b.t, Actions(b, o))
  {
    EarlyAsked(b, o);
    DrainAsked(b.mid, Runable, o);
    AskedThen(b.s, EarlyActions(b, o), b.mid, Made(o, false, b.mid.calls, b.mid.pending.runable), b.t);
  }

  /** When the timer phase ends no queued timer is due, so every due timer scheduled before the pass was run. */
  lemma {:induction false} PassFiresDue(b: Body, o: Oracle)
    requires Inv(b.s) && NoRunAt(o) && IsBody(b, o)
    ensures forall x :: x in b.mid.timers ==> x.timestamp > b.now
    ensures AllFired(b.s.scheduled, b.now, b.t.fired) && b.s.fired <= b.t.fired && b.s.scheduled <= b.t.scheduled
  {
    var s1 := Drain(b.s, Idle, o);
    DrainInv(b.s, Idle, o);
    PassExact(s1, b.now, b.order, o, b.mid);
    PassOrderWithin(s1.timers, b.order, b.now);
    FireTakes(s1, b.order, b.now, o);
    PassInv(s1, b.now, b.order, o, b.mid);
    DrainInv(b.mid, Runable, o);
    assert AllFired(b.mid.scheduled, b.now, b.mid.fired);
    AllFiredKept(b.s.scheduled, b.mid.scheduled, b.now, b.mid.fired, b.mid.fired);
  }

  /**
    One pass of the loop body has run, when it ends, everything asked for on `idle_` before it, and everything asked for
    on `runable_` before it or by its own callbacks before the second drain; nothing more.
   */
  lemma {:induction false} PassRunsPushed(b: Body, o: Oracle)
    requires Inv(b.s) && NoRunAt(o) && IsBody(b, o)
    ensures Inv(b.t)
    ensures b.t.ran.idle == b.s.pushed.idle
    ensures b.t.ran.runable == b.s.pushed.runable + Callbacks(EarlyActions(b, o), Runable)
    ensures BothPrefixes(b.s.ran, b.t.ran)
  {
    var s1 := Drain(b.s, Idle, o);
    DrainRunsList(b.s, Idle, o);
    DrainInv(b.s, Idle, o);
    FireLogs(s1, b.order, b.now, o);
    PassInv(s1, b.now, b.order, o, b.mid);
    DrainRunsList(b.mid, Runable, o);
    DrainInv(b.mid, Runable, o);
    BodyAsked(b, o);
    assert InOrder(b.s, Idle, []) && InOrder(b.s, Runable, []) && InOrder(b.mid, Runable, []);
    assert b.s.pushed.Get(Idle) == s1.ran.Get(Idle) == b.t.ran.Get(Idle);
    assert b.t.ran.Get(Runable) == b.mid.ran.Get(Runable) + [] + b.mid.pending.Get(Runable) == b.mid.pushed.Get(Runable);
  }

  /** After any run: a pass of the loop body runs all that the run had asked for on either list. */
  lemma {:induction false} PassRunsAsked(states: seq<State>, steps: seq<Step>, o: Oracle, b: Body)
    requires Runs(states, steps, o) && b.s == states[|steps|] && NoRunAt(o) && IsBody(b, o)
    ensures var acts := WantedBy(steps, o).acts;
      && b.t.ran.idle == Callbacks(acts, Idle)
      && b.t.ran.runable == Callbacks(acts + EarlyActions(b, o), Runable)
  {
    RunDelivers(states, steps, o, |steps|);
    assert steps[..|steps|] == steps;
    PassRunsPushed(b, o);
    var x := WantedBy(steps, o);
    assert b.s.pushed.Get(Idle) == Callbacks(x.acts, Idle) && b.s.pushed.Get(Runable) == Callbacks(x.acts, Runable);
    CallbacksConcat(x.acts, EarlyActions(b, o), Runable);
  }

  ghost predicate Quits(b: Body, o: Oracle) {
    Quit in Actions(b, o)
  }

  /**
    The passes of one call of `run`, one after another with the readings in their order: each begins with the flag down, and
    leaves it up exactly if one of its callbacks quits.
   */
  ghost predicate Logged(log: seq<Body>, start: State, end: State, readings: seq<nat>, o: Oracle)
    decreases |log|
  {
    if log == [] then end == start
    else
      var n, b := |log| - 1, log[|log| - 1];
      && n < |readings| && IsBody(b, o) && b.now == readings[n] && b.t == end
      && !b.s.isQuit && (end.isQuit <==> Quits(b, o))
      && Logged(log[..n], start, b.s, readings, o)
  }

  lemma {:induction false} LoggedNext(log: seq<Body>, start: State, b: Body, readings: seq<nat>, o: Oracle)
    requires Logged(log, start, b.s, readings, o) && !b.s.isQuit && |log| < |readings|
    requires IsBody(b, o) && b.now == readings[|log|]
    ensures Logged(log + [b], start, b.t, readings, o)
  {
    BodyAsked(b, o);
    assert (log + [b])[..|log|] == log;
  }

  /** So no pass but the last has a callback that quits. */
  lemma {:induction false} OnlyLastQuits(log: seq<Body>, start: State, end: State, readings: seq<nat>, o: Oracle)
    requires Logged(log, start, end, readings, o)
    ensures forall i :: 0 <= i < |log| - 1 ==> !Quits(log[i], o)
    decreases |log|
  {
    if log != [] {
      var n := |log| - 1;
      OnlyLastQuits(log[..n], start, log[n].s, readings, o);
      forall i | 0 <= i < n ensures !Quits(log[i], o) {
        assert log[..n][i] == log[i];
      }
    }
  }

  /** What the passes amount to: the invariant, the callbacks pushed before the first, the timers scheduled before it. */
  ghost predicate Amounts(start: State, end: State, readings: seq<nat>, n: nat) {
    && Inv(end) && start.scheduled <= end.scheduled && n <= |readings|
    && (if n == 0 then end.pushed == start.pushed else BothPrefixes(start.pushed, end.ran))
    && (forall i :: 0 <= i < n ==> AllFired(start.scheduled, readings[i], end.fired))
  }

  lemma {:induction false} AmountsNext(start: State, b: Body, readings: seq<nat>, n: nat, o: Oracle)
    requires Amounts(start, b.s, readings, n) && n < |readings| && b.now == readings[n] && NoRunAt(o) && IsBody(b, o)
    ensures Amounts(start, b.t, readings, n + 1)
  {
    PassRunsPushed(b, o);
    PassFiresDue(b, o);
    FiredSoFar(start.scheduled, b.s.scheduled, readings, n, b.s.fired, b.t.fired);
    PrefixesOn(start.pushed, b.s.pushed, b.s.ran, b.t.ran, n == 0);
  }

  lemma PrefixesOn(first: Pair<seq<Callback>>, pushed: Pair<seq<Callback>>, ran: Pair<seq<Callback>>, later: Pair<seq<Callback>>, none: bool)
    requires if none then pushed == first && BothPrefixes(pushed, later) else BothPrefixes(first, ran) && BothPrefixes(ran, later)
    ensures BothPrefixes(first, later)
  {}

  lemma FiredSoFar(less: multiset<Timer>, scheduled: multiset<Timer>, readings: seq<nat>, n: nat, fired: seq<Firing>, more: seq<Firing>)
    requires n < |readings| && less <= scheduled && fired <= more
    requires forall i :: 0 <= i < n ==> AllFired(less, readings[i], fired)
    requires AllFired(scheduled, readings[n], more)
    ensures forall i :: 0 <= i <= n ==> AllFired(less, readings[i], more)
  {
    forall i | 0 <= i <= n ensures AllFired(less, readings[i], more) {
      if i < n {
        AllFiredKept(less, less, readings[i], fired, more);
      } else {
        AllFiredKept(less, scheduled, readings[i], more, more);
      }
    }
  }

  lemma {:induction false} LoggedAmounts(log: seq<Body>, start: State, end: State, readings: seq<nat>, o: Oracle)
    requires Logged(log, start, end, readings, o) && Inv(start) && NoRunAt(o)
    ensures Amounts(start, end, readings, |log|)
    decreases |log|
  {
    if log != [] {
      var n := |log| - 1;
      LoggedAmounts(log[..n], start, log[n].s, readings, o);
      AmountsNext(start, log[n], readings, n, o);
    }
  }

  lemma ContinuesSnoc(start: multiset<Timer>, order: seq<Timer>, ts: multiset<Timer>, x: Timer, now: nat)
    requires Continues(start, order, ts, now) && IsTop(ts, x) && x.timestamp <= now
    ensures Continues(start, order + [x], ts - multiset{x}, now)
  {
    forall rest | PassOrder(ts - multiset{x}, rest, now) ensures PassOrder(start, order + [x] + rest, now) {
      assert ([x] + rest)[1..] == rest;
      assert PassOrder(ts, [x] + rest, now);
      assert order + [x] + rest == order + ([x] + rest);
    }
  }

  /** The loop over the queue has come from s to u, running the timers of `order`. */
  ghost predicate Passing(s: State, now: nat, order: seq<Timer>, o: Oracle, u: State) {
    u == Fire(s, order, now, o) && Continues(s.timers, order, u.timers, now)
  }

  lemma {:induction false} PassingNext(s: State, now: nat, order: seq<Timer>, o: Oracle, u: State, x: Timer)
    requires Passing(s, now, order, o, u) && IsTop(u.timers, x) && x.timestamp <= now && NoRunAt(o)
    ensures Passing(s, now, order + [x], o, FireOne(u, x, now, o))
  {
    ContinuesSnoc(s.timers, order, u.timers, x, now);
    FireSnoc(s, order, x, now, o);
    FireOneExact(u, x, now, o);
  }

  /** It ends with an empty queue or a timer at the top that is not due; t is the last timestamp looked at. */
  ghost predicate Ended(ts: multiset<Timer>, now: nat, order: seq<Timer>, outtime: nat, t: nat) {
    if ts == multiset{} then t == (if order == [] then outtime else order[|order| - 1].timestamp)
    else exists top :: IsTop(ts, top) && top.timestamp == t > now
  }

  /** Then it was a pass. */
  lemma {:induction false} PassEnds(s: State, now: nat, order: seq<Timer>, o: Oracle, u: State, t: nat)
    requires Passing(s, now, order, o, u) && Ended(u.timers, now, order, s.outtime, t)
    ensures Pass(s, now, order, o, u.(outtime := t))
  {
    ContinuesEnd(s.timers, order, u.timers, now);
  }

  class Loop {
    const behave: Oracle
    var idle: seq<Callback>
    var runable: seq<Callback>
    var timers: multiset<Timer>
    var outtime: nat
    var isQuit: bool
    var calls: nat
    ghost var pushed: Pair<seq<Callback>>
    ghost var ran: Pair<seq<Callback>>
    ghost var scheduled: multiset<Timer>
    ghost var fired: seq<Firing>

    ghost function View(): State
      reads this
    {
      State(Pair(idle, runable), timers, outtime, isQuit, calls, pushed, ran, scheduled, fired)
    }

    constructor (behave: Oracle)
      ensures this.behave == behave && View() == Start() && Inv(View())
      ensures idle == runable == [] && timers == multiset{} && outtime == 0 && isQuit
    {
      this.behave := behave;
      idle, runable, timers, outtime, isQuit, calls := [], [], multiset{}, 0, true, 0;
      pushed, ran, scheduled, fired := Pair([], []), Pair([], []), multiset{}, [];
    }

    /** `pushIdle` (lines 48-50): the callback goes to `runable_`. */
    method AddIdle(c: Callback)
      modifies this
      ensures View() == Act(old(View()), PushIdle(c))
      ensures runable == old(runable) + [c] && idle == old(idle)
      ensures timers == old(timers) && outtime == old(outtime) && isQuit == old(isQuit) && calls == old(calls)
    {
      runable := runable + [c];
      pushed := pushed.Set(Runable, pushed.Get(Runable) + [c]);
    }

    /** `pushRunable` (lines 51-53): the callback goes to `idle_`. */
    method AddRunable(c: Callback)
      modifies this
      ensures View() == Act(old(View()), PushRunable(c))
      ensures idle == old(idle) + [c] && runable == old(runable)
      ensures timers == old(timers) && outtime == old(outtime) && isQuit == old(isQuit) && calls == old(calls)
    {
      idle := idle + [c];
      pushed := pushed.Set(Idle, pushed.Get(Idle) + [c]);
    }

    /** `runAt` (lines 57-60). */
    method Schedule(timestamp: nat, c: Callback)
      modifies this
      ensures View() == Act(old(View()), RunAt(timestamp, c))
      ensures timers == old(timers) + multiset{Timer(timestamp, c)} && idle == old(idle) && runable == old(runable)
      ensures outtime == old(outtime) && isQuit == old(isQuit) && calls == old(calls)
    {
      timers := timers + multiset{Timer(timestamp, c)};
      scheduled := scheduled + multiset{Timer(timestamp, c)};
    }

    /** `quit` (line 55). */
    method RequestQuit()
      modifies this
      ensures View() == Act(old(View()), Quit)
      ensures isQuit && idle == old(idle) && runable == old(runable)
      ensures timers == old(timers) && outtime == old(outtime) && calls == old(calls)
    {
      isQuit := true;
    }

    method Perform(a: Action)
      modifies this
      ensures View() == Act(old(View()), a)
    {
      match a
      case PushIdle(c) => AddIdle(c);
      case PushRunable(c) => AddRunable(c);
      case RunAt(ts, c) => Schedule(ts, c);
      case Quit => RequestQuit();
    }

    /** A callback runs and does what it does. */
    method Invoke(inTimer: bool, c: Callback)
      modifies this
      ensures View() == Call(old(View()), inTimer, c, behave)
    {
      var acts := behave(calls, inTimer, c);
      calls := calls + 1;
      ghost var start := View();
      for i := 0 to |acts|
        invariant View() == ActAll(start, acts[..i])
      {
        ActAllSnoc(start, acts[..i], acts[i]);
        assert acts[..i + 1] == acts[..i] + [acts[i]];
        Perform(acts[i]);
      }
      assert acts[..|acts|] == acts;
    }

    /** Lines 85-93. */
    method HandleRunnable(w: Which)
      modifies this
      ensures View() == Drain(old(View()), w, behave)
    {
      var funcs: seq<Callback>;
      if w == Idle {
        funcs, idle := idle, [];
      } else {
        funcs, runable := runable, [];
      }
      ghost var goal := Drain(old(View()), w, behave);
      for i := 0 to |funcs|
        invariant DrainFrom(View(), w, funcs[i..], behave) == goal
      {
        assert funcs[i..][1..] == funcs[i + 1..];
        ran := ran.Set(w, ran.Get(w) + [funcs[i]]);
        Invoke(false, funcs[i]);
      }
    }

    /** `timer.top()` of a queue that is not empty. */
    method Top() returns (t: Timer)
      requires timers != multiset{}
      ensures IsTop(timers, t)
    {
      t :| t in timers;
      var rest := timers;
      while rest != multiset{}
        invariant rest <= timers && t in timers
        invariant forall u :: u in timers && u !in rest ==> t.timestamp <= u.timestamp
        decreases |rest|
      {
        var u :| u in rest;
        if u.timestamp < t.timestamp {
          t := u;
        }
        rest := rest[u := 0];
      }
    }

    /** Lines 65-77; the order in which timers of equal timestamps come up is the queue's choice. */
    method HandleTimer(now: nat) returns (ghost order: seq<Timer>)
      requires NoRunAt(behave)
      modifies this
      ensures Pass(old(View()), now, order, behave, View())
    {
      var t;
      t, order := RunDue(now);
      PassEnds(old(View()), now, order, behave, View(), t);
      outtime := t;
    }

    /** Lines 70-75. */
    method RunDue(now: nat) returns (t: nat, ghost order: seq<Timer>)
      requires NoRunAt(behave)
      modifies this
      ensures Passing(old(View()), now, order, behave, View()) && Ended(View().timers, now, order, old(outtime), t)
    {
      t, order := outtime, [];
      ghost var start := View();
      ContinuesStart(timers, now);
      while timers != multiset{}
        invariant Passing(start, now, order, behave, View())
        invariant timers == multiset{} ==> Ended(timers, now, order, start.outtime, t)
        decreases |timers|
      {
        t, order := RunTop(now, start, order);
        if t > now {
          break;
        }
      }
    }

    /** Lines 71-74: look at the top, and run it if it is due. */
    method RunTop(now: nat, ghost start: State, ghost order: seq<Timer>) returns (t: nat, ghost next: seq<Timer>)
      requires timers != multiset{} && NoRunAt(behave) && Passing(start, now, order, behave, View())
      modifies this
      ensures Passing(start, now, next, behave, View())
      ensures t > now ==> timers != multiset{} && Ended(timers, now, next, start.outtime, t)
      ensures t <= now ==> |timers| < |old(timers)| && next != [] && next[|next| - 1].timestamp == t
    {
      var top := Top();
      t, next := top.timestamp, order;
      if t <= now {
        PassingNext(start, now, order, behave, View(), top);
        FireTop(top, now);
        next := order + [top];
      }
    }

    /** Lines 73-74. */
    method FireTop(top: Timer, now: nat)
      requires NoRunAt(behave) && top in timers
      modifies this
      ensures View() == FireOne(old(View()), top, now, behave)
      ensures timers == old(timers) - multiset{top} && outtime == old(outtime)
    {
      FireOneExact(View(), top, now, behave);
      Invoke(true, top.runnable);
      timers := timers - multiset{top};
      fired := fired + [Firing(top, now)];
    }

    /**
      Lines 28-37, for as many passes as there are clock readings; `handle_io_source` is left out. A quit requested before
      the call is forgotten. The loop ends after the first pass one of whose callbacks quits, and goes on
      through all readings if none does. What was pushed before the call is run in the first pass, and
      every timer scheduled before it once a reading reaches it.
     */
    method Run(readings: seq<nat>) returns (passes: nat, ghost log: seq<Body>)
      requires Inv(View()) && NoRunAt(behave)
      modifies this
      ensures Inv(View())
      ensures Logged(log, old(View()).(isQuit := false), View(), readings, behave)
      ensures passes == |log| && (readings != [] ==> passes > 0)
      ensures passes < |readings| ==> Quits(log[passes - 1], behave)
      ensures forall i :: 0 <= i < passes - 1 ==> !Quits(log[i], behave)
      ensures passes > 0 ==> BothPrefixes(old(pushed), ran)
      ensures forall i :: 0 <= i < passes ==> AllFired(old(scheduled), readings[i], fired)
    {
      isQuit := false;
      passes, log := 0, [];
      ghost var start := View();
      while passes < |readings| && !isQuit
        invariant Inv(View()) && passes == |log| <= |readings|
        invariant Logged(log, start, View(), readings, behave)
        invariant isQuit ==> passes > 0
      {
        ghost var b := OnePass(readings[passes]);
        LoggedNext(log, start, b, readings, behave);
        log := log + [b];
        passes := passes + 1;
      }
      OnlyLastQuits(log, start, View(), readings, behave);
      LoggedAmounts(log, start, View(), readings, behave);
    }

    /**
      One pass of the loop: drain, timer pass, drain. It runs at least what had been pushed on either list before it, leaves
      no due timer behind in the timer phase, and asks for exactly what its callbacks ask for.
     */
    method OnePass(now: nat) returns (ghost b: Body)
      requires Inv(View()) && NoRunAt(behave)
      modifies this
      ensures IsBody(b, behave) && b.s == old(View()) && b.now == now && b.t == View()
      ensures Inv(View()) && Asked(old(View()), View(), Actions(b, behave))
      ensures BothPrefixes(old(pushed), ran) && BothPrefixes(old(ran), ran)
      ensures forall x :: x in b.mid.timers ==> x.timestamp > now
      ensures AllFired(old(scheduled), now, fired) && old(fired) <= fired && old(scheduled) <= scheduled
    {
      HandleRunnable(Idle);
      ghost var order := HandleTimer(now);
      ghost var mid := View();
      HandleRunnable(Runable);
      b := Body(old(View()), now, order, mid, View());
      PassRunsPushed(b, behave);
      PassFiresDue(b, behave);
      BodyAsked(b, behave);
    }
  }
}
