/**
  `ZeroEvenOdd` (set/atomic/main1.cpp): three threads hand a turn round through
  one sequentially consistent atomic. A schedule is any sequence of thread
  names; a thread that finds the wrong flag spins, which changes nothing.
 */
module ZeroEvenOdd {

  datatype Role = Zero | Even | Odd

  /** Testing the flag, about to print, about to store the flag, or out of the loop. */
  datatype Phase = Spin | Print | Store | Done

  datatype Thread = Thread(i: int, pc: Phase)

  datatype State = State(n: int, flag: int, zero: Thread, even: Thread, odd: Thread, out: seq<int>)

  /** The head of the loop `for (int i = ...; i <= n; ...)`. */
  function Enter(i: int, n: int): Thread {
    Thread(i, if i <= n then Spin else Done)
  }

  function Start(n: int): State {
    State(n, 0, Enter(1, n), Enter(2, n), Enter(1, n), [])
  }

  function Of(s: State, r: Role): Thread {
    match r case Zero => s.zero case Even => s.even case Odd => s.odd
  }

  function With(s: State, r: Role, t: Thread): State {
    match r case Zero => s.(zero := t) case Even => s.(even := t) case Odd => s.(odd := t)
  }

  /** The flag a thread waits for. */
  function Turn(r: Role): int {
    match r case Zero => 0 case Even => 2 case Odd => 1
  }

  /** The thread has something to do besides yielding. */
  predicate CanMove(s: State, r: Role) {
    match Of(s, r).pc case Spin => s.flag == Turn(r) case Done => false case _ => true
  }

  function Move(s: State, r: Role): State
    requires CanMove(s, r)
  {
    var t := Of(s, r);
    match t.pc
    case Spin => With(s, r, t.(pc := Print))
    case Print => With(s, r, t.(pc := Store)).(out := s.out + [if r == Zero then 0 else t.i])
    case Store =>
      if r == Zero then With(s, r, Enter(t.i + 1, s.n)).(flag := if t.i % 2 == 0 then 2 else 1)
      else With(s, r, Enter(t.i + 2, s.n)).(flag := 0)
  }

  /** One turn of the scheduler. */
  function Tick(s: State, r: Role): State {
    if CanMove(s, r) then Move(s, r) else s
  }

  function Exec(s: State, schedule: seq<Role>): State
    decreases |schedule|
  {
    if schedule == [] then s else Exec(Tick(s, schedule[0]), schedule[1..])
  }

  /** How many turns of the schedule did something. */
  function Moves(s: State, schedule: seq<Role>): nat
    decreases |schedule|
  {
    if schedule == [] then 0
    else (if CanMove(s, schedule[0]) then 1 else 0) + Moves(Tick(s, schedule[0]), schedule[1..])
  }

  predicate Finished(s: State) {
    s.zero.pc == Done && s.even.pc == Done && s.odd.pc == Done
  }

  predicate Critical(t: Thread) {
    t.pc == Print || t.pc == Store
  }

  /** The first k numbers of 0, 1, 0, 2, 0, 3, ... */
  function Alternating(k: nat): seq<int> {
    seq(k, j requires 0 <= j => if j % 2 == 0 then 0 else j / 2 + 1)
  }

  /** Negative bounds behave like zero. */
  function Bound(n: int): nat {
    if n < 0 then 0 else n
  }

  // ------------------------------------------------------------------------
  // What every tick keeps
  // ------------------------------------------------------------------------

  predicate AtHead(t: Thread, n: int) {
    t.pc == (if t.i <= n then Spin else Done)
  }

  /** The thread of the numbers with k's parity. */
  function Printer(k: int): Role {
    if k % 2 == 0 then Even else Odd
  }

  function Printed(t: Thread): nat {
    if t.pc == Store then 1 else 0
  }

  /** It is zero's turn in round k: both printers stand at the head of their loops, at k and k + 1. */
  predicate ZerosTurn(s: State, k: int) {
    && s.flag == 0
    && (s.zero.pc == Done <==> k > s.n)
    && |s.out| == 2 * (k - 1) + Printed(s.zero)
    && Of(s, Printer(k)).i == k && AtHead(Of(s, Printer(k)), s.n)
  }

  /** It is the turn of the printer of k = zero's counter less one. */
  predicate PrintersTurn(s: State, k: int) {
    && 1 <= k <= s.n
    && s.flag == Turn(Printer(k))
    && AtHead(s.zero, s.n)
    && Of(s, Printer(k)).i == k && Of(s, Printer(k)).pc != Done
    && |s.out| == 2 * (k - 1) + 1 + Printed(Of(s, Printer(k)))
  }

  predicate Inv(s: State) {
    var k := s.zero.i;
    && 1 <= k <= Bound(s.n) + 1
    && s.out == Alternating(|s.out|)
    && if s.flag == 0
       then ZerosTurn(s, k) && Of(s, Printer(k + 1)).i == k + 1 && AtHead(Of(s, Printer(k + 1)), s.n)
       else PrintersTurn(s, k - 1) && Of(s, Printer(k)).i == k && AtHead(Of(s, Printer(k)), s.n)
  }

  lemma StartInv(n: int)
    ensures Inv(Start(n))
  {}

  lemma PrintInv(s: State, r: Role)
    requires Inv(s) && Of(s, r).pc == Print
    ensures Inv(Move(s, r))
  {
    var k := |s.out|;
    assert Alternating(k + 1) == Alternating(k) + [if k % 2 == 0 then 0 else k / 2 + 1];
  }

  lemma StoreInv(s: State, r: Role)
    requires Inv(s) && Of(s, r).pc == Store
    ensures Inv(Move(s, r))
  {}

  lemma TickInv(s: State, r: Role)
    requires Inv(s)
    ensures Inv(Tick(s, r))
  {
    match Of(s, r).pc
    case Print => PrintInv(s, r);
    case Store => StoreInv(s, r);
    case _ =>
  }

  /** Only the thread whose turn it is can move: the outcome does not depend on the schedule. */
  lemma OneCanMove(s: State, r: Role, q: Role)
    requires Inv(s) && CanMove(s, r) && CanMove(s, q)
    ensures r == q
  {}

  /** As long as the loops are not all over, one of the threads can move. */
  lemma SomeoneCanMove(s: State)
    requires Inv(s) && !Finished(s)
    ensures exists r :: CanMove(s, r)
  {
    var k := s.zero.i;
    if s.flag == 0 { assert CanMove(s, Zero); } else { assert CanMove(s, Printer(k - 1)); }
  }

  // ------------------------------------------------------------------------
  // Counting down
  // ------------------------------------------------------------------------

  function Progress(t: Thread): nat {
    match t.pc case Print => 1 case Store => 2 case _ => 0
  }

  /** Moves a thread has before it: three for each number from i on, in strides of `stride`. */
  function Left(t: Thread, n: int, stride: nat): int
    requires stride > 0
  {
    if t.i > n then 0 else 3 * ((n - t.i) / stride + 1) - Progress(t)
  }

  function Remaining(s: State): int {
    Left(s.zero, s.n, 1) + Left(s.even, s.n, 2) + Left(s.odd, s.n, 2)
  }

  lemma StartRemaining(n: int)
    ensures Remaining(Start(n)) == 6 * Bound(n)
  {}

  lemma RemainingNonNegative(s: State)
    requires Inv(s)
    ensures Remaining(s) >= 0 && (Remaining(s) == 0 <==> Finished(s))
  {}

  lemma MoveCounts(s: State, r: Role)
    requires Inv(s) && CanMove(s, r)
    ensures Remaining(Move(s, r)) == Remaining(s) - 1
  {}

  // ------------------------------------------------------------------------
  // Every schedule
  // ------------------------------------------------------------------------

  lemma {:induction false} ExecInv(s: State, schedule: seq<Role>)
    requires Inv(s)
    ensures Inv(Exec(s, schedule))
    decreases |schedule|
  {
    if schedule != [] {
      TickInv(s, schedule[0]);
      ExecInv(Tick(s, schedule[0]), schedule[1..]);
    }
  }

  lemma {:induction false} ExecKeepsBound(s: State, schedule: seq<Role>)
    ensures Exec(s, schedule).n == s.n
    decreases |schedule|
  {
    if schedule != [] { ExecKeepsBound(Tick(s, schedule[0]), schedule[1..]); }
  }

  lemma TickCounts(s: State, r: Role)
    requires Inv(s)
    ensures Remaining(Tick(s, r)) == Remaining(s) - (if CanMove(s, r) then 1 else 0)
  {
    if CanMove(s, r) { MoveCounts(s, r); }
  }

  /** Each turn that does something is one of the remaining ones. */
  lemma {:induction false} ExecCounts(s: State, schedule: seq<Role>)
    requires Inv(s)
    ensures Moves(s, schedule) == Remaining(s) - Remaining(Exec(s, schedule))
    decreases |schedule|
  {
    if schedule != [] {
      TickInv(s, schedule[0]);
      TickCounts(s, schedule[0]);
      ExecCounts(Tick(s, schedule[0]), schedule[1..]);
    }
  }

  /**
    Safety, for every n and every interleaving: the output is a prefix of 0, 1, 0, 2, ..., 0, n,
    and at most one thread is between leaving its spin loop and storing the flag.
   */
  lemma {:induction false} OutputIsPrefix(n: int, schedule: seq<Role>)
    ensures var s := Exec(Start(n), schedule);
      && s.out <= Alternating(2 * Bound(n))
      && forall r, q :: Critical(Of(s, r)) && Critical(Of(s, q)) ==> r == q
  {
    StartInv(n);
    ExecInv(Start(n), schedule);
    ExecKeepsBound(Start(n), schedule);
    var s := Exec(Start(n), schedule);
    assert |s.out| <= 2 * Bound(n);
    forall r, q | Critical(Of(s, r)) && Critical(Of(s, q)) ensures r == q {
      OneCanMove(s, r, q);
    }
  }

  /** At most 6n turns do anything; when none can any more, all loops are over and all 2n numbers are out. */
  lemma {:induction false} OutputCompletes(n: int, schedule: seq<Role>)
    ensures var s := Exec(Start(n), schedule);
      && Moves(Start(n), schedule) <= 6 * Bound(n)
      && ((forall r :: !CanMove(s, r)) <==> Finished(s))
      && (Finished(s) <==> Moves(Start(n), schedule) == 6 * Bound(n))
      && (Finished(s) ==> s.out == Alternating(2 * Bound(n)))
  {
    StartInv(n);
    StartRemaining(n);
    ExecInv(Start(n), schedule);
    ExecKeepsBound(Start(n), schedule);
    ExecCounts(Start(n), schedule);
    var s := Exec(Start(n), schedule);
    RemainingNonNegative(s);
    if !Finished(s) { SomeoneCanMove(s); }
  }

  // ------------------------------------------------------------------------
  // Fair schedules
  // ------------------------------------------------------------------------

  predicate Round(block: seq<Role>) {
    Zero in block && Even in block && Odd in block
  }

  function Flatten(rounds: seq<seq<Role>>): seq<Role> {
    if rounds == [] then [] else rounds[0] + Flatten(rounds[1..])
  }

  lemma {:induction false} ExecConcat(s: State, a: seq<Role>, b: seq<Role>)
    ensures Exec(s, a + b) == Exec(Exec(s, a), b)
    decreases |a|
  {
    if a == [] {
      assert a + b == b;
    } else {
      assert (a + b)[0] == a[0] && (a + b)[1..] == a[1..] + b;
      ExecConcat(Tick(s, a[0]), a[1..], b);
    }
  }

  /** A stretch that schedules the one thread that can move gets something done. */
  lemma {:induction false} StretchMoves(s: State, block: seq<Role>, r: Role)
    requires Inv(s) && CanMove(s, r) && r in block
    ensures Moves(s, block) >= 1
    decreases |block|
  {
    if !CanMove(s, block[0]) {
      assert block[0] != r;
      StretchMoves(s, block[1..], r);
    }
  }

  /** If every thread gets a turn in each of 6n rounds, however long the rounds, the output is complete. */
  lemma {:induction false} FairScheduleFinishes(n: int, rounds: seq<seq<Role>>)
    requires |rounds| >= 6 * Bound(n) && forall b :: b in rounds ==> Round(b)
    ensures Finished(Exec(Start(n), Flatten(rounds)))
    ensures Exec(Start(n), Flatten(rounds)).out == Alternating(2 * Bound(n))
  {
    StartInv(n);
    StartRemaining(n);
    RoundsCountDown(Start(n), rounds);
    OutputCompletes(n, Flatten(rounds));
  }

  lemma {:induction false} RoundsCountDown(s: State, rounds: seq<seq<Role>>)
    requires Inv(s) && |rounds| >= Remaining(s) && forall b :: b in rounds ==> Round(b)
    ensures Finished(Exec(s, Flatten(rounds)))
    decreases |rounds|
  {
    RemainingNonNegative(s);
    if rounds == [] {
    } else {
      var b := rounds[0];
      assert b in rounds;
      ExecInv(s, b);
      ExecCounts(s, b);
      var t := Exec(s, b);
      RemainingNonNegative(t);
      if !Finished(s) {
        SomeoneCanMove(s);
        var r :| CanMove(s, r);
        assert r in b;
        StretchMoves(s, b, r);
      }
      RoundsCountDown(t, rounds[1..]);
      ExecConcat(s, b, Flatten(rounds[1..]));
    }
  }

  // ------------------------------------------------------------------------
  // 32-bit counters
  // ------------------------------------------------------------------------

  const INT_MAX := 0x7fff_ffff

  predicate CountersFit(s: State) {
    s.zero.i <= INT_MAX && s.even.i <= INT_MAX && s.odd.i <= INT_MAX
  }

  /** The `int` counters never overflow if and only if n is at least two below the largest `int`. */
  lemma {:induction false} CountersFitExactly(n: int)
    requires n <= INT_MAX
    ensures (forall schedule :: CountersFit(Exec(Start(n), schedule))) <==> n <= INT_MAX - 2
  {
    StartInv(n);
    if n <= INT_MAX - 2 {
      forall schedule ensures CountersFit(Exec(Start(n), schedule)) {
        ExecInv(Start(n), schedule);
        ExecKeepsBound(Start(n), schedule);
      }
    } else {
      var rounds := seq(6 * n, _ => [Zero, Even, Odd]);
      FairScheduleFinishes(n, rounds);
      ExecInv(Start(n), Flatten(rounds));
      ExecKeepsBound(Start(n), Flatten(rounds));
      assert !CountersFit(Exec(Start(n), Flatten(rounds)));
    }
  }
}
