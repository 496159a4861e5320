/**
  The server's connection table (set/rtt/rtt_server.cpp:205-232): slots of poll
  descriptors, -1 where free, beside a map from descriptor to connection.
 */
module Connections {

  type Connector = nat

  const FREE := -1

  datatype Table = Table(fds: seq<int>, translations: map<int, Connector>)

  datatype Event = Connect(fd: int, connector: Connector) | Dispose(slot: nat)

  const EMPTY := Table([], map[])

  /** `std::find_if` for a free slot: the first one, or the end. */
  function FirstFree(fds: seq<int>): (k: nat)
    ensures k <= |fds|
    ensures forall i :: 0 <= i < k ==> fds[i] != FREE
    ensures k < |fds| ==> fds[k] == FREE
  {
    if fds == [] || fds[0] == FREE then 0 else 1 + FirstFree(fds[1..])
  }

  /** A descriptor handed out by the system is not negative; line 227 asserts that it is not in the table. */
  predicate Possible(t: Table, e: Event) {
    match e
    case Connect(fd, _) => fd >= 0 && fd !in t.translations
    case Dispose(slot) => slot < |t.fds|
  }

  function Apply(t: Table, e: Event): Table
    requires Possible(t, e)
  {
    match e
    case Connect(fd, connector) =>
      var k := FirstFree(t.fds);
      Table(if k < |t.fds| then t.fds[k := fd] else t.fds + [fd], t.translations[fd := connector])
    case Dispose(slot) => Table(t.fds[slot := FREE], t.translations - {t.fds[slot]})
  }

  /** Connecting, said of the fields: the first free slot or else a new one at the end takes fd, and nothing else changes. */
  ghost predicate Connected(t: Table, u: Table, fd: int, connector: Connector) {
    && (exists k ::
          (&& 0 <= k <= |t.fds| && (k < |t.fds| ==> t.fds[k] == FREE)
           && (forall i :: 0 <= i < k ==> t.fds[i] != FREE)
           && |u.fds| == (if k < |t.fds| then |t.fds| else k + 1)
           && u.fds[k] == fd
           && (forall i :: 0 <= i < |t.fds| && i != k ==> u.fds[i] == t.fds[i])))
    && u.translations.Keys == t.translations.Keys + {fd} && u.translations[fd] == connector
    && (forall x :: x in t.translations && x != fd ==> u.translations[x] == t.translations[x])
  }

  /** Disposing, said of the fields: the slot is free, its descriptor is no key, and nothing else changes. */
  ghost predicate Disposed(t: Table, u: Table, slot: nat) {
    && slot < |t.fds| == |u.fds| && u.fds[slot] == FREE
    && (forall i :: 0 <= i < |t.fds| && i != slot ==> u.fds[i] == t.fds[i])
    && u.translations.Keys == t.translations.Keys - {t.fds[slot]}
    && (forall x :: x in u.translations ==> u.translations[x] == t.translations[x])
  }

  function FreeSlots(fds: seq<int>): nat {
    if fds == [] then 0 else (if fds[0] == FREE then 1 else 0) + FreeSlots(fds[1..])
  }

  /** Each live connection has exactly one slot, and each slot that is not free a live connection. */
  ghost predicate Matched(t: Table) {
    && (forall i :: 0 <= i < |t.fds| ==> t.fds[i] == FREE || t.fds[i] in t.translations)
    && (forall fd :: fd in t.translations ==> fd >= 0 && fd in t.fds)
    && (forall i, j :: 0 <= i < j < |t.fds| && t.fds[i] == t.fds[j] ==> t.fds[i] == FREE)
  }

  predicate Counted(t: Table) {
    FreeSlots(t.fds) + |t.translations| == |t.fds|
  }

  ghost predicate Inv(t: Table) {
    Matched(t) && Counted(t)
  }

  lemma {:induction false} FreeSlotsReplaced(fds: seq<int>, k: nat, fd: int)
    requires k < |fds|
    ensures FreeSlots(fds[k := fd]) ==
      FreeSlots(fds) - (if fds[k] == FREE then 1 else 0) + (if fd == FREE then 1 else 0)
  {
    if k == 0 {
      assert fds[0 := fd][1..] == fds[1..];
    } else {
      FreeSlotsReplaced(fds[1..], k - 1, fd);
      assert fds[k := fd][1..] == fds[1..][k - 1 := fd];
    }
  }

  lemma {:induction false} FreeSlotsAppended(fds: seq<int>, fd: int)
    ensures FreeSlots(fds + [fd]) == FreeSlots(fds) + (if fd == FREE then 1 else 0)
  {
    if fds == [] {
      assert [fd][1..] == [];
    } else {
      FreeSlotsAppended(fds[1..], fd);
      assert (fds + [fd])[1..] == fds[1..] + [fd];
    }
  }

  lemma {:induction false} NoFreeSlot(fds: seq<int>)
    requires FirstFree(fds) == |fds|
    ensures FreeSlots(fds) == 0
  {
    if fds != [] { NoFreeSlot(fds[1..]); }
  }

  lemma ConnectCounts(t: Table, fd: int, connector: Connector)
    requires Counted(t) && Possible(t, Connect(fd, connector))
    ensures var u := Apply(t, Connect(fd, connector));
      Counted(u) && |u.translations| == |t.translations| + 1
  {
    var k := FirstFree(t.fds);
    assert t.translations[fd := connector].Keys == t.translations.Keys + {fd};
    if k < |t.fds| { FreeSlotsReplaced(t.fds, k, fd); } else { FreeSlotsAppended(t.fds, fd); }
  }

  lemma ConnectMatches(t: Table, fd: int, connector: Connector)
    requires Matched(t) && Possible(t, Connect(fd, connector))
    ensures Matched(Apply(t, Connect(fd, connector)))
  {
    var k, u := FirstFree(t.fds), Apply(t, Connect(fd, connector));
    forall x | x in u.translations ensures x >= 0 && x in u.fds {
      if x == fd {
        assert u.fds[k] == x;
      } else {
        var i :| 0 <= i < |t.fds| && t.fds[i] == x;
        assert u.fds[i] == x;
      }
    }
  }

  lemma ConnectIsConnected(t: Table, fd: int, connector: Connector)
    requires Possible(t, Connect(fd, connector))
    ensures Connected(t, Apply(t, Connect(fd, connector)), fd, connector)
  {
    var k, u := FirstFree(t.fds), Apply(t, Connect(fd, connector));
    assert k < |t.fds| ==> t.fds[k] == FREE;
    assert u.fds[k] == fd && forall i :: 0 <= i < |t.fds| && i != k ==> u.fds[i] == t.fds[i];
  }

  lemma ConnectInv(t: Table, fd: int, connector: Connector)
    requires Inv(t) && Possible(t, Connect(fd, connector))
    ensures var u := Apply(t, Connect(fd, connector));
      Inv(u) && |u.translations| == |t.translations| + 1 && Connected(t, u, fd, connector)
  {
    ConnectIsConnected(t, fd, connector);
    ConnectCounts(t, fd, connector);
    ConnectMatches(t, fd, connector);
  }

  lemma DisposeCounts(t: Table, slot: nat)
    requires Inv(t) && slot < |t.fds|
    ensures var u := Apply(t, Dispose(slot));
      Counted(u) && |u.translations| == |t.translations| - (if t.fds[slot] == FREE then 0 else 1)
  {
    var fd, u := t.fds[slot], Apply(t, Dispose(slot));
    FreeSlotsReplaced(t.fds, slot, FREE);
    if fd == FREE {
      assert u.translations == t.translations;
    } else {
      assert u.translations.Keys == t.translations.Keys - {fd};
    }
  }

  lemma DisposeMatches(t: Table, slot: nat)
    requires Matched(t) && slot < |t.fds|
    ensures Matched(Apply(t, Dispose(slot)))
  {
    var u := Apply(t, Dispose(slot));
    forall x | x in u.translations ensures x >= 0 && x in u.fds {
      var i :| 0 <= i < |t.fds| && t.fds[i] == x;
      assert u.fds[i] == x;
    }
  }

  lemma DisposeInv(t: Table, slot: nat)
    requires Inv(t) && slot < |t.fds|
    ensures var u := Apply(t, Dispose(slot));
      Inv(u) && Disposed(t, u, slot) && |u.translations| == |t.translations| - (if t.fds[slot] == FREE then 0 else 1)
  {
    DisposeCounts(t, slot);
    DisposeMatches(t, slot);
  }

  lemma ApplyInv(t: Table, e: Event)
    requires Inv(t) && Possible(t, e)
    ensures Inv(Apply(t, e))
  {
    match e
    case Connect(fd, connector) => ConnectInv(t, fd, connector);
    case Dispose(slot) => DisposeInv(t, slot);
  }

  // ------------------------------------------------------------------------
  // Whole runs
  // ------------------------------------------------------------------------

  ghost predicate PossibleRun(t: Table, es: seq<Event>)
    decreases |es|
  {
    es == [] || (Possible(t, es[0]) && PossibleRun(Apply(t, es[0]), es[1..]))
  }

  ghost function Run(t: Table, es: seq<Event>): Table
    requires PossibleRun(t, es)
    decreases |es|
  {
    if es == [] then t else Run(Apply(t, es[0]), es[1..])
  }

  function Max(a: nat, b: nat): nat {
    if a < b then b else a
  }

  /** A connection as its client sees it, whatever the table looks like. */
  datatype Connection = Connection(fd: int, connector: Connector)

  ghost function KeysFrom(live: map<nat, Connection>, from: nat): set<nat> {
    set i | i in live.Keys && from <= i
  }

  /** The least number from `from` on that is not a key. */
  ghost function LeastUnused(live: map<nat, Connection>, from: nat): (k: nat)
    ensures from <= k && k !in live && forall i :: from <= i < k ==> i in live
    decreases |KeysFrom(live, from)|
  {
    if from !in live then from
    else
      assert KeysFrom(live, from) == KeysFrom(live, from + 1) + {from};
      LeastUnused(live, from + 1)
  }

  /** Who is connected by which slot, from the event alone: a connection takes the least slot nobody has. */
  ghost function After(live: map<nat, Connection>, e: Event): map<nat, Connection> {
    match e
    case Connect(fd, connector) => live[LeastUnused(live, 0) := Connection(fd, connector)]
    case Dispose(slot) => live - {slot}
  }

  ghost function Live(live: map<nat, Connection>, es: seq<Event>): map<nat, Connection>
    decreases |es|
  {
    if es == [] then live else Live(After(live, es[0]), es[1..])
  }

  /** The largest number of connections live at one time during the events. */
  ghost function Peak(live: map<nat, Connection>, es: seq<Event>): nat
    decreases |es|
  {
    if es == [] then |live| else Max(|live|, Peak(After(live, es[0]), es[1..]))
  }

  ghost predicate SlotsShow(fds: seq<int>, live: map<nat, Connection>) {
    && (forall i :: i in live ==> i < |fds| && fds[i] == live[i].fd != FREE)
    && (forall i :: 0 <= i < |fds| && i !in live ==> fds[i] == FREE)
  }

  ghost predicate MapShows(translations: map<int, Connector>, live: map<nat, Connection>) {
    forall i :: i in live ==> live[i].fd in translations && translations[live[i].fd] == live[i].connector
  }

  /** The table shows exactly these connections. */
  ghost predicate Shows(t: Table, live: map<nat, Connection>) {
    SlotsShow(t.fds, live) && MapShows(t.translations, live) && |t.translations| == |live|
  }

  lemma SlotIsLeastUnused(t: Table, live: map<nat, Connection>)
    requires Shows(t, live)
    ensures FirstFree(t.fds) == LeastUnused(live, 0)
  {
    var k, l := FirstFree(t.fds), LeastUnused(live, 0);
    assert l < |t.fds| ==> t.fds[l] == FREE;
    assert forall i :: 0 <= i < l ==> i in live && t.fds[i] != FREE;
  }

  lemma OneMore(live: map<nat, Connection>, k: nat, c: Connection)
    requires k !in live
    ensures |live[k := c]| == |live| + 1
  {
    assert live[k := c].Keys == live.Keys + {k};
  }

  lemma OneLess(live: map<nat, Connection>, k: nat)
    ensures |live - {k}| == |live| - (if k in live then 1 else 0)
  {
    var next := live - {k};
    assert next.Keys == live.Keys - {k};
    assert |next| == |next.Keys| && |live| == |live.Keys|;
  }

  lemma ConnectShows(t: Table, live: map<nat, Connection>, fd: int, connector: Connector)
    requires Counted(t) && Shows(t, live) && Possible(t, Connect(fd, connector))
    ensures Shows(Apply(t, Connect(fd, connector)), After(live, Connect(fd, connector)))
  {
    var k, c := LeastUnused(live, 0), Connection(fd, connector);
    SlotIsLeastUnused(t, live);
    OneMore(live, k, c);
    ConnectCounts(t, fd, connector);
  }

  lemma DisposeShows(t: Table, live: map<nat, Connection>, slot: nat)
    requires Inv(t) && Shows(t, live) && slot < |t.fds|
    ensures Shows(Apply(t, Dispose(slot)), After(live, Dispose(slot)))
  {
    DisposeCounts(t, slot);
    OneLess(live, slot);
    DescriptorGone(t, live, slot);
    RestShown(t, live, slot);
  }

  /** No other slot has the descriptor. */
  lemma DescriptorGone(t: Table, live: map<nat, Connection>, slot: nat)
    requires Matched(t) && SlotsShow(t.fds, live) && slot < |t.fds|
    ensures forall i :: i in live && i != slot ==> live[i].fd != t.fds[slot]
  {
    forall i | i in live && i != slot ensures live[i].fd != t.fds[slot] {
      assert t.fds[i] == live[i].fd;
    }
  }

  lemma RestShown(t: Table, live: map<nat, Connection>, slot: nat)
    requires SlotsShow(t.fds, live) && MapShows(t.translations, live) && slot < |t.fds|
    requires forall i :: i in live && i != slot ==> live[i].fd != t.fds[slot]
    ensures SlotsShow(t.fds[slot := FREE], live - {slot}) && MapShows(t.translations - {t.fds[slot]}, live - {slot})
  {}

  lemma ApplyShows(t: Table, live: map<nat, Connection>, e: Event)
    requires Inv(t) && Shows(t, live) && Possible(t, e)
    ensures Shows(Apply(t, e), After(live, e))
  {
    match e
    case Connect(fd, connector) => ConnectShows(t, live, fd, connector);
    case Dispose(slot) => DisposeShows(t, live, slot);
  }

  /** Over every run the table shows who connected and was not disposed of since. */
  lemma {:induction false} RunShows(t: Table, live: map<nat, Connection>, es: seq<Event>)
    requires Inv(t) && Shows(t, live) && PossibleRun(t, es)
    ensures Inv(Run(t, es)) && Shows(Run(t, es), Live(live, es))
    decreases |es|
  {
    if es != [] {
      ApplyInv(t, es[0]);
      ApplyShows(t, live, es[0]);
      RunShows(Apply(t, es[0]), After(live, es[0]), es[1..]);
    }
  }

  /** A step lengthens the table only when it makes every slot of the longer table live. */
  lemma StepLength(t: Table, e: Event)
    requires Inv(t) && Possible(t, e)
    ensures var u := Apply(t, e);
      Inv(u) && |u.translations| <= |u.fds| && |u.fds| == Max(|t.fds|, |u.translations|)
  {
    ApplyInv(t, e);
    match e
    case Connect(fd, connector) =>
      ConnectInv(t, fd, connector);
      if FirstFree(t.fds) == |t.fds| { NoFreeSlot(t.fds); }
    case Dispose(slot) => DisposeInv(t, slot);
  }

  lemma {:induction false} RunLength(t: Table, live: map<nat, Connection>, es: seq<Event>)
    requires Inv(t) && Shows(t, live) && PossibleRun(t, es)
    ensures |Run(t, es).fds| == Max(|t.fds|, Peak(live, es))
    decreases |es|
  {
    if es != [] {
      StepLength(t, es[0]);
      ApplyShows(t, live, es[0]);
      RunLength(Apply(t, es[0]), After(live, es[0]), es[1..]);
    }
  }

  /**
    Over every run from the empty table, with `live` computed from the events alone: the slots hold the live descriptors
    and are free elsewhere, the table is exactly as long as the largest number of connections that were
    live at once, and the map's keys are the live descriptors, each of one slot and with its own connection.
   */
  lemma {:induction false} TableIsExact(es: seq<Event>)
    requires PossibleRun(EMPTY, es)
    ensures var t, live := Run(EMPTY, es), Live(map[], es);
      && |t.fds| == Peak(map[], es)
      && (forall i :: i in live ==> i < |t.fds|)
      && (forall i :: 0 <= i < |t.fds| ==> t.fds[i] == if i in live then live[i].fd else FREE)
      && (forall fd :: fd in t.translations <==> exists i :: i in live && live[i].fd == fd)
      && (forall i :: i in live ==> t.translations[live[i].fd] == live[i].connector)
      && (forall i, j :: i in live && j in live && live[i].fd == live[j].fd ==> i == j)
  {
    RunShows(EMPTY, map[], es);
    RunLength(EMPTY, map[], es);
    var t, live := Run(EMPTY, es), Live(map[], es);
    forall fd | fd in t.translations ensures exists i :: i in live && live[i].fd == fd {
      var i :| 0 <= i < |t.fds| && t.fds[i] == fd;
      assert i in live;
    }
    forall i, j | i in live && j in live && live[i].fd == live[j].fd ensures i == j {
      assert t.fds[i] == t.fds[j] != FREE;
    }
  }

  /** The connector of the last event that connects fd, or `otherwise` if none does. */
  ghost function LastConnector(es: seq<Event>, fd: int, otherwise: Connector): Connector
    decreases |es|
  {
    if es == [] then otherwise
    else LastConnector(es[1..], fd, if es[0].Connect? && es[0].fd == fd then es[0].connector else otherwise)
  }

  /** A live descriptor leads to the connection made for it last. */
  lemma {:induction false} LookupIsLatest(t: Table, es: seq<Event>, fd: int, before: Connector)
    requires PossibleRun(t, es) && (fd in t.translations ==> t.translations[fd] == before)
    requires fd in Run(t, es).translations
    ensures Run(t, es).translations[fd] == LastConnector(es, fd, before)
    decreases |es|
  {
    if es != [] {
      var now := if es[0].Connect? && es[0].fd == fd then es[0].connector else before;
      LookupIsLatest(Apply(t, es[0]), es[1..], fd, now);
    }
  }

  /** Disposing a slot twice, as the write path and the error path of one event can, changes nothing more. */
  lemma DisposeTwice(t: Table, slot: nat)
    requires Matched(t) && slot < |t.fds|
    ensures var u := Apply(t, Dispose(slot)); Disposed(t, u, slot) && Apply(u, Dispose(slot)) == u
  {
    DisposeMatches(t, slot);
    var u := Apply(t, Dispose(slot));
    assert u.translations - {FREE} == u.translations;
  }

  // ------------------------------------------------------------------------
  // The code itself
  // ------------------------------------------------------------------------

  class Server {
    var fds: seq<int>
    var translations: map<int, Connector>

    ghost function View(): Table
      reads this
    {
      Table(fds, translations)
    }

    constructor ()
      ensures View() == EMPTY
    {
      fds, translations := [], map[];
    }

    /** Lines 215-232. */
    method OnNewConnect(fd: int, connector: Connector)
      requires Inv(View()) && Possible(View(), Connect(fd, connector))
      modifies this
      ensures View() == Apply(old(View()), Connect(fd, connector)) && Inv(View())
      ensures Connected(old(View()), View(), fd, connector)
    {
      ConnectInv(View(), fd, connector);
      var k := 0;
      while k < |fds| && fds[k] != FREE
        invariant k <= |fds| && forall i :: 0 <= i < k ==> fds[i] != FREE
      {
        k := k + 1;
      }
      if k < |fds| {
        fds := fds[k := fd];
      } else {
        fds := fds + [fd];
      }
      translations := translations[fd := connector];
    }

    /** Lines 205-210. */
    method DisposeSlot(slot: nat)
      requires Inv(View()) && slot < |fds|
      modifies this
      ensures View() == Apply(old(View()), Dispose(slot)) && Inv(View())
      ensures Disposed(old(View()), View(), slot)
    {
      DisposeInv(View(), slot);
      var fd := fds[slot];
      translations := translations - {fd};
      fds := fds[slot := FREE];
    }
  }
}
