/** The select server: a set of watched descriptors, an array of client slots and a high-water
    mark, kept in agreement while a sweep closes descriptors and accepts new ones. */
module SelectServer {

  import opened Connections
  import opened Rounds
  import opened Sockets
  import opened Dialogue
  import Text

  const CAPACITY: nat := SelectLoop.Capacity()

  // The server's whole state; a zero slot is free.
  datatype Snapshot = Snapshot(
    slots: seq<int>, master: set<int>, maxFd: int,
    open: map<int, Conn>, next: Conn, calls: seq<Call>, history: seq<Event>)

  function Registered(slots: seq<int>): set<int> {
    set x | x in slots && x != 0
  }

  /** The connections behind a set of descriptors. */
  ghost function ConnsOf(fds: set<int>, open: map<int, Conn>): set<Conn>
    requires fds <= open.Keys
  {
    set fd | fd in fds :: open[fd]
  }

  ghost predicate NoRepeats(slots: seq<int>) {
    forall j, k :: 0 <= j < k < |slots| && slots[j] != 0 ==> slots[j] != slots[k]
  }

  /** The watched set is the listener and the registered clients, all of them open and none
      registered twice, and the high-water mark bounds it. */
  ghost predicate Shape(listener: int, s: Snapshot) {
    && |s.slots| == MAX_CONNECTION
    && NoRepeats(s.slots)
    && KernelOk(listener, s.open, s.next)
    && Registered(s.slots) <= s.open.Keys
    && s.master == {listener} + Registered(s.slots)
    && (forall fd :: fd in s.master ==> fd <= s.maxFd)
  }

  ghost predicate Explained(s: Snapshot)
    requires Registered(s.slots) <= s.open.Keys
  {
    Tracks(Plain, CAPACITY, s.history, Clients(s), s.next, s.calls)
  }

  ghost function Clients(s: Snapshot): set<Conn>
    requires Registered(s.slots) <= s.open.Keys
  {
    ConnsOf(Registered(s.slots), s.open)
  }

  /** What holds between any two steps. */
  ghost predicate Inv(listener: int, s: Snapshot) {
    Shape(listener, s) && Explained(s)
  }

  // ---------- slots ----------

  /** The first slot that holds v, or the number of slots if there is none. */
  function IndexOf(slots: seq<int>, v: int): (r: nat)
    ensures r <= |slots|
    ensures r < |slots| ==> slots[r] == v
    ensures forall j :: 0 <= j < r ==> slots[j] != v
  {
    if slots == [] || slots[0] == v then 0 else 1 + IndexOf(slots[1..], v)
  }

  lemma IndexOfIsFirst(slots: seq<int>, v: int, i: nat)
    requires i <= |slots| && forall j :: 0 <= j < i ==> slots[j] != v
    requires i < |slots| ==> slots[i] == v
    ensures IndexOf(slots, v) == i
  {
  }

  lemma {:induction false} RegisteredCount(slots: seq<int>)
    requires NoRepeats(slots)
    ensures |Registered(slots)| <= |slots|
    ensures |Registered(slots)| == |slots| <==> 0 !in slots
  {
    if slots == [] {
      assert Registered(slots) == {};
    } else {
      var m := |slots| - 1;
      RegisteredCount(slots[..m]);
      assert slots == slots[..m] + [slots[m]];
      assert forall x :: x in slots <==> x in slots[..m] || x == slots[m];
      if slots[m] == 0 {
        assert Registered(slots) == Registered(slots[..m]);
      } else {
        assert slots[m] !in slots[..m];
        assert Registered(slots) == Registered(slots[..m]) + {slots[m]};
      }
    }
  }

  lemma {:induction false} ConnsOfCount(fds: set<int>, open: map<int, Conn>)
    requires fds <= open.Keys && Injective(open)
    ensures |ConnsOf(fds, open)| == |fds|
    decreases |fds|
  {
    if |fds| == 0 {
      assert ConnsOf(fds, open) == {};
    } else {
      var fd := SomeMember(fds);
      ConnsOfCount(fds - {fd}, open);
      assert ConnsOf(fds, open) == ConnsOf(fds - {fd}, open) + {open[fd]};
    }
  }

  lemma RegisteredAfterFilling(slots: seq<int>, k: nat, fd: int)
    requires k < |slots| && slots[k] == 0 && fd != 0 && fd !in slots && NoRepeats(slots)
    ensures NoRepeats(slots[k := fd])
    ensures Registered(slots[k := fd]) == Registered(slots) + {fd}
  {
    var slots' := slots[k := fd];
    assert slots'[k] == fd;
    forall x | x in Registered(slots) ensures x in slots' {
      var j :| 0 <= j < |slots| && slots[j] == x;
      assert slots'[j] == x;
    }
  }

  lemma RegisteredAfterFreeing(slots: seq<int>, k: nat)
    requires k < |slots| && slots[k] != 0 && NoRepeats(slots)
    ensures NoRepeats(slots[k := 0])
    ensures Registered(slots[k := 0]) == Registered(slots) - {slots[k]}
  {
    var slots' := slots[k := 0];
    forall x | x in Registered(slots) && x != slots[k] ensures x in slots' {
      var j :| 0 <= j < |slots| && slots[j] == x;
      assert slots'[j] == x;
    }
  }

  // ---------- the steps ----------

  /** After accept returned descriptor fd: registered in the first free slot if there is one,
      otherwise left open but not watched. */
  ghost function Admitted(s: Snapshot, fd: int): Snapshot {
    var t := s.(open := s.open[fd := s.next], next := s.next + 1, calls := s.calls + [Accept(s.next)]);
    var k := IndexOf(s.slots, 0);
    if k < |s.slots| then
      t.(slots := s.slots[k := fd], master := s.master + {fd},
         maxFd := if s.maxFd > fd then s.maxFd else fd, history := s.history + [Arrive(s.next, Seated)])
    else
      t.(history := s.history + [Arrive(s.next, TurnedAway)])
  }

  /** After a visit to the client on descriptor fd: if it hung up it is closed, no longer watched,
      and its slot is free. */
  ghost function Visited(s: Snapshot, fd: int, v: Visit): Snapshot
    requires fd in s.open && fd in s.slots
  {
    var t := s.(calls := s.calls + VisitCalls(Plain, s.open[fd], v), history := s.history + [Serve(s.open[fd], v)]);
    if HangsUp(Plain, v) then
      t.(slots := s.slots[IndexOf(s.slots, fd) := 0], master := s.master - {fd}, open := s.open - {fd})
    else t
  }

  /** After accept failed. */
  ghost function FailedAccept(s: Snapshot): Snapshot {
    s.(calls := s.calls + [AcceptError], history := s.history + [AcceptFailed])
  }

  /** After a call of select that means w. */
  ghost function Selected(s: Snapshot, w: Answer): Snapshot {
    s.(calls := s.calls + [Wait(w)], history := s.history + [Waited(w)])
  }

  lemma AdmittedShape(listener: int, s: Snapshot, fd: int)
    requires Shape(listener, s)
    requires fd > 0 && fd !in s.open && fd != listener
    ensures Shape(listener, Admitted(s, fd))
    ensures Clients(Admitted(s, fd)) == if 0 in s.slots then Clients(s) + {s.next} else Clients(s)
  {
    assert fd !in s.slots;
    OkAfterAccept(listener, s.open, s.next, fd);
    var s' := Admitted(s, fd);
    if 0 in s.slots {
      RegisteredAfterFilling(s.slots, IndexOf(s.slots, 0), fd);
    }
    ConnsOfAfterOpening(Registered(s.slots), s.open, fd, s.next);
  }

  lemma ConnsOfAfterOpening(fds: set<int>, open: map<int, Conn>, fd: int, c: Conn)
    requires fds <= open.Keys && fd !in open
    ensures ConnsOf(fds, open[fd := c]) == ConnsOf(fds, open)
    ensures ConnsOf(fds + {fd}, open[fd := c]) == ConnsOf(fds, open) + {c}
  {
    var open' := open[fd := c];
    assert forall x :: x in fds ==> open'[x] == open[x];
    forall x | x in ConnsOf(fds, open) ensures x in ConnsOf(fds, open') {
      var y :| y in fds && open[y] == x;
      assert open'[y] == x;
    }
    assert open'[fd] == c;
    forall x | x in ConnsOf(fds, open) ensures x in ConnsOf(fds + {fd}, open') {
      var y :| y in fds && open[y] == x;
      assert open'[y] == x;
    }
  }

  lemma ConnsOfAfterClosing(fds: set<int>, open: map<int, Conn>, fd: int)
    requires fds <= open.Keys && fd in fds && Injective(open)
    ensures ConnsOf(fds - {fd}, open - {fd}) == ConnsOf(fds, open) - {open[fd]}
  {
    var open' := open - {fd};
    forall x | x in ConnsOf(fds, open) && x != open[fd] ensures x in ConnsOf(fds - {fd}, open') {
      var y :| y in fds && open[y] == x;
      assert open'[y] == x;
    }
  }

  lemma VisitedShape(listener: int, s: Snapshot, fd: int, v: Visit)
    requires Shape(listener, s) && fd in Registered(s.slots)
    ensures Shape(listener, Visited(s, fd, v))
    ensures Clients(Visited(s, fd, v)) == if HangsUp(Plain, v) then Clients(s) - {s.open[fd]} else Clients(s)
  {
    if HangsUp(Plain, v) {
      OkAfterClose(listener, s.open, s.next, fd);
      RegisteredAfterFreeing(s.slots, IndexOf(s.slots, fd));
      ConnsOfAfterClosing(Registered(s.slots), s.open, fd);
    }
  }

  lemma AdmittedKeeps(listener: int, s: Snapshot, fd: int)
    requires Inv(listener, s)
    requires fd > 0 && fd !in s.open && fd != listener
    ensures Inv(listener, Admitted(s, fd))
  {
    hide Tracks, Registered, ConnsOf;
    AdmittedShape(listener, s, fd);
    RegisteredCount(s.slots);
    ConnsOfCount(Registered(s.slots), s.open);
    var a := if 0 in s.slots then Seated else TurnedAway;
    assert ArrivalCalls(Plain, s.next, a) == [Accept(s.next)];
    TrackArrival(Plain, CAPACITY, s.history, Clients(s), s.next, s.calls, a);
  }

  lemma VisitedKeeps(listener: int, s: Snapshot, fd: int, v: Visit)
    requires Inv(listener, s) && fd in Registered(s.slots)
    ensures Inv(listener, Visited(s, fd, v))
  {
    hide Tracks, Registered, HangsUp, VisitCalls;
    VisitedShape(listener, s, fd, v);
    assert s.open[fd] in Clients(s);
    hide ConnsOf;
    TrackVisit(Plain, CAPACITY, s.history, Clients(s), s.next, s.calls, s.open[fd], v);
  }

  lemma FailedAcceptKeeps(listener: int, s: Snapshot)
    requires Inv(listener, s)
    ensures Inv(listener, FailedAccept(s))
  {
    hide Tracks, Registered, ConnsOf;
    TrackFailure(Plain, CAPACITY, s.history, Clients(s), s.next, s.calls);
  }

  /** Select on the watched set, with the high-water mark as its bound, asks about the listener and
      all clients. */
  lemma SelectMeans(listener: int, s: Snapshot, activity: int, readSet: set<int>)
    requires Shape(listener, s) && readSet <= s.master
    ensures SelectAnswer(activity, s.master, s.maxFd + 1, readSet, listener, s.open)
         == Answer(activity, true, Clients(s), listener in readSet, Behind(readSet, s.open))
    ensures Behind(readSet, s.open) <= Clients(s)
  {
    var asked := set fd | fd in s.master && fd < s.maxFd + 1;
    assert asked == s.master;
    assert Behind(s.master, s.open) == Clients(s);
  }

  lemma SelectedKeeps(listener: int, s: Snapshot, activity: int, readSet: set<int>)
    requires Inv(listener, s) && readSet <= s.master
    ensures Inv(listener, Selected(s, SelectAnswer(activity, s.master, s.maxFd + 1, readSet, listener, s.open)))
  {
    hide Tracks, Registered, ConnsOf, SelectAnswer, Behind;
    var w := SelectAnswer(activity, s.master, s.maxFd + 1, readSet, listener, s.open);
    SelectMeans(listener, s, activity, readSet);
    TrackWait(Plain, CAPACITY, s.history, Clients(s), s.next, s.calls, w);
  }

  // ---------- the sweep ----------

  // The connections behind the reported descriptors below i.
  ghost function BehindBelow(readSet: set<int>, i: int, open: map<int, Conn>): set<Conn> {
    set fd | fd in readSet && fd in open && fd < i :: open[fd]
  }

  /** The state of a sweep that started in s0 with this read set, has made these events and has
      come to descriptor i in state s.  Every reported descriptor from i on is still watched and
      open, and still leads to the connection it led to when select returned; the clients behind
      those below i are the ones received from. */
  ghost predicate Sweeping(listener: int, s0: Snapshot, s: Snapshot, readSet: set<int>, i: int,
                           events: seq<Event>, m: Tally)
  {
    && s.history == s0.history + events
    && Tallies(Plain, events, m) && m.attempts == (if listener in readSet && i > listener then 1 else 0)
    && readSet <= s0.master && s0.maxFd <= s.maxFd
    && (forall fd :: fd in readSet && fd != listener && fd >= i ==>
          fd in s.slots && fd in s.open && fd in s0.open && s.open[fd] == s0.open[fd])
    && m.served == BehindBelow(readSet, i, s0.open)
  }

  lemma SweepStarts(listener: int, s: Snapshot, readSet: set<int>)
    requires Inv(listener, s) && readSet <= s.master
    ensures Sweeping(listener, s, s, readSet, 0, [], Tally({}, {}, {}, 0))
  {
    hide Tracks;
    TallyStarts(Plain);
    assert BehindBelow(readSet, 0, s.open) == {};
  }

  lemma SweepSkips(listener: int, s0: Snapshot, s: Snapshot, readSet: set<int>, i: int, events: seq<Event>, m: Tally)
    requires Sweeping(listener, s0, s, readSet, i, events, m)
    requires i !in readSet
    ensures Sweeping(listener, s0, s, readSet, i + 1, events, m)
  {
    hide Tallies;
    assert BehindBelow(readSet, i + 1, s0.open) == BehindBelow(readSet, i, s0.open);
  }

  lemma SweepFails(listener: int, s0: Snapshot, s: Snapshot, readSet: set<int>, events: seq<Event>, m: Tally)
    returns (m': Tally)
    requires Inv(listener, s0) && Sweeping(listener, s0, s, readSet, listener, events, m) && listener in readSet
    ensures Sweeping(listener, s0, FailedAccept(s), readSet, listener + 1, events + [AcceptFailed], m')
  {
    hide Tracks, Tallies, Registered;
    m' := m.(attempts := m.attempts + 1);
    TallyFailure(Plain, events, m);
    assert BehindBelow(readSet, listener + 1, s0.open) == BehindBelow(readSet, listener, s0.open);
  }

  lemma SweepAccepts(listener: int, s0: Snapshot, s: Snapshot, readSet: set<int>, events: seq<Event>, m: Tally, fd: int)
    returns (m': Tally)
    requires Inv(listener, s0) && Inv(listener, s)
    requires Sweeping(listener, s0, s, readSet, listener, events, m) && listener in readSet
    requires fd > 0 && fd !in s.open && fd != listener
    ensures var a := if 0 in s.slots then Seated else TurnedAway;
            Sweeping(listener, s0, Admitted(s, fd), readSet, listener + 1, events + [Arrive(s.next, a)], m')
  {
    hide Tracks, Tallies, Registered;
    var a := if 0 in s.slots then Seated else TurnedAway;
    TallyArrival(Plain, events, m, s.next, a);
    m' := m.(seats := if a.Seated? then m.seats + {s.next} else m.seats, attempts := m.attempts + 1);
    assert BehindBelow(readSet, listener + 1, s0.open) == BehindBelow(readSet, listener, s0.open);
    var s' := Admitted(s, fd);
    forall x | x in s.slots && x in s.open ensures x in s'.slots {
      var j :| 0 <= j < |s.slots| && s.slots[j] == x;
      if 0 in s.slots {
        assert IndexOf(s.slots, 0) != j ==> s'.slots[j] == x;
      }
    }
  }

  lemma SweepVisits(listener: int, s0: Snapshot, s: Snapshot, readSet: set<int>, i: int, events: seq<Event>, m: Tally,
                    v: Visit)
    returns (m': Tally)
    requires Inv(listener, s0) && Inv(listener, s)
    requires Sweeping(listener, s0, s, readSet, i, events, m) && i in readSet && i != listener
    ensures Sweeping(listener, s0, Visited(s, i, v), readSet, i + 1, events + [Serve(s.open[i], v)], m')
  {
    hide Tracks, Tallies, Registered, HangsUp, VisitCalls;
    var c := s.open[i];
    assert c !in m.served;
    TallyVisit(Plain, events, m, c, v);
    m' := m.(served := m.served + {c}, hungUp := if HangsUp(Plain, v) then m.hungUp + {c} else m.hungUp);
    assert BehindBelow(readSet, i + 1, s0.open) == BehindBelow(readSet, i, s0.open) + {c};
    var s' := Visited(s, i, v);
    forall x | x in s.slots && x != i ensures x in s'.slots {
      var j :| 0 <= j < |s.slots| && s.slots[j] == x;
      assert s'.slots[j] == x;
    }
  }

  lemma SweepMakesRound(listener: int, s0: Snapshot, s: Snapshot, readSet: set<int>, i: int, events: seq<Event>,
                        m: Tally, activity: int)
    requires Inv(listener, s0) && Sweeping(listener, s0, s, readSet, i, events, m) && i > s.maxFd
    ensures RoundOk(SelectLoop, Clients(s0),
                    Round(Answer(activity, true, Clients(s0), listener in readSet, Behind(readSet, s0.open)), events))
  {
    hide Tracks;
    assert BehindBelow(readSet, i, s0.open) == Behind(readSet, s0.open);
    SelectMeans(listener, s0, activity, readSet);
  }

  /** The slots hold exactly the connections that the abstract machine has live. */
  lemma TableIsLive(listener: int, s: Snapshot)
    requires Inv(listener, s)
    ensures SelectLoop.IsLegal(s.history) && SelectLoop.After(s.history).live == Clients(s)
    ensures s.calls == Calls(Plain, s.history)
  {
  }

  class SelectServer {
    const kernel: Kernel
    const fdsClient: array<int>
    var masterSet: set<int>
    var globalMaxFd: int
    // The events of the run so far.
    ghost var history: seq<Event>

    ghost function Now(): Snapshot
      reads this, kernel, fdsClient
    {
      Snapshot(fdsClient[..], masterSet, globalMaxFd, kernel.open, kernel.next, kernel.calls, history)
    }

    ghost predicate Valid()
      reads this, kernel, fdsClient
    {
      Inv(kernel.listener, Now())
    }

    constructor (kernel: Kernel)
      requires kernel.Valid() && kernel.open == map[] && kernel.next == 0 && kernel.calls == []
      ensures Valid() && history == [] && this.kernel == kernel && fresh(fdsClient)
    {
      this.kernel := kernel;
      fdsClient := new int[MAX_CONNECTION](_ => 0);
      masterSet := {kernel.listener};
      globalMaxFd := if 0 > kernel.listener then 0 else kernel.listener;
      history := [];
      new;
      assert Registered(fdsClient[..]) == {};
      assert Clients(Now()) == {};
    }

    /** The first slot that holds v. */
    method FindSlot(v: int) returns (i: nat)
      ensures i == IndexOf(fdsClient[..], v)
    {
      i := 0;
      while i < fdsClient.Length && fdsClient[i] != v
        invariant i <= fdsClient.Length && forall j :: 0 <= j < i ==> fdsClient[j] != v
      {
        i := i + 1;
      }
      IndexOfIsFirst(fdsClient[..], v, i);
    }

    /** Accept one connection, and register and watch it if there is a free slot. */
    method AcceptClient() returns (ok: bool, ghost fd: int)
      requires Valid()
      modifies this, fdsClient, kernel
      ensures Valid()
      ensures Now() == if ok then Admitted(old(Now()), fd) else FailedAccept(old(Now()))
      ensures ok ==> fd > 0 && fd !in old(kernel.open) && fd != kernel.listener
    {
      hide Tracks, Registered, ConnsOf;
      ghost var s := Now();
      var sockClient := kernel.Accept();
      ok, fd := sockClient >= 0, sockClient;
      if ok {
        var k := FindSlot(0);
        if k < MAX_CONNECTION {
          fdsClient[k] := sockClient;
          masterSet := masterSet + {sockClient};
          globalMaxFd := if globalMaxFd > sockClient then globalMaxFd else sockClient;
          history := history + [Arrive(s.next, Seated)];
          assert fdsClient[..] == s.slots[k := sockClient];
        } else {
          history := history + [Arrive(s.next, TurnedAway)];
        }
        assert Now() == Admitted(s, fd);
        AdmittedKeeps(kernel.listener, s, fd);
      } else {
        history := history + [AcceptFailed];
        FailedAcceptKeeps(kernel.listener, s);
        assert Now() == FailedAccept(s);
      }
    }

    /** One visit to the client on descriptor i. */
    method VisitClient(i: int) returns (ghost visit: Visit)
      requires Valid()
      requires i != 0 && i in fdsClient[..]
      modifies this, fdsClient, kernel
      ensures Valid()
      ensures Now() == Visited(old(Now()), i, visit)
      ensures var c, data := old(kernel.open[i]), visit.data;
              var leaves := visit.received <= 0 || visit.sent <= 0 || data == "quit" || data == "exit"
                            || "quit\0" <= data || "exit\0" <= data;
              && kernel.calls == old(kernel.calls) + [Recv(c, visit.received, data)]
                 + (if visit.received > 0 then [Send(c, visit.sent)] else []) + (if leaves then [Close(c)] else [])
              && (i in fdsClient[..] <==> !leaves)
    {
      hide Text.CString, Tracks, ConnsOf;
      ghost var s := Now();
      var shouldDisconnect := false;
      var received, request := kernel.Recv(i);
      visit := Visit(received, request, 0);
      if received <= 0 {
        shouldDisconnect := true;
      } else {
        var sent := kernel.Send(i);
        visit := visit.(sent := sent);
        if sent <= 0 {
          shouldDisconnect := true;
        }
        if Text.CString(request) == "quit" || Text.CString(request) == "exit" {
          shouldDisconnect := true;
        }
      }
      history := history + [Serve(s.open[i], visit)];
      if shouldDisconnect {
        kernel.Close(i);
        masterSet := masterSet - {i};
        var j := FindSlot(i);
        if j < MAX_CONNECTION {
          fdsClient[j] := 0;
        }
        assert fdsClient[..] == s.slots[j := 0];
      }
      PlainVisitMeans(s.calls, s.open[i], visit);
      hide VisitCalls, HangsUp;
      assert Now() == Visited(s, i, visit);
      VisitedKeeps(kernel.listener, s, i, visit);
    }

    /** The sweep over all descriptor numbers up to the high-water mark, which may rise meanwhile. */
    method Sweep(readSet: set<int>, ghost activity: int) returns (ghost events: seq<Event>)
      requires Valid() && readSet <= masterSet
      modifies this, fdsClient, kernel
      ensures Valid()
      ensures history == old(history) + events
      ensures RoundOk(SelectLoop, Clients(old(Now())), Round(
                      Answer(activity, true, Clients(old(Now())), kernel.listener in readSet,
                             Behind(readSet, old(kernel.open))), events))
      ensures globalMaxFd >= old(globalMaxFd)
    {
      hide Tracks, Tallies, Registered, ConnsOf, BehindBelow, Behind, RoundOk;
      ghost var s0 := Now();
      ghost var m := Tally({}, {}, {}, 0);
      events := [];
      SweepStarts(kernel.listener, s0, readSet);
      var i := 0;
      while i <= globalMaxFd
        invariant i >= 0 && Valid()
        invariant Sweeping(kernel.listener, s0, Now(), readSet, i, events, m)
        decreases if i <= kernel.listener then 1 else 0, globalMaxFd - i
      {
        ghost var s := Now();
        if i in readSet {
          if i == kernel.listener {
            var ok, fd := AcceptClient();
            if !ok {
              m := SweepFails(kernel.listener, s0, s, readSet, events, m);
              events := events + [AcceptFailed];
              i := i + 1;
              continue;
            }
            m := SweepAccepts(kernel.listener, s0, s, readSet, events, m, fd);
            events := events + [Arrive(s.next, if 0 in s.slots then Seated else TurnedAway)];
          } else {
            var visit := VisitClient(i);
            m := SweepVisits(kernel.listener, s0, s, readSet, i, events, m, visit);
            events := events + [Serve(s.open[i], visit)];
          }
        } else {
          SweepSkips(kernel.listener, s0, s, readSet, i, events, m);
        }
        i := i + 1;
      }
      SweepMakesRound(kernel.listener, s0, Now(), readSet, i, events, m, activity);
    }

    /** Wait for readable descriptors.  When select fails the read set is the whole watched set. */
    method Select() returns (activity: int, readSet: set<int>, ghost w: Answer)
      requires Valid()
      modifies this`history, kernel`calls
      ensures Valid() && readSet <= masterSet
      ensures Now() == Selected(old(Now()), w)
      ensures w == Answer(activity, true, Clients(old(Now())), kernel.listener in readSet,
                          Behind(readSet, kernel.open))
      ensures activity < 0 ==> readSet == masterSet
    {
      hide Tracks, Registered, ConnsOf, Behind, SelectAnswer;
      ghost var s := Now();
      activity, readSet := kernel.Select(masterSet, globalMaxFd + 1);
      w := SelectAnswer(activity, masterSet, globalMaxFd + 1, readSet, kernel.listener, kernel.open);
      history := history + [Waited(w)];
      assert Now() == Selected(s, w);
      SelectMeans(kernel.listener, s, activity, readSet);
      SelectedKeeps(kernel.listener, s, activity, readSet);
    }

    /** One iteration of the server loop; it goes on even when select fails. */
    method Iterate() returns (ghost r: Round)
      requires Valid()
      modifies this, fdsClient, kernel
      ensures Valid()
      ensures history == old(history) + [Waited(r.answer)] + r.events
      ensures RoundOk(SelectLoop, Clients(old(Now())), r)
      ensures globalMaxFd >= old(globalMaxFd)
    {
      hide Tracks, Registered, ConnsOf, Behind, RoundOk;
      var activity, readSet, w := Select();
      var events := Sweep(readSet, activity);
      r := Round(w, events);
    }

    /** The server loop, for any number of iterations. */
    method RunServer(iterations: nat)
      requires Valid() && history == []
      modifies this, fdsClient, kernel
      ensures Valid()
      ensures SelectLoop.IsLegal(history) && kernel.calls == Calls(Plain, history)
      ensures RoundsOk(SelectLoop, history) && |Split(history)| == iterations
      ensures ClearText(kernel.calls)
      ensures globalMaxFd >= old(globalMaxFd)
    {
      hide Tracks, Registered, ConnsOf, RoundOk, RoundsOk, Running, Split, Calls, ClearText;
      NoRounds(SelectLoop);
      for k := 0 to iterations
        invariant Valid() && |Split(history)| == k
        invariant RoundsOk(SelectLoop, history) && Running(SelectLoop, history)
        invariant globalMaxFd >= old(globalMaxFd)
      {
        TableIsLive(kernel.listener, Now());
        ghost var h := history;
        var r := Iterate();
        ExtendRounds(SelectLoop, h, r.answer, r.events);
      }
      TableIsLive(kernel.listener, Now());
      SpeaksClearText(CAPACITY, history);
    }
  }
}
