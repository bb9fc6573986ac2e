/** The poll server: one table of poll entries, changed in place while it is being swept. */
module PollServer {

  import opened Connections
  import opened Rounds
  import opened Sockets
  import opened Text
  import opened Slots
  import opened PollTable
  import opened Dialogue

  const CAPACITY: nat := PollLoop.Capacity()

  // The server's whole state.
  datatype Snapshot = Snapshot(
    table: seq<PollFd>, n: nat, open: map<int, Conn>, next: Conn, calls: seq<Call>, history: seq<Event>)

  ghost predicate Shape(listener: int, s: Snapshot) {
    && |s.table| == MAX_CONNECTION
    && WellFormed(s.table, s.n, s.open)
    && s.table[0].fd == listener && s.table[0].events
    && KernelOk(listener, s.open, s.next)
  }

  /** What holds between any two steps: the table is in shape, and the history so far is a legal
      run of the abstract machine that explains the table and every system call made. */
  ghost predicate Inv(listener: int, s: Snapshot) {
    && Shape(listener, s)
    && Tracks(Plain, CAPACITY, s.history, Conns(Table(s)), s.next, s.calls)
  }

  /** The connections in the table, with their flags. */
  ghost function Table(s: Snapshot): seq<Slot>
    requires WellFormed(s.table, s.n, s.open)
  {
    View(s.table, s.n, s.open)
  }

  /** After accept returned descriptor fd: seated in the first unused entry if there is one,
      otherwise left open but outside the table. */
  ghost function Admitted(s: Snapshot, fd: int): Snapshot
    requires s.n <= |s.table|
  {
    var t := s.(open := s.open[fd := s.next], next := s.next + 1, calls := s.calls + [Accept(s.next)]);
    if s.n < |s.table| then
      t.(table := s.table[s.n := s.table[s.n].(fd := fd, events := true)], n := s.n + 1,
         history := s.history + [Arrive(s.next, Seated)])
    else
      t.(history := s.history + [Arrive(s.next, TurnedAway)])
  }

  /** After a visit to the client in entry i: if it hung up it is closed and the last entry's
      descriptor takes its place, under the flag of entry i. */
  ghost function Visited(s: Snapshot, i: nat, v: Visit): Snapshot
    requires WellFormed(s.table, s.n, s.open) && 1 <= i < s.n
  {
    var c := s.open[s.table[i].fd];
    var t := s.(calls := s.calls + VisitCalls(Plain, c, v), history := s.history + [Serve(c, v)]);
    if HangsUp(Plain, v) then
      t.(table := s.table[i := s.table[i].(fd := s.table[s.n - 1].fd)], n := s.n - 1,
         open := s.open - {s.table[i].fd})
    else t
  }

  /** After accept failed. */
  ghost function FailedAccept(s: Snapshot): Snapshot {
    s.(calls := s.calls + [AcceptError], history := s.history + [AcceptFailed])
  }

  /** After poll on the used entries, with t the table it left and w what it means. */
  ghost function Polled(s: Snapshot, t: seq<PollFd>, w: Answer): Snapshot {
    s.(table := t, calls := s.calls + [Wait(w)], history := s.history + [Waited(w)])
  }

  lemma AdmittedShape(listener: int, s: Snapshot, fd: int)
    requires Shape(listener, s)
    requires fd > 0 && fd !in s.open && fd != listener
    ensures Shape(listener, Admitted(s, fd))
    ensures Table(Admitted(s, fd)) ==
            if s.n < MAX_CONNECTION then Table(s) + [Slot(s.next, s.table[s.n].revents)] else Table(s)
  {
    OkAfterAccept(listener, s.open, s.next, fd);
    hide KernelOk;
    if s.n < MAX_CONNECTION {
      ViewAfterSeating(s.table, Admitted(s, fd).table, s.n, s.open, fd, s.next);
    } else {
      ViewWithoutSeating(s.table, s.n, s.open, fd, s.next);
    }
  }

  lemma AdmittedKeeps(listener: int, s: Snapshot, fd: int)
    requires Inv(listener, s)
    requires fd > 0 && fd !in s.open && fd != listener
    ensures Inv(listener, Admitted(s, fd))
  {
    hide View, Tracks;
    AdmittedShape(listener, s, fd);
    AdmittedTracks(listener, s, fd);
  }

  // What the machine needs to know about an arrival: whether there was room.
  lemma ArrivalExplained(listener: int, s: Snapshot, a: Admission)
    requires WellFormed(s.table, s.n, s.open)
    requires KernelOk(listener, s.open, s.next)
    requires Tracks(Plain, CAPACITY, s.history, Conns(Table(s)), s.next, s.calls)
    requires a == if s.n < MAX_CONNECTION then Seated else TurnedAway
    ensures Tracks(Plain, CAPACITY, s.history + [Arrive(s.next, a)],
                   if a.Seated? then Conns(Table(s)) + {s.next} else Conns(Table(s)), s.next + 1,
                   s.calls + [Accept(s.next)])
  {
    hide View, Tracks;
    ViewDistinct(s.table, s.n, s.open);
    ConnsCount(Table(s));
    hide Conns;
    assert ArrivalCalls(Plain, s.next, a) == [Accept(s.next)];
    TrackArrival(Plain, CAPACITY, s.history, Conns(Table(s)), s.next, s.calls, a);
  }

  lemma AdmittedTracks(listener: int, s: Snapshot, fd: int)
    requires Inv(listener, s)
    requires fd > 0 && fd !in s.open && fd != listener
    requires Shape(listener, Admitted(s, fd))
    ensures var s' := Admitted(s, fd);
            Tracks(Plain, CAPACITY, s'.history, Conns(Table(s')), s'.next, s'.calls)
  {
    hide View, Tracks, Conns, KernelOk;
    AdmittedShape(listener, s, fd);
    if s.n < MAX_CONNECTION {
      ArrivalExplained(listener, s, Seated);
      ConnsAfterSeating(Table(s), Slot(s.next, s.table[s.n].revents));
    } else {
      ArrivalExplained(listener, s, TurnedAway);
    }
  }

  lemma FailedAcceptKeeps(listener: int, s: Snapshot)
    requires Inv(listener, s)
    ensures Inv(listener, FailedAccept(s))
  {
    hide View, Tracks, Conns;
    TrackFailure(Plain, CAPACITY, s.history, Conns(Table(s)), s.next, s.calls);
  }

  lemma VisitedShape(listener: int, s: Snapshot, i: nat, v: Visit)
    requires Shape(listener, s) && 1 <= i < s.n
    ensures Shape(listener, Visited(s, i, v))
    ensures Table(Visited(s, i, v)) == if HangsUp(Plain, v) then SwapRemove(Table(s), i - 1) else Table(s)
  {
    OkAfterClose(listener, s.open, s.next, s.table[i].fd);
    if HangsUp(Plain, v) {
      ViewAfterRemoval(s.table, Visited(s, i, v).table, s.n, s.open, i);
    }
  }

  lemma VisitedKeeps(listener: int, s: Snapshot, i: nat, v: Visit)
    requires Inv(listener, s) && 1 <= i < s.n
    ensures Inv(listener, Visited(s, i, v))
    ensures Table(Visited(s, i, v)) == if HangsUp(Plain, v) then SwapRemove(Table(s), i - 1) else Table(s)
  {
    hide View, Tracks, HangsUp, VisitCalls;
    VisitedShape(listener, s, i, v);
    assert Table(s)[i - 1] in Table(s);
    ViewDistinct(s.table, s.n, s.open);
    SwapRemoveConns(Table(s), i - 1);
    TrackVisit(Plain, CAPACITY, s.history, Conns(Table(s)), s.next, s.calls, s.open[s.table[i].fd], v);
  }

  // ---------- poll ----------

  /** Poll changes flags, not clients, and asks about the listener and all of them. */
  lemma PolledKeeps(listener: int, s: Snapshot, t: seq<PollFd>, activity: int)
    requires Inv(listener, s) && |t| == |s.table|
    requires forall j :: 0 <= j < |t| ==> t[j].fd == s.table[j].fd && t[j].events == s.table[j].events
    ensures var w := PollAnswer(activity, t, s.n, listener, s.open);
            var s' := Polled(s, t, w);
            && Inv(listener, s') && Conns(Table(s')) == Conns(Table(s))
            && w == if activity < 0 then Answer(activity, true, Conns(Table(s)), false, {})
                    else Answer(activity, true, Conns(Table(s)), t[0].revents, Flagged(Table(s')))
  {
    hide View, Tracks, Conns, Flagged, PollAnswer;
    ViewAfterPoll(s.table, t, s.n, s.open);
    PollMeans(activity, t, s.n, s.n, listener, s.open);
    var w := PollAnswer(activity, t, s.n, listener, s.open);
    FlaggedAreThere(View(t, s.n, s.open));
    TrackWait(Plain, CAPACITY, s.history, Conns(Table(s)), s.next, s.calls, w);
  }

  // ---------- the sweep ----------

  /** The state of a sweep that started in s0, has made these events and is now at entry i of s. */
  ghost predicate Sweeping(s0: Snapshot, s: Snapshot, i: nat, events: seq<Event>, m: Tally) {
    && WellFormed(s0.table, s0.n, s0.open) && WellFormed(s.table, s.n, s.open)
    && 1 <= i
    && s.history == s0.history + events
    && Tallies(Plain, events, m) && m.attempts == 0 && m.seats == {}
    && PollSweeping(Table(s0), Table(s), i - 1, m.served, m.hungUp)
    && Ordered(true, Table(s0), Table(s), i - 1, ServedOrder(events), m.served, m.hungUp)
  }

  lemma SweepStarts(listener: int, s: Snapshot)
    requires Inv(listener, s)
    ensures Sweeping(s, s, 1, [], Tally({}, {}, {}, 0))
  {
    hide View, Tracks, Ordered, PollSweeping, Tallies, ServedOrder;
    ViewDistinct(s.table, s.n, s.open);
    SweepStartsOver(Table(s));
    assert s.history + [] == s.history;
  }

  // The part of SweepStarts that is about the table.
  lemma SweepStartsOver(t: seq<Slot>)
    requires Distinct(t)
    ensures Tallies(Plain, [], Tally({}, {}, {}, 0)) && PollSweeping(t, t, 0, {}, {})
    ensures Ordered(true, t, t, 0, ServedOrder([]), {}, {})
  {
    TallyStarts(Plain);
    PollSweepStarts(t);
    OrderStarts(true, t);
  }

  lemma SweepSkips(listener: int, s0: Snapshot, s: Snapshot, i: nat, events: seq<Event>, m: Tally)
    requires Inv(listener, s)
    requires Sweeping(s0, s, i, events, m) && i < s.n && !s.table[i].revents
    ensures Sweeping(s0, s, i + 1, events, m)
  {
    hide View, Tracks, Tallies, PollSweeping, Ordered;
    ViewDistinct(s.table, s.n, s.open);
    PollSweepSkips(Table(s0), Table(s), i - 1, m.served, m.hungUp);
    OrderedSkips(true, Table(s0), Table(s), i - 1, ServedOrder(events), m.served, m.hungUp);
  }

  lemma SweepVisits(listener: int, s0: Snapshot, s: Snapshot, i: nat, events: seq<Event>, m: Tally, v: Visit)
    returns (e: Event, m': Tally)
    requires Inv(listener, s)
    requires Sweeping(s0, s, i, events, m) && i < s.n && s.table[i].revents
    ensures Sweeping(s0, Visited(s, i, v), if HangsUp(Plain, v) then i else i + 1, events + [e], m')
  {
    hide View, Tracks, HangsUp, VisitCalls, Tallies, PollSweeping, Ordered, ServedOrder;
    var c := s.open[s.table[i].fd];
    e := Serve(c, v);
    m' := m.(served := m.served + {c}, hungUp := if HangsUp(Plain, v) then m.hungUp + {c} else m.hungUp);
    VisitedShape(listener, s, i, v);
    ViewDistinct(s.table, s.n, s.open);
    VisitMovesSweep(Table(s0), Table(s), i - 1, m, HangsUp(Plain, v));
    VisitMovesOrder(Table(s0), Table(s), i - 1, events, m, v);
    TallyVisit(Plain, events, m, c, v);
  }

  // The parts of SweepVisits that are about the table.
  lemma VisitMovesSweep(t0: seq<Slot>, t: seq<Slot>, k: nat, m: Tally, gone: bool)
    requires Distinct(t) && k < |t| && t[k].flag && PollSweeping(t0, t, k, m.served, m.hungUp)
    ensures t[k].c !in m.served
    ensures if gone then PollSweeping(t0, SwapRemove(t, k), k, m.served + {t[k].c}, m.hungUp + {t[k].c})
            else PollSweeping(t0, t, k + 1, m.served + {t[k].c}, m.hungUp)
  {
    hide PollSweeping;
    if gone {
      PollSweepLoses(t0, t, k, m.served, m.hungUp);
    } else {
      PollSweepKeeps(t0, t, k, m.served, m.hungUp);
    }
  }

  lemma VisitMovesOrder(t0: seq<Slot>, t: seq<Slot>, k: nat, events: seq<Event>, m: Tally, v: Visit)
    requires k < |t| && t[k].flag && t[k].c !in m.served
    requires PollSweeping(t0, t, k, m.served, m.hungUp)
    requires Ordered(true, t0, t, k, ServedOrder(events), m.served, m.hungUp)
    ensures var order := ServedOrder(events + [Serve(t[k].c, v)]);
      if HangsUp(Plain, v) then
        Ordered(true, t0, SwapRemove(t, k), k, order, m.served + {t[k].c}, m.hungUp + {t[k].c})
      else Ordered(true, t0, t, k + 1, order, m.served + {t[k].c}, m.hungUp)
  {
    hide Ordered, ServedOrder, HangsUp;
    ExtendOrder(events, t[k].c, v);
    OrderedVisits(true, t0, t, k, ServedOrder(events), m.served, m.hungUp, HangsUp(Plain, v));
  }

  /** What a sweep over t has done.  Every flagged client was received from, and each client once;
      others were, too, but at most one for each client removed; the order is that of SweepOrder, and
      the table left, after, that of AfterSweep. */
  ghost predicate Swept(t: seq<Slot>, after: seq<Slot>, events: seq<Event>) {
    && Tallies(Plain, events, Tally(Served(events), HungUp(Plain, events), {}, 0))
    && Flagged(t) <= Served(events) <= Conns(t)
    && |Served(events) - Flagged(t)| <= |HungUp(Plain, events)|
    && ServedOrder(events) == SweepOrder(true, t, 0, HungUp(Plain, events))
    && after == AfterSweep(true, t, 0, HungUp(Plain, events))
  }

  lemma SweepEnds(listener: int, s0: Snapshot, s: Snapshot, i: nat, events: seq<Event>, m: Tally)
    requires Inv(listener, s0) && Inv(listener, s)
    requires Sweeping(s0, s, i, events, m) && i >= s.n
    ensures s.history == s0.history + events && Swept(Table(s0), Table(s), events)
  {
    hide View, Tracks, Tallies, Ordered, ServedOrder, HungUp, Served, SweepOrder, AfterSweep, PollSweeping;
    assert m == Tally(Served(events), HungUp(Plain, events), {}, 0) by { TallyIs(events, m); }
    FlaggedAreThere(Table(s0));
    PollSweepEnds(Table(s0), Table(s), i - 1, m.served, m.hungUp);
    OrderEnds(true, Table(s0), Table(s), i - 1, ServedOrder(events), m.served, m.hungUp);
  }

  lemma TallyIs(events: seq<Event>, m: Tally)
    requires Tallies(Plain, events, m)
    ensures m.served == Served(events) && m.hungUp == HungUp(Plain, events)
  {
  }

  lemma EntryIsThere(listener: int, s: Snapshot)
    requires Inv(listener, s)
    ensures 1 <= s.n <= |s.table| == MAX_CONNECTION
  {
  }

  // ---------- one iteration ----------

  // The answer of a poll that left table t, and whose listener entry has this flag.
  function PollReport(activity: int, t: seq<Slot>, listener: bool): Answer {
    Answer(activity, true, Conns(t), listener, Flagged(t))
  }

  // A round in which nobody was seated before the sweep.
  lemma RoundWithoutNewcomer(t: seq<Slot>, events: seq<Event>, m: Tally, w: Answer)
    requires Tallies(Plain, events, m) && m.seats == {} && m.attempts == (if w.listener then 1 else 0)
    requires w == PollReport(w.activity, t, w.listener) && w.activity >= 0
    requires Flagged(t) <= m.served <= Conns(t) && |m.served - Flagged(t)| <= |m.hungUp|
    requires AcceptFailed !in events
    ensures RoundOk(PollLoop, Conns(t), Round(w, events))
  {
    FlaggedAreThere(t);
    assert m.served - Flagged(t) - m.seats == m.served - Flagged(t);
  }

  // A round in which x's connection was seated before the sweep, perhaps under an old flag.
  lemma RoundWithNewcomer(t: seq<Slot>, x: Slot, events: seq<Event>, m: Tally, w: Answer)
    requires Tallies(Plain, events, m) && m.seats == {x.c} && m.attempts == 1
    requires w == PollReport(w.activity, t, true) && w.activity >= 0
    requires Flagged(t + [x]) <= m.served <= Conns(t + [x])
    requires |m.served - Flagged(t + [x])| <= |m.hungUp|
    requires AcceptFailed !in events
    ensures RoundOk(PollLoop, Conns(t), Round(w, events))
  {
    FlaggedAreThere(t);
    FlaggedAfterSeating(t, x);
    SubsetCard(m.served - Flagged(t) - m.seats, m.served - Flagged(t + [x]));
  }

  lemma EmptyRound(t: seq<Slot>, w: Answer)
    requires w.activity < 0 && w == Answer(w.activity, true, Conns(t), false, {})
    ensures RoundOk(PollLoop, Conns(t), Round(w, []))
  {
  }

  lemma SkippedRound(t: seq<Slot>, w: Answer)
    requires w.activity >= 0 && w == PollReport(w.activity, t, true)
    ensures RoundOk(PollLoop, Conns(t), Round(w, [AcceptFailed])) && Skipped(Round(w, [AcceptFailed]))
  {
    FlaggedAreThere(t);
    TallyStarts(Plain);
    TallyFailure(Plain, [], Tally({}, {}, {}, 0));
    assert [] + [AcceptFailed] == [AcceptFailed];
  }

  /** The order of an iteration: with t the table that poll left, and the newcomer's slot if one
      was seated, the clients received from are those of SweepOrder. */
  ghost predicate InOrder(t: seq<Slot>, newcomers: seq<Slot>, r: Round) {
    && Conns(t) == r.answer.watched && Flagged(t) == r.answer.reported
    && |newcomers| <= 1 && Conns(newcomers) == Seats(r.events)
    && ServedOrder(r.events) == SweepOrder(true, t + newcomers, 0, HungUp(Plain, r.events))
  }

  // A sweep without an arrival before it.
  lemma RoundOfSweep(t: seq<Slot>, after: seq<Slot>, events: seq<Event>, w: Answer)
    requires w == PollReport(w.activity, t, false) && w.activity >= 0
    requires Swept(t, after, events)
    ensures RoundOk(PollLoop, Conns(t), Round(w, events)) && InOrder(t, [], Round(w, events))
  {
    NoAttempts(events);
    assert t + [] == t && Conns([]) == {};
    hide Tallies, RoundOk, Conns, Flagged, ServedOrder, AfterSweep;
    RoundWithoutNewcomer(t, events, Tally(Served(events), HungUp(Plain, events), {}, 0), w);
  }

  // What an arrival in front of a sweep changes.
  lemma ArrivalInFront(c: Conn, a: Admission, events: seq<Event>, m: Tally)
    requires Tallies(Plain, events, m) && m.seats == {} && m.attempts == 0
    ensures var all := [Arrive(c, a)] + events;
      && Tallies(Plain, all, m.(seats := if a.Seated? then {c} else {}, attempts := 1))
      && Seats(all) == (if a.Seated? then {c} else {}) && HungUp(Plain, all) == m.hungUp
      && ServedOrder(all) == ServedOrder(events) && AcceptFailed !in all
  {
    hide Served, HungUp, ServedOnce, InSweep, ServedOrder;
    NoAttempts(events);
    OrderAfterArrival(c, a, events);
    TallyAfterArrival(Plain, c, a, events, m);
  }

  // A sweep after the arrival of x's connection.
  lemma RoundAfterArrival(t: seq<Slot>, x: Slot, a: Admission, newcomers: seq<Slot>, after: seq<Slot>,
                          events: seq<Event>, w: Answer)
    requires w == PollReport(w.activity, t, true) && w.activity >= 0
    requires newcomers == (if a.Seated? then [x] else []) && Swept(t + newcomers, after, events)
    ensures RoundOk(PollLoop, Conns(t), Round(w, [Arrive(x.c, a)] + events))
    ensures InOrder(t, newcomers, Round(w, [Arrive(x.c, a)] + events))
  {
    ConnsAfterSeating([], x);
    hide Tallies, RoundOk, Conns, Flagged, ServedOrder, SweepOrder, AfterSweep, Served, HungUp, Seats;
    assert [] + [x] == [x];
    var m := Tally(Served(events), HungUp(Plain, events), {}, 0);
    var all := [Arrive(x.c, a)] + events;
    ArrivalInFront(x.c, a, events, m);
    assert Conns([]) == {} by { ConnsCount([]); }
    if a.Seated? {
      RoundWithNewcomer(t, x, all, m.(seats := {x.c}, attempts := 1), w);
    } else {
      assert t + [] == t;
      RoundWithoutNewcomer(t, all, m.(attempts := 1), w);
    }
  }

  // ---------- a flag that outlives its client ----------

  /** Whenever the client in the last used entry is visited under its flag and hangs up, the flag
      stays behind: if the next poll lets somebody in, the newcomer sits under that old flag and
      is received from although this poll did not report it, whoever hangs up. */
  lemma StaleFlag(listener: int, s: Snapshot, v: Visit, t: seq<PollFd>, activity: int, fd: int, gone: set<Conn>)
    requires Inv(listener, s) && s.n >= 2 && s.table[s.n - 1].revents && HangsUp(Plain, v)
    requires |t| == |s.table|
    requires var s1 := Visited(s, s.n - 1, v);
      && (forall j :: 0 <= j < |t| ==> t[j].fd == s1.table[j].fd && t[j].events == s1.table[j].events)
      && (forall j :: s1.n <= j < |t| ==> t[j] == s1.table[j])
      && fd > 0 && fd !in s1.open && fd != listener
    ensures var s1 := Visited(s, s.n - 1, v);
      var s2 := Polled(s1, t, PollAnswer(activity, t, s1.n, listener, s1.open));
      var s3 := Admitted(s2, fd);
      && Inv(listener, s2) && Inv(listener, s3)
      && s2.next in SweepOrder(true, Table(s3), 0, gone) && s2.next !in Flagged(Table(s2))
  {
    hide View, Tracks, HangsUp, VisitCalls, Conns, Flagged, PollAnswer, SweepOrder;
    var s1 := Visited(s, s.n - 1, v);
    VisitedKeeps(listener, s, s.n - 1, v);
    PolledKeeps(listener, s1, t, activity);
    var s2 := Polled(s1, t, PollAnswer(activity, t, s1.n, listener, s1.open));
    AdmittedKeeps(listener, s2, fd);
    AdmittedShape(listener, s2, fd);
    NewcomerIsServed(Table(s2), Slot(s2.next, true), 0, gone);
    NextIsNew(listener, s2);
  }

  lemma NextIsNew(listener: int, s: Snapshot)
    requires Shape(listener, s)
    ensures s.next !in Conns(Table(s)) && s.next !in Flagged(Table(s))
  {
  }

  /** The table holds exactly the connections that the abstract machine has live. */
  lemma TableIsLive(listener: int, s: Snapshot)
    requires Inv(listener, s)
    ensures PollLoop.IsLegal(s.history) && PollLoop.After(s.history).live == Conns(Table(s))
    ensures s.calls == Calls(Plain, s.history)
  {
  }

  class PollServer {
    const kernel: Kernel
    const fds: array<PollFd>
    var nfds: nat
    // The events of the run so far.
    ghost var history: seq<Event>

    ghost function Now(): Snapshot
      reads this, kernel, fds
    {
      Snapshot(fds[..], nfds, kernel.open, kernel.next, kernel.calls, history)
    }

    ghost predicate Valid()
      reads this, kernel, fds
    {
      Inv(kernel.listener, Now())
    }

    constructor (kernel: Kernel)
      requires kernel.Valid() && kernel.open == map[] && kernel.next == 0 && kernel.calls == []
      ensures Valid() && history == [] && this.kernel == kernel && fresh(fds)
    {
      this.kernel := kernel;
      fds := new PollFd[MAX_CONNECTION](_ => PollFd(0, false, false));
      nfds := 1;
      history := [];
      new;
      fds[0] := PollFd(kernel.listener, true, false);
      assert Table(Now()) == [];
    }

    /** Accept one connection and seat it if there is room. */
    method AcceptClient() returns (ok: bool, ghost fd: int)
      requires Valid()
      modifies this`nfds, this`history, fds, kernel
      ensures Valid()
      ensures Now() == if ok then Admitted(old(Now()), fd) else FailedAccept(old(Now()))
      ensures ok ==> fd > 0 && fd !in old(kernel.open) && fd != kernel.listener
    {
      hide View, Tracks, Conns;
      ghost var s := Now();
      var sockClient := kernel.Accept();
      ok, fd := sockClient >= 0, sockClient;
      if ok {
        AdmittedKeeps(kernel.listener, s, fd);
        history := history + [Arrive(s.next, if nfds < MAX_CONNECTION then Seated else TurnedAway)];
        if nfds < MAX_CONNECTION {
          fds[nfds] := fds[nfds].(fd := sockClient, events := true);
          nfds := nfds + 1;
        }
        assert fds[..] == Admitted(s, fd).table;
      } else {
        history := history + [AcceptFailed];
        FailedAcceptKeeps(kernel.listener, s);
        assert Now() == FailedAccept(s);
      }
    }

    /** Close entry i's descriptor and move the last entry's into its place. */
    method DropClient(i: nat)
      requires 1 <= i < nfds <= fds.Length && kernel.Valid() && fds[i].fd in kernel.open
      modifies this`nfds, fds, kernel`open, kernel`calls, kernel`listenerCloses
      ensures nfds == old(nfds) - 1
      ensures fds[..] == old(fds[..])[i := old(fds[i]).(fd := old(fds[nfds - 1].fd))]
      ensures kernel.open == old(kernel.open) - {old(fds[i].fd)}
      ensures kernel.calls == old(kernel.calls) + [Close(old(kernel.open)[old(fds[i].fd)])]
    {
      kernel.Close(fds[i].fd);
      fds[i] := fds[i].(fd := fds[nfds - 1].fd);
      nfds := nfds - 1;
    }

    /** One visit to the client in entry i: it is received from, answered, and perhaps dropped. */
    method VisitClient(i: nat) returns (gone: bool, ghost visit: Visit)
      requires Valid()
      requires 1 <= i < nfds
      modifies this`nfds, this`history, fds, kernel`open, kernel`calls, kernel`listenerCloses
      ensures Valid()
      ensures gone == HangsUp(Plain, visit)
      ensures var c, data := old(kernel.open[fds[i].fd]), visit.data;
              var leaves := visit.received <= 0 || visit.sent <= 0 || data == "quit" || data == "exit"
                            || "quit\0" <= data || "exit\0" <= data;
              && kernel.calls == old(kernel.calls) + [Recv(c, visit.received, data)]
                 + (if visit.received > 0 then [Send(c, visit.sent)] else []) + (if leaves then [Close(c)] else [])
              && gone == leaves
      ensures Now() == Visited(old(Now()), i, visit)
      ensures nfds == if gone then old(nfds) - 1 else old(nfds)
    {
      hide CString, View, Tracks, Conns;
      ghost var s := Now();
      ghost var c := s.open[s.table[i].fd];
      gone := false;
      var received, request := kernel.Recv(fds[i].fd);
      visit := Visit(received, request, 0);
      if received <= 0 {
        gone := true;
      } else {
        var sent := kernel.Send(fds[i].fd);
        visit := visit.(sent := sent);
        if sent <= 0 {
          gone := true;
        }
        if CString(request) == "quit" || CString(request) == "exit" {
          gone := true;
        }
      }
      if gone {
        DropClient(i);
      }
      history := history + [Serve(c, visit)];
      PlainVisitMeans(s.calls, c, visit);
      hide VisitCalls, HangsUp;
      assert Now() == Visited(s, i, visit);
      VisitedKeeps(kernel.listener, s, i, visit);
    }

    /** The sweep over the table.  Every flagged client is received from exactly once, whatever
        clients are removed on the way. */
    method Sweep() returns (ghost events: seq<Event>)
      requires Valid()
      modifies this`nfds, this`history, fds, kernel
      ensures Valid()
      ensures history == old(history) + events
      ensures Swept(old(Table(Now())), Table(Now()), events)
    {
      hide Inv, Sweeping, Swept, Visited, HangsUp, Table;
      ghost var s0 := Now();
      ghost var m := Tally({}, {}, {}, 0);
      events := [];
      SweepStarts(kernel.listener, s0);
      EntryIsThere(kernel.listener, s0);
      var i := 1;
      while i >= 1 && i < nfds
        invariant 1 <= i && Valid() && nfds <= fds.Length
        invariant Sweeping(s0, Now(), i, events, m)
        decreases nfds - i
      {
        ghost var s := Now();
        if fds[i].revents {
          var gone, visit := VisitClient(i);
          ghost var e;
          e, m := SweepVisits(kernel.listener, s0, s, i, events, m, visit);
          events := events + [e];
          if gone {
            i := i - 1;
          }
        } else {
          SweepSkips(kernel.listener, s0, s, i, events, m);
        }
        i := i + 1;
        EntryIsThere(kernel.listener, Now());
      }
      SweepEnds(kernel.listener, s0, Now(), i, events, m);
    }

    /** Wait for readable descriptors among the used entries: flags change, clients do not. */
    method Poll() returns (activity: int, ghost w: Answer)
      requires Valid()
      modifies this`history, fds, kernel`calls
      ensures Valid()
      ensures Now() == Polled(old(Now()), fds[..], w) && w.activity == activity
      ensures Conns(Table(Now())) == old(Conns(Table(Now())))
      ensures w == if activity < 0 then Answer(activity, true, Conns(Table(Now())), false, {})
                   else PollReport(activity, Table(Now()), fds[0].revents)
    {
      hide View, Tracks, Conns, Flagged, PollAnswer;
      ghost var s := Now();
      activity := kernel.Poll(fds, nfds);
      w := PollAnswer(activity, fds[..], nfds, kernel.listener, kernel.open);
      history := history + [Waited(w)];
      assert Now() == Polled(s, fds[..], w);
      PolledKeeps(kernel.listener, s, fds[..], activity);
    }

    /** One iteration of the server loop. */
    method Iterate() returns (running: bool, ghost r: Round, ghost t: seq<Slot>, ghost newcomers: seq<Slot>)
      requires Valid()
      modifies this`nfds, this`history, fds, kernel
      ensures Valid()
      ensures history == old(history) + [Waited(r.answer)] + r.events
      ensures RoundOk(PollLoop, Conns(old(Table(Now()))), r)
      ensures running <==> !PollLoop.Stops(r.answer)
      ensures running && !Skipped(r) ==> InOrder(t, newcomers, r)
    {
      hide View, Tracks, Tallies, Conns, Flagged, RoundOk, Swept, InOrder, Skipped;
      newcomers := [];
      var activity, w := Poll();
      ghost var s1 := Now();
      t := Table(s1);
      running, r := activity >= 0, Round(w, []);
      if activity < 0 {
        EmptyRound(t, w);
        return;
      }
      if fds[0].revents {
        ghost var x := Slot(s1.next, nfds < MAX_CONNECTION && fds[nfds].revents);
        ghost var a := if nfds < MAX_CONNECTION then Seated else TurnedAway;
        var ok, fd := AcceptClient();
        if !ok {
          r := Round(w, [AcceptFailed]);
          SkippedRound(t, w);
          return;
        }
        newcomers := if a.Seated? then [x] else [];
        AdmittedShape(kernel.listener, s1, fd);
        assert Table(Now()) == t + newcomers;
        var events := Sweep();
        r := Round(w, [Arrive(s1.next, a)] + events);
        RoundAfterArrival(t, x, a, newcomers, Table(Now()), events, w);
      } else {
        var events := Sweep();
        r := Round(w, events);
        RoundOfSweep(t, Table(Now()), events, w);
      }
    }

    /** The server loop, for any number of iterations: it ends early when poll fails. */
    method RunServer(iterations: nat) returns (running: bool)
      requires Valid() && history == []
      modifies this`nfds, this`history, fds, kernel
      ensures Valid()
      ensures PollLoop.IsLegal(history) && kernel.calls == Calls(Plain, history)
      ensures RoundsOk(PollLoop, history) && ClearText(kernel.calls)
      ensures running <==> forall w :: w in Answers(kernel.calls) ==> w.activity >= 0
      ensures if running then |Split(history)| == iterations else 0 < |Split(history)| <= iterations
    {
      hide View, Tracks, Conns, RoundOk, RoundsOk, Running, Split, Answers, Calls, ClearText;
      running := true;
      NoRounds(PollLoop);
      for k := 0 to iterations
        invariant Valid() && running && |Split(history)| == k
        invariant RoundsOk(PollLoop, history) && Running(PollLoop, history)
      {
        TableIsLive(kernel.listener, Now());
        ghost var h := history;
        ghost var r, t, newcomers;
        running, r, t, newcomers := Iterate();
        ExtendRounds(PollLoop, h, r.answer, r.events);
        if !running {
          break;
        }
      }
      TableIsLive(kernel.listener, Now());
      RunningMeans(PollLoop, history);
      SpeaksClearText(CAPACITY, history);
    }
  }
}
