/** The TLS server: two parallel tables, poll entries and sessions, changed in place while they
    are being swept; a cleanup loop ends the run. */
module TlsServer {

  import opened Connections
  import opened Rounds
  import opened Sockets
  import opened Text
  import opened Sessions
  import opened Slots
  import opened PollTable
  import opened Patience
  import opened Dialogue

  const CAPACITY: nat := TlsLoop.Capacity()

  // The server's whole state.
  datatype Snapshot = Snapshot(
    table: seq<PollFd>, ssl: seq<Handle>, n: nat,
    open: map<int, Conn>, next: Conn, calls: seq<Call>,
    bound: map<SessionId, int>, created: nat, freed: seq<SessionId>,
    history: seq<Event>)

  /** Entry 0 is the listener and its session; the client entries are well formed; every entry's
      session belongs to its descriptor; no session has been lost or freed twice. */
  ghost predicate Shape(listener: int, s: Snapshot) {
    && |s.table| == MAX_CONNECTION
    && WellFormed(s.table, s.n, s.open)
    && s.table[0].fd == listener && s.table[0].events
    && KernelOk(listener, s.open, s.next)
    && Paired(s.table, s.ssl, s.n, s.bound)
    && LibraryOk(s.bound, s.created, s.freed)
  }

  ghost predicate Explained(s: Snapshot)
    requires WellFormed(s.table, s.n, s.open)
  {
    Tracks(Tls, CAPACITY, s.history, Conns(Table(s)), s.next, s.calls)
  }

  /** What holds between any two steps. */
  ghost predicate Inv(listener: int, s: Snapshot) {
    Shape(listener, s) && Explained(s)
  }

  ghost function Table(s: Snapshot): seq<Slot>
    requires WellFormed(s.table, s.n, s.open)
  {
    View(s.table, s.n, s.open)
  }

  // ---------- the steps ----------

  /** The newcomer on descriptor fd completed its handshake: it and a new session take the first
      unused entry. */
  ghost function SeatedOn(s: Snapshot, fd: int): Snapshot
    requires s.n < |s.table| == |s.ssl|
  {
    s.(table := s.table[s.n := s.table[s.n].(fd := fd, events := true)],
       ssl := s.ssl[s.n := Ssl(s.created)], n := s.n + 1,
       open := s.open[fd := s.next], next := s.next + 1,
       calls := s.calls + [Accept(s.next)] + [Handshake(s.next, true)],
       bound := s.bound[s.created := fd], created := s.created + 1,
       history := s.history + [Arrive(s.next, Seated)])
  }

  /** The handshake failed: the descriptor is closed again, the new session freed again. */
  ghost function RefusedOn(s: Snapshot): Snapshot
    requires s.n < |s.table|
  {
    s.(table := s.table[s.n := s.table[s.n].(fd := -1, events := true)],
       next := s.next + 1, calls := s.calls + [Accept(s.next)] + [Handshake(s.next, false)] + [Close(s.next)],
       created := s.created + 1, freed := s.freed + [s.created],
       history := s.history + [Arrive(s.next, Refused)])
  }

  /** The table was full: the descriptor stays open, outside the table. */
  ghost function AwayOn(s: Snapshot, fd: int): Snapshot {
    s.(open := s.open[fd := s.next], next := s.next + 1, calls := s.calls + [Accept(s.next)],
       history := s.history + [Arrive(s.next, TurnedAway)])
  }

  /** accept failed. */
  ghost function FailedAccept(s: Snapshot): Snapshot {
    s.(calls := s.calls + [AcceptError], history := s.history + [AcceptFailed])
  }

  /** After poll on the whole table, with t the table it left and w what it means. */
  ghost function Polled(s: Snapshot, t: seq<PollFd>, w: Answer): Snapshot {
    s.(table := t, calls := s.calls + [Wait(w)], history := s.history + [Waited(w)])
  }

  /** After a visit to the client in entry i: if it hung up, its descriptor is closed, its session
      freed, and the last entry's descriptor and session take its place, under its flag. */
  ghost function Visited(s: Snapshot, i: nat, v: Visit): Snapshot
    requires WellFormed(s.table, s.n, s.open) && 1 <= i < s.n
    requires Paired(s.table, s.ssl, s.n, s.bound)
  {
    var c := s.open[s.table[i].fd];
    var t := s.(calls := s.calls + VisitCalls(Tls, c, v), history := s.history + [Serve(c, v)]);
    if HangsUp(Tls, v) then
      var moved := s.table[i := s.table[i].(fd := s.table[s.n - 1].fd)];
      t.(table := moved[s.n - 1 := moved[s.n - 1].(fd := -1)],
         ssl := s.ssl[i := s.ssl[s.n - 1]][s.n - 1 := Null], n := s.n - 1,
         open := s.open - {s.table[i].fd},
         bound := s.bound - {s.ssl[i].id}, freed := s.freed + [s.ssl[i].id])
    else t
  }

  // ---------- each step keeps the invariant ----------

  lemma SeatedShape(listener: int, s: Snapshot, fd: int)
    requires Shape(listener, s) && s.n < MAX_CONNECTION
    requires fd > 0 && fd !in s.open && fd != listener
    ensures Shape(listener, SeatedOn(s, fd))
    ensures Table(SeatedOn(s, fd)) == Table(s) + [Slot(s.next, s.table[s.n].revents)]
  {
    hide View, InTable;
    var s' := SeatedOn(s, fd);
    OkAfterAccept(listener, s.open, s.next, fd);
    OkAfterNew(s.bound, s.created, s.freed, fd);
    ViewAfterSeating(s.table, s'.table, s.n, s.open, fd, s.next);
    PairedAfterSeating(s.table, s'.table, s.ssl, s.n, s.bound, s.created, fd);
  }

  lemma RefusedShape(listener: int, s: Snapshot)
    requires Shape(listener, s) && s.n < MAX_CONNECTION
    ensures Shape(listener, RefusedOn(s))
    ensures Table(RefusedOn(s)) == Table(s)
  {
    hide InTable;
    OkAfterNew(s.bound, s.created, s.freed, UNBOUND);
    OkAfterFree(s.bound[s.created := UNBOUND], s.created + 1, s.freed, s.created);
    assert s.bound[s.created := UNBOUND] - {s.created} == s.bound;
    PairedAfterRefusal(s.table, RefusedOn(s).table, s.ssl, s.n, s.bound);
  }

  lemma AwayShape(listener: int, s: Snapshot, fd: int)
    requires Shape(listener, s)
    requires fd > 0 && fd !in s.open && fd != listener
    ensures Shape(listener, AwayOn(s, fd))
    ensures Table(AwayOn(s, fd)) == Table(s)
  {
    hide View, InTable;
    OkAfterAccept(listener, s.open, s.next, fd);
    ViewWithoutSeating(s.table, s.n, s.open, fd, s.next);
  }

  lemma VisitedShape(listener: int, s: Snapshot, i: nat, v: Visit)
    requires Shape(listener, s) && 1 <= i < s.n
    ensures Shape(listener, Visited(s, i, v))
    ensures Table(Visited(s, i, v)) == if HangsUp(Tls, v) then SwapRemove(Table(s), i - 1) else Table(s)
  {
    hide View, InTable, HangsUp, VisitCalls, SwapRemove;
    if HangsUp(Tls, v) {
      var s' := Visited(s, i, v);
      OkAfterClose(listener, s.open, s.next, s.table[i].fd);
      OkAfterFree(s.bound, s.created, s.freed, s.ssl[i].id);
      ViewAfterRemoval(s.table, s'.table, s.n, s.open, i);
      PairedAfterRemoval(s.table, s'.table, s.ssl, s'.ssl, s.n, s.bound, i);
    }
  }

  // What the machine needs to know about an arrival: whether there was room.
  lemma ArrivalExplained(s: Snapshot, a: Admission)
    requires WellFormed(s.table, s.n, s.open) && Injective(s.open) && Explained(s)
    requires a.TurnedAway? <==> s.n >= MAX_CONNECTION
    ensures Tracks(Tls, CAPACITY, s.history + [Arrive(s.next, a)],
                   if a.Seated? then Conns(Table(s)) + {s.next} else Conns(Table(s)), s.next + 1,
                   s.calls + ArrivalCalls(Tls, s.next, a))
  {
    hide View, Tracks;
    ViewDistinct(s.table, s.n, s.open);
    ConnsCount(Table(s));
    hide Conns;
    TrackArrival(Tls, CAPACITY, s.history, Conns(Table(s)), s.next, s.calls, a);
  }

  lemma CallsOfArrival(calls: seq<Call>, c: Conn)
    ensures calls + ArrivalCalls(Tls, c, Seated) == calls + [Accept(c)] + [Handshake(c, true)]
    ensures calls + ArrivalCalls(Tls, c, Refused) == calls + [Accept(c)] + [Handshake(c, false)] + [Close(c)]
    ensures calls + ArrivalCalls(Tls, c, TurnedAway) == calls + [Accept(c)]
  {
  }

  lemma SeatedKeeps(listener: int, s: Snapshot, fd: int)
    requires Inv(listener, s) && s.n < MAX_CONNECTION
    requires fd > 0 && fd !in s.open && fd != listener
    ensures Inv(listener, SeatedOn(s, fd))
  {
    hide View, Tracks, Conns, InTable, ArrivalCalls;
    SeatedShape(listener, s, fd);
    ArrivalExplained(s, Seated);
    CallsOfArrival(s.calls, s.next);
    ConnsAfterSeating(Table(s), Slot(s.next, s.table[s.n].revents));
  }

  lemma RefusedKeeps(listener: int, s: Snapshot)
    requires Inv(listener, s) && s.n < MAX_CONNECTION
    ensures Inv(listener, RefusedOn(s))
  {
    hide View, Tracks, Conns, InTable, ArrivalCalls;
    RefusedShape(listener, s);
    ArrivalExplained(s, Refused);
    CallsOfArrival(s.calls, s.next);
  }

  lemma AwayKeeps(listener: int, s: Snapshot, fd: int)
    requires Inv(listener, s) && s.n == MAX_CONNECTION
    requires fd > 0 && fd !in s.open && fd != listener
    ensures Inv(listener, AwayOn(s, fd))
  {
    hide View, Tracks, Conns, InTable, ArrivalCalls;
    AwayShape(listener, s, fd);
    ArrivalExplained(s, TurnedAway);
    CallsOfArrival(s.calls, s.next);
  }

  lemma VisitedExplained(listener: int, s: Snapshot, i: nat, v: Visit)
    requires Inv(listener, s) && 1 <= i < s.n
    requires Shape(listener, Visited(s, i, v))
    ensures Explained(Visited(s, i, v))
  {
    hide View, Tracks, HangsUp, InTable, VisitCalls;
    VisitedShape(listener, s, i, v);
    assert Table(s)[i - 1] in Table(s);
    ViewDistinct(s.table, s.n, s.open);
    SwapRemoveConns(Table(s), i - 1);
    TrackVisit(Tls, CAPACITY, s.history, Conns(Table(s)), s.next, s.calls, s.open[s.table[i].fd], v);
  }

  lemma VisitedKeeps(listener: int, s: Snapshot, i: nat, v: Visit)
    requires Inv(listener, s) && 1 <= i < s.n
    ensures Inv(listener, Visited(s, i, v))
  {
    hide View, Tracks, Conns, InTable;
    VisitedShape(listener, s, i, v);
    VisitedExplained(listener, s, i, v);
  }

  /** A newcomer on descriptor fd, with the given outcome. */
  ghost function ArrivedOn(s: Snapshot, fd: int, a: Admission): Snapshot
    requires |s.table| == |s.ssl| && (a.TurnedAway? <==> s.n >= |s.table|)
  {
    match a
    case Seated => SeatedOn(s, fd)
    case Refused => RefusedOn(s)
    case TurnedAway => AwayOn(s, fd)
  }

  lemma ArrivedKeeps(listener: int, s: Snapshot, fd: int, a: Admission)
    requires Inv(listener, s) && (a.TurnedAway? <==> s.n >= MAX_CONNECTION)
    requires fd > 0 && fd !in s.open && fd != listener
    ensures Inv(listener, ArrivedOn(s, fd, a))
    ensures Table(ArrivedOn(s, fd, a)) ==
            if a.Seated? then Table(s) + [Slot(s.next, s.table[s.n].revents)] else Table(s)
  {
    hide View, Tracks, InTable, Conns;
    match a {
      case Seated =>
        SeatedShape(listener, s, fd);
        SeatedKeeps(listener, s, fd);
      case Refused =>
        RefusedShape(listener, s);
        RefusedKeeps(listener, s);
      case TurnedAway =>
        AwayShape(listener, s, fd);
        AwayKeeps(listener, s, fd);
    }
  }

  lemma FailedAcceptKeeps(listener: int, s: Snapshot)
    requires Inv(listener, s)
    ensures Inv(listener, FailedAccept(s))
  {
    hide View, Tracks, Conns, InTable;
    TrackFailure(Tls, CAPACITY, s.history, Conns(Table(s)), s.next, s.calls);
  }

  /** Poll changes flags, not clients, and asks about the listener and all of them; the unused
      entries hold no descriptor. */
  lemma PolledKeeps(listener: int, s: Snapshot, t: seq<PollFd>, activity: int)
    requires Inv(listener, s) && |t| == |s.table|
    requires forall j :: 0 <= j < |t| ==> t[j].fd == s.table[j].fd && t[j].events == s.table[j].events
    ensures var w := PollAnswer(activity, t, MAX_CONNECTION, listener, s.open);
            var s' := Polled(s, t, w);
            && Inv(listener, s') && Conns(Table(s')) == Conns(Table(s)) && SameClients(Table(s), Table(s'))
            && w == if activity < 0 then Answer(activity, true, Conns(Table(s)), false, {})
                    else Answer(activity, true, Conns(Table(s)), t[0].revents, Flagged(Table(s')))
  {
    hide View, Tracks, Conns, Flagged, PollAnswer, InTable, LibraryOk;
    ViewAfterPoll(s.table, t, s.n, s.open);
    PairedAfterPoll(s.table, t, s.ssl, s.n, s.bound);
    PollMeans(activity, t, s.n, MAX_CONNECTION, listener, s.open);
    var w := PollAnswer(activity, t, MAX_CONNECTION, listener, s.open);
    FlaggedAreThere(View(t, s.n, s.open));
    TrackWait(Tls, CAPACITY, s.history, Conns(Table(s)), s.next, s.calls, w);
  }

  // ---------- the sweep ----------

  /** The newcomers that the listener's entry let in stand behind the table t0, without flags, and
      there is room for them. */
  ghost predicate LetIn(t0: seq<Slot>, newcomers: seq<Slot>, seats: set<Conn>) {
    && |t0 + newcomers| < MAX_CONNECTION
    && Distinct(t0 + newcomers) && |newcomers| <= 1 && Conns(newcomers) == seats
    && Flagged(t0 + newcomers) == Flagged(t0)
  }

  /** The state of a sweep that started in s0, has made these events and is now at entry i of s.
      Nothing happens before the listener's entry 0 has been looked at. */
  ghost predicate Sweeping(s0: Snapshot, newcomers: seq<Slot>, s: Snapshot, i: nat, events: seq<Event>, m: Tally,
                           late: set<Conn>)
  {
    && WellFormed(s0.table, s0.n, s0.open) && WellFormed(s.table, s.n, s.open)
    && s.history == s0.history + events
    && Tallies(Tls, events, m)
    && if i == 0 then s == s0 && events == [] && m == Tally({}, {}, {}, 0)
       else
         var t := Table(s0) + newcomers;
         && m.attempts == (if s0.table[0].revents then 1 else 0) && LetIn(Table(s0), newcomers, m.seats)
         && TlsSweeping(t, Table(s), i - 1, m.served, m.hungUp, late)
         && Ordered(false, t, Table(s), i - 1, ServedOrder(events), m.served, m.hungUp)
  }

  lemma SweepStarts(listener: int, s: Snapshot)
    requires Inv(listener, s)
    ensures Sweeping(s, [], s, 0, [], Tally({}, {}, {}, 0), {})
  {
    TallyStarts(Tls);
  }

  // The sweep proper begins behind the listener's entry.
  lemma ListenerDone(s0: Snapshot, newcomers: seq<Slot>, s: Snapshot, events: seq<Event>, m: Tally)
    requires WellFormed(s0.table, s0.n, s0.open) && WellFormed(s.table, s.n, s.open)
    requires s.history == s0.history + events && Tallies(Tls, events, m) && ServedOrder(events) == []
    requires m == Tally({}, {}, m.seats, if s0.table[0].revents then 1 else 0)
    requires LetIn(Table(s0), newcomers, m.seats) && Table(s) == Table(s0) + newcomers
    ensures Sweeping(s0, newcomers, s, 1, events, m, {})
  {
    hide View, Tallies, LetIn, ServedOrder;
    TlsSweepStarts(Table(s));
    OrderStarts(false, Table(s));
    hide TlsSweeping, Ordered;
  }

  // What the listener's entry did to the tally.
  lemma FailureTally()
    ensures Tallies(Tls, [AcceptFailed], Tally({}, {}, {}, 1)) && ServedOrder([AcceptFailed]) == []
  {
    TallyStarts(Tls);
    assert [AcceptFailed][..0] == [];
    hide Tallies;
    TallyFailure(Tls, [], Tally({}, {}, {}, 0));
    assert [] + [AcceptFailed] == [AcceptFailed];
  }

  lemma ArrivalTally(c: Conn, a: Admission)
    ensures Tallies(Tls, [Arrive(c, a)], Tally({}, {}, if a.Seated? then {c} else {}, 1))
    ensures ServedOrder([Arrive(c, a)]) == []
  {
    TallyStarts(Tls);
    assert [Arrive(c, a)][..0] == [];
    hide Tallies;
    TallyArrival(Tls, [], Tally({}, {}, {}, 0), c, a);
    assert [] + [Arrive(c, a)] == [Arrive(c, a)] && {} + {c} == {c};
  }

  lemma ListenerPasses(listener: int, s: Snapshot, newcomers: seq<Slot>, events: seq<Event>, m: Tally, late: set<Conn>)
    requires Inv(listener, s) && Sweeping(s, newcomers, s, 0, events, m, late) && !s.table[0].revents
    ensures Sweeping(s, [], s, 1, events, m, {})
  {
    assert ServedOrder([]) == [];
    hide View, Tracks, InTable, Tallies, TlsSweeping, Ordered, LetIn, LibraryOk, ServedOrder;
    NobodyCame(listener, s);
    ListenerDone(s, [], s, events, m);
  }

  lemma NobodyCame(listener: int, s: Snapshot)
    requires Shape(listener, s)
    ensures Table(s) + [] == Table(s) && LetIn(Table(s), [], {})
  {
    ViewDistinct(s.table, s.n, s.open);
    assert Table(s) + [] == Table(s);
  }

  lemma ListenerFails(listener: int, s: Snapshot)
    requires Inv(listener, s) && s.table[0].revents
    ensures Sweeping(s, [], FailedAccept(s), 1, [AcceptFailed], Tally({}, {}, {}, 1), {})
  {
    hide View, Tracks, InTable, Tallies, LetIn, LibraryOk, ServedOrder, Sweeping;
    FailureTally();
    NobodyCame(listener, s);
    ListenerDone(s, [], FailedAccept(s), [AcceptFailed], Tally({}, {}, {}, 1));
  }

  // The newcomers of an arrival that led from s to s'.
  ghost predicate CameAs(s: Snapshot, s': Snapshot, newcomers: seq<Slot>, seats: set<Conn>) {
    && WellFormed(s.table, s.n, s.open) && WellFormed(s'.table, s'.n, s'.open)
    && Table(s') == Table(s) + newcomers && LetIn(Table(s), newcomers, seats)
  }

  // The table behind an arrival, whatever came of it.
  lemma SomebodyCame(listener: int, s: Snapshot, fd: int, a: Admission) returns (newcomers: seq<Slot>)
    requires Inv(listener, s) && (a.TurnedAway? <==> s.n >= MAX_CONNECTION)
    requires fd > 0 && fd !in s.open && fd != listener
    requires s.n < |s.table| ==> !s.table[s.n].revents
    ensures CameAs(s, ArrivedOn(s, fd, a), newcomers, if a.Seated? then {s.next} else {})
  {
    hide View, Tracks, InTable, Flagged, Conns, LibraryOk;
    ArrivedKeeps(listener, s, fd, a);
    TableDistinct(listener, ArrivedOn(s, fd, a));
    NobodyCame(listener, s);
    hide Paired, KernelOk, SeatedOn, RefusedOn, AwayOn;
    if a.Seated? {
      newcomers := [Slot(s.next, false)];
      NewcomerUnflagged(Table(s), s.next);
    } else {
      newcomers := [];
    }
  }

  lemma NewcomerUnflagged(t: seq<Slot>, c: Conn)
    requires Distinct(t + [Slot(c, false)]) && |t + [Slot(c, false)]| < MAX_CONNECTION
    ensures LetIn(t, [Slot(c, false)], {c})
  {
    FlaggedAfterUnflagged(t, Slot(c, false));
    ConnsAfterSeating([], Slot(c, false));
    assert [] + [Slot(c, false)] == [Slot(c, false)];
    assert Conns([]) == {} by { ConnsCount([]); }
  }

  lemma TableDistinct(listener: int, s: Snapshot)
    requires Inv(listener, s)
    ensures WellFormed(s.table, s.n, s.open) && Distinct(Table(s))
  {
    ViewDistinct(s.table, s.n, s.open);
  }

  lemma ListenerAccepts(listener: int, s: Snapshot, fd: int, a: Admission)
    returns (newcomers: seq<Slot>, m: Tally)
    requires Inv(listener, s) && (a.TurnedAway? <==> s.n >= MAX_CONNECTION) && s.table[0].revents
    requires fd > 0 && fd !in s.open && fd != listener
    requires s.n < |s.table| ==> !s.table[s.n].revents
    ensures Sweeping(s, newcomers, ArrivedOn(s, fd, a), 1, [Arrive(s.next, a)], m, {})
  {
    hide View, Tracks, InTable, Tallies, LetIn, LibraryOk, ServedOrder, Sweeping;
    m := Tally({}, {}, if a.Seated? then {s.next} else {}, 1);
    ArrivalTally(s.next, a);
    ArrivedKeeps(listener, s, fd, a);
    newcomers := SomebodyCame(listener, s, fd, a);
    ListenerDone(s, newcomers, ArrivedOn(s, fd, a), [Arrive(s.next, a)], m);
  }

  lemma SweepSkips(listener: int, s0: Snapshot, newcomers: seq<Slot>, s: Snapshot, i: nat, events: seq<Event>,
                   m: Tally, late: set<Conn>)
    requires Inv(listener, s)
    requires Sweeping(s0, newcomers, s, i, events, m, late) && 1 <= i < s.n && !s.table[i].revents
    ensures Sweeping(s0, newcomers, s, i + 1, events, m, late)
  {
    hide View, Tracks, Tallies, InTable, Flagged, Conns, TlsSweeping, Ordered;
    TlsSweepSkips(Table(s0) + newcomers, Table(s), i - 1, m.served, m.hungUp, late);
    OrderedSkips(false, Table(s0) + newcomers, Table(s), i - 1, ServedOrder(events), m.served, m.hungUp);
  }

  // The parts of SweepVisits that are about the table.
  lemma VisitMovesSweep(t0: seq<Slot>, t: seq<Slot>, k: nat, m: Tally, late: set<Conn>, gone: bool)
    returns (late': set<Conn>)
    requires Distinct(t0) && Distinct(t) && k < |t| && t[k].flag && TlsSweeping(t0, t, k, m.served, m.hungUp, late)
    ensures t[k].c !in m.served
    ensures if gone then TlsSweeping(t0, SwapRemove(t, k), k + 1, m.served + {t[k].c}, m.hungUp + {t[k].c}, late')
            else TlsSweeping(t0, t, k + 1, m.served + {t[k].c}, m.hungUp, late')
  {
    hide TlsSweeping;
    late' := late;
    if gone {
      late' := TlsSweepLoses(t0, t, k, m.served, m.hungUp, late);
    } else {
      TlsSweepKeeps(t0, t, k, m.served, m.hungUp, late);
    }
  }

  lemma VisitMovesOrder(t0: seq<Slot>, t: seq<Slot>, k: nat, events: seq<Event>, m: Tally, v: Visit)
    requires k < |t| && t[k].flag && t[k].c !in m.served && m.hungUp <= m.served
    requires Ordered(false, t0, t, k, ServedOrder(events), m.served, m.hungUp)
    ensures var order := ServedOrder(events + [Serve(t[k].c, v)]);
      if HangsUp(Tls, v) then
        Ordered(false, t0, SwapRemove(t, k), k + 1, order, m.served + {t[k].c}, m.hungUp + {t[k].c})
      else Ordered(false, t0, t, k + 1, order, m.served + {t[k].c}, m.hungUp)
  {
    hide Ordered, ServedOrder, HangsUp;
    ExtendOrder(events, t[k].c, v);
    OrderedVisits(false, t0, t, k, ServedOrder(events), m.served, m.hungUp, HangsUp(Tls, v));
  }

  // What the sweep needs to know about a visit to c in entry i, which led from s to s'.
  ghost predicate VisitedAs(s: Snapshot, s': Snapshot, i: nat, c: Conn, v: Visit) {
    && WellFormed(s.table, s.n, s.open) && WellFormed(s'.table, s'.n, s'.open)
    && s'.history == s.history + [Serve(c, v)] && Distinct(Table(s)) && 1 <= i < s.n
    && Table(s)[i - 1] == Slot(c, s.table[i].revents)
    && Table(s') == if HangsUp(Tls, v) then SwapRemove(Table(s), i - 1) else Table(s)
  }

  lemma VisitMeans(listener: int, s: Snapshot, i: nat, v: Visit) returns (c: Conn)
    requires Inv(listener, s) && 1 <= i < s.n
    ensures VisitedAs(s, Visited(s, i, v), i, c, v)
  {
    hide View, Tracks, HangsUp, VisitCalls, InTable, SwapRemove, LibraryOk;
    c := s.open[s.table[i].fd];
    VisitedShape(listener, s, i, v);
    ViewDistinct(s.table, s.n, s.open);
  }

  lemma SweepVisits(s0: Snapshot, newcomers: seq<Slot>, s: Snapshot, s': Snapshot, i: nat, events: seq<Event>,
                    m: Tally, late: set<Conn>, c: Conn, v: Visit)
    returns (m': Tally, late': set<Conn>)
    requires VisitedAs(s, s', i, c, v) && s.table[i].revents
    requires Sweeping(s0, newcomers, s, i, events, m, late)
    ensures Sweeping(s0, newcomers, s', i + 1, events + [Serve(c, v)], m', late')
  {
    hide View, HangsUp, Tallies, Conns, Flagged, TlsSweeping, Ordered, ServedOrder, SwapRemove, Distinct;
    var t := Table(s0) + newcomers;
    m' := m.(served := m.served + {c}, hungUp := if HangsUp(Tls, v) then m.hungUp + {c} else m.hungUp);
    late' := VisitMovesSweep(t, Table(s), i - 1, m, late, HangsUp(Tls, v));
    HungUpWereServed(events, m);
    VisitMovesOrder(t, Table(s), i - 1, events, m, v);
    TallyVisit(Tls, events, m, c, v);
  }

  lemma HungUpWereServed(events: seq<Event>, m: Tally)
    requires Tallies(Tls, events, m)
    ensures m.hungUp <= m.served
    ensures m.served == Served(events) && m.hungUp == HungUp(Tls, events)
  {
  }

  /** What a sweep has done that started over t, let these newcomers in, and left the table after.
      Only flagged clients were read from, and each once; the order is that of SweepOrder; every
      flagged client that was not read from has been moved back behind the sweep, and there is at
      most one such client for each client removed.  The table left is that of AfterSweep. */
  ghost predicate Swept(t: seq<Slot>, newcomers: seq<Slot>, after: seq<Slot>, listener: bool, events: seq<Event>) {
    var served, hung := Served(events), HungUp(Tls, events);
    && Tallies(Tls, events, Tally(served, hung, Conns(newcomers), if listener then 1 else 0))
    && LetIn(t, newcomers, Conns(newcomers))
    && served <= Flagged(t) && |Flagged(t) - served| <= |hung|
    && ServedOrder(events) == SweepOrder(false, t + newcomers, 0, hung)
    && after == AfterSweep(false, t + newcomers, 0, hung)
    && (forall c :: c in Flagged(t) && c !in served ==> MovedBack(t + newcomers, after, |after|, hung, c))
  }

  lemma SweepEnds(listener: int, s0: Snapshot, newcomers: seq<Slot>, s: Snapshot, i: nat, events: seq<Event>,
                  m: Tally, late: set<Conn>)
    requires Inv(listener, s0) && Inv(listener, s)
    requires Sweeping(s0, newcomers, s, i, events, m, late) && i >= s.n
    ensures s.history == s0.history + events
    ensures Swept(Table(s0), newcomers, Table(s), s0.table[0].revents, events)
  {
    hide View, Tracks, Tallies, Ordered, ServedOrder, HungUp, Served, SweepOrder, TlsSweeping, InTable, LibraryOk;
    hide Conns, Flagged, MovedBack, Distinct, AfterSweep;
    HungUpWereServed(events, m);
    var t := Table(s0) + newcomers;
    TlsSweepEnds(t, Table(s), i - 1, m.served, m.hungUp, late);
    OrderEnds(false, t, Table(s), i - 1, ServedOrder(events), m.served, m.hungUp);
  }

  lemma SweepMakesRound(t: seq<Slot>, newcomers: seq<Slot>, after: seq<Slot>, events: seq<Event>, w: Answer)
    requires Swept(t, newcomers, after, w.listener, events)
    requires w == Answer(w.activity, true, Conns(t), w.listener, Flagged(t)) && w.activity > 0
    ensures RoundOk(TlsLoop, Conns(t), Round(w, events))
  {
    hide Conns, Flagged, MovedBack, SweepOrder, LetIn, Served, HungUp;
    FlaggedAreThere(t);
  }

  lemma EmptyRound(t: seq<Slot>, w: Answer)
    requires w.activity <= 0 && w == Answer(w.activity, true, Conns(t), false, {})
    ensures RoundOk(TlsLoop, Conns(t), Round(w, []))
  {
  }

  lemma EntryIsThere(listener: int, s: Snapshot)
    requires Inv(listener, s)
    ensures 1 <= s.n <= |s.table| == MAX_CONNECTION && s.table[0].fd == listener
    ensures forall j :: 1 <= j < s.n ==> s.table[j].fd != listener
  {
  }

  lemma NoneFlagged(listener: int, s: Snapshot)
    requires Inv(listener, s) && forall j :: 0 <= j < s.n ==> !s.table[j].revents
    ensures Flagged(Table(s)) == {}
  {
  }

  // ---------- cleanup ----------

  ghost predicate AheadOf(ssl: seq<Handle>, i: nat, n: nat, id: SessionId) {
    exists j :: i <= j < n <= |ssl| && ssl[j] == Ssl(id)
  }

  // The clients in entries max(i, 1) to n-1.
  ghost function ClientsFrom(t: seq<Slot>, i: nat): set<Conn> {
    Conns(t[if i == 0 then 0 else if i > |t| then |t| else i - 1..])
  }

  // The sessions of entries i to n-1 are the ones still alive.
  ghost predicate SessionsLeft(s0: Snapshot, ssl: seq<Handle>, bound: map<SessionId, int>, created: nat,
                               freed: seq<SessionId>, i: nat)
  {
    && |ssl| == |s0.ssl| && created == s0.created
    && LibraryOk(bound, created, freed)
    && (forall j :: i <= j < |ssl| ==> ssl[j] == s0.ssl[j])
    && (forall j :: i <= j < s0.n && j < |ssl| ==> ssl[j].Ssl? && ssl[j].id in bound)
    && (forall id :: id in bound ==> AheadOf(s0.ssl, i, s0.n, id))
  }

  // The clients of entries i to n-1 are the ones still open.
  ghost predicate ClientsLeft(listener: int, s0: Snapshot, t: seq<PollFd>, n: nat, open: map<int, Conn>, next: nat,
                              calls: seq<Call>, history: seq<Event>, i: nat)
    requires WellFormed(s0.table, s0.n, s0.open)
  {
    && t == s0.table && n == s0.n
    && KernelOk(listener, open, next)
    && (forall j :: 1 <= j < n && i <= j ==> t[j].fd in open && open[t[j].fd] == s0.open[t[j].fd])
    && Tracks(Tls, CAPACITY, history, ClientsFrom(Table(s0), i), next, calls)
  }

  lemma CleanupStarts(listener: int, s: Snapshot)
    requires Inv(listener, s)
    ensures SessionsLeft(s, s.ssl, s.bound, s.created, s.freed, 0)
    ensures ClientsLeft(listener, s, s.table, s.n, s.open, s.next, s.calls, s.history, 0)
  {
    assert Table(s)[0..] == Table(s);
    forall id | id in s.bound ensures AheadOf(s.ssl, 0, s.n, id) {
      assert InTable(s.ssl, s.n, id);
    }
  }

  lemma CloseKeeps(listener: int, s0: Snapshot, open: map<int, Conn>, next: nat, calls: seq<Call>,
                   history: seq<Event>, i: nat)
    requires Inv(listener, s0) && 1 <= i < s0.n
    requires ClientsLeft(listener, s0, s0.table, s0.n, open, next, calls, history, i)
    ensures var fd := s0.table[i].fd;
            ClientsLeft(listener, s0, s0.table, s0.n, open - {fd}, next, calls + [Close(open[fd])],
                        history + [Evict(open[fd])], i + 1)
  {
    hide View, Tracks, InTable;
    var t, fd := Table(s0), s0.table[i].fd;
    var c := open[fd];
    assert t[i - 1].c == c;
    ViewDistinct(s0.table, s0.n, s0.open);
    RestOfConns(t, i - 1);
    TrackEviction(Tls, CAPACITY, history, ClientsFrom(t, i), next, calls, c);
    OkAfterClose(listener, open, next, fd);
  }

  lemma NothingToClose(listener: int, s0: Snapshot, open: map<int, Conn>, next: nat, calls: seq<Call>,
                       history: seq<Event>, i: nat)
    requires Inv(listener, s0) && (i == 0 || i >= s0.n)
    requires ClientsLeft(listener, s0, s0.table, s0.n, open, next, calls, history, i)
    ensures ClientsLeft(listener, s0, s0.table, s0.n, open, next, calls, history, i + 1)
  {
    hide View, Tracks, InTable;
    var t := Table(s0);
    if i > 0 {
      assert t[|t|..] == [];
    }
  }

  lemma FreeKeeps(s0: Snapshot, ssl: seq<Handle>, bound: map<SessionId, int>, created: nat, freed: seq<SessionId>,
                  i: nat)
    requires SessionsLeft(s0, ssl, bound, created, freed, i) && i < s0.n <= |s0.ssl|
    requires forall j, k :: 0 <= j < k < s0.n ==> s0.ssl[j] != s0.ssl[k]
    ensures SessionsLeft(s0, ssl[i := Null], bound - {ssl[i].id}, created, freed + [ssl[i].id], i + 1)
  {
    OkAfterFree(bound, created, freed, ssl[i].id);
    forall id | id in bound && id != ssl[i].id ensures AheadOf(s0.ssl, i + 1, s0.n, id) {
      var j :| i <= j < s0.n && s0.ssl[j] == Ssl(id);
      assert j != i;
    }
  }

  lemma NothingToFree(s0: Snapshot, ssl: seq<Handle>, bound: map<SessionId, int>, created: nat,
                      freed: seq<SessionId>, i: nat)
    requires SessionsLeft(s0, ssl, bound, created, freed, i) && i >= s0.n
    ensures SessionsLeft(s0, ssl, bound, created, freed, i + 1)
  {
    forall id | id in bound ensures AheadOf(s0.ssl, i + 1, s0.n, id) {
      assert AheadOf(s0.ssl, i, s0.n, id);
    }
  }

  lemma SessionsGone(s0: Snapshot, ssl: seq<Handle>, bound: map<SessionId, int>, created: nat,
                     freed: seq<SessionId>, i: nat)
    requires SessionsLeft(s0, ssl, bound, created, freed, i) && i >= s0.n
    ensures bound == map[] && AllFreedOnce(created, freed)
  {
    assert forall id :: id in bound ==> AheadOf(s0.ssl, i, s0.n, id);
    assert bound == map[];
  }

  lemma ClientsGone(listener: int, s0: Snapshot, s: Snapshot, i: nat)
    requires WellFormed(s0.table, s0.n, s0.open) && i >= s0.n
    requires ClientsLeft(listener, s0, s.table, s.n, s.open, s.next, s.calls, s.history, i)
    ensures TlsLoop.IsLegal(s.history) && TlsLoop.After(s.history).live == {}
    ensures s.calls == Calls(Tls, s.history)
  {
    var t := Table(s0);
    assert t[|t|..] == [] && Conns([]) == {};
  }

  /** After a run that ended in cleanup, at the level of system calls: every connection ever
      accepted has been closed exactly once, except those turned away at a full table, which are
      never closed. */
  lemma EveryClientClosedOnce(history: seq<Event>, c: Conn)
    requires TlsLoop.IsLegal(history) && TlsLoop.After(history).live == {}
    requires c < TlsLoop.After(history).next
    ensures Count(Calls(Tls, history), Close(c)) == if c in TlsLoop.After(history).away then 0 else 1
  {
    AcceptedAndClosedOnce(Tls, CAPACITY, history, c);
    Conservation(Tls, CAPACITY, history);
  }

  // An iteration that went on, over the tables that poll and the sweep left.
  lemma PatientRound(h: seq<Event>, s: seq<Slot>, t: seq<Slot>, newcomers: seq<Slot>, after: seq<Slot>, r: Round)
    requires TlsLoop.IsLegal(h + [Waited(r.answer)] + r.events) && RoundOk(TlsLoop, TlsLoop.After(h).live, r)
    requires Conns(t) == r.answer.watched && Flagged(t) == r.answer.reported
    requires SameClients(s, t) && Swept(t, newcomers, after, r.answer.listener, r.events) && Distinct(after)
    requires Patient(s, TlsLoop.After(h).next, Split(h))
    ensures Patient(after, TlsLoop.After(h + [Waited(r.answer)] + r.events).next, Split(h) + [r])
    ensures NobodyPutOffTooOften(Split(h) + [r])
  {
    var h', hung := h + [Waited(r.answer)] + r.events, HungUp(Tls, r.events);
    SweptFacts(t, newcomers, after, r.answer.listener, r.events);
    SeatsAreNew(TlsLoop, h, r);
    FlaggedAreThere(t);
    assert Conns(t) == TlsLoop.After(h).live;
    hide RoundOk, Swept, SweepOrder, AfterSweep, Split, Run, Legal, MovedBack, NotRaised, Distinct, SameClients;
    hide HungUp, Served, Seats;
    assert forall x :: x in newcomers ==> x.c in Conns(newcomers);
    assert forall c :: PutOff(r, c) ==> MovedBack(t + newcomers, after, |after|, hung, c);
    PatientStep(s, TlsLoop.After(h).next, Split(h), t, newcomers, after, TlsLoop.After(h').next, r, hung);
  }

  // The last iteration, in which poll reported nobody.
  lemma PatientEnd(h: seq<Event>, s: seq<Slot>, r: Round)
    requires TlsLoop.Stops(r.answer) && RoundOk(TlsLoop, TlsLoop.After(h).live, r)
    requires Patient(s, TlsLoop.After(h).next, Split(h))
    ensures NobodyPutOffTooOften(Split(h) + [r])
  {
    assert Served([]) == {} && HungUp(Tls, []) == {};
    assert r.answer.reported - {} == r.answer.reported;
    hide Split, Run, Patient;
    PatientPause(s, TlsLoop.After(h).next, Split(h), r);
  }

  lemma StartsPatient(s: seq<Slot>, next: nat)
    requires |s| <= PATIENCE + 1
    ensures Patient(s, next, [])
  {
  }

  lemma SweptFacts(t: seq<Slot>, newcomers: seq<Slot>, after: seq<Slot>, listener: bool, events: seq<Event>)
    requires Swept(t, newcomers, after, listener, events)
    ensures Distinct(t + newcomers) && |t + newcomers| < MAX_CONNECTION && Conns(newcomers) == Seats(events)
    ensures NotRaised(t + newcomers, after)
    ensures forall c :: c in Flagged(t) && c !in Served(events) ==>
      MovedBack(t + newcomers, after, |after|, HungUp(Tls, events), c)
  {
    hide SweepOrder, AfterSweep, Served, HungUp, Seats, MovedBack, Distinct, ServedOrder, InSweep, ServedOnce, Attempts;
    var s := t + newcomers;
    assert forall i :: 0 <= i < |s| ==> AtOrAfter(s, i, s[i].c);
    SweepNeverRaises(false, s, s, 0, HungUp(Tls, events));
  }

  /** The table holds exactly the connections that the abstract machine has live. */
  lemma TableIsLive(listener: int, s: Snapshot)
    requires Inv(listener, s)
    ensures TlsLoop.IsLegal(s.history) && TlsLoop.After(s.history).live == Conns(Table(s))
    ensures TlsLoop.After(s.history).next == s.next
    ensures s.calls == Calls(Tls, s.history)
  {
  }

  lemma StartIsValid(listener: int, s: Snapshot)
    requires listener > 0 && |s.table| == |s.ssl| == MAX_CONNECTION && s.n == 1
    requires s.table[0].fd == listener && s.table[0].events && s.ssl[0] == Ssl(0)
    requires forall j :: 1 <= j < MAX_CONNECTION ==> s.table[j].fd == -1 && s.ssl[j] == Null
    requires s.open == map[] && s.next == 0 && s.calls == [] && s.history == []
    requires s.bound == map[0 := listener] && s.created == 1 && s.freed == []
    ensures Inv(listener, s)
  {
    assert InTable(s.ssl, 1, 0);
    assert Table(s) == [] && Conns([]) == {};
  }

  class TlsServer {
    const kernel: Kernel
    const library: Library
    const fds: array<PollFd>
    const arrSsl: array<Handle>
    var nfds: nat
    // The events of the run so far.
    ghost var history: seq<Event>

    ghost function Now(): Snapshot
      reads this, kernel, library, fds, arrSsl
    {
      Snapshot(fds[..], arrSsl[..], nfds, kernel.open, kernel.next, kernel.calls,
               library.bound, library.created, library.freed, history)
    }

    ghost predicate Valid()
      reads this, kernel, library, fds, arrSsl
    {
      library.kernel == kernel && Inv(kernel.listener, Now())
    }

    constructor (kernel: Kernel)
      requires kernel.Valid() && kernel.open == map[] && kernel.next == 0 && kernel.calls == []
      ensures Valid() && history == [] && this.kernel == kernel
      ensures fresh(library) && fresh(fds) && fresh(arrSsl)
    {
      this.kernel := kernel;
      var lib := new Library(kernel);
      library := lib;
      fds := new PollFd[MAX_CONNECTION](_ => PollFd(0, false, false));
      arrSsl := new Handle[MAX_CONNECTION](_ => Null);
      nfds := 1;
      history := [];
      new;
      fds[0] := PollFd(kernel.listener, true, false);
      arrSsl[0] := library.New();
      library.SetFd(arrSsl[0], fds[0].fd);
      ClearEntries();
      StartIsValid(kernel.listener, Now());
    }

    // Entries 1 and up are unused.
    method ClearEntries()
      requires fds.Length == arrSsl.Length == MAX_CONNECTION
      modifies fds, arrSsl
      ensures fds[0] == old(fds[0]) && arrSsl[0] == old(arrSsl[0])
      ensures forall j :: 1 <= j < MAX_CONNECTION ==> fds[j].fd == -1 && arrSsl[j] == Null
    {
      for i := 1 to MAX_CONNECTION
        invariant fds[0] == old(fds[0]) && arrSsl[0] == old(arrSsl[0])
        invariant forall j :: 1 <= j < i ==> fds[j].fd == -1 && arrSsl[j] == Null
      {
        fds[i] := fds[i].(fd := -1);
        arrSsl[i] := Null;
      }
    }

    // Put the newcomer on fd and a new session into the first unused entry.
    method EnterNewcomer(fd: int)
      requires fds.Length == arrSsl.Length == MAX_CONNECTION && nfds < MAX_CONNECTION && library.Valid()
      modifies fds, arrSsl, library
      ensures library.Valid() && old(library.created) !in old(library.bound)
      ensures fds[..] == old(fds[..])[nfds := old(fds[nfds]).(fd := fd, events := true)]
      ensures arrSsl[..] == old(arrSsl[..])[nfds := Ssl(old(library.created))]
      ensures library.bound == old(library.bound)[old(library.created) := fd]
      ensures library.created == old(library.created) + 1 && library.freed == old(library.freed)
    {
      fds[nfds] := fds[nfds].(fd := fd, events := true);
      arrSsl[nfds] := library.New();
      library.SetFd(arrSsl[nfds], fds[nfds].fd);
    }

    // Close the newcomer's descriptor again and free its session.
    method WithdrawNewcomer()
      requires fds.Length == arrSsl.Length == MAX_CONNECTION && nfds < MAX_CONNECTION
      requires kernel.Valid() && library.Valid() && fds[nfds].fd in kernel.open
      requires arrSsl[nfds].Ssl? && arrSsl[nfds].id in library.bound
      modifies fds, arrSsl, library`bound, library`freed, kernel`open, kernel`calls, kernel`listenerCloses
      ensures fds[..] == old(fds[..])[nfds := old(fds[nfds]).(fd := -1)]
      ensures arrSsl[..] == old(arrSsl[..])[nfds := Null]
      ensures kernel.open == old(kernel.open) - {old(fds[nfds].fd)}
      ensures kernel.calls == old(kernel.calls) + [Close(old(kernel.open)[old(fds[nfds].fd)])]
      ensures library.bound == old(library.bound) - {old(arrSsl[nfds].id)}
      ensures library.freed == old(library.freed) + [old(arrSsl[nfds].id)]
    {
      kernel.Close(fds[nfds].fd);
      fds[nfds] := fds[nfds].(fd := -1);
      library.Free(arrSsl[nfds]);
      arrSsl[nfds] := Null;
    }

    /** Put the newcomer on fd and a new session into the first unused entry and shake hands; if
        that fails, undo both. */
    method SeatNewcomer(fd: int) returns (ok: bool)
      requires fds.Length == arrSsl.Length == MAX_CONNECTION && nfds < MAX_CONNECTION
      requires library.kernel == kernel && kernel.Valid() && library.Valid() && fd in kernel.open
      modifies this`nfds, fds, arrSsl, library, kernel`open, kernel`calls, kernel`listenerCloses
      ensures ok ==> (
        && fds[..] == old(fds[..])[old(nfds) := old(fds[nfds]).(fd := fd, events := true)]
        && arrSsl[..] == old(arrSsl[..])[old(nfds) := Ssl(old(library.created))] && nfds == old(nfds) + 1
        && kernel.open == old(kernel.open)
        && kernel.calls == old(kernel.calls) + [Handshake(old(kernel.open)[fd], true)]
        && library.bound == old(library.bound)[old(library.created) := fd]
        && library.created == old(library.created) + 1 && library.freed == old(library.freed))
      ensures !ok ==> (
        && fds[..] == old(fds[..])[old(nfds) := old(fds[nfds]).(fd := -1, events := true)]
        && arrSsl[..] == old(arrSsl[..])[old(nfds) := Null] && nfds == old(nfds)
        && kernel.open == old(kernel.open) - {fd}
        && kernel.calls == old(kernel.calls) + [Handshake(old(kernel.open)[fd], false)]
                           + [Close(old(kernel.open)[fd])]
        && library.bound == old(library.bound)
        && library.created == old(library.created) + 1 && library.freed == old(library.freed) + [old(library.created)])
    {
      ghost var id, bound := library.created, library.bound;
      EnterNewcomer(fd);
      var rc := library.Handshake(arrSsl[nfds]);
      ok := rc > 0;
      if !ok {
        WithdrawNewcomer();
        assert bound[id := fd] - {id} == bound;
      } else {
        nfds := nfds + 1;
      }
    }

    /** Accept one connection and seat it if there is room and the handshake succeeds. */
    method AcceptClient() returns (ghost fd: int, ghost admission: Admission)
      requires Valid()
      modifies this`nfds, this`history, fds, arrSsl, library, kernel
      ensures Valid()
      ensures fd <= 0 ==> Now() == FailedAccept(old(Now()))
      ensures fd > 0 ==> (
        && fd !in old(kernel.open) && fd != kernel.listener
        && (admission.TurnedAway? <==> old(nfds) >= MAX_CONNECTION)
        && Now() == ArrivedOn(old(Now()), fd, admission))
    {
      hide View, Tracks, Conns, InTable;
      ghost var s := Now();
      var sockClient := kernel.Accept();
      fd, admission := sockClient, TurnedAway;
      if sockClient > 0 {
        if nfds < MAX_CONNECTION {
          var ok := SeatNewcomer(sockClient);
          admission := if ok then Seated else Refused;
          if !ok {
            assert s.open[sockClient := s.next] - {sockClient} == s.open;
            assert arrSsl[..] == s.ssl;
          }
        }
        history := history + [Arrive(s.next, admission)];
        assert Now() == ArrivedOn(s, fd, admission);
        ArrivedKeeps(kernel.listener, s, fd, admission);
      } else {
        history := history + [AcceptFailed];
        FailedAcceptKeeps(kernel.listener, s);
        assert Now() == FailedAccept(s);
      }
    }

    /** Close entry i's descriptor, free its session, and move the last entry into its place. */
    method DropClient(i: nat)
      requires fds.Length == arrSsl.Length == MAX_CONNECTION && 1 <= i < nfds <= MAX_CONNECTION
      requires kernel.Valid() && library.Valid() && fds[i].fd in kernel.open
      requires arrSsl[i].Ssl? && arrSsl[i].id in library.bound
      modifies this`nfds, fds, arrSsl, library`bound, library`freed, kernel`open, kernel`calls, kernel`listenerCloses
      ensures nfds == old(nfds) - 1
      ensures var moved := old(fds[..])[i := old(fds[i]).(fd := old(fds[nfds - 1].fd))];
              fds[..] == moved[nfds := moved[nfds].(fd := -1)]
      ensures arrSsl[..] == old(arrSsl[..])[i := old(arrSsl[nfds - 1])][nfds := Null]
      ensures kernel.open == old(kernel.open) - {old(fds[i].fd)}
      ensures kernel.calls == old(kernel.calls) + [Close(old(kernel.open)[old(fds[i].fd)])]
      ensures library.bound == old(library.bound) - {old(arrSsl[i].id)}
      ensures library.freed == old(library.freed) + [old(arrSsl[i].id)]
    {
      kernel.Close(fds[i].fd);
      library.Free(arrSsl[i]);
      fds[i] := fds[i].(fd := fds[nfds - 1].fd);
      arrSsl[i] := arrSsl[nfds - 1];
      fds[nfds - 1] := fds[nfds - 1].(fd := -1);
      arrSsl[nfds - 1] := Null;
      nfds := nfds - 1;
    }

    /** One visit to the client in entry i: its session is read, and dropped or answered. */
    method VisitClient(i: nat) returns (ghost visit: Visit)
      requires Valid()
      requires 1 <= i < nfds
      modifies this`nfds, this`history, fds, arrSsl, library`bound, library`freed
      modifies kernel`open, kernel`calls, kernel`listenerCloses
      ensures Valid()
      ensures Now() == Visited(old(Now()), i, visit)
      ensures nfds <= old(nfds)
      ensures var c, data := old(kernel.open[fds[i].fd]), visit.data;
              var leaves := visit.received <= 0 || data == "quit" || data == "exit"
                            || "quit\0" <= data || "exit\0" <= data;
              && kernel.calls == old(kernel.calls) + [Recv(c, visit.received, data)]
                 + [if leaves then Close(c) else Send(c, visit.sent)]
              && nfds == if leaves then old(nfds) - 1 else old(nfds)
    {
      hide CString, View, Tracks, Conns, InTable, LibraryOk, KernelOk;
      ghost var s := Now();
      ghost var c := s.open[s.table[i].fd];
      var shouldDisconnect := false;
      var received, request := library.Read(arrSsl[i]);
      visit := Visit(received, request, 0);
      if received <= 0 {
        shouldDisconnect := true;
      }
      if CString(request) == "quit" || CString(request) == "exit" {
        shouldDisconnect := true;
      }
      if shouldDisconnect {
        DropClient(i);
      } else {
        var sent := library.Write(arrSsl[i]);
        visit := visit.(sent := sent);
      }
      history := history + [Serve(c, visit)];
      assert shouldDisconnect == HangsUp(Tls, visit);
      TlsVisitMeans(s.calls, c, visit);
      hide VisitCalls, HangsUp, WellFormed, Paired;
      assert Now() == Visited(s, i, visit);
      VisitedKeeps(kernel.listener, s, i, visit);
    }

    /** Wait for readable descriptors in the whole table: flags change, clients do not, and unused
        entries get none. */
    method Poll() returns (activity: int, ghost w: Answer)
      requires Valid()
      modifies this`history, fds, kernel`calls
      ensures Valid()
      ensures Now() == Polled(old(Now()), fds[..], w) && w.activity == activity
      ensures SameClients(old(Table(Now())), Table(Now()))
      ensures Conns(Table(Now())) == old(Conns(Table(Now())))
      ensures w == if activity <= 0 then Answer(activity, true, Conns(Table(Now())), false, {})
                   else Answer(activity, true, Conns(Table(Now())), fds[0].revents, Flagged(Table(Now())))
      ensures activity > 0 ==> forall j :: nfds <= j < MAX_CONNECTION ==> !fds[j].revents
    {
      hide View, Tracks, Conns, Flagged, PollAnswer, InTable, SameClients;
      ghost var s := Now();
      activity := kernel.Poll(fds, MAX_CONNECTION);
      w := PollAnswer(activity, fds[..], MAX_CONNECTION, kernel.listener, kernel.open);
      history := history + [Waited(w)];
      assert Now() == Polled(s, fds[..], w);
      PolledKeeps(kernel.listener, s, fds[..], activity);
      if activity == 0 {
        NoneFlagged(kernel.listener, Now());
      }
    }

    /** The sweep over both tables.  A session is read only if its own descriptor was flagged by
        this poll; a session moved behind the sweep is left for the next one. */
    method Sweep() returns (ghost events: seq<Event>, ghost newcomers: seq<Slot>)
      requires Valid()
      requires forall j :: nfds <= j < MAX_CONNECTION ==> !fds[j].revents
      modifies this`nfds, this`history, fds, arrSsl, library, kernel
      ensures Valid()
      ensures history == old(history) + events
      ensures Swept(old(Table(Now())), newcomers, Table(Now()), old(fds[0].revents), events)
    {
      hide Inv, Sweeping, Swept, Visited, VisitedAs, ArrivedOn, HangsUp, Table;
      ghost var s0 := Now();
      ghost var m, late := Tally({}, {}, {}, 0), {};
      events, newcomers := [], [];
      SweepStarts(kernel.listener, s0);
      EntryIsThere(kernel.listener, s0);
      var i := 0;
      while i < nfds
        invariant Valid() && nfds <= fds.Length
        invariant i == 0 ==> Now() == s0 && events == []
        invariant Sweeping(s0, newcomers, Now(), i, events, m, late)
        decreases MAX_CONNECTION - i
      {
        ghost var s := Now();
        EntryIsThere(kernel.listener, s);
        if fds[i].revents {
          if fds[i].fd == kernel.listener {
            var fd, a := AcceptClient();
            if fd > 0 {
              newcomers, m := ListenerAccepts(kernel.listener, s, fd, a);
              events := [Arrive(s.next, a)];
            } else {
              ListenerFails(kernel.listener, s);
              events, newcomers, m := [AcceptFailed], [], Tally({}, {}, {}, 1);
            }
            late := {};
          } else {
            var visit := VisitClient(i);
            ghost var c := VisitMeans(kernel.listener, s, i, visit);
            m, late := SweepVisits(s0, newcomers, s, Now(), i, events, m, late, c, visit);
            events := events + [Serve(c, visit)];
          }
        } else if i == 0 {
          ListenerPasses(kernel.listener, s, newcomers, events, m, late);
          newcomers, late := [], {};
        } else {
          SweepSkips(kernel.listener, s0, newcomers, s, i, events, m, late);
        }
        i := i + 1;
        EntryIsThere(kernel.listener, Now());
      }
      SweepEnds(kernel.listener, s0, newcomers, Now(), i, events, m, late);
    }

    /** One iteration of the server loop. */
    method Iterate() returns (running: bool, ghost r: Round, ghost t: seq<Slot>, ghost newcomers: seq<Slot>)
      requires Valid()
      modifies this`nfds, this`history, fds, arrSsl, library, kernel
      ensures Valid()
      ensures history == old(history) + [Waited(r.answer)] + r.events
      ensures RoundOk(TlsLoop, Conns(old(Table(Now()))), r)
      ensures running <==> !TlsLoop.Stops(r.answer)
      ensures SameClients(old(Table(Now())), t)
      ensures running ==> Conns(t) == r.answer.watched && Flagged(t) == r.answer.reported
      ensures running ==> Swept(t, newcomers, Table(Now()), r.answer.listener, r.events)
    {
      hide View, Tracks, Conns, Flagged, InTable, Swept, RoundOk, SameClients;
      var activity, w := Poll();
      newcomers, t := [], Table(Now());
      running, r := activity > 0, Round(w, []);
      if running {
        ghost var events;
        events, newcomers := Sweep();
        r := Round(w, events);
        SweepMakesRound(t, newcomers, Table(Now()), events, w);
      } else {
        EmptyRound(t, w);
      }
    }

    // Cleanup of entry i's descriptor.
    method CloseEntry(ghost s0: Snapshot, i: nat) returns (ghost es: seq<Event>)
      requires Inv(kernel.listener, s0) && i < MAX_CONNECTION == fds.Length
      requires ClientsLeft(kernel.listener, s0, fds[..], nfds, kernel.open, kernel.next, kernel.calls, history, i)
      modifies this`history, kernel`open, kernel`calls, kernel`listenerCloses
      ensures ClientsLeft(kernel.listener, s0, fds[..], nfds, kernel.open, kernel.next, kernel.calls, history, i + 1)
      ensures history == old(history) + es && forall e :: e in es ==> e.Evict?
      ensures kernel.listenerCloses == old(kernel.listenerCloses) + (if i == 0 then 1 else 0)
    {
      hide View, Tracks, Conns, InTable, ClientsFrom, LibraryOk;
      ghost var open, calls, h := kernel.open, kernel.calls, history;
      es := [];
      if fds[i].fd > 0 {
        kernel.Close(fds[i].fd);
        if 0 < i < nfds {
          CloseKeeps(kernel.listener, s0, open, kernel.next, calls, h, i);
          es := [Evict(open[fds[i].fd])];
          history := history + es;
          return;
        }
        assert open - {fds[i].fd} == open;
      }
      NothingToClose(kernel.listener, s0, open, kernel.next, calls, h, i);
    }

    // Cleanup of entry i's session.
    method FreeEntry(ghost s0: Snapshot, i: nat)
      requires Inv(kernel.listener, s0) && i < MAX_CONNECTION == arrSsl.Length
      requires SessionsLeft(s0, arrSsl[..], library.bound, library.created, library.freed, i)
      modifies arrSsl, library`bound, library`freed
      ensures SessionsLeft(s0, arrSsl[..], library.bound, library.created, library.freed, i + 1)
    {
      hide View, Tracks, Conns, InTable, AheadOf;
      ghost var ssl, bound, created, freed := arrSsl[..], library.bound, library.created, library.freed;
      if arrSsl[i] != Null {
        library.Shutdown(arrSsl[i]);
        library.Free(arrSsl[i]);
        arrSsl[i] := Null;
        FreeKeeps(s0, ssl, bound, created, freed, i);
        assert arrSsl[..] == ssl[i := Null];
      } else {
        NothingToFree(s0, ssl, bound, created, freed, i);
      }
    }

    // The cleanup loop.
    method CleanTables(ghost s0: Snapshot) returns (ghost events: seq<Event>)
      requires Inv(kernel.listener, s0) && fds.Length == arrSsl.Length == MAX_CONNECTION
      requires SessionsLeft(s0, arrSsl[..], library.bound, library.created, library.freed, 0)
      requires ClientsLeft(kernel.listener, s0, fds[..], nfds, kernel.open, kernel.next, kernel.calls, history, 0)
      modifies this`history, arrSsl, library`bound, library`freed, kernel`open, kernel`calls, kernel`listenerCloses
      ensures SessionsLeft(s0, arrSsl[..], library.bound, library.created, library.freed, MAX_CONNECTION)
      ensures ClientsLeft(kernel.listener, s0, fds[..], nfds, kernel.open, kernel.next, kernel.calls, history,
                          MAX_CONNECTION)
      ensures history == old(history) + events && forall e :: e in events ==> e.Evict?
      ensures kernel.listenerCloses == old(kernel.listenerCloses) + 1
    {
      hide SessionsLeft, ClientsLeft, View, Tracks, Conns, InTable;
      events := [];
      for i := 0 to MAX_CONNECTION
        invariant SessionsLeft(s0, arrSsl[..], library.bound, library.created, library.freed, i)
        invariant ClientsLeft(kernel.listener, s0, fds[..], nfds, kernel.open, kernel.next, kernel.calls, history, i)
        invariant history == old(history) + events && forall e :: e in events ==> e.Evict?
        invariant kernel.listenerCloses == old(kernel.listenerCloses) + (if i == 0 then 0 else 1)
      {
        var es := CloseEntry(s0, i);
        events := events + es;
        FreeEntry(s0, i);
      }
    }

    /** The end of the run: everything the two tables still hold is closed and freed.  The listener
        is closed by name first and then once more as entry 0. */
    method Cleanup() returns (ghost events: seq<Event>)
      requires Valid()
      modifies this`history, arrSsl, library`bound, library`freed, kernel`open, kernel`calls, kernel`listenerCloses
      ensures history == old(history) + events && forall e :: e in events ==> e.Evict?
      ensures TlsLoop.IsLegal(history) && TlsLoop.After(history).live == {}
      ensures kernel.calls == Calls(Tls, history)
      ensures library.bound == map[] && AllFreedOnce(library.created, library.freed)
      ensures kernel.listenerCloses == old(kernel.listenerCloses) + 2
    {
      hide View, Tracks, Conns, InTable, AheadOf, ClientsFrom, LibraryOk;
      ghost var s0 := Now();
      CleanupStarts(kernel.listener, s0);
      kernel.Close(kernel.listener);
      events := CleanTables(s0);
      SessionsGone(s0, arrSsl[..], library.bound, library.created, library.freed, MAX_CONNECTION);
      ClientsGone(kernel.listener, s0, Now(), MAX_CONNECTION);
    }

    /** The server loop for any number of iterations; when poll fails the loop ends and the cleanup
        follows.  Then every session ever created has been freed exactly once, and no client is
        left.  In a run of any length no client is reported and left unread more than PATIENCE times. */
    method RunServer(iterations: nat) returns (running: bool, ghost run: seq<Event>, ghost cleanup: seq<Event>)
      requires Valid() && history == []
      modifies this`nfds, this`history, fds, arrSsl, library, kernel
      ensures history == run + cleanup && forall e :: e in cleanup ==> e.Evict?
      ensures TlsLoop.IsLegal(history) && kernel.calls == Calls(Tls, history)
      ensures RoundsOk(TlsLoop, run) && OverTls(kernel.calls)
      ensures running <==> forall w :: w in Answers(Calls(Tls, run)) ==> w.activity > 0
      ensures if running then |Split(run)| == iterations else 0 < |Split(run)| <= iterations
      ensures NobodyPutOffTooOften(Split(run))
      ensures if running then Valid() && cleanup == [] else (
        && TlsLoop.After(history).live == {}
        && library.bound == map[] && AllFreedOnce(library.created, library.freed))
    {
      hide View, Tracks, Conns, RoundOk, InTable, Paired, RoundsOk, Running, Split, Swept, Flagged;
      hide Patient, SameClients, Answers, Calls, OverTls;
      running := true;
      NoRounds(TlsLoop);
      StartsPatient(Table(Now()), kernel.next);
      for k := 0 to iterations
        invariant Valid() && running && |Split(history)| == k
        invariant RoundsOk(TlsLoop, history) && Running(TlsLoop, history)
        invariant Patient(Table(Now()), kernel.next, Split(history)) && NobodyPutOffTooOften(Split(history))
      {
        TableIsLive(kernel.listener, Now());
        ghost var h, s := history, Table(Now());
        ghost var r, t, newcomers;
        running, r, t, newcomers := Iterate();
        ExtendRounds(TlsLoop, h, r.answer, r.events);
        TableIsLive(kernel.listener, Now());
        if running {
          TableDistinct(kernel.listener, Now());
          PatientRound(h, s, t, newcomers, Table(Now()), r);
        } else {
          PatientEnd(h, s, r);
        }
        if !running {
          break;
        }
      }
      TableIsLive(kernel.listener, Now());
      run, cleanup := history, [];
      if !running {
        cleanup := Cleanup();
      }
      RunningMeans(TlsLoop, run);
      SpeaksTls(history);
    }
  }
}
