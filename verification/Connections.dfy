/** The abstract machine that all three multiplexed servers refine: a bounded set of live
    connections, changed by the events of a run.  Connections are named by numbers that are
    never reused, so a statement about a connection cannot be confused by the operating
    system handing out an old descriptor number again. */
module Connections {

  import opened Text

  type Conn = nat

  // The clear-text servers (select, poll) drop a client when send fails; the TLS server does not.
  datatype Policy = Plain | Tls

  // What one visit to a readable client meets: the result and bytes of the receive call, and the
  // answer of the send call (meaningless when the visit makes none).
  datatype Visit = Visit(received: int, data: string, sent: int)

  datatype Admission = Seated | TurnedAway | Refused

  // What select or poll was asked and what it answered: whether the listener was watched, and
  // which connections; its return value; whether it reported the listener, and which connections.
  datatype Answer = Answer(activity: int, listens: bool, watched: set<Conn>, listener: bool, reported: set<Conn>)

  datatype Event =
    | Waited(answer: Answer)
    | AcceptFailed
    | Arrive(c: Conn, admission: Admission)
    | Serve(c: Conn, visit: Visit)
    | Evict(c: Conn)

  // The system calls of a server loop, with what they answered.
  datatype Call =
    | Wait(answer: Answer)
    | AcceptError
    | Accept(c: Conn)
    | Handshake(c: Conn, succeeded: bool)
    | Recv(c: Conn, received: int, data: string)
    | Send(c: Conn, sent: int)
    | Close(c: Conn)

  /** Whether a call concerns an accepted connection. */
  predicate IsAbout(call: Call, c: Conn) {
    (call.Accept? || call.Handshake? || call.Recv? || call.Send? || call.Close?) && call.c == c
  }

  datatype State = State(live: set<Conn>, next: nat, closed: set<Conn>, away: set<Conn>)

  const INITIAL := State({}, 0, {}, {})

  /** strcmp against a C string only sees the bytes before the first NUL. */
  predicate SaysFarewell(data: string) {
    CString(data) == "quit" || CString(data) == "exit"
  }

  /** What that means: the text, alone or before a NUL, is quit or exit. */
  lemma FarewellMeans(data: string)
    ensures SaysFarewell(data) <==> data == "quit" || data == "exit" || "quit\0" <= data || "exit\0" <= data
  {
    FarewellIs(data, "quit");
    FarewellIs(data, "exit");
  }

  lemma FarewellIs(data: string, word: string)
    requires '\0' !in word
    ensures CString(data) == word <==> data == word || word + "\0" <= data
  {
    if CString(data) == word && data != word {
      assert data[..|word| + 1] == word + "\0";
    } else if data == word {
      CStringOf(word, "");
      assert word + "" == word;
    } else if word + "\0" <= data {
      var rest := data[|word|..];
      assert data == word + rest && rest[0] == (word + "\0")[|word|];
      CStringOf(word, rest);
    }
  }

  predicate HangsUp(p: Policy, v: Visit) {
    v.received <= 0 || SaysFarewell(v.data) || (p.Plain? && v.sent <= 0)
  }

  /** The calls a visit makes, in order. */
  function VisitCalls(p: Policy, c: Conn, v: Visit): seq<Call> {
    match p
    case Plain =>
      [Recv(c, v.received, v.data)]
      + (if v.received > 0 then [Send(c, v.sent)] else [])
      + (if HangsUp(p, v) then [Close(c)] else [])
    case Tls =>
      [Recv(c, v.received, v.data), if HangsUp(p, v) then Close(c) else Send(c, v.sent)]
  }

  /** The calls an arrival makes: over TLS a newcomer that finds room shakes hands, and is closed again
      if that fails. */
  function ArrivalCalls(p: Policy, c: Conn, a: Admission): seq<Call> {
    [Accept(c)]
    + (if p.Tls? && !a.TurnedAway? then [Handshake(c, a.Seated?)] else [])
    + (if a.Refused? then [Close(c)] else [])
  }

  function EventCalls(p: Policy, e: Event): seq<Call> {
    match e
    case Waited(w) => [Wait(w)]
    case AcceptFailed => [AcceptError]
    case Arrive(c, a) => ArrivalCalls(p, c, a)
    case Serve(c, v) => VisitCalls(p, c, v)
    case Evict(c) => [Close(c)]
  }

  /** Only live clients are reported or served; a newcomer is turned away exactly when the table is
      full. */
  predicate Enabled(p: Policy, cap: nat, s: State, e: Event) {
    match e
    case Waited(w) => w.reported <= s.live
    case AcceptFailed => true
    case Arrive(c, a) => c == s.next && (a.TurnedAway? <==> |s.live| >= cap) && (a.Refused? ==> p.Tls?)
    case Serve(c, _) => c in s.live
    case Evict(c) => c in s.live && p.Tls?
  }

  function Apply(p: Policy, s: State, e: Event): State {
    match e
    case Waited(_) => s
    case AcceptFailed => s
    case Arrive(c, Seated) => s.(live := s.live + {c}, next := s.next + 1)
    case Arrive(c, TurnedAway) => s.(away := s.away + {c}, next := s.next + 1)
    case Arrive(c, Refused) => s.(closed := s.closed + {c}, next := s.next + 1)
    case Serve(c, v) => if HangsUp(p, v) then s.(live := s.live - {c}, closed := s.closed + {c}) else s
    case Evict(c) => s.(live := s.live - {c}, closed := s.closed + {c})
  }

  function Run(p: Policy, s: State, es: seq<Event>): State {
    if es == [] then s else Apply(p, Run(p, s, es[..|es|-1]), es[|es|-1])
  }

  predicate Legal(p: Policy, cap: nat, s: State, es: seq<Event>) {
    es == []
    || (Legal(p, cap, s, es[..|es|-1]) && Enabled(p, cap, Run(p, s, es[..|es|-1]), es[|es|-1]))
  }

  function Calls(p: Policy, es: seq<Event>): seq<Call> {
    if es == [] then [] else Calls(p, es[..|es|-1]) + EventCalls(p, es[|es|-1])
  }

  /** A visit to a clear-text client in plain terms: what came is answered, and the client is closed if
      nothing came, the answer failed, or the text was quit or exit. */
  lemma PlainVisitMeans(calls: seq<Call>, c: Conn, v: Visit)
    ensures HangsUp(Plain, v) <==>
      v.received <= 0 || v.sent <= 0
      || v.data == "quit" || v.data == "exit" || "quit\0" <= v.data || "exit\0" <= v.data
    ensures calls + VisitCalls(Plain, c, v) ==
      calls + [Recv(c, v.received, v.data)] + (if v.received > 0 then [Send(c, v.sent)] else [])
      + (if HangsUp(Plain, v) then [Close(c)] else [])
  {
    FarewellMeans(v.data);
    hide SaysFarewell;
  }

  /** A visit to a TLS client in plain terms: it is closed if nothing came or the text was quit or exit,
      and otherwise answered; a failed answer does not matter. */
  lemma TlsVisitMeans(calls: seq<Call>, c: Conn, v: Visit)
    ensures HangsUp(Tls, v) <==>
      v.received <= 0 || v.data == "quit" || v.data == "exit" || "quit\0" <= v.data || "exit\0" <= v.data
    ensures calls + VisitCalls(Tls, c, v) ==
      calls + [Recv(c, v.received, v.data)] + [if HangsUp(Tls, v) then Close(c) else Send(c, v.sent)]
  {
    FarewellMeans(v.data);
    hide SaysFarewell;
  }

  // ---------- what the events of one loop iteration did ----------

  function Served(es: seq<Event>): set<Conn> {
    set e | e in es && e.Serve? :: e.c
  }

  /** The clients received from, in order. */
  function ServedOrder(es: seq<Event>): seq<Conn> {
    if es == [] then []
    else
      var e := es[|es|-1];
      ServedOrder(es[..|es|-1]) + (if e.Serve? then [e.c] else [])
  }

  lemma ExtendOrder(es: seq<Event>, c: Conn, v: Visit)
    ensures ServedOrder(es + [Serve(c, v)]) == ServedOrder(es) + [c]
  {
    assert (es + [Serve(c, v)])[..|es|] == es;
  }

  function Seats(es: seq<Event>): set<Conn> {
    set e | e in es && e.Arrive? && e.admission.Seated? :: e.c
  }

  /** The clients that were visited and, on that visit, failed or said quit or exit. */
  function HungUp(p: Policy, es: seq<Event>): set<Conn> {
    set e | e in es && e.Serve? && HangsUp(p, e.visit) :: e.c
  }

  function Evicted(es: seq<Event>): set<Conn> {
    set e | e in es && e.Evict? :: e.c
  }

  predicate ServedOnce(es: seq<Event>) {
    forall i, j :: 0 <= i < j < |es| && es[i].Serve? && es[j].Serve? ==> es[i].c != es[j].c
  }

  /** How often accept was called, with or without success. */
  function Attempts(es: seq<Event>): nat {
    if es == [] then 0 else Attempts(es[..|es|-1]) + (if IsAttempt(es[|es|-1]) then 1 else 0)
  }

  predicate IsAttempt(e: Event) {
    e.Arrive? || e.AcceptFailed?
  }

  /** The events of a sweep: between two waits, and not of the cleanup. */
  predicate InSweep(es: seq<Event>) {
    forall e :: e in es ==> !e.Waited? && !e.Evict?
  }

  // ---------- extending a history by one event ----------

  /** The history explains both the table and the system calls made so far. */
  ghost predicate Tracks(p: Policy, cap: nat, history: seq<Event>, live: set<Conn>, next: nat, calls: seq<Call>) {
    && Legal(p, cap, INITIAL, history)
    && Run(p, INITIAL, history).live == live
    && Run(p, INITIAL, history).next == next
    && Calls(p, history) == calls
  }

  lemma Extend(p: Policy, cap: nat, s: State, es: seq<Event>, e: Event)
    ensures Run(p, s, es + [e]) == Apply(p, Run(p, s, es), e)
    ensures Legal(p, cap, s, es + [e]) <==> Legal(p, cap, s, es) && Enabled(p, cap, Run(p, s, es), e)
    ensures Calls(p, es + [e]) == Calls(p, es) + EventCalls(p, e)
  {
    assert (es + [e])[..|es|] == es;
  }

  lemma TrackWait(p: Policy, cap: nat, history: seq<Event>, live: set<Conn>, next: nat, calls: seq<Call>, w: Answer)
    requires Tracks(p, cap, history, live, next, calls)
    requires w.reported <= live
    ensures Tracks(p, cap, history + [Waited(w)], live, next, calls + [Wait(w)])
  {
    Extend(p, cap, INITIAL, history, Waited(w));
  }

  lemma TrackFailure(p: Policy, cap: nat, history: seq<Event>, live: set<Conn>, next: nat, calls: seq<Call>)
    requires Tracks(p, cap, history, live, next, calls)
    ensures Tracks(p, cap, history + [AcceptFailed], live, next, calls + [AcceptError])
  {
    Extend(p, cap, INITIAL, history, AcceptFailed);
  }

  lemma TrackArrival(p: Policy, cap: nat, history: seq<Event>, live: set<Conn>, next: nat, calls: seq<Call>,
                     a: Admission)
    requires Tracks(p, cap, history, live, next, calls)
    requires a.TurnedAway? <==> |live| >= cap
    requires a.Refused? ==> p.Tls?
    ensures Tracks(p, cap, history + [Arrive(next, a)],
                   if a.Seated? then live + {next} else live, next + 1, calls + ArrivalCalls(p, next, a))
  {
    Extend(p, cap, INITIAL, history, Arrive(next, a));
  }

  lemma TrackVisit(p: Policy, cap: nat, history: seq<Event>, live: set<Conn>, next: nat, calls: seq<Call>, c: Conn,
                   v: Visit)
    requires Tracks(p, cap, history, live, next, calls)
    requires c in live
    ensures Tracks(p, cap, history + [Serve(c, v)], if HangsUp(p, v) then live - {c} else live, next,
                   calls + VisitCalls(p, c, v))
  {
    Extend(p, cap, INITIAL, history, Serve(c, v));
  }

  lemma TrackEviction(p: Policy, cap: nat, history: seq<Event>, live: set<Conn>, next: nat, calls: seq<Call>, c: Conn)
    requires Tracks(p, cap, history, live, next, calls)
    requires c in live && p.Tls?
    ensures Tracks(p, cap, history + [Evict(c)], live - {c}, next, calls + [Close(c)])
  {
    hide SaysFarewell, HangsUp;
    Extend(p, cap, INITIAL, history, Evict(c));
  }

  lemma ExtendRound(p: Policy, es: seq<Event>, e: Event)
    ensures Served(es + [e]) == Served(es) + (if e.Serve? then {e.c} else {})
    ensures Seats(es + [e]) == Seats(es) + (if e.Arrive? && e.admission.Seated? then {e.c} else {})
    ensures HungUp(p, es + [e]) == HungUp(p, es) + (if e.Serve? && HangsUp(p, e.visit) then {e.c} else {})
    ensures Evicted(es + [e]) == Evicted(es) + (if e.Evict? then {e.c} else {})
    ensures HungUp(p, es) <= Served(es)
    ensures Attempts(es + [e]) == Attempts(es) + (if IsAttempt(e) then 1 else 0)
    ensures InSweep(es + [e]) <==> InSweep(es) && !e.Waited? && !e.Evict?
  {
    hide HangsUp;
    assert (es + [e])[..|es|] == es;
    assert forall x :: x in es + [e] <==> x in es || x == e;
  }

  lemma ExtendServedOnce(es: seq<Event>, e: Event)
    requires ServedOnce(es) && (e.Serve? ==> e.c !in Served(es))
    ensures ServedOnce(es + [e])
  {
    var fs := es + [e];
    forall i, j | 0 <= i < j < |fs| && fs[i].Serve? && fs[j].Serve? ensures fs[i].c != fs[j].c {
      assert es[i] in es;
    }
  }

  // What a sweep has done so far, without the order of its events.
  datatype Tally = Tally(served: set<Conn>, hungUp: set<Conn>, seats: set<Conn>, attempts: nat)

  ghost predicate Tallies(p: Policy, es: seq<Event>, m: Tally) {
    && InSweep(es) && ServedOnce(es)
    && Served(es) == m.served && HungUp(p, es) == m.hungUp
    && Seats(es) == m.seats && Attempts(es) == m.attempts
  }

  lemma TallyStarts(p: Policy)
    ensures Tallies(p, [], Tally({}, {}, {}, 0))
  {
  }

  lemma TallyVisit(p: Policy, es: seq<Event>, m: Tally, c: Conn, v: Visit)
    requires Tallies(p, es, m) && c !in m.served
    ensures Tallies(p, es + [Serve(c, v)], m.(served := m.served + {c},
                                              hungUp := if HangsUp(p, v) then m.hungUp + {c} else m.hungUp))
  {
    ExtendRound(p, es, Serve(c, v));
    ExtendServedOnce(es, Serve(c, v));
  }

  lemma TallyArrival(p: Policy, es: seq<Event>, m: Tally, c: Conn, a: Admission)
    requires Tallies(p, es, m)
    ensures Tallies(p, es + [Arrive(c, a)], m.(seats := if a.Seated? then m.seats + {c} else m.seats,
                                               attempts := m.attempts + 1))
  {
    ExtendRound(p, es, Arrive(c, a));
    ExtendServedOnce(es, Arrive(c, a));
  }

  lemma TallyFailure(p: Policy, es: seq<Event>, m: Tally)
    requires Tallies(p, es, m)
    ensures Tallies(p, es + [AcceptFailed], m.(attempts := m.attempts + 1))
  {
    ExtendRound(p, es, AcceptFailed);
    ExtendServedOnce(es, AcceptFailed);
  }

  lemma {:induction false} AttemptsAppend(es: seq<Event>, fs: seq<Event>)
    ensures Attempts(es + fs) == Attempts(es) + Attempts(fs)
  {
    if fs == [] {
      assert es + fs == es;
    } else {
      var m := |fs| - 1;
      assert (es + fs)[..|es + fs| - 1] == es + fs[..m];
      AttemptsAppend(es, fs[..m]);
    }
  }

  lemma {:induction false} NoAttempts(es: seq<Event>)
    requires Attempts(es) == 0
    ensures forall e :: e in es ==> !IsAttempt(e)
  {
    if es != [] {
      NoAttempts(es[..|es|-1]);
      assert es == es[..|es|-1] + [es[|es|-1]];
    }
  }

  lemma {:induction false} OrderAfterArrival(c: Conn, a: Admission, es: seq<Event>)
    ensures ServedOrder([Arrive(c, a)] + es) == ServedOrder(es)
  {
    var fs := [Arrive(c, a)] + es;
    if es == [] {
      assert fs[..0] == [];
    } else {
      var m := |es| - 1;
      assert fs[..|fs|-1] == [Arrive(c, a)] + es[..m] && fs[|fs|-1] == es[m];
      OrderAfterArrival(c, a, es[..m]);
    }
  }

  // An arrival in front of a sweep.
  lemma TallyAfterArrival(p: Policy, c: Conn, a: Admission, es: seq<Event>, m: Tally)
    requires Tallies(p, es, m)
    ensures Tallies(p, [Arrive(c, a)] + es, m.(seats := if a.Seated? then m.seats + {c} else m.seats,
                                               attempts := m.attempts + 1))
  {
    var e := Arrive(c, a);
    var fs := [e] + es;
    assert forall x :: x in fs <==> x in es || x == e;
    AttemptsAppend([e], es);
    assert [e][..0] == [];
  }

  // ---------- theorems about every run ----------

  /** Every connection accepted so far is in exactly one of the three sets. */
  ghost predicate Partitioned(s: State) {
    && (forall c :: c in s.live ==> c < s.next && c !in s.closed && c !in s.away)
    && (forall c :: c in s.closed ==> c < s.next && c !in s.live && c !in s.away)
    && (forall c :: c in s.away ==> c < s.next && c !in s.live && c !in s.closed)
    && (forall c {:trigger c in s.live} {:trigger c in s.closed} {:trigger c in s.away} ::
          0 <= c < s.next ==> c in s.live || c in s.closed || c in s.away)
  }

  /** The bookkeeping that every legal run keeps. */
  ghost predicate Balanced(cap: nat, s: State) {
    Partitioned(s) && |s.live| <= cap
  }

  /** Conservation: every connection ever accepted is live, closed or turned away at a full
      table, and is only one of these; the table never exceeds its capacity. */
  lemma {:induction false} Conservation(p: Policy, cap: nat, es: seq<Event>)
    requires Legal(p, cap, INITIAL, es)
    ensures Balanced(cap, Run(p, INITIAL, es))
  {
    if es != [] {
      Conservation(p, cap, es[..|es|-1]);
      ApplyKeepsBalance(p, cap, Run(p, INITIAL, es[..|es|-1]), es[|es|-1]);
    }
  }

  lemma ApplyKeepsBalance(p: Policy, cap: nat, s: State, e: Event)
    requires Balanced(cap, s) && Enabled(p, cap, s, e)
    ensures Balanced(cap, Apply(p, s, e))
  {
    ApplyKeepsPartition(p, cap, s, e);
    var t := Apply(p, s, e);
    if t.live <= s.live {
      SubsetCard(t.live, s.live);
    }
  }

  lemma ApplyKeepsPartition(p: Policy, cap: nat, s: State, e: Event)
    requires Partitioned(s) && Enabled(p, cap, s, e)
    ensures Partitioned(Apply(p, s, e))
  {
    hide HangsUp, Partitioned;
    match e {
      case Waited(_) =>
      case AcceptFailed =>
      case Arrive(c, a) => ArrivalKeepsPartition(s, a);
      case Serve(c, v) => CloseKeepsPartition(s, c);
      case Evict(c) => CloseKeepsPartition(s, c);
    }
  }

  lemma ArrivalKeepsPartition(s: State, a: Admission)
    requires Partitioned(s)
    ensures Partitioned(Apply(Plain, s, Arrive(s.next, a)))
  {
  }

  lemma CloseKeepsPartition(s: State, c: Conn)
    requires Partitioned(s) && c in s.live
    ensures Partitioned(s.(live := s.live - {c}, closed := s.closed + {c}))
  {
  }

  lemma SubsetCard<T>(a: set<T>, b: set<T>)
    requires a <= b
    ensures |a| <= |b|
  {
    assert b == a + (b - a);
  }

  lemma SomeMember<T>(a: set<T>) returns (x: T)
    requires a != {}
    ensures x in a
  {
    x :| x in a;
  }

  function Count(calls: seq<Call>, x: Call): nat {
    if calls == [] then 0 else Count(calls[..|calls|-1], x) + (if calls[|calls|-1] == x then 1 else 0)
  }

  lemma {:induction false} CountAppend(a: seq<Call>, b: seq<Call>, x: Call)
    ensures Count(a + b, x) == Count(a, x) + Count(b, x)
  {
    if b == [] {
      assert a + b == a;
    } else {
      var m := |b| - 1;
      assert (a + b)[..|a + b| - 1] == a + b[..m];
      CountAppend(a, b[..m], x);
    }
  }

  lemma CountOne(a: Call, x: Call)
    ensures Count([a], x) == if a == x then 1 else 0
  {
    assert [a][..0] == [];
  }

  // Counting in the few calls of one event.
  lemma CountFew(cs: seq<Call>, x: Call)
    requires 1 <= |cs| <= 3
    ensures Count(cs, x) == (if cs[0] == x then 1 else 0)
                            + (if |cs| > 1 && cs[1] == x then 1 else 0) + (if |cs| > 2 && cs[2] == x then 1 else 0)
  {
    CountOne(cs[0], x);
    assert cs[..1] == [cs[0]];
    if |cs| == 3 {
      assert cs[..2][..1] == cs[..1];
    } else if |cs| == 1 {
      assert cs == cs[..1];
    }
  }

  lemma VisitCount(p: Policy, c: Conn, v: Visit, x: Call)
    requires x.Accept? || x.Close?
    ensures Count(VisitCalls(p, c, v), x) == if x == Close(c) && HangsUp(p, v) then 1 else 0
  {
    CountFew(VisitCalls(p, c, v), x);
    hide Count, HangsUp;
  }

  lemma EventCount(p: Policy, e: Event, x: Call)
    requires x.Accept? || x.Close?
    ensures Count(EventCalls(p, e), x) ==
            if e.Waited? || e.AcceptFailed? || x.c != e.c then 0
            else if x.Accept? then (if e.Arrive? then 1 else 0)
            else if e.Evict? || (e.Arrive? && e.admission.Refused?) || (e.Serve? && HangsUp(p, e.visit)) then 1 else 0
  {
    hide Count, HangsUp, VisitCalls;
    match e {
      case Waited(w) => CountOne(Wait(w), x);
      case AcceptFailed => CountOne(AcceptError, x);
      case Arrive(c, a) => CountFew(EventCalls(p, e), x);
      case Serve(c, v) => VisitCount(p, c, v, x);
      case Evict(c) => CountOne(Close(c), x);
    }
  }

  // Which event closes a connection.
  lemma ClosedByEvent(p: Policy, cap: nat, s: State, e: Event)
    requires Balanced(cap, s) && Enabled(p, cap, s, e)
    ensures Apply(p, s, e).closed == s.closed +
      (if e.Evict? || (e.Arrive? && e.admission.Refused?) || (e.Serve? && HangsUp(p, e.visit)) then {e.c} else {})
    ensures Apply(p, s, e).next == s.next + (if e.Arrive? then 1 else 0)
    ensures e.Arrive? ==> e.c == s.next
    ensures HasConn(e) ==> e.c !in s.closed
  {
  }

  predicate HasConn(e: Event) {
    e.Arrive? || e.Serve? || e.Evict?
  }

  /** At the level of system calls: a connection is accepted once, and closed once if the
      machine counts it as closed, otherwise never. */
  lemma {:induction false} AcceptedAndClosedOnce(p: Policy, cap: nat, es: seq<Event>, c: Conn)
    requires Legal(p, cap, INITIAL, es)
    ensures Count(Calls(p, es), Accept(c)) == if c < Run(p, INITIAL, es).next then 1 else 0
    ensures Count(Calls(p, es), Close(c)) == if c in Run(p, INITIAL, es).closed then 1 else 0
  {
    if es != [] {
      hide EventCalls, HangsUp, VisitCalls;
      var front, e := es[..|es|-1], es[|es|-1];
      AcceptedAndClosedOnce(p, cap, front, c);
      Conservation(p, cap, front);
      ClosedByEvent(p, cap, Run(p, INITIAL, front), e);
      hide Apply, Enabled, Partitioned;
      CountAppend(Calls(p, front), EventCalls(p, e), Accept(c));
      CountAppend(Calls(p, front), EventCalls(p, e), Close(c));
      EventCount(p, e, Accept(c));
      EventCount(p, e, Close(c));
    }
  }

  /** Conservation at the level of system calls: a connection has been accepted and not closed
      exactly while it is in the table, or for ever if it was turned away. */
  lemma StillOpen(p: Policy, cap: nat, es: seq<Event>, c: Conn)
    requires Legal(p, cap, INITIAL, es)
    ensures Count(Calls(p, es), Accept(c)) > Count(Calls(p, es), Close(c))
       <==> c in Run(p, INITIAL, es).live || c in Run(p, INITIAL, es).away
  {
    Conservation(p, cap, es);
    AcceptedAndClosedOnce(p, cap, es, c);
  }

  // An event's calls are about no connection but its own, and a close is the last of them.
  lemma CallsOfOneEvent(p: Policy, e: Event, k: nat)
    requires k < |EventCalls(p, e)|
    ensures forall c :: IsAbout(EventCalls(p, e)[k], c) ==> !e.Waited? && !e.AcceptFailed? && e.c == c
    ensures EventCalls(p, e)[k].Close? ==> k == |EventCalls(p, e)| - 1
  {
  }

  // An event that makes a call on a closed connection would not be legal.
  lemma ClosedIsNotNamed(p: Policy, cap: nat, es: seq<Event>, e: Event, i: nat)
    requires Legal(p, cap, INITIAL, es) && Enabled(p, cap, Run(p, INITIAL, es), e)
    requires i < |Calls(p, es)| && Calls(p, es)[i].Close?
    ensures e.Waited? || e.AcceptFailed? || e.c != Calls(p, es)[i].c
  {
    var c := Calls(p, es)[i].c;
    CloseIsCounted(Calls(p, es), i);
    AcceptedAndClosedOnce(p, cap, es, c);
    Conservation(p, cap, es);
    assert c in Run(p, INITIAL, es).closed;
  }

  /** Once a connection has been closed no later call is about it: no second close, no
      receive or send on it, even if its descriptor number is handed out again. */
  lemma {:induction false} NoCallAfterClose(p: Policy, cap: nat, es: seq<Event>, i: nat, j: nat)
    requires Legal(p, cap, INITIAL, es)
    requires i < j < |Calls(p, es)| && Calls(p, es)[i].Close?
    ensures !IsAbout(Calls(p, es)[j], Calls(p, es)[i].c)
  {
    hide EventCalls;
    var front, e := es[..|es|-1], es[|es|-1];
    var before, now := Calls(p, front), EventCalls(p, e);
    assert Calls(p, es) == before + now;
    if j < |before| {
      NoCallAfterClose(p, cap, front, i, j);
    } else {
      CallsOfOneEvent(p, e, j - |before|);
      assert Calls(p, es)[j] == now[j - |before|];
      if i < |before| {
        ClosedIsNotNamed(p, cap, front, e, i);
      } else {
        CallsOfOneEvent(p, e, i - |before|);
      }
    }
  }

  lemma {:induction false} CloseIsCounted(calls: seq<Call>, i: nat)
    requires i < |calls|
    ensures Count(calls, calls[i]) >= 1
  {
    if i < |calls| - 1 {
      CloseIsCounted(calls[..|calls|-1], i);
    }
  }

  lemma {:induction false} RunKeepsBalance(p: Policy, cap: nat, s: State, es: seq<Event>)
    requires Legal(p, cap, s, es)
    requires Balanced(cap, s)
    ensures Balanced(cap, Run(p, s, es))
    ensures s.next <= Run(p, s, es).next
  {
    if es != [] {
      RunKeepsBalance(p, cap, s, es[..|es|-1]);
      ApplyKeepsBalance(p, cap, Run(p, s, es[..|es|-1]), es[|es|-1]);
    }
  }

  // An event concerns a newcomer, a connection accepted before, or none.
  lemma EventNames(p: Policy, cap: nat, s: State, e: Event)
    requires Balanced(cap, s) && Enabled(p, cap, s, e)
    ensures e.Arrive? ==> e.c == s.next && e.c !in s.live
    ensures HasConn(e) && !e.Arrive? ==> e.c < s.next && e.c in s.live
    ensures Apply(p, s, e).next == s.next + (if e.Arrive? then 1 else 0)
    ensures Apply(p, s, e).live ==
      (if e.Arrive? then (if e.admission.Seated? then s.live + {e.c} else s.live)
       else if e.Evict? || (e.Serve? && HangsUp(p, e.visit)) then s.live - {e.c} else s.live)
  {
  }

  // What the events so far did to the set of live connections.
  datatype Effect = Effect(served: set<Conn>, seats: set<Conn>, hungUp: set<Conn>, evicted: set<Conn>)

  function EffectOf(p: Policy, es: seq<Event>): Effect {
    Effect(Served(es), Seats(es), HungUp(p, es), Evicted(es))
  }

  ghost predicate Explains(f: Effect, before: set<Conn>, next: nat, after: set<Conn>, next': nat) {
    && after == before + f.seats - f.hungUp - f.evicted
    && f.served + f.hungUp + f.evicted <= before + f.seats
    && (forall c :: c in f.seats ==> next <= c < next')
  }

  lemma ExplainsStep(p: Policy, f: Effect, g: Effect, before: set<Conn>, next: nat, t: State, t': State, e: Event)
    requires Explains(f, before, next, t.live, t.next)
    requires next <= t.next && forall c :: c in before ==> c < next
    requires e.Arrive? ==> e.c == t.next
    requires HasConn(e) && !e.Arrive? ==> e.c in t.live
    requires t'.next == t.next + (if e.Arrive? then 1 else 0)
    requires t'.live ==
      (if e.Arrive? then (if e.admission.Seated? then t.live + {e.c} else t.live)
       else if e.Evict? || (e.Serve? && HangsUp(p, e.visit)) then t.live - {e.c} else t.live)
    requires g.served == f.served + (if e.Serve? then {e.c} else {})
    requires g.seats == f.seats + (if e.Arrive? && e.admission.Seated? then {e.c} else {})
    requires g.hungUp == f.hungUp + (if e.Serve? && HangsUp(p, e.visit) then {e.c} else {})
    requires g.evicted == f.evicted + (if e.Evict? then {e.c} else {})
    ensures Explains(g, before, next, t'.live, t'.next)
  {
    if e.Arrive? {
      assert e.c !in before + f.seats;
    }
  }

  lemma {:induction false} RoundExplained(p: Policy, cap: nat, s: State, es: seq<Event>)
    requires Legal(p, cap, s, es)
    requires Balanced(cap, s)
    ensures Explains(EffectOf(p, es), s.live, s.next, Run(p, s, es).live, Run(p, s, es).next)
  {
    if es != [] {
      var front, e := es[..|es|-1], es[|es|-1];
      assert es == front + [e];
      RoundExplained(p, cap, s, front);
      RunKeepsBalance(p, cap, s, front);
      var t := Run(p, s, front);
      EventNames(p, cap, t, e);
      ExtendRound(p, front, e);
      hide Apply, Enabled, Partitioned, HangsUp, Served, Seats, HungUp, Evicted, Explains;
      ExplainsStep(p, EffectOf(p, front), EffectOf(p, es), s.live, s.next, t, Apply(p, t, e), e);
    }
  }

  /** One whole loop iteration, whatever its order of events: it removes exactly the visited
      clients that failed or said quit or exit (or were evicted at shutdown), adds exactly the
      newcomers that were seated, and every newcomer is a connection never seen before. */
  lemma RoundEffect(p: Policy, cap: nat, s: State, es: seq<Event>)
    requires Legal(p, cap, s, es)
    requires Balanced(cap, s)
    ensures Run(p, s, es).live == s.live + Seats(es) - HungUp(p, es) - Evicted(es)
    ensures Served(es) <= s.live + Seats(es)
    ensures Seats(es) !! s.live + s.closed + s.away
    ensures HungUp(p, es) ==
      set e | e in es && e.Serve? && (
        || e.visit.received <= 0
        || e.visit.data == "quit" || e.visit.data == "exit" || "quit\0" <= e.visit.data || "exit\0" <= e.visit.data
        || (p.Plain? && e.visit.sent <= 0)) :: e.c
  {
    RoundExplained(p, cap, s, es);
    HungUpMeans(p, es);
  }

  lemma HungUpMeans(p: Policy, es: seq<Event>)
    ensures HungUp(p, es) ==
      set e | e in es && e.Serve? && (
        || e.visit.received <= 0
        || e.visit.data == "quit" || e.visit.data == "exit" || "quit\0" <= e.visit.data || "exit\0" <= e.visit.data
        || (p.Plain? && e.visit.sent <= 0)) :: e.c
  {
    forall e | e in es && e.Serve? ensures SaysFarewell(e.visit.data) <==>
      e.visit.data == "quit" || e.visit.data == "exit" || "quit\0" <= e.visit.data || "exit\0" <= e.visit.data
    {
      FarewellMeans(e.visit.data);
    }
    hide SaysFarewell;
  }

  /** Rounds compose: a run of the whole history is the run of its rounds one after another. */
  lemma {:induction false} RunAppend(p: Policy, cap: nat, s: State, es: seq<Event>, fs: seq<Event>)
    ensures Run(p, s, es + fs) == Run(p, Run(p, s, es), fs)
    ensures Legal(p, cap, s, es + fs) <==> Legal(p, cap, s, es) && Legal(p, cap, Run(p, s, es), fs)
  {
    if fs == [] {
      assert es + fs == es;
    } else {
      var m := |fs| - 1;
      assert (es + fs)[..|es + fs| - 1] == es + fs[..m];
      RunAppend(p, cap, s, es, fs[..m]);
    }
  }

  // ---------- turning away ----------

  // What one event does to the connections turned away.
  lemma AwayByEvent(p: Policy, cap: nat, s: State, e: Event)
    requires Balanced(cap, s) && Enabled(p, cap, s, e)
    ensures e.Arrive? ==> (e.c in Apply(p, s, e).away <==> |s.live| == cap)
    ensures forall c :: c < s.next ==> (c in Apply(p, s, e).away <==> c in s.away)
  {
    hide HangsUp;
  }

  /** A connection is turned away exactly if the table was full when it arrived. */
  lemma {:induction false} AwayExactly(p: Policy, cap: nat, es: seq<Event>, i: nat)
    requires Legal(p, cap, INITIAL, es) && i < |es| && es[i].Arrive?
    ensures es[i].c in Run(p, INITIAL, es).away <==> |Run(p, INITIAL, es[..i]).live| == cap
  {
    hide Enabled, Apply, Partitioned;
    var front, e := es[..|es|-1], es[|es|-1];
    Conservation(p, cap, front);
    AwayByEvent(p, cap, Run(p, INITIAL, front), e);
    if i < |es| - 1 {
      AwayExactly(p, cap, front, i);
      assert front[..i] == es[..i];
      ArrivedIsKnown(p, cap, front, i);
    }
  }

  lemma {:induction false} ArrivedIsKnown(p: Policy, cap: nat, es: seq<Event>, i: nat)
    requires Legal(p, cap, INITIAL, es) && i < |es| && es[i].Arrive?
    ensures es[i].c < Run(p, INITIAL, es).next
  {
    if i < |es| - 1 {
      ArrivedIsKnown(p, cap, es[..|es|-1], i);
    }
  }

  /** A run that fills the table. */
  function Filling(n: nat): seq<Event> {
    if n == 0 then [] else Filling(n - 1) + [Arrive(n - 1, Seated)]
  }

  function Below(n: nat): set<Conn> {
    if n == 0 then {} else Below(n - 1) + {n - 1}
  }

  lemma {:induction false} BelowCount(n: nat)
    ensures |Below(n)| == n && forall c :: c in Below(n) ==> c < n
  {
    if n > 0 {
      BelowCount(n - 1);
    }
  }

  // One more newcomer, when there is room.
  lemma FillingStep(p: Policy, cap: nat, n: nat)
    requires n < cap
    ensures var s, e := State(Below(n), n, {}, {}), Arrive(n, Seated);
            Enabled(p, cap, s, e) && Apply(p, s, e) == State(Below(n + 1), n + 1, {}, {})
  {
    BelowCount(n);
  }

  lemma FillingNone(p: Policy, cap: nat)
    ensures Legal(p, cap, INITIAL, Filling(0)) && Run(p, INITIAL, Filling(0)) == State(Below(0), 0, {}, {})
  {
  }

  lemma FillingGrows(p: Policy, cap: nat, n: nat)
    requires n < cap
    requires Legal(p, cap, INITIAL, Filling(n)) && Run(p, INITIAL, Filling(n)) == State(Below(n), n, {}, {})
    ensures Legal(p, cap, INITIAL, Filling(n + 1))
    ensures Run(p, INITIAL, Filling(n + 1)) == State(Below(n + 1), n + 1, {}, {})
  {
    hide Run, Legal, Enabled, Apply, Calls, EventCalls, Below;
    FillingStep(p, cap, n);
    Extend(p, cap, INITIAL, Filling(n), Arrive(n, Seated));
  }

  lemma {:induction false} FillingIsLegal(p: Policy, cap: nat, n: nat)
    requires n <= cap
    ensures Legal(p, cap, INITIAL, Filling(n))
    ensures Run(p, INITIAL, Filling(n)) == State(Below(n), n, {}, {})
  {
    hide Run, Legal, Below;
    if n == 0 {
      FillingNone(p, cap);
    } else {
      FillingIsLegal(p, cap, n - 1);
      FillingGrows(p, cap, n - 1);
    }
  }

  /** It happens: the client that arrives after capacity many is turned away, and never closed. */
  lemma TurnedAwayClient(p: Policy, cap: nat)
    ensures var es := Filling(cap) + [Arrive(cap, TurnedAway)];
            Legal(p, cap, INITIAL, es) && Run(p, INITIAL, es).away == {cap}
            && Count(Calls(p, es), Accept(cap)) == 1 && Count(Calls(p, es), Close(cap)) == 0
  {
    var es := Filling(cap) + [Arrive(cap, TurnedAway)];
    FillingIsLegal(p, cap, cap);
    BelowCount(cap);
    Extend(p, cap, INITIAL, Filling(cap), Arrive(cap, TurnedAway));
    AcceptedAndClosedOnce(p, cap, es, cap);
  }
}
