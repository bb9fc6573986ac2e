/** Whole loop iterations of the three servers.  A history falls into rounds by itself: each wait
    for select or poll begins one. */
module Rounds {

  import opened Connections

  const MAX_CONNECTION: nat := 100

  datatype Server = SelectLoop | PollLoop | TlsLoop {
    function Hangup(): Policy { if TlsLoop? then Tls else Plain }

    // The poll tables keep the listener in one of their entries.
    function Capacity(): nat { if SelectLoop? then MAX_CONNECTION else MAX_CONNECTION - 1 }

    /** The state of the machine after a history. */
    function After(history: seq<Event>): State {
      Run(Hangup(), INITIAL, history)
    }

    predicate IsLegal(history: seq<Event>) {
      Legal(Hangup(), Capacity(), INITIAL, history)
    }

    /** The answers that end the server loop. */
    predicate Stops(w: Answer) {
      match this
      case SelectLoop => false
      case PollLoop => w.activity < 0
      case TlsLoop => w.activity <= 0
    }
  }

  // ---------- rounds ----------

  // One iteration: what select or poll answered, and what happened until the next wait.
  datatype Round = Round(answer: Answer, events: seq<Event>)

  /** The rounds of a history. */
  function Split(history: seq<Event>): seq<Round> {
    if history == [] then [] else AddEvent(Split(history[..|history|-1]), history[|history|-1])
  }

  // A wait begins a round; any other event belongs to the last one.
  function AddEvent(rounds: seq<Round>, e: Event): seq<Round> {
    if e.Waited? then rounds + [Round(e.answer, [])]
    else if rounds == [] then []
    else
      var m := |rounds| - 1;
      rounds[..m] + [rounds[m].(events := rounds[m].events + [e])]
  }

  /** The history before round k; all of it if there is no such round. */
  function Before(history: seq<Event>, k: nat): (h: seq<Event>)
    ensures h <= history
  {
    if k >= |Split(history)| then history
    else
      var front, e := history[..|history|-1], history[|history|-1];
      if e.Waited? && k == |Split(front)| then front else Before(front, k)
  }

  /** The answers that the system calls logged. */
  function Answers(calls: seq<Call>): seq<Answer> {
    if calls == [] then []
    else
      var x := calls[|calls|-1];
      Answers(calls[..|calls|-1]) + (if x.Wait? then [x.answer] else [])
  }

  lemma OneMoreEvent(front: seq<Event>, e: Event)
    ensures Split(front + [e]) == AddEvent(Split(front), e)
    ensures forall k: nat :: k < |Split(front + [e])| ==>
      Before(front + [e], k) == if e.Waited? && k == |Split(front)| then front else Before(front, k)
    ensures forall k: nat :: k >= |Split(front + [e])| ==> Before(front + [e], k) == front + [e]
  {
    hide AddEvent;
    assert (front + [e])[..|front|] == front;
  }

  lemma AllRounds(history: seq<Event>, k: nat)
    requires k >= |Split(history)|
    ensures Before(history, k) == history
  {
  }

  lemma Reassociate(h: seq<Event>, w: Answer, es: seq<Event>, e: Event)
    ensures h + [Waited(w)] + es + [e] == h + [Waited(w)] + (es + [e])
  {
  }

  /** A round is its wait and its events, and the rounds follow one another. */
  lemma {:induction false} RoundsMeet(history: seq<Event>, k: nat)
    requires k < |Split(history)|
    ensures Before(history, k + 1) ==
            Before(history, k) + [Waited(Split(history)[k].answer)] + Split(history)[k].events
    ensures forall e :: e in Split(history)[k].events ==> !e.Waited?
  {
    assert history != [];
    hide Split, Before;
    var front, e := history[..|history|-1], history[|history|-1];
    var before := Split(front);
    assert history == front + [e];
    OneMoreEvent(front, e);
    if k < |before| {
      RoundsMeet(front, k);
      if k == |before| - 1 {
        AllRounds(front, k + 1);
        Reassociate(Before(front, k), before[k].answer, before[k].events, e);
      }
    } else {
      assert Split(history)[k] == Round(e.answer, []);
      assert front + [e] + [] == history;
    }
  }

  // The answers that begin these rounds.
  function FirstAnswers(rounds: seq<Round>): (answers: seq<Answer>)
    ensures |answers| == |rounds|
    ensures forall k :: 0 <= k < |rounds| ==> answers[k] == rounds[k].answer
  {
    seq(|rounds|, k requires 0 <= k < |rounds| => rounds[k].answer)
  }

  lemma FirstAnswersAfter(rounds: seq<Round>, e: Event)
    ensures FirstAnswers(AddEvent(rounds, e)) == FirstAnswers(rounds) + (if e.Waited? then [e.answer] else [])
  {
  }

  lemma {:induction false} WaitsAreRounds(p: Policy, history: seq<Event>)
    ensures Answers(Calls(p, history)) == FirstAnswers(Split(history))
  {
    if history != [] {
      hide Answers, EventCalls, Split, AddEvent, FirstAnswers;
      var front, e := history[..|history|-1], history[|history|-1];
      assert history == front + [e];
      WaitsAreRounds(p, front);
      OneMoreEvent(front, e);
      assert Calls(p, history) == Calls(p, front) + EventCalls(p, e);
      hide Calls;
      AnswersOfEvent(p, Calls(p, front), e);
      FirstAnswersAfter(Split(front), e);
    }
  }

  /** Every wait that was logged begins a round, with that answer. */
  lemma EveryWaitIsARound(p: Policy, history: seq<Event>)
    ensures |Answers(Calls(p, history))| == |Split(history)|
    ensures forall k :: 0 <= k < |Split(history)| ==> Split(history)[k].answer == Answers(Calls(p, history))[k]
  {
    hide Answers, Calls, Split;
    WaitsAreRounds(p, history);
  }

  lemma {:induction false} AnswersAppend(a: seq<Call>, b: seq<Call>)
    requires forall x :: x in b ==> !x.Wait?
    ensures Answers(a + b) == Answers(a)
  {
    if b == [] {
      assert a + b == a;
    } else {
      var m := |b| - 1;
      assert (a + b)[..|a + b| - 1] == a + b[..m] && b[m] in b;
      AnswersAppend(a, b[..m]);
    }
  }

  lemma AnswersOfEvent(p: Policy, calls: seq<Call>, e: Event)
    ensures Answers(calls + EventCalls(p, e)) == Answers(calls) + (if e.Waited? then [e.answer] else [])
  {
    if e.Waited? {
      assert (calls + [Wait(e.answer)])[..|calls|] == calls;
    } else {
      AnswersAppend(calls, EventCalls(p, e));
    }
  }

  /** A wait and the events of a sweep add one round. */
  lemma {:induction false} SplitAfterRound(h: seq<Event>, w: Answer, es: seq<Event>)
    requires InSweep(es)
    ensures Split(h + [Waited(w)] + es) == Split(h) + [Round(w, es)]
    ensures forall k: nat :: k < |Split(h)| ==> Before(h + [Waited(w)] + es, k) == Before(h, k)
    ensures Before(h + [Waited(w)] + es, |Split(h)|) == h
  {
    hide Split, Before;
    if es == [] {
      assert h + [Waited(w)] + es == h + [Waited(w)];
      OneMoreEvent(h, Waited(w));
    } else {
      var m := |es| - 1;
      assert es[m] in es && forall e :: e in es[..m] ==> e in es;
      SplitAfterRound(h, w, es[..m]);
      assert es[..m] + [es[m]] == es;
      Reassociate(h, w, es[..m], es[m]);
      OneMoreEvent(h + [Waited(w)] + es[..m], es[m]);
      assert (Split(h) + [Round(w, es[..m])])[..|Split(h)|] == Split(h);
    }
  }

  // ---------- what every iteration keeps to ----------

  /** What every iteration keeps to, when it starts with the given clients in the table.  The wait
      watches the listener and all of these clients.  Accept is called exactly if the listener was
      reported.

      select: the clients received from are exactly the reported ones.

      poll: a failed accept skips the sweep altogether; otherwise every reported client is
      received from.  A client that was not reported can be received from too (its descriptor may
      have been moved under another entry's flag), but at most one such client for each client
      removed, not counting the newcomer.  When poll fails nothing happens.

      TLS: only reported clients are read from; at most one of them is left for a later iteration
      for each client removed.  When poll reports nothing, nothing happens. */
  ghost predicate RoundOk(server: Server, clients: set<Conn>, r: Round) {
    var served, reported := Served(r.events), r.answer.reported;
    && r.answer.listens && r.answer.watched == clients && reported <= clients
    && InSweep(r.events) && ServedOnce(r.events)
    && Attempts(r.events) == (if r.answer.listener then 1 else 0)
    && (server.Stops(r.answer) ==> r.events == [])
    && match server
       case SelectLoop => served == reported
       case PollLoop =>
         if Skipped(r) then r.events == [AcceptFailed]
         else reported <= served && |served - reported - Seats(r.events)| <= |HungUp(Plain, r.events)|
       case TlsLoop =>
         served <= reported && |reported - served| <= |HungUp(Tls, r.events)|
  }

  /** Accept was called in this round and failed. */
  predicate Skipped(r: Round) {
    AcceptFailed in r.events
  }

  /** Every round of the history keeps to RoundOk, starting from the clients that the history
      before it has left live, and only the last can have ended the loop. */
  ghost predicate RoundsOk(server: Server, history: seq<Event>) {
    && (forall k :: 0 <= k < |Split(history)| ==> RoundKeeps(server, history, k))
    && (Split(history) == [] || GoesOn(server, Split(history)[..|Split(history)| - 1]))
  }

  ghost predicate RoundKeeps(server: Server, history: seq<Event>, k: nat)
    requires k < |Split(history)|
  {
    RoundOk(server, server.After(Before(history, k)).live, Split(history)[k])
  }

  /** None of these rounds has ended the loop. */
  ghost predicate GoesOn(server: Server, rounds: seq<Round>) {
    forall k :: 0 <= k < |rounds| ==> !server.Stops(rounds[k].answer)
  }

  ghost predicate Running(server: Server, history: seq<Event>) {
    GoesOn(server, Split(history))
  }

  lemma NoRounds(server: Server)
    ensures Split([]) == [] && RoundsOk(server, []) && Running(server, [])
  {
  }

  // Round k of a history with one more round.
  lemma RoundAt(server: Server, h: seq<Event>, w: Answer, es: seq<Event>, k: nat)
    requires RoundsOk(server, h) && InSweep(es) && k <= |Split(h)|
    requires RoundOk(server, server.After(h).live, Round(w, es))
    ensures k < |Split(h + [Waited(w)] + es)| && RoundKeeps(server, h + [Waited(w)] + es, k)
  {
    hide RoundOk, Split, Before, Run, InSweep, GoesOn;
    SplitAfterRound(h, w, es);
    if k < |Split(h)| {
      assert RoundKeeps(server, h, k);
    }
  }

  lemma OneMoreRound(server: Server, rounds: seq<Round>, r: Round)
    ensures (rounds + [r])[..|rounds|] == rounds
    ensures GoesOn(server, rounds + [r]) <==> GoesOn(server, rounds) && !server.Stops(r.answer)
  {
    var all := rounds + [r];
    assert all[|rounds|] == r && forall k :: 0 <= k < |rounds| ==> all[k] == rounds[k];
  }

  lemma ExtendRounds(server: Server, h: seq<Event>, w: Answer, es: seq<Event>)
    requires RoundsOk(server, h) && Running(server, h)
    requires RoundOk(server, server.After(h).live, Round(w, es))
    ensures var h' := h + [Waited(w)] + es;
      && RoundsOk(server, h') && Split(h') == Split(h) + [Round(w, es)]
      && (Running(server, h') <==> !server.Stops(w))
  {
    RoundInSweep(server, server.After(h).live, Round(w, es));
    var h' := h + [Waited(w)] + es;
    SplitAfterRound(h, w, es);
    hide RoundOk, RoundKeeps, Split, Before, Run, InSweep, GoesOn;
    OneMoreRound(server, Split(h), Round(w, es));
    forall k | 0 <= k < |Split(h')| ensures RoundKeeps(server, h', k) {
      RoundAt(server, h, w, es, k);
    }
  }

  lemma RoundInSweep(server: Server, clients: set<Conn>, r: Round)
    requires RoundOk(server, clients, r)
    ensures InSweep(r.events)
  {
  }

  lemma {:induction false} SeatsBound(es: seq<Event>)
    ensures |Seats(es)| <= Attempts(es)
  {
    if es == [] {
      assert Seats(es) == {};
    } else {
      var front, e := es[..|es|-1], es[|es|-1];
      assert es == front + [e];
      SeatsBound(front);
      ExtendRound(Plain, front, e);
    }
  }

  // ---------- what the rounds do ----------

  /** What one iteration does to the clients: those live afterwards are those before, without
      exactly the visited ones that failed or said quit or exit, and with at most one newcomer,
      which was never seen before and comes only if the listener was reported; capacity is never
      exceeded; and a reported client that was not received from is still there. */
  ghost predicate Effective(server: Server, before: State, after: State, r: Round) {
    && after.live == before.live + Seats(r.events) - HungUp(server.Hangup(), r.events)
    && |after.live| <= server.Capacity()
    && |Seats(r.events)| <= (if r.answer.listener then 1 else 0)
    && Seats(r.events) !! before.live + before.closed + before.away
    && r.answer.reported - Served(r.events) <= after.live
  }

  /** The three servers refine one machine: RoundOk gives the effect of a legal round. */
  lemma IterationEffect(server: Server, h: seq<Event>, r: Round)
    requires server.IsLegal(h + [Waited(r.answer)] + r.events)
    requires RoundOk(server, server.After(h).live, r)
    ensures Effective(server, server.After(h), server.After(h + [Waited(r.answer)] + r.events), r)
  {
    hide Run, Legal, HangsUp, RoundOk, Partitioned, Served, Seats, HungUp, Evicted, Attempts, InSweep;
    var p, cap, w := server.Hangup(), server.Capacity(), [Waited(r.answer)];
    RunAppend(p, cap, INITIAL, h + w, r.events);
    Extend(p, cap, INITIAL, h, Waited(r.answer));
    var s := server.After(h);
    assert server.After(h + w) == s;
    Conservation(p, cap, h);
    Conservation(p, cap, h + w + r.events);
    RoundEffect(p, cap, s, r.events);
    SeatsBound(r.events);
    RoundFacts(server, s.live, r);
    StillThere(s.live, r.answer.reported, Served(r.events), HungUp(p, r.events), Seats(r.events));
  }

  // A reported client that was not received from has not hung up.
  lemma StillThere(live: set<Conn>, reported: set<Conn>, served: set<Conn>, hung: set<Conn>, seats: set<Conn>)
    requires reported <= live && hung <= served
    ensures reported - served <= live + seats - hung
    ensures live + seats - hung - {} == live + seats - hung
  {
  }

  // What every round keeps to, whichever the server.
  lemma RoundFacts(server: Server, clients: set<Conn>, r: Round)
    requires RoundOk(server, clients, r)
    ensures r.answer.reported <= clients && Attempts(r.events) == (if r.answer.listener then 1 else 0)
    ensures Evicted(r.events) == {} && HungUp(server.Hangup(), r.events) <= Served(r.events)
  {
    hide HangsUp;
  }

  // The newcomers of a round have not been seen before.
  lemma SeatsAreNew(server: Server, h: seq<Event>, r: Round)
    requires server.IsLegal(h + [Waited(r.answer)] + r.events)
    requires RoundOk(server, server.After(h).live, r)
    ensures forall c :: c in Seats(r.events) ==> c >= server.After(h).next
    ensures forall c :: c in server.After(h).live ==> c < server.After(h).next
    ensures server.After(h).next <= server.After(h + [Waited(r.answer)] + r.events).next
  {
    hide Run, Legal, HangsUp, RoundOk;
    var p, cap, w := server.Hangup(), server.Capacity(), [Waited(r.answer)];
    RunAppend(p, cap, INITIAL, h + w, r.events);
    Extend(p, cap, INITIAL, h, Waited(r.answer));
    Conservation(p, cap, h);
    RunKeepsBalance(p, cap, server.After(h + w), r.events);
    IterationEffect(server, h, r);
  }

  /** A connection is turned away exactly if 100 clients were registered with the select server when it
      arrived, or 99 with one of the others, whose tables hold the listener, too. */
  lemma AwayAt(server: Server, history: seq<Event>, i: nat)
    requires server.IsLegal(history) && i < |history| && history[i].Arrive?
    ensures history[i].c in server.After(history).away
       <==> |server.After(history[..i]).live| == if server.SelectLoop? then 100 else 99
  {
    AwayExactly(server.Hangup(), server.Capacity(), history, i);
  }

  /** The loop has not ended exactly if no logged wait has failed or, over TLS, reported nothing. */
  lemma RunningMeans(server: Server, history: seq<Event>)
    ensures Running(server, history) <==>
      forall w :: w in Answers(Calls(server.Hangup(), history)) ==>
        match server case SelectLoop => true case PollLoop => w.activity >= 0 case TlsLoop => w.activity > 0
  {
    var answers := Answers(Calls(server.Hangup(), history));
    EveryWaitIsARound(server.Hangup(), history);
    hide Split, Answers, Calls;
    forall w | w in answers ensures exists k :: 0 <= k < |Split(history)| && Split(history)[k].answer == w {
      var k :| 0 <= k < |answers| && answers[k] == w;
      assert Split(history)[k].answer == w;
    }
    assert forall k :: 0 <= k < |Split(history)| ==> Split(history)[k].answer in answers;
  }

  lemma LegalBefore(server: Server, history: seq<Event>, k: nat)
    requires server.IsLegal(history)
    ensures server.IsLegal(Before(history, k))
  {
    var h := Before(history, k);
    assert history == h + history[|h|..];
    RunAppend(server.Hangup(), server.Capacity(), INITIAL, h, history[|h|..]);
  }

  /** Every iteration of every run has that effect. */
  lemma EveryIteration(server: Server, history: seq<Event>, k: nat)
    requires server.IsLegal(history) && RoundsOk(server, history) && k < |Split(history)|
    ensures Effective(server, server.After(Before(history, k)), server.After(Before(history, k + 1)), Split(history)[k])
  {
    assert RoundKeeps(server, history, k);
    hide RoundOk, Legal, Run, Split, Before, Effective;
    RoundsMeet(history, k);
    LegalBefore(server, history, k + 1);
    IterationEffect(server, Before(history, k), Split(history)[k]);
  }

  /** In every iteration of every run the poll server receives from every reported client exactly if
      accept did not fail in it, or nobody was reported. */
  lemma PollComplete(history: seq<Event>, k: nat)
    requires RoundsOk(PollLoop, history) && k < |Split(history)|
    ensures var r := Split(history)[k];
      && (r.answer.reported <= Served(r.events) <==> !Skipped(r) || r.answer.reported == {})
      && (Skipped(r) ==> r.answer.listener && r.events == [AcceptFailed])
  {
    hide Split, Before, Run;
    assert RoundKeeps(PollLoop, history, k);
    assert Attempts([AcceptFailed]) == Attempts([AcceptFailed][..0]) + 1;
    assert Served([AcceptFailed]) == {};
  }

  /** It happens: a reported client that this round does not receive from. */
  lemma SkippedSweep()
    ensures var r := Round(Answer(2, true, {0}, true, {0}), [AcceptFailed]);
            var h := [Arrive(0, Seated)];
            PollLoop.IsLegal(h + [Waited(r.answer)] + r.events)
            && RoundOk(PollLoop, PollLoop.After(h).live, r) && 0 in r.answer.reported - Served(r.events)
  {
    var w, h := Answer(2, true, {0}, true, {0}), [Arrive(0, Seated)];
    var p, cap := Plain, PollLoop.Capacity();
    assert [] + [Arrive(0, Seated)] == h;
    Extend(p, cap, INITIAL, [], Arrive(0, Seated));
    Extend(p, cap, INITIAL, h, Waited(w));
    Extend(p, cap, INITIAL, h + [Waited(w)], AcceptFailed);
    assert Attempts([AcceptFailed]) == Attempts([AcceptFailed][..0]) + 1;
    assert Served([AcceptFailed]) == {};
  }
}
