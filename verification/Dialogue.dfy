/** What the servers say to their clients, read off the log of system calls alone. */
module Dialogue {

  import opened Connections

  ghost predicate At(calls: seq<Call>, i: int, x: Call) {
    0 <= i < |calls| && calls[i] == x
  }

  ghost predicate SendsAt(calls: seq<Call>, i: int, c: Conn) {
    0 <= i < |calls| && calls[i].Send? && calls[i].c == c
  }

  ghost predicate RecvsAt(calls: seq<Call>, i: int, c: Conn) {
    0 <= i < |calls| && calls[i].Recv? && calls[i].c == c
  }

  /** The clear-text servers, at one call.  A client from which something came is sent an answer
      next; it is closed right after that if the answer failed or the text was quit or exit, and only
      then.  A client from which nothing came is closed next.  Nothing else is sent, and nothing else
      is closed. */
  ghost predicate ClearTextAt(calls: seq<Call>, i: nat)
    requires i < |calls|
  {
    match calls[i]
    case Recv(c, n, data) =>
      if n <= 0 then At(calls, i + 1, Close(c))
      else
        && SendsAt(calls, i + 1, c)
        && (At(calls, i + 2, Close(c)) <==>
            calls[i + 1].sent <= 0 || data == "quit" || data == "exit" || "quit\0" <= data || "exit\0" <= data)
    case Send(c, _) => RecvsAt(calls, i - 1, c) && calls[i - 1].received > 0
    case Close(c) => RecvsAt(calls, i - 1, c) || SendsAt(calls, i - 1, c)
    case Handshake(_, _) => false
    case _ => true
  }

  /** The TLS server, at one call.  A client from which nothing came, or the text quit or exit, is
      closed next, any other is sent an answer next, and nothing else is sent.  A newcomer shakes
      hands right after it was accepted, and is closed next if that failed. */
  ghost predicate TlsAt(calls: seq<Call>, i: nat)
    requires i < |calls|
  {
    match calls[i]
    case Recv(c, n, data) =>
      if n <= 0 || data == "quit" || data == "exit" || "quit\0" <= data || "exit\0" <= data
      then At(calls, i + 1, Close(c))
      else SendsAt(calls, i + 1, c)
    case Send(c, _) => RecvsAt(calls, i - 1, c)
    case Handshake(c, succeeded) => At(calls, i - 1, Accept(c)) && (!succeeded ==> At(calls, i + 1, Close(c)))
    case _ => true
  }

  ghost predicate ClearText(calls: seq<Call>) {
    forall i :: 0 <= i < |calls| ==> ClearTextAt(calls, i)
  }

  ghost predicate OverTls(calls: seq<Call>) {
    forall i :: 0 <= i < |calls| ==> TlsAt(calls, i)
  }

  // The three visits there are, by themselves.
  lemma NothingCame(c: Conn, n: int, data: string)
    requires n <= 0
    ensures ClearText([Recv(c, n, data), Close(c)])
  {
  }

  lemma Stays(c: Conn, n: int, data: string, m: int)
    requires n > 0 && m > 0
    requires !(data == "quit" || data == "exit" || "quit\0" <= data || "exit\0" <= data)
    ensures ClearText([Recv(c, n, data), Send(c, m)])
  {
  }

  lemma Leaves(c: Conn, n: int, data: string, m: int)
    requires n > 0
    requires m <= 0 || data == "quit" || data == "exit" || "quit\0" <= data || "exit\0" <= data
    ensures ClearText([Recv(c, n, data), Send(c, m), Close(c)])
  {
    var cs := [Recv(c, n, data), Send(c, m), Close(c)];
    assert ClearTextAt(cs, 0) && ClearTextAt(cs, 1) && ClearTextAt(cs, 2);
  }

  lemma VisitInClearText(c: Conn, v: Visit)
    ensures ClearText(VisitCalls(Plain, c, v))
  {
    PlainVisitMeans([], c, v);
    var cs := VisitCalls(Plain, c, v);
    assert [] + cs == cs;
    hide VisitCalls, HangsUp, ClearText;
    if v.received <= 0 {
      NothingCame(c, v.received, v.data);
      assert cs == [Recv(c, v.received, v.data), Close(c)];
    } else if HangsUp(Plain, v) {
      Leaves(c, v.received, v.data, v.sent);
      assert cs == [Recv(c, v.received, v.data), Send(c, v.sent), Close(c)];
    } else {
      Stays(c, v.received, v.data, v.sent);
      assert cs == [Recv(c, v.received, v.data), Send(c, v.sent)];
    }
  }

  // The calls of one event keep to it by themselves, and do not begin with a close or an answer.
  lemma EventInClearText(cap: nat, s: State, e: Event)
    requires Enabled(Plain, cap, s, e)
    ensures var now := EventCalls(Plain, e);
            now != [] && !now[0].Close? && !now[0].Send? && ClearText(now)
  {
    hide HangsUp;
    if e.Serve? {
      VisitInClearText(e.c, e.visit);
      hide ClearText;
    }
  }

  lemma ClearTextAppends(before: seq<Call>, now: seq<Call>)
    requires ClearText(before) && ClearText(now) && now != [] && !now[0].Close?
    ensures ClearText(before + now)
  {
    var all, m := before + now, |before|;
    forall i | 0 <= i < |all| ensures ClearTextAt(all, i) {
      if i < m {
        assert ClearTextAt(before, i);
      } else {
        assert ClearTextAt(now, i - m);
        assert forall j :: m <= j < |all| ==> all[j] == now[j - m];
      }
    }
  }

  /** Every legal history of a clear-text server keeps to it. */
  lemma {:induction false} SpeaksClearText(cap: nat, es: seq<Event>)
    requires Legal(Plain, cap, INITIAL, es)
    ensures ClearText(Calls(Plain, es))
  {
    if es != [] {
      hide Enabled, EventCalls, ClearText;
      var front, e := es[..|es|-1], es[|es|-1];
      SpeaksClearText(cap, front);
      EventInClearText(cap, Run(Plain, INITIAL, front), e);
      ClearTextAppends(Calls(Plain, front), EventCalls(Plain, e));
    } else {
      assert Calls(Plain, []) == [];
    }
  }

  lemma EventOverTls(e: Event)
    ensures OverTls(EventCalls(Tls, e))
  {
    if e.Serve? {
      TlsVisitMeans([], e.c, e.visit);
      assert [] + VisitCalls(Tls, e.c, e.visit) == VisitCalls(Tls, e.c, e.visit);
      hide VisitCalls, HangsUp;
    }
  }

  lemma OverTlsAppends(before: seq<Call>, now: seq<Call>)
    requires OverTls(before) && OverTls(now)
    ensures OverTls(before + now)
  {
    var all, m := before + now, |before|;
    forall i | 0 <= i < |all| ensures TlsAt(all, i) {
      if i < m {
        assert TlsAt(before, i);
      } else {
        assert TlsAt(now, i - m);
        assert forall j :: m <= j < |all| ==> all[j] == now[j - m];
      }
    }
  }

  /** Every history of the TLS server keeps to it. */
  lemma {:induction false} SpeaksTls(es: seq<Event>)
    ensures OverTls(Calls(Tls, es))
  {
    if es == [] {
      assert Calls(Tls, []) == [];
    } else {
      hide EventCalls, OverTls;
      SpeaksTls(es[..|es|-1]);
      EventOverTls(es[|es|-1]);
      OverTlsAppends(Calls(Tls, es[..|es|-1]), EventCalls(Tls, es[|es|-1]));
    }
  }

  // ---------- who shakes hands ----------

  function Handshakes(calls: seq<Call>, c: Conn): nat {
    Count(calls, Handshake(c, true)) + Count(calls, Handshake(c, false))
  }

  lemma HandshakesOfEvent(e: Event, c: Conn)
    ensures Handshakes(EventCalls(Tls, e), c) == if e.Arrive? && e.c == c && !e.admission.TurnedAway? then 1 else 0
  {
    hide HangsUp;
    CountFew(EventCalls(Tls, e), Handshake(c, true));
    CountFew(EventCalls(Tls, e), Handshake(c, false));
    hide Count;
  }

  // What an event does to the connections accepted and not turned away.
  lemma AdmittedByEvent(cap: nat, s: State, e: Event, c: Conn)
    requires Balanced(cap, s) && Enabled(Tls, cap, s, e)
    ensures var t := Apply(Tls, s, e);
            (c < t.next && c !in t.away) <==>
            (c < s.next && c !in s.away) || (e.Arrive? && e.c == c && !e.admission.TurnedAway?)
    ensures e.Arrive? ==> e.c == s.next
  {
    hide HangsUp;
  }

  /** Over TLS every accepted connection has made one handshake, unless it was turned away. */
  lemma {:induction false} ShakesHandsOnce(cap: nat, es: seq<Event>, c: Conn)
    requires Legal(Tls, cap, INITIAL, es)
    ensures Handshakes(Calls(Tls, es), c) ==
            if c < Run(Tls, INITIAL, es).next && c !in Run(Tls, INITIAL, es).away then 1 else 0
  {
    if es == [] {
      assert Calls(Tls, []) == [];
    } else {
      hide EventCalls, Count;
      var front, e := es[..|es|-1], es[|es|-1];
      ShakesHandsOnce(cap, front, c);
      Conservation(Tls, cap, front);
      AdmittedByEvent(cap, Run(Tls, INITIAL, front), e, c);
      hide Apply, Enabled, Partitioned;
      CountAppend(Calls(Tls, front), EventCalls(Tls, e), Handshake(c, true));
      CountAppend(Calls(Tls, front), EventCalls(Tls, e), Handshake(c, false));
      HandshakesOfEvent(e, c);
    }
  }
}
