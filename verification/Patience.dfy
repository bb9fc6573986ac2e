/** How often a client of the TLS server can be put off: a sweep that leaves a reported client unread
    has moved it into an earlier slot, and no sweep moves a client into a later one. */
module Patience {

  import opened Connections
  import opened Rounds
  import opened Slots

  /** The most often that a client can be put off: the index of the last client slot. */
  const PATIENCE: nat := TlsLoop.Capacity() - 1

  /** The client was reported in this round and not read from. */
  predicate PutOff(r: Round, c: Conn) {
    c in r.answer.reported && c !in Served(r.events)
  }

  // In how many rounds the client was put off, was reported, and was read from.
  function Deferrals(rounds: seq<Round>, c: Conn): nat {
    if rounds == [] then 0
    else Deferrals(rounds[..|rounds|-1], c) + (if PutOff(rounds[|rounds|-1], c) then 1 else 0)
  }

  function Reports(rounds: seq<Round>, c: Conn): nat {
    if rounds == [] then 0
    else Reports(rounds[..|rounds|-1], c) + (if c in rounds[|rounds|-1].answer.reported then 1 else 0)
  }

  function Reads(rounds: seq<Round>, c: Conn): nat {
    if rounds == [] then 0
    else Reads(rounds[..|rounds|-1], c) + (if c in Served(rounds[|rounds|-1].events) then 1 else 0)
  }

  lemma OneMoreDeferral(rounds: seq<Round>, r: Round, c: Conn)
    ensures Deferrals(rounds + [r], c) == Deferrals(rounds, c) + (if PutOff(r, c) then 1 else 0)
  {
    assert (rounds + [r])[..|rounds|] == rounds;
  }

  ghost predicate NobodyPutOffTooOften(rounds: seq<Round>) {
    forall c :: Deferrals(rounds, c) <= PATIENCE
  }

  /** Nobody has been put off too often, and the table s holds what is left of each client's patience:
      a client in slot i can be put off at most i times more.  Connections from next on are unseen. */
  ghost predicate Patient(s: seq<Slot>, next: nat, rounds: seq<Round>) {
    && NobodyPutOffTooOften(rounds)
    && (forall i :: 0 <= i < |s| ==> Deferrals(rounds, s[i].c) + i <= PATIENCE)
    && (forall c :: c >= next ==> Deferrals(rounds, c) == 0)
  }

  // The client in slot i of the table after a sweep.
  lemma StaysPatient(s: seq<Slot>, next: nat, rounds: seq<Round>, t: seq<Slot>, newcomers: seq<Slot>,
                     after: seq<Slot>, i: nat)
    requires Patient(s, next, rounds) && SameClients(s, t) && |t + newcomers| <= PATIENCE + 1
    requires forall x :: x in newcomers ==> x.c >= next
    requires NotRaised(t + newcomers, after) && i < |after|
    ensures Deferrals(rounds, after[i].c) + i <= PATIENCE
  {
    assert AtOrAfter(t + newcomers, i, after[i].c);
    var j :| i <= j < |t + newcomers| && (t + newcomers)[j].c == after[i].c;
    if j >= |t| {
      assert newcomers[j - |t|] in newcomers;
    }
  }

  // A client that is put off has one slot less before it.
  lemma LosesPatience(s: seq<Slot>, next: nat, rounds: seq<Round>, t: seq<Slot>, newcomers: seq<Slot>,
                      after: seq<Slot>, hung: set<Conn>, c: Conn) returns (i: nat)
    requires Patient(s, next, rounds) && SameClients(s, t) && Distinct(t + newcomers)
    requires c in Conns(t) && MovedBack(t + newcomers, after, |after|, hung, c)
    ensures i < |after| && after[i].c == c && Deferrals(rounds, c) + 1 + i <= PATIENCE
  {
    var s0 := t + newcomers;
    i :| 0 <= i < |after| && after[i].c == c && Later(s0, i, c);
    assert Later(s0, i, c);
    var j :| 0 <= i < j < |s0| && s0[j].c == c;
    var k :| 0 <= k < |t| && t[k].c == c;
    assert s0[k].c == c;
    assert j == k;
  }

  /** One iteration: with t the table that poll left and after the one that the sweep left. */
  lemma PatientStep(s: seq<Slot>, next: nat, rounds: seq<Round>, t: seq<Slot>, newcomers: seq<Slot>,
                    after: seq<Slot>, next': nat, r: Round, hung: set<Conn>)
    requires Patient(s, next, rounds) && SameClients(s, t) && |t + newcomers| <= PATIENCE + 1
    requires Distinct(t + newcomers) && Distinct(after) && NotRaised(t + newcomers, after)
    requires (forall x :: x in newcomers ==> x.c >= next) && (forall c :: c in Conns(t) ==> c < next) && next <= next'
    requires r.answer.reported <= Conns(t)
    requires forall c :: PutOff(r, c) ==> MovedBack(t + newcomers, after, |after|, hung, c)
    ensures Patient(after, next', rounds + [r])
  {
    forall c ensures Deferrals(rounds + [r], c) <= PATIENCE {
      OneMoreDeferral(rounds, r, c);
      if PutOff(r, c) {
        var i := LosesPatience(s, next, rounds, t, newcomers, after, hung, c);
      }
    }
    forall i | 0 <= i < |after| ensures Deferrals(rounds + [r], after[i].c) + i <= PATIENCE {
      var c := after[i].c;
      OneMoreDeferral(rounds, r, c);
      StaysPatient(s, next, rounds, t, newcomers, after, i);
      if PutOff(r, c) {
        var j := LosesPatience(s, next, rounds, t, newcomers, after, hung, c);
        assert j == i;
      }
    }
    forall c | c >= next' ensures Deferrals(rounds + [r], c) == 0 {
      OneMoreDeferral(rounds, r, c);
    }
  }

  // A round that reports nobody puts nobody off.
  lemma PatientPause(s: seq<Slot>, next: nat, rounds: seq<Round>, r: Round)
    requires Patient(s, next, rounds) && r.answer.reported == {}
    ensures NobodyPutOffTooOften(rounds + [r])
  {
    forall c ensures Deferrals(rounds + [r], c) <= PATIENCE {
      OneMoreDeferral(rounds, r, c);
    }
  }

  lemma {:induction false} ReadOrPutOff(rounds: seq<Round>, c: Conn)
    requires forall k :: 0 <= k < |rounds| ==> Served(rounds[k].events) <= rounds[k].answer.reported
    ensures Reports(rounds, c) == Reads(rounds, c) + Deferrals(rounds, c)
  {
    if rounds != [] {
      hide Served;
      ReadOrPutOff(rounds[..|rounds|-1], c);
    }
  }

  /** Nobody starves: in a run in which nobody is put off too often, a client is read from in all but
      that many of the iterations that report it. */
  lemma NobodyStarves(history: seq<Event>, c: Conn)
    requires RoundsOk(TlsLoop, history) && Deferrals(Split(history), c) <= PATIENCE
    ensures Reads(Split(history), c) <= Reports(Split(history), c) <= Reads(Split(history), c) + PATIENCE
  {
    hide Split, Before, Run;
    forall k | 0 <= k < |Split(history)|
      ensures Served(Split(history)[k].events) <= Split(history)[k].answer.reported
    {
      assert RoundKeeps(TlsLoop, history, k);
    }
    hide Deferrals, Reads, Reports, RoundsOk;
    ReadOrPutOff(Split(history), c);
  }

  // ---------- the bound is reached ----------

  /** m clients that differ from c, and behind them c; the last two slots are flagged. */
  function Waiting(m: nat, c: Conn): (s: seq<Slot>)
    requires m <= c
    ensures |s| == m + 1
    ensures forall j :: 0 <= j <= m ==> s[j] == if j < m then Slot(j, j == m - 1) else Slot(c, true)
  {
    seq(m, j requires 0 <= j < m => Slot(j, j == m - 1)) + [Slot(c, true)]
  }

  /** It happens as often as the bound allows: from the largest table on, Waiting(PATIENCE, c), the
      client before c hangs up, c is put off, and the table left has the clients of the next smaller
      one, until c is the only client. */
  lemma PatienceIsUsedUp(m: nat, c: Conn)
    requires 1 <= m <= c
    ensures Distinct(Waiting(m, c)) && c in Flagged(Waiting(m, c))
    ensures c !in SweepOrder(false, Waiting(m, c), 0, {m - 1})
    ensures SameClients(AfterSweep(false, Waiting(m, c), 0, {m - 1}), Waiting(m - 1, c))
    ensures |Waiting(PATIENCE, PATIENCE)| == TlsLoop.Capacity()
  {
    var s, gone := Waiting(m, c), {m - 1};
    assert s[m] in s;
    SkipsToFirstFlag(false, s, 0, m - 1, gone);
    var r := SwapRemove(s, m - 1);
    assert SweepOrder(false, s, m - 1, gone) == [m - 1] + SweepOrder(false, r, m, gone);
    assert AfterSweep(false, s, m - 1, gone) == AfterSweep(false, r, m, gone) == r;
  }
}
