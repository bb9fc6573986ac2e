/** Sweeping a table of clients that shrinks by moving the last client into a freed slot.
    The flag that poll left in a slot stays there when the slot changes hands. */
module Slots {

  import opened Connections

  datatype Slot = Slot(c: Conn, flag: bool)

  function Conns(s: seq<Slot>): set<Conn> {
    set x | x in s :: x.c
  }

  function Flagged(s: seq<Slot>): set<Conn> {
    set x | x in s && x.flag :: x.c
  }

  ghost predicate Distinct(s: seq<Slot>) {
    forall i, j :: 0 <= i < j < |s| ==> s[i].c != s[j].c
  }

  function SwapRemove(s: seq<Slot>, k: nat): (r: seq<Slot>)
    requires k < |s|
    ensures |r| == |s| - 1
    ensures forall j :: 0 <= j < |r| ==> r[j] == if j == k then Slot(s[|s|-1].c, s[k].flag) else s[j]
  {
    s[k := Slot(s[|s|-1].c, s[k].flag)][..|s|-1]
  }

  lemma SwapRemoveConns(s: seq<Slot>, k: nat)
    requires Distinct(s) && k < |s|
    ensures Distinct(SwapRemove(s, k))
    ensures Conns(SwapRemove(s, k)) == Conns(s) - {s[k].c}
  {
    var r := SwapRemove(s, k);
    forall c | c in Conns(s) && c != s[k].c ensures c in Conns(r) {
      var j :| 0 <= j < |s| && s[j].c == c;
      assert r[if j == |s| - 1 then k else j] in r;
    }
    forall c | c in Conns(r) ensures c in Conns(s) && c != s[k].c {
      var j :| 0 <= j < |r| && r[j].c == c;
      assert s[if j == k then |s| - 1 else j] in s;
    }
  }

  lemma {:induction false} ConnsCount(s: seq<Slot>)
    requires Distinct(s)
    ensures |Conns(s)| == |s|
  {
    if s == [] {
      assert Conns(s) == {};
    } else {
      var m := |s| - 1;
      ConnsCount(s[..m]);
      assert s == s[..m] + [s[m]];
      assert Conns(s) == Conns(s[..m]) + {s[m].c};
    }
  }

  lemma ConnsAfterSeating(s: seq<Slot>, x: Slot)
    ensures Conns(s + [x]) == Conns(s) + {x.c}
  {
    assert forall y :: y in s + [x] <==> y in s || y == x;
  }

  lemma RestOfConns(s: seq<Slot>, k: nat)
    requires Distinct(s) && k < |s|
    ensures s[k].c in Conns(s[k..]) && Conns(s[k + 1..]) == Conns(s[k..]) - {s[k].c}
  {
    assert s[k..] == [s[k]] + s[k + 1..];
    assert forall x :: x in s[k..] <==> x == s[k] || x in s[k + 1..];
  }

  lemma FlaggedAreThere(s: seq<Slot>)
    ensures Flagged(s) <= Conns(s)
  {
  }

  lemma FlaggedAfterSeating(s: seq<Slot>, x: Slot)
    ensures Flagged(s) <= Flagged(s + [x]) <= Flagged(s) + {x.c}
  {
    assert forall y :: y in s + [x] <==> y in s || y == x;
  }

  lemma FlaggedAfterUnflagged(s: seq<Slot>, x: Slot)
    requires !x.flag
    ensures Flagged(s + [x]) == Flagged(s)
  {
    assert forall y :: y in s + [x] <==> y in s || y == x;
  }

  // ---------- the poll server's sweep: the slot is looked at again after a removal ----------

  /** With slot k next: nobody from k on has been visited, everybody flagged is either visited or
      sits from k on under a set flag, and past k set flags mean flagged clients. */
  ghost predicate Pending(s: seq<Slot>, k: nat, flagged: set<Conn>, served: set<Conn>) {
    && k <= |s|
    && (forall j :: k <= j < |s| ==> s[j].c !in served && (s[j].c in flagged ==> s[j].flag))
    && (forall j :: k < j < |s| && s[j].flag ==> s[j].c in flagged)
    && (forall c :: c in flagged && c !in served ==> exists j :: k <= j < |s| && s[j].c == c)
  }

  // 1 if slot k is about to be received from without having been flagged itself.
  ghost function Stray(s: seq<Slot>, k: nat, flagged: set<Conn>): (r: nat)
    ensures r <= 1
  {
    if k < |s| && s[k].flag && s[k].c !in flagged then 1 else 0
  }

  lemma PendingAtStart(s: seq<Slot>)
    requires Distinct(s)
    ensures Pending(s, 0, Flagged(s), {}) && Stray(s, 0, Flagged(s)) == 0
  {
    forall j | 0 <= j < |s| && s[j].c in Flagged(s) ensures s[j].flag {
      var i :| 0 <= i < |s| && s[i].flag && s[i].c == s[j].c;
      assert i == j;
    }
    forall c | c in Flagged(s) ensures exists j :: 0 <= j < |s| && s[j].c == c {
      var i :| 0 <= i < |s| && s[i].flag && s[i].c == c;
    }
  }

  lemma PendingAfterSkip(s: seq<Slot>, k: nat, flagged: set<Conn>, served: set<Conn>)
    requires Distinct(s) && Pending(s, k, flagged, served) && k < |s| && !s[k].flag
    ensures Pending(s, k + 1, flagged, served) && Stray(s, k + 1, flagged) == 0
  {
  }

  lemma PendingAfterVisit(s: seq<Slot>, k: nat, flagged: set<Conn>, served: set<Conn>)
    requires Distinct(s) && Pending(s, k, flagged, served) && k < |s|
    ensures Pending(s, k + 1, flagged, served + {s[k].c}) && Stray(s, k + 1, flagged) == 0
  {
  }

  lemma PendingAfterRemoval(s: seq<Slot>, k: nat, flagged: set<Conn>, served: set<Conn>)
    requires Distinct(s) && Pending(s, k, flagged, served) && k < |s| && s[k].flag
    ensures Pending(SwapRemove(s, k), k, flagged, served + {s[k].c})
  {
    var r := SwapRemove(s, k);
    forall c | c in flagged && c !in served + {s[k].c} ensures exists j :: k <= j < |r| && r[j].c == c {
      var j :| k <= j < |s| && s[j].c == c;
      assert r[if j == |s| - 1 then k else j].c == c;
    }
  }

  lemma OneMore(served: set<Conn>, flagged: set<Conn>, hung: set<Conn>, c: Conn)
    requires c !in served && hung <= served
    ensures |served + {c} - flagged| == |served - flagged| + (if c in flagged then 0 else 1)
    ensures |hung + {c}| == |hung| + 1
  {
    if c in flagged {
      assert served + {c} - flagged == served - flagged;
    } else {
      assert served + {c} - flagged == (served - flagged) + {c};
    }
  }

  /** A poll sweep that started with slots s0, has served and lost these clients, and comes to
      slot k of s. */
  ghost predicate PollSweeping(s0: seq<Slot>, s: seq<Slot>, k: nat, served: set<Conn>, hung: set<Conn>) {
    && hung <= served && Conns(s) + served <= Conns(s0)
    && Pending(s, k, Flagged(s0), served)
    && |served - Flagged(s0)| + Stray(s, k, Flagged(s0)) <= |hung|
  }

  lemma PollSweepStarts(s: seq<Slot>)
    requires Distinct(s)
    ensures PollSweeping(s, s, 0, {}, {})
  {
    PendingAtStart(s);
    assert {} - Flagged(s) == {};
  }

  lemma PollSweepSkips(s0: seq<Slot>, s: seq<Slot>, k: nat, served: set<Conn>, hung: set<Conn>)
    requires Distinct(s) && PollSweeping(s0, s, k, served, hung) && k < |s| && !s[k].flag
    ensures PollSweeping(s0, s, k + 1, served, hung)
  {
    PendingAfterSkip(s, k, Flagged(s0), served);
  }

  lemma PollSweepKeeps(s0: seq<Slot>, s: seq<Slot>, k: nat, served: set<Conn>, hung: set<Conn>)
    requires Distinct(s) && PollSweeping(s0, s, k, served, hung) && k < |s| && s[k].flag
    ensures s[k].c !in served
    ensures PollSweeping(s0, s, k + 1, served + {s[k].c}, hung)
  {
    assert s[k] in s;
    OneMore(served, Flagged(s0), hung, s[k].c);
    PendingAfterVisit(s, k, Flagged(s0), served);
  }

  lemma PollSweepLoses(s0: seq<Slot>, s: seq<Slot>, k: nat, served: set<Conn>, hung: set<Conn>)
    requires Distinct(s) && PollSweeping(s0, s, k, served, hung) && k < |s| && s[k].flag
    ensures s[k].c !in served
    ensures PollSweeping(s0, SwapRemove(s, k), k, served + {s[k].c}, hung + {s[k].c})
  {
    assert s[k] in s;
    OneMore(served, Flagged(s0), hung, s[k].c);
    SwapRemoveConns(s, k);
    PendingAfterRemoval(s, k, Flagged(s0), served);
  }

  lemma PollSweepEnds(s0: seq<Slot>, s: seq<Slot>, k: nat, served: set<Conn>, hung: set<Conn>)
    requires PollSweeping(s0, s, k, served, hung) && k >= |s|
    ensures hung <= served && Flagged(s0) <= served <= Conns(s0) && |served - Flagged(s0)| <= |hung|
  {
    hide Flagged, Conns;
  }

  // ---------- which clients a sweep receives from, exactly ----------

  /** The clients received from, in order, when the sweep is at slot k and those in gone hang up
      when they are visited.  After a removal the poll server steps back and looks at the slot
      again; the TLS server moves on. */
  function SweepOrder(back: bool, s: seq<Slot>, k: nat, gone: set<Conn>): seq<Conn>
    decreases |s| - k
  {
    if k >= |s| then []
    else if !s[k].flag then SweepOrder(back, s, k + 1, gone)
    else if s[k].c in gone then [s[k].c] + SweepOrder(back, SwapRemove(s, k), if back then k else k + 1, gone)
    else [s[k].c] + SweepOrder(back, s, k + 1, gone)
  }

  /** The table that such a sweep leaves. */
  function AfterSweep(back: bool, s: seq<Slot>, k: nat, gone: set<Conn>): seq<Slot>
    decreases |s| - k
  {
    if k >= |s| then s
    else if s[k].flag && s[k].c in gone then AfterSweep(back, SwapRemove(s, k), if back then k else k + 1, gone)
    else AfterSweep(back, s, k + 1, gone)
  }

  /** What has been received from so far, and what the rest of the sweep will receive from and leave. */
  ghost predicate Ordered(back: bool, s0: seq<Slot>, s: seq<Slot>, k: nat, order: seq<Conn>, served: set<Conn>,
                          hung: set<Conn>)
  {
    forall gone: set<Conn> :: gone * served == hung ==>
      && SweepOrder(back, s0, 0, gone) == order + SweepOrder(back, s, k, gone)
      && AfterSweep(back, s0, 0, gone) == AfterSweep(back, s, k, gone)
  }

  lemma OrderStarts(back: bool, t: seq<Slot>)
    ensures Ordered(back, t, t, 0, [], {}, {})
  {
    assert forall gone :: [] + SweepOrder(back, t, 0, gone) == SweepOrder(back, t, 0, gone);
  }

  lemma OrderEnds(back: bool, t0: seq<Slot>, t: seq<Slot>, k: nat, order: seq<Conn>, served: set<Conn>, hung: set<Conn>)
    requires Ordered(back, t0, t, k, order, served, hung) && k >= |t| && hung <= served
    ensures order == SweepOrder(back, t0, 0, hung) && t == AfterSweep(back, t0, 0, hung)
  {
    assert hung * served == hung;
    assert SweepOrder(back, t, k, hung) == [];
  }

  lemma OrderedSkips(back: bool, s0: seq<Slot>, s: seq<Slot>, k: nat, order: seq<Conn>, served: set<Conn>,
                     hung: set<Conn>)
    requires Ordered(back, s0, s, k, order, served, hung) && k < |s| && !s[k].flag
    ensures Ordered(back, s0, s, k + 1, order, served, hung)
  {
  }

  lemma OrderedVisits(back: bool, s0: seq<Slot>, s: seq<Slot>, k: nat, order: seq<Conn>, served: set<Conn>,
                      hung: set<Conn>, left: bool)
    requires Ordered(back, s0, s, k, order, served, hung) && k < |s| && s[k].flag && s[k].c !in served && hung <= served
    ensures if left then Ordered(back, s0, SwapRemove(s, k), if back then k else k + 1, order + [s[k].c],
                                 served + {s[k].c}, hung + {s[k].c})
            else Ordered(back, s0, s, k + 1, order + [s[k].c], served + {s[k].c}, hung)
  {
    var c := s[k].c;
    var hung' := if left then hung + {c} else hung;
    forall gone: set<Conn> | gone * (served + {c}) == hung'
      ensures SweepOrder(back, s0, 0, gone) == order + [c] +
        (if left then SweepOrder(back, SwapRemove(s, k), if back then k else k + 1, gone)
         else SweepOrder(back, s, k + 1, gone))
      ensures AfterSweep(back, s0, 0, gone) ==
        (if left then AfterSweep(back, SwapRemove(s, k), if back then k else k + 1, gone)
         else AfterSweep(back, s, k + 1, gone))
    {
      assert c in gone <==> c in gone * (served + {c});
      assert gone * served == hung;
      assert SweepOrder(back, s0, 0, gone) == order + SweepOrder(back, s, k, gone);
    }
  }

  // ---------- the poll server: who is received from without having been reported ----------

  /** A sweep over s receives only from the given clients. */
  ghost predicate OnlyFrom(s: seq<Slot>, gone: set<Conn>, reported: set<Conn>) {
    forall c :: c in SweepOrder(true, s, 0, gone) ==> c in reported
  }

  /** The flagged clients fill the last slots of the table. */
  predicate FlagsLast(s: seq<Slot>) {
    forall i, j :: 0 <= i < j < |s| && s[i].flag ==> s[j].flag
  }

  /** It happens: client 1 was not flagged, but is received from after client 0 has hung up and
      client 1 has taken its slot and flag. */
  lemma StrayClient()
    ensures var s := [Slot(0, true), Slot(1, false)];
            SweepOrder(true, s, 0, {0}) == [0, 1] && Flagged(s) == {0}
  {
    var s := [Slot(0, true), Slot(1, false)];
    var r := SwapRemove(s, 0);
    assert r == [Slot(1, true)];
    assert SweepOrder(true, r, 0, {0}) == [1] + SweepOrder(true, r, 1, {0});
    assert s[0] in s;
  }

  /** It happens without any removal, too: nobody was flagged, but the newcomer sits under a flag
      that an earlier client left behind, and is received from. */
  lemma StrayNewcomer()
    ensures var t, x := [Slot(0, false)], Slot(1, true);
            SweepOrder(true, t + [x], 0, {}) == [1] && Flagged(t) == {} && FlagsLast(t + [x])
  {
    var s := [Slot(0, false)] + [Slot(1, true)];
    assert SweepOrder(true, s, 1, {}) == [1] + SweepOrder(true, s, 2, {});
  }

  // While every slot past k whose client is flagged is flagged, and flags are last, nothing strays.
  lemma {:induction false} FlagsLastIsSafe(s: seq<Slot>, k: nat, gone: set<Conn>, flagged: set<Conn>)
    requires forall i, j :: k <= i < j < |s| && s[i].flag ==> s[j].flag
    requires forall j :: k <= j < |s| && s[j].flag ==> s[j].c in flagged
    ensures forall c :: c in SweepOrder(true, s, k, gone) ==> c in flagged
    decreases |s| - k
  {
    if k < |s| {
      if s[k].flag && s[k].c in gone {
        FlagsLastIsSafe(SwapRemove(s, k), k, gone, flagged);
      } else {
        FlagsLastIsSafe(s, k + 1, gone, flagged);
      }
    }
  }

  // If everybody hangs up, an unflagged client past a set flag is moved under it sooner or later.
  lemma {:induction false} UnflaggedStrays(s: seq<Slot>, k: nat, j: nat, gone: set<Conn>)
    requires Conns(s) <= gone && k < j < |s| && s[k].flag && !s[j].flag
    ensures exists i :: 0 <= i < |s| && !s[i].flag && s[i].c in SweepOrder(true, s, k, gone)
    decreases |s| - k
  {
    var r, m := SwapRemove(s, k), |s| - 1;
    assert s[k] in s;
    assert r[k] == Slot(s[m].c, true);
    forall x | x in r ensures x.c in gone {
      var i :| 0 <= i < |r| && r[i] == x;
      assert s[if i == k then m else i] in s;
    }
    if !s[m].flag {
      assert s[m].c == SweepOrder(true, r, k, gone)[0];
    } else {
      UnflaggedStrays(r, k, j, gone);
      var i :| 0 <= i < |r| && !r[i].flag && r[i].c in SweepOrder(true, r, k, gone);
      assert s[i] == r[i];
    }
  }

  lemma {:induction false} SkipsToFirstFlag(back: bool, s: seq<Slot>, k: nat, i: nat, gone: set<Conn>)
    requires k <= i <= |s| && forall j :: k <= j < i ==> !s[j].flag
    ensures SweepOrder(back, s, k, gone) == SweepOrder(back, s, i, gone)
    ensures AfterSweep(back, s, k, gone) == AfterSweep(back, s, i, gone)
    decreases i - k
  {
    if k < i {
      SkipsToFirstFlag(back, s, k + 1, i, gone);
    }
  }

  // Some client that is not flagged is received from when everybody hangs up.
  lemma NotLastStrays(s: seq<Slot>) returns (c: Conn)
    requires Distinct(s) && !FlagsLast(s)
    ensures c in SweepOrder(true, s, 0, Conns(s)) && c !in Flagged(s)
  {
    var i, j := FirstStray(s);
    UnflaggedStrays(s, i, j, Conns(s));
    SkipsToFirstFlag(true, s, 0, i, Conns(s));
    var x :| 0 <= x < |s| && !s[x].flag && s[x].c in SweepOrder(true, s, 0, Conns(s));
    c := s[x].c;
  }

  lemma {:induction false} FirstStray(s: seq<Slot>) returns (i: nat, j: nat)
    requires !FlagsLast(s)
    ensures i < j < |s| && s[i].flag && !s[j].flag && forall k :: 0 <= k < i ==> !s[k].flag
  {
    i :| 0 <= i < |s| && s[i].flag && exists j :: i < j < |s| && !s[j].flag;
    j :| i < j < |s| && !s[j].flag;
    while exists k :: 0 <= k < i && s[k].flag
      invariant i < j < |s| && s[i].flag && !s[j].flag
      decreases i
    {
      var k :| 0 <= k < i && s[k].flag;
      i := k;
    }
  }

  /** When nobody has been seated since poll, a sweep receives only from reported clients,
      whichever of them hang up, if and only if the reported clients fill the last slots. */
  lemma OnlyReportedExactly(t: seq<Slot>)
    requires Distinct(t)
    ensures (forall gone :: OnlyFrom(t, gone, Flagged(t))) <==> FlagsLast(t)
  {
    if FlagsLast(t) {
      forall gone ensures OnlyFrom(t, gone, Flagged(t)) {
        assert forall j :: 0 <= j < |t| && t[j].flag ==> t[j] in t;
        FlagsLastIsSafe(t, 0, gone, Flagged(t));
      }
    } else {
      var c := NotLastStrays(t);
      assert !OnlyFrom(t, Conns(t), Flagged(t));
    }
  }

  lemma NobodyFlagged(t: seq<Slot>)
    requires Flagged(t) == {}
    ensures forall j :: 0 <= j < |t| ==> !t[j].flag
  {
    assert forall j :: 0 <= j < |t| && t[j].flag ==> t[j] in t && t[j].c in Flagged(t);
  }

  /** With a newcomer seated since poll, it does so if and only if nobody was reported and the
      newcomer's slot was left unflagged. */
  lemma OnlyReportedWithNewcomer(t: seq<Slot>, x: Slot)
    requires Distinct(t + [x])
    ensures (forall gone :: OnlyFrom(t + [x], gone, Flagged(t))) <==> !x.flag && Flagged(t) == {}
  {
    var s := t + [x];
    FlaggedAfterSeating(t, x);
    if !x.flag && Flagged(t) == {} {
      NobodyFlagged(t);
      forall gone ensures OnlyFrom(s, gone, Flagged(t)) {
        SkipsToFirstFlag(true, s, 0, |s|, gone);
      }
    } else if x.flag {
      NewcomerIsServed(t, x, 0, {});
      assert x.c !in Flagged(t) by {
        forall y | y in t ensures y.c != x.c {
          var j :| 0 <= j < |t| && t[j] == y;
          assert s[j] == y && s[|t|] == x;
        }
      }
      assert !OnlyFrom(s, {}, Flagged(t));
    } else {
      var y :| y in t && y.flag;
      var j :| 0 <= j < |t| && t[j] == y;
      assert s[j].flag && !s[|t|].flag;
      var c := NotLastStrays(s);
      assert !OnlyFrom(s, Conns(s), Flagged(t));
    }
  }

  // Under a set flag the last client is received from, whoever hangs up.
  lemma {:induction false} NewcomerIsServed(t: seq<Slot>, x: Slot, k: nat, gone: set<Conn>)
    requires x.flag && k <= |t|
    ensures x.c in SweepOrder(true, t + [x], k, gone)
    decreases |t| - k
  {
    var s := t + [x];
    if k == |t| {
      assert s[k] == x;
    } else if s[k].flag && s[k].c in gone {
      assert SwapRemove(s, k)[k] == x;
      assert SweepOrder(true, SwapRemove(s, k), k, gone)[0] == x.c;
    } else {
      NewcomerIsServed(t, x, k + 1, gone);
    }
  }

  // ---------- the TLS server: who is reported but not read ----------

  /** It happens: when client 0 hangs up, client 1 takes its slot behind the sweep and is not read. */
  lemma DeferredClient()
    ensures var s := [Slot(0, true), Slot(1, true)];
            SweepOrder(false, s, 0, {0}) == [0] && Flagged(s) == {0, 1}
  {
    var s := [Slot(0, true), Slot(1, true)];
    assert SweepOrder(false, SwapRemove(s, 0), 1, {0}) == [];
    assert s[0] in s && s[1] in s;
  }

  /** The number of flagged slots among those given. */
  function Flags(s: seq<Slot>): nat {
    if s == [] then 0 else (if s[0].flag then 1 else 0) + Flags(s[1..])
  }

  // A client at slot j is reached if the flagged slots before it cannot shrink the table to it.
  lemma {:induction false} ReadIfRoom(s: seq<Slot>, k: nat, j: nat, gone: set<Conn>)
    requires k <= j < |s| && s[j].flag && Flags(s[k..j]) + j < |s|
    ensures s[j].c in SweepOrder(false, s, k, gone)
    decreases j - k
  {
    if k < j {
      assert s[k..j][0] == s[k] && s[k..j][1..] == s[k + 1..j];
      if s[k].flag && s[k].c in gone {
        var r := SwapRemove(s, k);
        assert r[k + 1..j] == s[k + 1..j];
        ReadIfRoom(r, k + 1, j, gone);
      } else {
        ReadIfRoom(s, k + 1, j, gone);
      }
    }
  }

  // A client that is not ahead of the sweep is not read.
  lemma {:induction false} NotAhead(s: seq<Slot>, k: nat, c: Conn, gone: set<Conn>)
    requires forall i :: k <= i < |s| ==> s[i].c != c
    ensures c !in SweepOrder(false, s, k, gone)
    decreases |s| - k
  {
    if k < |s| {
      if s[k].flag && s[k].c in gone {
        NotAhead(SwapRemove(s, k), k + 1, c, gone);
      } else {
        NotAhead(s, k + 1, c, gone);
      }
    }
  }

  // If everybody hangs up, too many flagged slots before slot j do shrink the table to it.
  lemma {:induction false} LostIfNoRoom(s: seq<Slot>, k: nat, j: nat, gone: set<Conn>)
    requires Distinct(s) && Conns(s) <= gone
    requires k <= j < |s| && Flags(s[k..j]) + j >= |s|
    ensures s[j].c !in SweepOrder(false, s, k, gone)
    decreases j - k
  {
    if k < j {
      assert s[k..j][0] == s[k] && s[k..j][1..] == s[k + 1..j];
      if s[k].flag {
        assert s[k] in s && s[k].c != s[j].c;
        var r := SwapRemove(s, k);
        SwapRemoveConns(s, k);
        if j == |s| - 1 {
          NotAhead(r, k + 1, s[j].c, gone);
        } else {
          assert r[k + 1..j] == s[k + 1..j];
          LostIfNoRoom(r, k + 1, j, gone);
        }
      } else {
        LostIfNoRoom(s, k + 1, j, gone);
      }
    }
  }

  ghost predicate ReadsAll(t: seq<Slot>, gone: set<Conn>) {
    forall c :: c in Flagged(t) ==> c in SweepOrder(false, t, 0, gone)
  }

  /** A sweep of the TLS server reads every flagged client, whoever hangs up, if and only if no
      flagged slot has so many flagged slots before it that these could shrink the table to it. */
  lemma ReadsAllExactly(t: seq<Slot>)
    requires Distinct(t)
    ensures (forall gone :: ReadsAll(t, gone)) <==> forall j :: 0 <= j < |t| && t[j].flag ==> Flags(t[..j]) + j < |t|
  {
    if forall j :: 0 <= j < |t| && t[j].flag ==> Flags(t[..j]) + j < |t| {
      forall gone ensures ReadsAll(t, gone) {
        forall c | c in Flagged(t) ensures c in SweepOrder(false, t, 0, gone) {
          var j :| 0 <= j < |t| && t[j].flag && t[j].c == c;
          assert t[0..j] == t[..j];
          ReadIfRoom(t, 0, j, gone);
        }
      }
    } else {
      var j :| 0 <= j < |t| && t[j].flag && Flags(t[..j]) + j >= |t|;
      assert t[0..j] == t[..j] && t[j] in t;
      LostIfNoRoom(t, 0, j, Conns(t));
      assert !ReadsAll(t, Conns(t));
    }
  }

  // ---------- the TLS server's sweep: it moves on past a slot after a removal ----------

  /** The client has been moved back behind the sweep, from a later slot of s0 into the slot of a
      client that hung up. */
  ghost predicate MovedBack(s0: seq<Slot>, s: seq<Slot>, k: nat, hung: set<Conn>, c: Conn) {
    exists i :: 0 <= i < |s| <= |s0| && i < k && s[i].c == c && s0[i].c in hung && Later(s0, i, c)
  }

  ghost predicate Later(s0: seq<Slot>, i: int, c: Conn) {
    exists j :: 0 <= i < j < |s0| && s0[j].c == c
  }

  /** In a sweep over s0 that has come to slot k of s: the slots from k on are as they were; every
      flagged client is visited, ahead, or among those moved back, of which there is at most one
      for each client removed. */
  ghost predicate TlsSweeping(s0: seq<Slot>, s: seq<Slot>, k: nat, served: set<Conn>, hung: set<Conn>,
                              late: set<Conn>)
  {
    && hung <= served <= Flagged(s0)
    && |late| <= |hung|
    && |s| <= |s0| && (forall j :: k <= j < |s| ==> s[j] == s0[j] && s[j].c !in served)
    && (forall c :: c in Flagged(s0) && c !in served && c !in late ==> exists j :: k <= j < |s| && s[j].c == c)
    && (forall c :: c in late && c !in served ==> MovedBack(s0, s, k, hung, c))
  }

  lemma TlsSweepStarts(s: seq<Slot>)
    ensures TlsSweeping(s, s, 0, {}, {}, {})
  {
    forall c | c in Flagged(s) ensures exists j :: 0 <= j < |s| && s[j].c == c {
      var i :| 0 <= i < |s| && s[i].flag && s[i].c == c;
    }
  }

  // Which clients are flagged can be read off the slots ahead.
  lemma FlagMeansFlagged(s0: seq<Slot>, k: nat)
    requires Distinct(s0) && k < |s0|
    ensures s0[k].flag <==> s0[k].c in Flagged(s0)
  {
    assert s0[k] in s0;
    if s0[k].c in Flagged(s0) {
      var i :| 0 <= i < |s0| && s0[i].flag && s0[i].c == s0[k].c;
      assert i == k;
    }
  }

  lemma TlsSweepSkips(s0: seq<Slot>, s: seq<Slot>, k: nat, served: set<Conn>, hung: set<Conn>, late: set<Conn>)
    requires Distinct(s0) && TlsSweeping(s0, s, k, served, hung, late)
    requires k < |s| && !s[k].flag
    ensures TlsSweeping(s0, s, k + 1, served, hung, late)
  {
    FlagMeansFlagged(s0, k);
    MovedBackStays(s0, s, s, k, hung, hung);
  }

  lemma TlsSweepKeeps(s0: seq<Slot>, s: seq<Slot>, k: nat, served: set<Conn>, hung: set<Conn>, late: set<Conn>)
    requires Distinct(s0) && Distinct(s) && TlsSweeping(s0, s, k, served, hung, late)
    requires k < |s| && s[k].flag
    ensures s[k].c !in served
    ensures TlsSweeping(s0, s, k + 1, served + {s[k].c}, hung, late)
  {
    FlagMeansFlagged(s0, k);
    MovedBackStays(s0, s, s, k, hung, hung);
  }

  // The last client, moved into the freed slot k, is now behind the sweep.
  lemma LastMovedBack(s0: seq<Slot>, s: seq<Slot>, k: nat, hung: set<Conn>)
    requires k < |s| - 1 < |s0| && s[k] == s0[k] && s[|s| - 1] == s0[|s| - 1] && s[k].c in hung
    ensures MovedBack(s0, SwapRemove(s, k), k + 1, hung, s[|s| - 1].c)
  {
    assert Later(s0, k, s[|s| - 1].c);
    assert SwapRemove(s, k)[k].c == s[|s| - 1].c;
  }

  // Who was ahead is now ahead, is the visited client, or was the last.
  lemma StillAhead(s: seq<Slot>, k: nat, c: Conn)
    requires k < |s| && c != s[k].c && c != s[|s| - 1].c
    requires exists j :: k <= j < |s| && s[j].c == c
    ensures exists j :: k < j < |s| - 1 && SwapRemove(s, k)[j].c == c
  {
    var j :| k <= j < |s| && s[j].c == c;
    assert SwapRemove(s, k)[j].c == c;
  }

  lemma TlsSweepLoses(s0: seq<Slot>, s: seq<Slot>, k: nat, served: set<Conn>, hung: set<Conn>, late: set<Conn>)
    returns (late': set<Conn>)
    requires Distinct(s0) && Distinct(s) && TlsSweeping(s0, s, k, served, hung, late)
    requires k < |s| && s[k].flag
    ensures s[k].c !in served
    ensures TlsSweeping(s0, SwapRemove(s, k), k + 1, served + {s[k].c}, hung + {s[k].c}, late')
  {
    hide Flagged, MovedBack;
    var c, last := s[k].c, s[|s|-1].c;
    late' := late + {last};
    var r, served', hung' := SwapRemove(s, k), served + {c}, hung + {c};
    FlagMeansFlagged(s0, k);
    assert |late'| <= |late| + 1;
    assert |hung'| == |hung| + 1;
    forall x | x in Flagged(s0) && x !in served' && x !in late' ensures exists j :: k < j < |r| && r[j].c == x {
      StillAhead(s, k, x);
    }
    MovedBackStays(s0, s, r, k, hung, hung');
    if k < |s| - 1 {
      LastMovedBack(s0, s, k, hung');
    }
  }

  lemma TlsSweepEnds(s0: seq<Slot>, s: seq<Slot>, k: nat, served: set<Conn>, hung: set<Conn>, late: set<Conn>)
    requires TlsSweeping(s0, s, k, served, hung, late) && k >= |s|
    ensures served <= Flagged(s0) && |Flagged(s0) - served| <= |hung|
    ensures forall c :: c in Flagged(s0) && c !in served ==> MovedBack(s0, s, |s|, hung, c)
  {
    hide Flagged, Later;
    assert Flagged(s0) - served <= late;
    SubsetCard(Flagged(s0) - served, late);
    forall c | MovedBack(s0, s, k, hung, c) ensures MovedBack(s0, s, |s|, hung, c) {
      var i :| 0 <= i < |s| <= |s0| && i < k && s[i].c == c && s0[i].c in hung && Later(s0, i, c);
      assert s[i].c == c;
    }
  }

  // What lies behind the sweep is not touched any more.
  lemma MovedBackStays(s0: seq<Slot>, s: seq<Slot>, r: seq<Slot>, k: nat, hung: set<Conn>, hung': set<Conn>)
    requires k <= |r| <= |s| <= |s0| && hung <= hung' && forall i :: 0 <= i < k ==> r[i] == s[i]
    ensures forall c :: MovedBack(s0, s, k, hung, c) ==> MovedBack(s0, r, k + 1, hung', c)
  {
    forall c | MovedBack(s0, s, k, hung, c) ensures MovedBack(s0, r, k + 1, hung', c) {
      var i :| 0 <= i < |s| <= |s0| && i < k && s[i].c == c && s0[i].c in hung && Later(s0, i, c);
      assert r[i].c == c;
    }
  }

  // ---------- from one sweep to the next ----------

  /** The same clients in the same slots, whatever their flags. */
  ghost predicate SameClients(s: seq<Slot>, t: seq<Slot>) {
    |s| == |t| && forall i :: 0 <= i < |s| ==> s[i].c == t[i].c
  }

  ghost predicate AtOrAfter(s0: seq<Slot>, i: nat, c: Conn) {
    exists j :: i <= j < |s0| && s0[j].c == c
  }

  /** No client of s is in a later slot than it was in s0. */
  ghost predicate NotRaised(s0: seq<Slot>, s: seq<Slot>) {
    forall i :: 0 <= i < |s| ==> AtOrAfter(s0, i, s[i].c)
  }

  lemma NotRaisedByRemoval(s0: seq<Slot>, s: seq<Slot>, k: nat)
    requires NotRaised(s0, s) && k < |s|
    ensures NotRaised(s0, SwapRemove(s, k))
  {
    var r, m := SwapRemove(s, k), |s| - 1;
    forall i | 0 <= i < |r| ensures AtOrAfter(s0, i, r[i].c) {
      assert AtOrAfter(s0, if i == k then m else i, r[i].c);
    }
  }

  /** No sweep moves a client into a later slot. */
  lemma {:induction false} SweepNeverRaises(back: bool, s0: seq<Slot>, s: seq<Slot>, k: nat, gone: set<Conn>)
    requires NotRaised(s0, s)
    ensures NotRaised(s0, AfterSweep(back, s, k, gone))
    decreases |s| - k
  {
    hide NotRaised;
    if k < |s| {
      if s[k].flag && s[k].c in gone {
        NotRaisedByRemoval(s0, s, k);
        SweepNeverRaises(back, s0, SwapRemove(s, k), if back then k else k + 1, gone);
      } else {
        SweepNeverRaises(back, s0, s, k + 1, gone);
      }
    }
  }
}
