/** The table of poll entries shared by the poll and TLS servers: entry 0 is the listener,
    entries 1 to n-1 are clients. */
module PollTable {

  import opened Connections
  import opened Sockets
  import opened Slots

  /** Every client entry holds a different open descriptor and asks for POLLIN. */
  ghost predicate WellFormed(t: seq<PollFd>, n: nat, open: map<int, Conn>) {
    && 1 <= n <= |t|
    && (forall j :: 1 <= j < n ==> t[j].fd in open && t[j].events)
    && (forall j, k :: 1 <= j < k < n ==> t[j].fd != t[k].fd)
  }

  /** The connections behind the client entries, with the flags poll left there. */
  ghost function View(t: seq<PollFd>, n: nat, open: map<int, Conn>): (s: seq<Slot>)
    requires WellFormed(t, n, open)
    ensures |s| == n - 1
    ensures forall k :: 0 <= k < n - 1 ==> s[k] == Slot(open[t[k + 1].fd], t[k + 1].revents)
  {
    seq(n - 1, k requires 0 <= k < n - 1 => Slot(open[t[k + 1].fd], t[k + 1].revents))
  }

  lemma ViewDistinct(t: seq<PollFd>, n: nat, open: map<int, Conn>)
    requires WellFormed(t, n, open) && Injective(open)
    ensures Distinct(View(t, n, open))
  {
  }

  /** Closing entry i's descriptor and moving the last entry's descriptor under entry i's flag. */
  lemma ViewAfterRemoval(t: seq<PollFd>, t': seq<PollFd>, n: nat, open: map<int, Conn>, i: nat)
    requires WellFormed(t, n, open) && Injective(open)
    requires 1 <= i < n
    requires |t'| == |t|
    requires i < n - 1 ==> t'[i] == t[i].(fd := t[n-1].fd)
    requires forall j :: 1 <= j < n - 1 && j != i ==> t'[j] == t[j]
    ensures WellFormed(t', n - 1, open - {t[i].fd}) && Injective(open - {t[i].fd})
    ensures View(t', n - 1, open - {t[i].fd}) == SwapRemove(View(t, n, open), i - 1)
  {
  }

  /** Seating a fresh descriptor in the first unused entry. */
  lemma ViewAfterSeating(t: seq<PollFd>, t': seq<PollFd>, n: nat, open: map<int, Conn>, fd: int, c: Conn)
    requires WellFormed(t, n, open) && n < |t| == |t'|
    requires fd !in open
    requires t'[n] == t[n].(fd := fd, events := true)
    requires forall j :: 1 <= j < n ==> t'[j] == t[j]
    ensures WellFormed(t', n + 1, open[fd := c])
    ensures View(t', n + 1, open[fd := c]) == View(t, n, open) + [Slot(c, t[n].revents)]
  {
  }

  /** A descriptor that the table does not hold makes no difference to it. */
  lemma ViewWithoutSeating(t: seq<PollFd>, n: nat, open: map<int, Conn>, fd: int, c: Conn)
    requires WellFormed(t, n, open)
    requires fd !in open
    ensures WellFormed(t, n, open[fd := c])
    ensures View(t, n, open[fd := c]) == View(t, n, open)
  {
  }

  /** Polling changes flags, not clients. */
  lemma ViewAfterPoll(t: seq<PollFd>, t': seq<PollFd>, n: nat, open: map<int, Conn>)
    requires WellFormed(t, n, open) && |t| == |t'|
    requires forall j :: 0 <= j < n ==> t'[j].fd == t[j].fd && t'[j].events == t[j].events
    ensures WellFormed(t', n, open)
    ensures SameClients(View(t, n, open), View(t', n, open))
    ensures Conns(View(t', n, open)) == Conns(View(t, n, open))
  {
    var s, s' := View(t, n, open), View(t', n, open);
    forall c ensures c in Conns(s) <==> c in Conns(s') {
      if c in Conns(s) {
        var k :| 0 <= k < |s| && s[k].c == c;
        assert s'[k] in s';
      }
      if c in Conns(s') {
        var k :| 0 <= k < |s| && s'[k].c == c;
        assert s[k] in s;
      }
    }
  }

  /** What poll was asked and answered, read off the table: entries from n to m-1 hold nothing. */
  lemma PollMeans(activity: int, t: seq<PollFd>, n: nat, m: nat, listener: int, open: map<int, Conn>)
    requires WellFormed(t, n, open) && n <= m <= |t| && listener !in open
    requires t[0].fd == listener && t[0].events
    requires forall j :: n <= j < m ==> t[j].fd !in open && t[j].fd != listener
    ensures PollAnswer(activity, t, m, listener, open) ==
            if activity < 0 then Answer(activity, true, Conns(View(t, n, open)), false, {})
            else Answer(activity, true, Conns(View(t, n, open)), t[0].revents, Flagged(View(t, n, open)))
  {
    AskingMeans(t, n, m, listener, open);
    if activity >= 0 {
      ReportingMeans(t, n, m, listener, open);
    }
  }

  lemma AskingMeans(t: seq<PollFd>, n: nat, m: nat, listener: int, open: map<int, Conn>)
    requires WellFormed(t, n, open) && n <= m <= |t| && listener !in open
    requires t[0].fd == listener && t[0].events
    requires forall j :: n <= j < m ==> t[j].fd !in open
    ensures listener in Asking(t, m) && Behind(Asking(t, m), open) == Conns(View(t, n, open))
  {
    var s := View(t, n, open);
    forall c ensures c in Behind(Asking(t, m), open) <==> c in Conns(s) {
      if c in Conns(s) {
        var k :| 0 <= k < |s| && s[k].c == c;
        assert t[k + 1].fd in Asking(t, m);
      }
      if c in Behind(Asking(t, m), open) {
        var j :| 0 <= j < m && t[j].events && t[j].fd in open && open[t[j].fd] == c;
        assert s[j - 1] in s;
      }
    }
  }

  lemma ReportingMeans(t: seq<PollFd>, n: nat, m: nat, listener: int, open: map<int, Conn>)
    requires WellFormed(t, n, open) && n <= m <= |t| && listener !in open
    requires t[0].fd == listener
    requires forall j :: n <= j < m ==> t[j].fd !in open && t[j].fd != listener
    ensures listener in Reporting(t, m) <==> t[0].revents
    ensures Behind(Reporting(t, m), open) == Flagged(View(t, n, open))
  {
    var s := View(t, n, open);
    forall c ensures c in Behind(Reporting(t, m), open) <==> c in Flagged(s) {
      if c in Flagged(s) {
        var k :| 0 <= k < |s| && s[k].flag && s[k].c == c;
        assert t[k + 1].fd in Reporting(t, m);
      }
      if c in Behind(Reporting(t, m), open) {
        var j :| 0 <= j < m && t[j].revents && t[j].fd in open && open[t[j].fd] == c;
        assert s[j - 1] in s;
      }
    }
  }
}
