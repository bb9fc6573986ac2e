/** The operating system as the servers meet it.  Every answer it may give is chosen
    nondeterministically; descriptor numbers may be reused once closed. */
module Sockets {

  import opened Connections

  // One entry of a poll table.  The flags say whether POLLIN was asked for and reported.
  datatype PollFd = PollFd(fd: int, events: bool, revents: bool)

  const MESSAGE_SIZE: nat := 1024

  ghost predicate Injective(open: map<int, Conn>) {
    forall a, b :: a in open && b in open && a != b ==> open[a] != open[b]
  }

  /** Open descriptors are positive, differ from the listener's, and lead to different
      connections, all of them accepted before. */
  ghost predicate KernelOk(listener: int, open: map<int, Conn>, next: Conn) {
    && listener > 0 && listener !in open
    && (forall fd :: fd in open ==> fd > 0 && open[fd] < next)
    && Injective(open)
  }

  /** The connections that a set of descriptors stands for. */
  function Behind(fds: set<int>, open: map<int, Conn>): set<Conn> {
    set fd | fd in fds && fd in open :: open[fd]
  }

  /** What a call of select means: only descriptors below n are watched. */
  function SelectAnswer(activity: int, watched: set<int>, n: int, reported: set<int>, listener: int,
                        open: map<int, Conn>): Answer
  {
    var asked := set fd | fd in watched && fd < n;
    Answer(activity, listener in asked, Behind(asked, open), listener in reported, Behind(reported, open))
  }

  /** The descriptors of the first n entries that ask for POLLIN. */
  function Asking(t: seq<PollFd>, n: nat): set<int>
    requires n <= |t|
  {
    set j | 0 <= j < n && t[j].events :: t[j].fd
  }

  /** The descriptors of the first n entries whose flag is set. */
  function Reporting(t: seq<PollFd>, n: nat): set<int>
    requires n <= |t|
  {
    set j | 0 <= j < n && t[j].revents :: t[j].fd
  }

  /** What a call of poll on the first n entries means, with t the table afterwards; after an error
      the flags say nothing. */
  function PollAnswer(activity: int, t: seq<PollFd>, n: nat, listener: int, open: map<int, Conn>): Answer
    requires n <= |t|
  {
    var asked, reported := Asking(t, n), if activity < 0 then {} else Reporting(t, n);
    Answer(activity, listener in asked, Behind(asked, open), listener in reported, Behind(reported, open))
  }

  lemma OkAfterAccept(listener: int, open: map<int, Conn>, next: Conn, fd: int)
    requires KernelOk(listener, open, next) && fd > 0 && fd !in open && fd != listener
    ensures KernelOk(listener, open[fd := next], next + 1)
  {
  }

  lemma OkAfterClose(listener: int, open: map<int, Conn>, next: Conn, fd: int)
    requires KernelOk(listener, open, next)
    ensures KernelOk(listener, open - {fd}, next)
  {
  }

  class Kernel {
    const listener: int
    // The accepted descriptors that are open, and the connection behind each.
    var open: map<int, Conn>
    var next: Conn
    ghost var calls: seq<Call>
    var listenerCloses: nat

    ghost predicate Valid()
      reads this
    {
      KernelOk(listener, open, next)
    }

    constructor (listener: int)
      requires listener > 0
      ensures Valid()
      ensures this.listener == listener && open == map[] && next == 0 && calls == [] && listenerCloses == 0
    {
      this.listener := listener;
      open, next, calls, listenerCloses := map[], 0, [], 0;
    }

    /** accept: fails, or hands out any positive descriptor number that is not in use. */
    method Accept() returns (fd: int)
      requires Valid()
      modifies this`open, this`next, this`calls
      ensures Valid()
      ensures fd != 0
      ensures fd < 0 ==> open == old(open) && next == old(next) && calls == old(calls) + [AcceptError]
      ensures fd > 0 ==>
        && fd !in old(open) && fd != listener
        && open == old(open)[fd := old(next)]
        && next == old(next) + 1
        && calls == old(calls) + [Call.Accept(old(next))]
    {
      fd := *;
      if fd <= 0 || fd in open || fd == listener {
        fd := -1;
        calls := calls + [AcceptError];
      } else {
        open, calls := open[fd := next], calls + [Call.Accept(next)];
        next := next + 1;
      }
    }

    /** recv into a zeroed buffer: a negative or zero result delivers nothing. */
    method Recv(fd: int) returns (received: int, data: string)
      requires Valid()
      requires fd in open
      modifies this`calls
      ensures received <= 0 ==> data == ""
      ensures received > 0 ==> received == |data| < MESSAGE_SIZE
      ensures calls == old(calls) + [Call.Recv(open[fd], received, data)]
    {
      received, data := *, *;
      if received <= 0 {
        data := "";
      } else if received >= MESSAGE_SIZE || |data| != received {
        received, data := 0, "";
      }
      calls := calls + [Call.Recv(open[fd], received, data)];
    }

    method Send(fd: int) returns (sent: int)
      requires Valid()
      requires fd in open
      modifies this`calls
      ensures calls == old(calls) + [Call.Send(open[fd], sent)]
    {
      sent := *;
      calls := calls + [Call.Send(open[fd], sent)];
    }

    /** close, of an accepted descriptor that is open or of the listener's. */
    method Close(fd: int)
      requires Valid()
      requires fd in open || fd == listener
      modifies this`open, this`calls, this`listenerCloses
      ensures Valid()
      ensures open == old(open) - {fd}
      ensures calls == if fd == listener then old(calls) else old(calls) + [Call.Close(old(open)[fd])]
      ensures listenerCloses == old(listenerCloses) + (if fd == listener then 1 else 0)
    {
      if fd == listener {
        listenerCloses := listenerCloses + 1;
        assert open == open - {fd};
      } else {
        calls := calls + [Call.Close(open[fd])];
        open := open - {fd};
      }
    }

    /** select over the descriptors below n: reports any of the watched ones; on an error the set is
        left as it was. */
    method Select(watched: set<int>, n: int) returns (activity: int, reported: set<int>)
      modifies this`calls
      ensures reported <= watched
      ensures activity >= 0 ==> forall fd :: fd in reported ==> fd < n
      ensures activity < 0 ==> reported == watched
      ensures calls == old(calls) + [Wait(SelectAnswer(activity, watched, n, reported, listener, open))]
    {
      activity, reported := *, *;
      reported := if activity < 0 then watched else set fd | fd in watched && fd in reported && fd < n;
      calls := calls + [Wait(SelectAnswer(activity, watched, n, reported, listener, open))];
    }

    /** poll over the first n entries: flags any of them that hold a descriptor and ask for
        POLLIN, clears the flag of the others, and touches nothing else; on an error it leaves the
        flags as they were. */
    method Poll(fds: array<PollFd>, n: nat) returns (activity: int)
      requires n <= fds.Length
      modifies fds, this`calls
      ensures forall j :: 0 <= j < fds.Length ==>
        fds[j].fd == old(fds[j].fd) && fds[j].events == old(fds[j].events)
      ensures activity >= 0 ==> forall j :: 0 <= j < n && fds[j].revents ==> fds[j].fd >= 0 && fds[j].events
      ensures activity == 0 ==> forall j :: 0 <= j < n ==> !fds[j].revents
      ensures activity < 0 ==> fds[..] == old(fds[..])
      ensures forall j :: n <= j < fds.Length ==> fds[j] == old(fds[j])
      ensures calls == old(calls) + [Wait(PollAnswer(activity, fds[..], n, listener, open))]
    {
      activity := *;
      if activity >= 0 {
        for k := 0 to n
          invariant calls == old(calls)
          invariant forall j :: 0 <= j < fds.Length ==>
            fds[j].fd == old(fds[j].fd) && fds[j].events == old(fds[j].events)
          invariant forall j :: 0 <= j < k && fds[j].revents ==>
            fds[j].fd >= 0 && fds[j].events && activity > 0
          invariant forall j :: k <= j < fds.Length ==> fds[j] == old(fds[j])
        {
          var flag: bool := *;
          fds[k] := fds[k].(revents := flag && activity > 0 && fds[k].fd >= 0 && fds[k].events);
        }
      }
      calls := calls + [Wait(PollAnswer(activity, fds[..], n, listener, open))];
    }
  }
}
