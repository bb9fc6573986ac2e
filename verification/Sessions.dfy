/** The TLS library as the server meets it: session objects that are created, bound to a
    descriptor, used and freed. */
module Sessions {

  import opened Connections
  import opened Sockets

  type SessionId = nat

  // A session object, or NULL.
  datatype Handle = Null | Ssl(id: SessionId)

  const UNBOUND: int := -1

  /** Every session created is alive or has been freed, never both, and never freed twice. */
  ghost predicate LibraryOk(bound: map<SessionId, int>, created: nat, freed: seq<SessionId>) {
    && (forall id :: id in bound ==> id < created && id !in freed)
    && (forall id :: id in freed ==> id < created)
    && (forall id {:trigger id in bound} {:trigger id in freed} :: 0 <= id < created ==> id in bound || id in freed)
    && (forall i, j :: 0 <= i < j < |freed| ==> freed[i] != freed[j])
  }

  lemma OkAfterNew(bound: map<SessionId, int>, created: nat, freed: seq<SessionId>, fd: int)
    requires LibraryOk(bound, created, freed)
    ensures LibraryOk(bound[created := fd], created + 1, freed)
  {
  }

  lemma OkAfterBind(bound: map<SessionId, int>, created: nat, freed: seq<SessionId>, id: SessionId, fd: int)
    requires LibraryOk(bound, created, freed) && id in bound
    ensures LibraryOk(bound[id := fd], created, freed)
  {
  }

  lemma OkAfterFree(bound: map<SessionId, int>, created: nat, freed: seq<SessionId>, id: SessionId)
    requires LibraryOk(bound, created, freed) && id in bound
    ensures LibraryOk(bound - {id}, created, freed + [id])
  {
    assert forall x :: x in freed + [id] <==> x in freed || x == id;
  }

  /** Every session ever created has been freed, and none of them twice. */
  ghost predicate AllFreedOnce(created: nat, freed: seq<SessionId>) {
    && (forall id :: id in freed <==> 0 <= id < created)
    && (forall i, j :: 0 <= i < j < |freed| ==> freed[i] != freed[j])
  }

  class Library {
    const kernel: Kernel
    // The sessions that are alive, and the descriptor each is bound to.
    var bound: map<SessionId, int>
    var created: nat
    ghost var freed: seq<SessionId>

    ghost predicate Valid()
      reads this
    {
      LibraryOk(bound, created, freed)
    }

    constructor (kernel: Kernel)
      ensures Valid() && this.kernel == kernel
      ensures bound == map[] && created == 0 && freed == []
    {
      this.kernel := kernel;
      bound, created, freed := map[], 0, [];
    }

    /** SSL_new, taken to succeed. */
    method New() returns (h: Handle)
      requires Valid()
      modifies this
      ensures Valid() && h == Ssl(old(created))
      ensures bound == old(bound)[old(created) := UNBOUND]
      ensures created == old(created) + 1 && freed == old(freed)
    {
      h := Ssl(created);
      OkAfterNew(bound, created, freed, UNBOUND);
      bound, created := bound[created := UNBOUND], created + 1;
    }

    method SetFd(h: Handle, fd: int)
      requires Valid()
      requires h.Ssl? && h.id in bound
      modifies this`bound
      ensures Valid()
      ensures bound == old(bound)[h.id := fd]
    {
      OkAfterBind(bound, created, freed, h.id, fd);
      bound := bound[h.id := fd];
    }

    /** SSL_accept: the handshake succeeds, which a positive result says, or fails. */
    method Handshake(h: Handle) returns (rc: int)
      requires h.Ssl? && h.id in bound && bound[h.id] in kernel.open
      modifies kernel`calls
      ensures kernel.calls == old(kernel.calls) + [Call.Handshake(kernel.open[bound[h.id]], rc > 0)]
    {
      rc := *;
      kernel.calls := kernel.calls + [Call.Handshake(kernel.open[bound[h.id]], rc > 0)];
    }

    /** SSL_read: reads from the descriptor the session is bound to, which must be open. */
    method Read(h: Handle) returns (received: int, data: string)
      requires kernel.Valid()
      requires h.Ssl? && h.id in bound && bound[h.id] in kernel.open
      modifies kernel`calls
      ensures received <= 0 ==> data == ""
      ensures received > 0 ==> received == |data| < MESSAGE_SIZE
      ensures kernel.calls == old(kernel.calls) + [Call.Recv(kernel.open[bound[h.id]], received, data)]
    {
      received, data := kernel.Recv(bound[h.id]);
    }

    method Write(h: Handle) returns (sent: int)
      requires kernel.Valid()
      requires h.Ssl? && h.id in bound && bound[h.id] in kernel.open
      modifies kernel`calls
      ensures kernel.calls == old(kernel.calls) + [Call.Send(kernel.open[bound[h.id]], sent)]
    {
      sent := kernel.Send(bound[h.id]);
    }

    method Shutdown(h: Handle)
      requires h.Ssl? && h.id in bound
    {
    }

    /** SSL_free: the session must be alive. */
    method Free(h: Handle)
      requires Valid()
      requires h.Ssl? && h.id in bound
      modifies this`bound, this`freed
      ensures Valid()
      ensures bound == old(bound) - {h.id}
      ensures freed == old(freed) + [h.id]
    {
      OkAfterFree(bound, created, freed, h.id);
      bound, freed := bound - {h.id}, freed + [h.id];
    }
  }

  // ---------- sessions beside a poll table ----------

  /** Entry j of the poll table and entry j of the session table belong together: the session of
      a used entry is alive and bound to that entry's descriptor, no session is used twice, unused
      entries hold neither, and no session is alive outside the table. */
  ghost predicate Paired(t: seq<PollFd>, ssl: seq<Handle>, n: nat, bound: map<SessionId, int>) {
    && n <= |t| == |ssl|
    && (forall j :: 0 <= j < n ==> ssl[j].Ssl? && ssl[j].id in bound && bound[ssl[j].id] == t[j].fd)
    && (forall j, k :: 0 <= j < k < n ==> ssl[j] != ssl[k])
    && (forall j :: n <= j < |t| ==> t[j].fd == -1 && ssl[j] == Null)
    && (forall id :: id in bound ==> InTable(ssl, n, id))
  }

  ghost predicate InTable(ssl: seq<Handle>, n: nat, id: SessionId) {
    exists j :: 0 <= j < n <= |ssl| && ssl[j] == Ssl(id)
  }

  lemma PairedAfterSeating(t: seq<PollFd>, t': seq<PollFd>, ssl: seq<Handle>, n: nat, bound: map<SessionId, int>,
                           id: SessionId, fd: int)
    requires Paired(t, ssl, n, bound) && n < |t| == |t'|
    requires id !in bound
    requires t'[n].fd == fd && forall j :: 0 <= j < |t| && j != n ==> t'[j] == t[j]
    ensures Paired(t', ssl[n := Ssl(id)], n + 1, bound[id := fd])
  {
    var ssl', bound' := ssl[n := Ssl(id)], bound[id := fd];
    forall x | x in bound' ensures InTable(ssl', n + 1, x) {
      if x == id {
        assert ssl'[n] == Ssl(x);
      } else {
        var j :| 0 <= j < n && ssl[j] == Ssl(x);
        assert ssl'[j] == Ssl(x);
      }
    }
  }

  lemma PairedAfterRefusal(t: seq<PollFd>, t': seq<PollFd>, ssl: seq<Handle>, n: nat, bound: map<SessionId, int>)
    requires Paired(t, ssl, n, bound) && n < |t| == |t'|
    requires t'[n].fd == -1 && forall j :: 0 <= j < |t| && j != n ==> t'[j] == t[j]
    ensures Paired(t', ssl, n, bound)
  {
  }

  /** Freeing entry i's session and moving the last entry, descriptor and session, into it. */
  lemma PairedAfterRemoval(t: seq<PollFd>, t': seq<PollFd>, ssl: seq<Handle>, ssl': seq<Handle>, n: nat,
                           bound: map<SessionId, int>, i: nat)
    requires Paired(t, ssl, n, bound) && i < n
    requires |t'| == |t| && |ssl'| == |ssl|
    requires t'[n-1].fd == -1 && ssl'[n-1] == Null
    requires i < n - 1 ==> t'[i].fd == t[n-1].fd && ssl'[i] == ssl[n-1]
    requires forall j :: 0 <= j < |t| && j != i && j != n - 1 ==> t'[j] == t[j] && ssl'[j] == ssl[j]
    ensures Paired(t', ssl', n - 1, bound - {ssl[i].id})
  {
    hide InTable;
    assert forall j :: 0 <= j < n && j != i ==> ssl[j].id != ssl[i].id;
    forall x | x in bound && x != ssl[i].id ensures InTable(ssl', n - 1, x) {
      InTableAfterRemoval(ssl, ssl', n, i, x);
    }
  }

  lemma InTableAfterRemoval(ssl: seq<Handle>, ssl': seq<Handle>, n: nat, i: nat, id: SessionId)
    requires InTable(ssl, n, id) && i < n <= |ssl| == |ssl'| && ssl[i] != Ssl(id)
    requires i < n - 1 ==> ssl'[i] == ssl[n-1]
    requires forall j :: 0 <= j < n - 1 && j != i ==> ssl'[j] == ssl[j]
    ensures InTable(ssl', n - 1, id)
  {
    var j :| 0 <= j < n && ssl[j] == Ssl(id);
    assert ssl'[if j == n - 1 then i else j] == Ssl(id);
  }

  lemma PairedAfterPoll(t: seq<PollFd>, t': seq<PollFd>, ssl: seq<Handle>, n: nat, bound: map<SessionId, int>)
    requires Paired(t, ssl, n, bound) && |t'| == |t|
    requires forall j :: 0 <= j < |t| ==> t'[j].fd == t[j].fd
    ensures Paired(t', ssl, n, bound)
  {
  }
}
