/** The redirecting HTTP client: send the request piece by piece, collect the reply into a bounded
    buffer, follow redirects a bounded number of times. */
module HttpClient {

  import opened Text
  import opened HttpParser
  import opened HttpLaws
  import opened RoundTrip
  import HttpResponse

  const MESSAGE_SIZE: nat := 1024
  const MAX_REDIRECTION: int := 5

  datatype HttpResult = HTTP_UNKNOWN | HTTP_SUCCESSFUL | HTTP_NOT_FOUND
  datatype Option<T> = None | Some(value: T)

  function RequestText(path: string, host: string): string {
    "GET " + path + " HTTP/1.1\r\nHost: " + host + "\r\nConnection: close\r\n\r\n"
  }

  // ---------- strstr ----------

  ghost predicate FirstAt(s: string, needle: string, i: int) {
    Occurs(s, needle, i) && forall j :: 0 <= j < i ==> !Occurs(s, needle, j)
  }

  lemma OccursShift(s: string, needle: string, j: int)
    requires s != "" && j >= 0
    ensures Occurs(s[1..], needle, j) <==> Occurs(s, needle, j + 1)
  {
    if j + |needle| <= |s| - 1 {
      assert s[1..][j..j + |needle|] == s[j + 1..j + 1 + |needle|];
    }
  }

  /** The offset of the first occurrence, or -1 for NULL. */
  function Strstr(s: string, needle: string): (i: int)
    ensures i == -1 || FirstAt(s, needle, i)
    ensures i == -1 ==> forall j :: !Occurs(s, needle, j)
  {
    if needle <= s then
      assert Occurs(s, needle, 0);
      0
    else if s == "" then -1
    else
      var i := Strstr(s[1..], needle);
      assert forall j :: 0 <= j ==> (Occurs(s[1..], needle, j) <==> Occurs(s, needle, j + 1)) by {
        forall j | 0 <= j ensures Occurs(s[1..], needle, j) <==> Occurs(s, needle, j + 1) {
          OccursShift(s, needle, j);
        }
      }
      assert forall j :: Occurs(s, needle, j) ==> j > 0 && Occurs(s[1..], needle, j - 1) by {
        forall j | Occurs(s, needle, j) ensures j > 0 && Occurs(s[1..], needle, j - 1) {
          if j > 0 { OccursShift(s, needle, j - 1); }
        }
      }
      if i == -1 then -1 else i + 1
  }

  const MOVED: string := "301 Moved Permanently"
  const LOCATION: string := "Location: "
  const CRLF: string := "\r\n"

  /** The host that a reply redirects to, if it is a well-formed redirect. */
  function RedirectTarget(reply: string): Option<string> {
    if Strstr(reply, MOVED) == -1 then None
    else
      var start := Strstr(reply, LOCATION);
      if start == -1 then None
      else
        var location := reply[start + |LOCATION|..];
        var end := Strstr(location, CRLF);
        if end == -1 then None else Some(location[..end])
  }

  lemma FirstIsUnique(s: string, needle: string, i: int)
    requires FirstAt(s, needle, i)
    ensures Strstr(s, needle) == i
  {
    var k := Strstr(s, needle);
    assert Occurs(s, needle, i);
  }

  /** The reply contains the 301 phrase, and the host is the shortest text from the first Location
      header to a line end. */
  ghost predicate PointsTo(reply: string, host: string) {
    && (exists i :: Occurs(reply, "301 Moved Permanently", i))
    && (exists i :: FirstAt(reply, "Location: ", i) && FirstAt(reply[i + 10..], "\r\n", |host|)
                    && reply[i + 10..][..|host|] == host)
  }

  /** A reply redirects to a host exactly if it points to it. */
  lemma TargetMeaning(reply: string, host: string)
    ensures RedirectTarget(reply) == Some(host) <==> PointsTo(reply, host)
  {
    if RedirectTarget(reply) == Some(host) {
      assert FirstAt(reply, LOCATION, Strstr(reply, LOCATION));
    }
    if PointsTo(reply, host) {
      var i :| FirstAt(reply, LOCATION, i) && FirstAt(reply[i + |LOCATION|..], CRLF, |host|)
               && reply[i + |LOCATION|..][..|host|] == host;
      FirstIsUnique(reply, LOCATION, i);
      FirstIsUnique(reply[i + |LOCATION|..], CRLF, |host|);
    }
  }

  /** The host of a redirect fits a buffer of the reply's size, with its terminator, and has no NUL. */
  lemma TargetFits(reply: string)
    requires '\0' !in reply && RedirectTarget(reply).Some?
    ensures |RedirectTarget(reply).value| + 1 <= |reply| && '\0' !in RedirectTarget(reply).value
  {
    var location := reply[Strstr(reply, LOCATION) + |LOCATION|..];
    assert forall c :: c in location ==> c in reply;
  }

  // ---------- the network ----------

  // What happens when a host is asked: no connection, or a conversation in which the peer takes at
  // most so many bytes before send fails, and delivers these bytes before recv first answers
  // without any.
  datatype Exchange = NoConnection | Conversation(accepts: nat, incoming: string)

  // Asking a host, at a given redirect count.
  type Network = (string, int) -> Exchange

  // What a host was sent and what was received from it.
  datatype Talk = Talk(host: string, sent: string, received: string)

  class Internet {
    const answers: Network
    // One entry for every host asked so far.
    var talks: seq<Talk>

    constructor (answers: Network)
      ensures this.answers == answers && talks == []
    {
      this.answers, talks := answers, [];
    }

    method Connect(host: string, count: int) returns (socket: Socket?)
      modifies this`talks
      ensures talks == old(talks) + [Talk(host, "", "")]
      ensures answers(host, count).NoConnection? <==> socket == null
      ensures socket != null ==>
        && fresh(socket) && socket.net == this
        && answers(host, count) == Conversation(socket.accepts, socket.incoming)
    {
      talks := talks + [Talk(host, "", "")];
      match answers(host, count) {
        case NoConnection => socket := null;
        case Conversation(accepts, incoming) => socket := new Socket(this, accepts, incoming);
      }
    }
  }

  /** A connection; what goes over it is entered in the last talk. */
  class Socket {
    const net: Internet
    const accepts: nat
    const incoming: string

    ghost predicate Valid()
      reads net`talks
    {
      net.talks != [] && |Said().sent| <= accepts && Said().received <= incoming
    }

    function Said(): Talk
      requires net.talks != []
      reads net`talks
    {
      net.talks[|net.talks| - 1]
    }

    constructor (net: Internet, accepts: nat, incoming: string)
      ensures this.net == net && this.accepts == accepts && this.incoming == incoming
    {
      this.net, this.accepts, this.incoming := net, accepts, incoming;
    }

    /** send: takes any positive number of the bytes that the peer will still accept. */
    method Send(data: string) returns (n: int)
      requires Valid()
      modifies net`talks
      ensures Valid()
      ensures n <= |data|
      ensures var sent := old(Said()).sent + (if n > 0 then data[..n] else "");
              net.talks == old(net.talks)[|old(net.talks)| - 1 := old(Said()).(sent := sent)]
      ensures n <= 0 <==> data == "" || |old(Said()).sent| == accepts
    {
      var talk := Said();
      var most := if |data| < accepts - |talk.sent| then |data| else accepts - |talk.sent|;
      n := *;
      if most == 0 {
        n := if n > 0 then -1 else n;
        assert talk.sent + "" == talk.sent;
        return;
      }
      n := if n < 1 then 1 else if n > most then most else n;
      net.talks := net.talks[|net.talks| - 1 := talk.(sent := talk.sent + data[..n])];
    }

    /** recv of at most len bytes into the buffer at off: any positive number of those that are left. */
    method Recv(buffer: array<char>, off: nat, len: nat) returns (n: int)
      requires Valid() && off + len <= buffer.Length
      modifies net`talks, buffer
      ensures Valid()
      ensures var delivered := |old(Said()).received|;
        && n <= len && delivered + n <= |incoming|
        && (n <= 0 <==> len == 0 || delivered == |incoming|)
        && net.talks == old(net.talks)[|old(net.talks)| - 1 :=
             old(Said()).(received := incoming[..delivered + (if n > 0 then n else 0)])]
        && forall j :: 0 <= j < buffer.Length ==>
             buffer[j] == if off <= j < off + n then incoming[delivered + j - off] else old(buffer[j])
    {
      var talk := Said();
      var delivered := |talk.received|;
      assert talk.received == incoming[..delivered];
      var left := |incoming| - delivered;
      var most := if len < left then len else left;
      n := *;
      if most == 0 {
        n := if n > 0 then 0 else n;
        return;
      }
      n := if n < 1 then 1 else if n > most then most else n;
      for k := 0 to n
        invariant net.talks == old(net.talks)
        invariant forall j :: 0 <= j < buffer.Length ==>
          buffer[j] == if off <= j < off + k then incoming[delivered + j - off] else old(buffer[j])
      {
        buffer[off + k] := incoming[delivered + k];
      }
      net.talks := net.talks[|net.talks| - 1 := talk.(received := incoming[..delivered + n])];
    }
  }

  /** However the sends are cut up, the peer has got a prefix of the request, in order and without
      repetition, and the check passes exactly when that is the whole request. */
  method SendAll(socket: Socket, request: string) returns (complete: bool)
    requires socket.Valid() && socket.Said().sent == ""
    modifies socket.net`talks
    ensures socket.Valid()
    ensures var got := if socket.accepts < |request| then request[..socket.accepts] else request;
      && socket.net.talks == old(socket.net.talks)[|old(socket.net.talks)| - 1 := old(socket.Said()).(sent := got)]
      && (complete <==> got == request)
  {
    var sentBytes := 0;
    assert old(socket.Said()).(sent := request[..0]) == old(socket.Said());
    while sentBytes < |request|
      invariant socket.Valid() && 0 <= sentBytes <= |request|
      invariant socket.net.talks ==
        old(socket.net.talks)[|old(socket.net.talks)| - 1 := old(socket.Said()).(sent := request[..sentBytes])]
    {
      var n := socket.Send(request[sentBytes..]);
      if n <= 0 {
        assert request[..sentBytes] + "" == request[..sentBytes];
        break;
      }
      assert request[..sentBytes] + request[sentBytes..][..n] == request[..sentBytes + n];
      sentBytes := sentBytes + n;
    }
    complete := sentBytes >= |request|;
    assert request[..|request|] == request;
    assert sentBytes == if socket.accepts < |request| then socket.accepts else |request|;
  }

  /** What a buffer of the message size keeps of a stream. */
  function Kept(incoming: string): string {
    if |incoming| < MESSAGE_SIZE then incoming else incoming[..MESSAGE_SIZE]
  }

  /** However the replies are cut up, the buffer holds the first bytes of the stream, as many as fit,
      followed by NULs, and no more are taken from the stream. */
  method ReceiveAll(socket: Socket, buffer: array<char>) returns (received: nat)
    requires socket.Valid() && socket.Said().received == ""
    requires buffer.Length == MESSAGE_SIZE && forall j :: 0 <= j < MESSAGE_SIZE ==> buffer[j] == '\0'
    modifies socket.net`talks, buffer
    ensures received == |Kept(socket.incoming)|
    ensures socket.net.talks ==
      old(socket.net.talks)[|old(socket.net.talks)| - 1 := old(socket.Said()).(received := Kept(socket.incoming))]
    ensures buffer[..] == Padded(Kept(socket.incoming), MESSAGE_SIZE)
  {
    received := 0;
    var n := socket.Recv(buffer, received, MESSAGE_SIZE - received);
    ghost var got := if n > 0 then n else 0;
    while n > 0
      invariant socket.Valid() && 0 <= received <= MESSAGE_SIZE && received <= |socket.incoming|
      invariant got == received + (if n > 0 then n else 0) <= MESSAGE_SIZE && got <= |socket.incoming|
      invariant socket.net.talks ==
        old(socket.net.talks)[|old(socket.net.talks)| - 1 := old(socket.Said()).(received := socket.incoming[..got])]
      invariant forall j :: 0 <= j < MESSAGE_SIZE ==> buffer[j] == if j < got then socket.incoming[j] else '\0'
      invariant n <= 0 ==> received == MESSAGE_SIZE || received == |socket.incoming|
      decreases MESSAGE_SIZE - received
    {
      received := received + n;
      n := socket.Recv(buffer, received, MESSAGE_SIZE - received);
      got := received + (if n > 0 then n else 0);
    }
    assert socket.incoming[..got] == Kept(socket.incoming);
  }

  /** strncpy and terminator: the text becomes the C string in the buffer. */
  method CopyHost(text: string, buffer: array<char>)
    requires |text| + 1 <= buffer.Length && '\0' !in text
    modifies buffer
    ensures CString(buffer[..]) == text
  {
    for k := 0 to |text|
      invariant forall j :: 0 <= j < k ==> buffer[j] == text[j]
    {
      buffer[k] := text[k];
    }
    buffer[|text|] := '\0';
    assert buffer[..|text|] == text;
    assert buffer[..] == text + buffer[|text|..];
    CStringOf(text, buffer[|text|..]);
  }

  lemma {:induction false} CStringOfPadded(s: string, n: nat)
    requires |s| <= n
    ensures CString(Padded(s, n)) == CString(s)
  {
    var p := Padded(s, n);
    if s != "" {
      assert p[1..] == Padded(s[1..], n - 1);
      CStringOfPadded(s[1..], n - 1);
    }
  }

  // ---------- the redirect chain ----------

  /** The C string that the client searches for a redirect. */
  function Reply(incoming: string): string {
    CString(Kept(incoming))
  }

  // What asking one host comes to.
  datatype Step = Broken | Arrived | Redirected(host: string)

  function StepOf(net: Network, host: string, path: string, count: int): Step {
    match net(host, count)
    case NoConnection => Broken
    case Conversation(accepts, incoming) =>
      if accepts < |RequestText(path, host)| then Broken
      else match RedirectTarget(Reply(incoming))
           case Some(target) => Redirected(target)
           case None => Arrived
  }

  /** What goes between the client and one host. */
  function TalkOf(net: Network, host: string, path: string, count: int): Talk {
    var request := RequestText(path, host);
    match net(host, count)
    case NoConnection => Talk(host, "", "")
    case Conversation(accepts, incoming) =>
      if accepts < |request| then Talk(host, request[..accepts], "") else Talk(host, request, Kept(incoming))
  }

  lemma RequestIs(path: string, host: string)
    ensures RequestText(path, host) == "GET " + path + " HTTP/1.1\r\nHost: " + host + "\r\nConnection: close\r\n\r\n"
  {
  }

  // An exchange sends a part of its request, and all of it unless it breaks off.
  lemma ExchangeSends(net: Network, host: string, path: string, count: int)
    ensures var step, talk := StepOf(net, host, path, count), TalkOf(net, host, path, count);
      var request := "GET " + path + " HTTP/1.1\r\nHost: " + host + "\r\nConnection: close\r\n\r\n";
      && talk.host == host && talk.sent <= request
      && (talk.sent != request ==> step == Broken && talk.received == "")
  {
    RequestIs(path, host);
    hide RedirectTarget, RequestText, CString, Kept;
  }

  /** memcpy of a reply over the front of the caller's buffer; there may be none. */
  function Overlay(response: string, reply: string): string {
    if |reply| <= |response| then reply + response[|reply|..] else response
  }

  function ResponseAfter(net: Network, host: string, path: string, count: int, response: string): string {
    match net(host, count)
    case NoConnection => response
    case Conversation(accepts, incoming) =>
      if accepts < |RequestText(path, host)| then response else Overlay(response, Kept(incoming))
  }

  datatype Outcome = Outcome(code: HttpResult, response: string, exchanges: nat)

  /** The walk along the redirects from a host, at redirect count c. */
  function Walk(net: Network, host: string, path: string, count: int, response: string): Outcome
    decreases MAX_REDIRECTION + 1 - count
  {
    if count > MAX_REDIRECTION then Outcome(HTTP_NOT_FOUND, response, 0)
    else
      var response' := ResponseAfter(net, host, path, count, response);
      match StepOf(net, host, path, count)
      case Broken => Outcome(HTTP_UNKNOWN, response', 1)
      case Arrived => Outcome(HTTP_SUCCESSFUL, response', 1)
      case Redirected(target) =>
        var o := Walk(net, target, "/", count + 1, response');
        o.(exchanges := o.exchanges + 1)
  }

  /** What goes between the client and all hosts on the way. */
  function Talks(net: Network, host: string, path: string, count: int): seq<Talk>
    decreases MAX_REDIRECTION + 1 - count
  {
    if count > MAX_REDIRECTION then []
    else
      var step := StepOf(net, host, path, count);
      [TalkOf(net, host, path, count)]
      + (if step.Redirected? then Talks(net, step.host, "/", count + 1) else [])
  }

  lemma FirstExchange(net: Network, host: string, path: string, count: int, response: string)
    ensures count > MAX_REDIRECTION ==>
      && Walk(net, host, path, count, response) == Outcome(HTTP_NOT_FOUND, response, 0)
      && Talks(net, host, path, count) == []
    ensures count <= MAX_REDIRECTION ==>
      var response', talk := ResponseAfter(net, host, path, count, response), TalkOf(net, host, path, count);
      match StepOf(net, host, path, count)
      case Broken => Walk(net, host, path, count, response) == Outcome(HTTP_UNKNOWN, response', 1)
                     && Talks(net, host, path, count) == [talk]
      case Arrived => Walk(net, host, path, count, response) == Outcome(HTTP_SUCCESSFUL, response', 1)
                      && Talks(net, host, path, count) == [talk]
      case Redirected(target) =>
        var o := Walk(net, target, "/", count + 1, response');
        && Walk(net, host, path, count, response) == o.(exchanges := o.exchanges + 1)
        && Talks(net, host, path, count) == [talk] + Talks(net, target, "/", count + 1)
  {
    hide StepOf, TalkOf, ResponseAfter;
  }

  ghost function Content(response: array?<char>): string
    reads if response == null then {} else {response}
  {
    if response == null then "" else response[..]
  }

  // The second half of an exchange: receive, copy the reply out, look for a redirect.
  method TakeReply(socket: Socket, response: array?<char>) returns (step: Step)
    requires socket.Valid() && socket.Said().received == ""
    requires response != null ==> response.Length >= MESSAGE_SIZE
    modifies socket.net`talks
    modifies if response == null then {} else {response}
    ensures socket.net.talks ==
      old(socket.net.talks)[|old(socket.net.talks)| - 1 := old(socket.Said()).(received := Kept(socket.incoming))]
    ensures Content(response) == Overlay(old(Content(response)), Kept(socket.incoming))
    ensures step == match RedirectTarget(Reply(socket.incoming))
                    case Some(target) => Redirected(target)
                    case None => Arrived
  {
    hide Strstr, RedirectTarget, CString, Padded;
    var buffer := new char[MESSAGE_SIZE](_ => '\0');
    var received := ReceiveAll(socket, buffer);
    var kept := Kept(socket.incoming);
    if response != null {
      ghost var before := response[..];
      CopyReply(response, buffer, received);
      assert response[..] == Overlay(before, kept);
    }
    CStringOfPadded(kept, MESSAGE_SIZE);
    step := ReadReply(CString(buffer[..]));
  }

  /** One exchange: connect, send, receive, copy the reply out.  The peer is sent the request for this
      path and host, as far as it takes it, and all of it unless the exchange breaks off. */
  method Ask(net: Internet, host: string, path: string, response: array?<char>, count: int) returns (step: Step)
    requires response != null ==> response.Length >= MESSAGE_SIZE
    modifies net`talks
    modifies if response == null then {} else {response}
    ensures step == StepOf(net.answers, host, path, count)
    ensures net.talks == old(net.talks) + [TalkOf(net.answers, host, path, count)]
    ensures Content(response) == ResponseAfter(net.answers, host, path, count, old(Content(response)))
    ensures var talk := net.talks[|old(net.talks)|];
      var request := "GET " + path + " HTTP/1.1\r\nHost: " + host + "\r\nConnection: close\r\n\r\n";
      talk.host == host && talk.sent <= request && (step != Broken ==> talk.sent == request)
  {
    hide Strstr, RedirectTarget, RequestText, CString, Padded, Kept, Overlay;
    ExchangeSends(net.answers, host, path, count);
    var socket := net.Connect(host, count);
    if socket == null {
      return Broken;
    }
    var complete := SendAll(socket, RequestText(path, host));
    if !complete {
      return Broken;
    }
    step := TakeReply(socket, response);
  }

  /** Look for a redirect; its host is copied out of the reply. */
  method ReadReply(reply: string) returns (step: Step)
    requires |reply| <= MESSAGE_SIZE && '\0' !in reply
    ensures step == match RedirectTarget(reply) case Some(target) => Redirected(target) case None => Arrived
  {
    var target := RedirectTarget(reply);
    if target.None? {
      return Arrived;
    }
    TargetFits(reply);
    var newHost := new char[MESSAGE_SIZE](_ => '\0');
    CopyHost(target.value, newHost);
    step := Redirected(CString(newHost[..]));
  }

  method CopyReply(response: array<char>, buffer: array<char>, n: nat)
    requires n <= buffer.Length <= response.Length && buffer != response
    modifies response
    ensures response[..] == buffer[..n] + old(response[..])[n..]
  {
    for k := 0 to n
      invariant forall j :: 0 <= j < response.Length ==> response[j] == if j < k then buffer[j] else old(response[j])
    {
      response[k] := buffer[k];
    }
  }

  /** The client: its result code, the caller's buffer, the number of exchanges and what went over the
      net are those of the walk, however the bytes were cut up on the way. */
  method PerformHttpRequest(net: Internet, host: string, path: string, response: array?<char>, count: int)
    returns (code: HttpResult, ghost exchanges: nat)
    requires response != null ==> response.Length >= MESSAGE_SIZE
    modifies net`talks
    modifies if response == null then {} else {response}
    ensures Outcome(code, Content(response), exchanges) == Walk(net.answers, host, path, count, old(Content(response)))
    ensures net.talks == old(net.talks) + Talks(net.answers, host, path, count)
    decreases MAX_REDIRECTION + 1 - count
  {
    hide StepOf, TalkOf, ResponseAfter, Walk, Talks;
    FirstExchange(net.answers, host, path, count, Content(response));
    if count > MAX_REDIRECTION {
      return HTTP_NOT_FOUND, 0;
    }
    var step := Ask(net, host, path, response, count);
    exchanges := 1;
    match step {
      case Broken => code := HTTP_UNKNOWN;
      case Arrived => code := HTTP_SUCCESSFUL;
      case Redirected(target) =>
        ghost var more;
        code, more := PerformHttpRequest(net, target, "/", response, count + 1);
        exchanges := more + 1;
    }
  }

  // ---------- what the walk means ----------

  /** The host that is asked after k redirects, if the first k exchanges all redirect. */
  function HostAfter(net: Network, host: string, path: string, count: int, k: nat): Option<string> {
    if k == 0 then Some(host)
    else
      match HostAfter(net, host, path, count, k - 1)
      case None => None
      case Some(h) =>
        match StepOf(net, h, if k == 1 then path else "/", count + k - 1)
        case Redirected(target) => Some(target)
        case _ => None
  }

  /** What the exchange after k redirects comes to, if there is one. */
  ghost predicate EndsAt(net: Network, host: string, path: string, count: int, k: nat, step: Step) {
    match HostAfter(net, host, path, count, k)
    case Some(h) => StepOf(net, h, if k == 0 then path else "/", count + k) == step
    case None => false
  }

  // The number of exchanges that a count leaves.
  function Limit(count: int): nat {
    if count > MAX_REDIRECTION then 0 else MAX_REDIRECTION + 1 - count
  }

  lemma {:induction false} HostAfterFirst(net: Network, host: string, path: string, count: int, target: string, k: nat)
    requires StepOf(net, host, path, count) == Redirected(target)
    ensures HostAfter(net, host, path, count, k + 1) == HostAfter(net, target, "/", count + 1, k)
  {
    hide StepOf;
    if k == 0 {
      assert HostAfter(net, host, path, count, 0) == Some(host);
    } else {
      HostAfterFirst(net, host, path, count, target, k - 1);
    }
  }

  lemma EndsAfterFirst(net: Network, host: string, path: string, count: int, target: string, k: nat, step: Step)
    requires StepOf(net, host, path, count) == Redirected(target)
    ensures EndsAt(net, host, path, count, k + 1, step) <==> EndsAt(net, target, "/", count + 1, k, step)
  {
    hide StepOf;
    HostAfterFirst(net, host, path, count, target, k);
  }

  lemma {:induction false} NoHostAfterEnd(net: Network, host: string, path: string, count: int, k: nat)
    requires !StepOf(net, host, path, count).Redirected? && k > 0
    ensures HostAfter(net, host, path, count, k) == None
  {
    if k > 1 {
      NoHostAfterEnd(net, host, path, count, k - 1);
    }
  }

  function CodeOf(step: Step): HttpResult
    requires !step.Redirected?
  {
    if step.Arrived? then HTTP_SUCCESSFUL else HTTP_UNKNOWN
  }

  /** A chain that ends at some exchange within the limit ends with that exchange's result, there. */
  lemma {:induction false} ChainEnds(net: Network, host: string, path: string, count: int, response: string, k: nat,
                                     step: Step)
    requires k < Limit(count) && EndsAt(net, host, path, count, k, step) && !step.Redirected?
    ensures Walk(net, host, path, count, response).code == CodeOf(step)
    ensures Walk(net, host, path, count, response).exchanges == k + 1
    decreases k
  {
    hide StepOf, ResponseAfter;
    var first := StepOf(net, host, path, count);
    if k > 0 {
      if !first.Redirected? {
        NoHostAfterEnd(net, host, path, count, k);
      }
      EndsAfterFirst(net, host, path, count, first.host, k - 1, step);
      ChainEnds(net, first.host, "/", count + 1, ResponseAfter(net, host, path, count, response), k - 1, step);
    }
  }

  /** A chain that never ends within the limit has used it up, and is reported as not found. */
  lemma {:induction false} ChainGoesOn(net: Network, host: string, path: string, count: int, response: string)
    requires HostAfter(net, host, path, count, Limit(count)).Some?
    ensures Walk(net, host, path, count, response).code == HTTP_NOT_FOUND
    ensures Walk(net, host, path, count, response).exchanges == Limit(count)
    decreases Limit(count)
  {
    hide StepOf, ResponseAfter;
    if count <= MAX_REDIRECTION {
      var first := StepOf(net, host, path, count);
      if !first.Redirected? {
        NoHostAfterEnd(net, host, path, count, Limit(count));
      }
      HostAfterFirst(net, host, path, count, first.host, Limit(count) - 1);
      ChainGoesOn(net, first.host, "/", count + 1, ResponseAfter(net, host, path, count, response));
    }
  }

  /** One of the two is the case. */
  lemma {:induction false} EndsOrGoesOn(net: Network, host: string, path: string, count: int, k: nat)
    ensures HostAfter(net, host, path, count, k).Some?
         || exists j: nat, step: Step :: j < k && !step.Redirected? && EndsAt(net, host, path, count, j, step)
  {
    hide StepOf;
    if k > 0 {
      EndsOrGoesOn(net, host, path, count, k - 1);
      if HostAfter(net, host, path, count, k - 1).Some? {
        var h := HostAfter(net, host, path, count, k - 1).value;
        var step := StepOf(net, h, if k == 1 then path else "/", count + k - 1);
        assert EndsAt(net, host, path, count, k - 1, step);
      }
    }
  }

  ghost predicate EndsWithin(net: Network, host: string, path: string, count: int, step: Step) {
    exists k: nat :: k < Limit(count) && EndsAt(net, host, path, count, k, step)
  }

  /** The chain takes at most as many exchanges as its count leaves.  It ends in not-found exactly if
      every one of them redirects, in success exactly if one of them arrives, and in failure exactly
      if one of them breaks off. */
  lemma ChainOutcome(net: Network, host: string, path: string, count: int, response: string)
    ensures var o := Walk(net, host, path, count, response);
      && o.exchanges <= Limit(count)
      && (o.code == HTTP_NOT_FOUND <==> HostAfter(net, host, path, count, Limit(count)).Some?)
      && (o.code == HTTP_SUCCESSFUL <==> EndsWithin(net, host, path, count, Arrived))
      && (o.code == HTTP_UNKNOWN <==> EndsWithin(net, host, path, count, Broken))
  {
    hide StepOf, Walk, HostAfter;
    EndsOrGoesOn(net, host, path, count, Limit(count));
    if HostAfter(net, host, path, count, Limit(count)).Some? {
      ChainGoesOn(net, host, path, count, response);
    }
    forall k: nat, step: Step | k < Limit(count) && !step.Redirected? && EndsAt(net, host, path, count, k, step)
      ensures Walk(net, host, path, count, response).code == CodeOf(step)
      ensures Walk(net, host, path, count, response).exchanges == k + 1
    {
      ChainEnds(net, host, path, count, response, k, step);
    }
  }

  // ---------- the request, as the server reads it ----------

  function RequestLine(path: string): string {
    "GET " + path + " HTTP/1.1\r"
  }

  function RequestLines(host: string): seq<string> {
    ["Host: " + host + "\r", "Connection: close\r"]
  }

  lemma JoinedTwo(a: string, b: string)
    ensures Joined([a, b]) == a + "\n" + (b + "\n")
  {
    assert [a, b][1..] == [b] && [b][1..] == [];
    assert Joined([b]) == b + "\n" + "";
  }

  lemma RequestShape(path: string, host: string)
    ensures RequestText(path, host) == RequestLine(path) + "\n" + (Joined(RequestLines(host)) + "\r\n" + "")
  {
    var a, b, start := "Host: " + host + "\r", "Connection: close\r", RequestLine(path);
    JoinedTwo(a, b);
    hide Joined;
    assert a + "\n" + (b + "\n") + "\r\n" + "" == "Host: " + host + "\r\nConnection: close\r\n\r\n";
    assert "GET " + path + " HTTP/1.1\r\nHost: " + host + "\r\nConnection: close\r\n\r\n"
        == "GET " + path + " HTTP/1.1\r" + "\n" + ("Host: " + host + "\r\nConnection: close\r\n\r\n");
  }

  // Two words in front of a tail.
  lemma TwoWords(a: string, b: string, tail: string)
    requires a != "" && NoSpaces(a) && b != "" && NoSpaces(b) && tail != "" && IsSpace(tail[0])
    ensures Word(a + (" " + b + tail)) == a && Word(AfterWord(a + (" " + b + tail))) == b
  {
    hide Word, AfterWord;
    WordOf(a, " " + b + tail);
    WordOf(b, tail);
  }

  lemma RequestLineIsOneLine(path: string)
    requires NoSpaces(path)
    ensures '\n' !in RequestLine(path) && RequestLine(path) != BLANK
  {
    assert '\n' !in path by { assert forall c :: c in path ==> !IsSpace(c); }
    assert forall c :: c in RequestLine(path) ==> c in "GET " || c in path || c in " HTTP/1.1\r";
    assert RequestLine(path)[0] == 'G';
  }

  lemma RequestLineIsRead(path: string)
    requires NoSpaces(path)
    ensures Word(RequestLine(path)) == "GET"
    ensures Word(AfterWord(RequestLine(path))) == if path == "" then "HTTP/1.1" else path
  {
    if path == "" {
      hide Word, AfterWord;
      assert RequestLine(path) == "GET" + "  HTTP/1.1\r";
      WordOf("GET", "  HTTP/1.1\r");
      SecondSpace("HTTP/1.1", "\r");
      assert "  HTTP/1.1\r" == " " + (" " + "HTTP/1.1" + "\r");
    } else {
      hide Word, AfterWord;
      assert RequestLine(path) == "GET" + (" " + path + " HTTP/1.1\r");
      TwoWords("GET", path, " HTTP/1.1\r");
    }
  }

  lemma SecondSpace(w: string, t: string)
    requires w != "" && NoSpaces(w) && (t == "" || IsSpace(t[0]))
    ensures Word(" " + (" " + w + t)) == w
  {
    assert (" " + (" " + w + t))[1..] == " " + w + t;
    WordOf(w, t);
  }

  lemma RequestHeadersAreRead(host: string)
    ensures HeadersOf(RequestLines(host)) == map["Host" := host, "Connection" := "close"]
  {
    hide HasColon, KeyOf, ValueOf, HeadersOf;
    var a, b := "Host: " + host + "\r", "Connection: close\r";
    NoHeaders();
    assert [] + [a] == [a] && [a] + [b] == [a, b];
    OneMoreHeader([], a);
    OneMoreHeader([a], b);
    assert a == HttpResponse.HeaderLine("Host", " " + host) && (" " + host)[1..] == host;
    assert b == HttpResponse.HeaderLine("Connection", " close") && " close"[1..] == "close";
    HeaderLineIsRead("Host", " " + host);
    HeaderLineIsRead("Connection", " close");
  }

  /** What the client means by its request. */
  ghost predicate ReadBack(path: string, host: string) {
    Parse(RequestText(path, host))
    == Parsed(HTTPRequest("GET", path, map["Host" := host, "Connection" := "close"], ""))
  }

  lemma PlainRequestIsRead(path: string, host: string)
    requires path != "" && NoSpaces(path) && '\n' !in host
    ensures ReadBack(path, host)
  {
    hide HeadersOf, Word, AfterWord, FirstLine, AfterLine, RequestLine;
    var lines := RequestLines(host);
    RequestShape(path, host);
    RequestLineIsRead(path);
    RequestLineIsOneLine(path);
    LineSplit(RequestLine(path), Joined(lines) + "\r\n" + "");
    assert forall c :: c in lines[0] ==> c in "Host: " || c in host || c in "\r";
    assert lines[0][0] == 'H' && lines[1][0] == 'C';
    HeadOfJoined(lines, "");
    RequestHeadersAreRead(host);
  }

  // The path that a parsed message has is a word, and an empty one is not taken from a request line.
  lemma ParsedPath(path: string, host: string)
    requires Parse(RequestText(path, host)).Parsed?
    ensures var p := Parse(RequestText(path, host)).request.path;
            NoSpaces(p) && (path == "" ==> p == "HTTP/1.1")
  {
    if path == "" {
      RequestShape(path, host);
      RequestLineIsRead(path);
      RequestLineIsOneLine(path);
      LineSplit(RequestLine(path), Joined(RequestLines(host)) + "\r\n" + "");
    }
  }

  lemma ReadBackIsPlain(path: string, host: string)
    requires ReadBack(path, host)
    ensures path != "" && NoSpaces(path) && '\n' !in host
  {
    hide Parse, RequestText;
    ParsedPath(path, host);
    ParsedIsPlain(RequestText(path, host));
    var h := map["Host" := host, "Connection" := "close"];
    assert h["Host"] == host;
  }

  /** What the client sends is read by the server's parser as GET, the same path and exactly the two
      headers, if and only if the path is one word and the host has no newline. */
  lemma RequestIsRead(path: string, host: string)
    ensures ReadBack(path, host) <==> path != "" && NoSpaces(path) && '\n' !in host
  {
    hide ReadBack, NoSpaces;
    if path != "" && NoSpaces(path) && '\n' !in host {
      PlainRequestIsRead(path, host);
    } else if ReadBack(path, host) {
      ReadBackIsPlain(path, host);
    }
  }
}
