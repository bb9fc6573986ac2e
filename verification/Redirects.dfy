/** What the redirecting client says and does, in plain terms: the bytes each host is sent, the host
    that comes next, the result, and the bytes left in the caller's buffer. */
module Redirects {

  import opened Text
  import opened HttpParser
  import opened HttpClient

  // ---------- literal replies ----------

  lemma LiteralStart(host: string)
    ensures "HTTP/1.1 301 Moved Permanently\r\nLocation: " + host + "\r\n\r\n"
         == "HTTP/1.1 301 Moved Permanently\r\n" + "Location: " + (host + "\r\n" + "\r\n")
  {
    assert "HTTP/1.1 301 Moved Permanently\r\n" + "Location: " == "HTTP/1.1 301 Moved Permanently\r\nLocation: ";
  }

  lemma LiteralPhrase(host: string)
    ensures "HTTP/1.1 301 Moved Permanently\r\nLocation: " + host + "\r\n\r\n"
         == "HTTP/1.1 " + "301 Moved Permanently" + ("\r\nLocation: " + host + "\r\n\r\n")
  {
    assert "HTTP/1.1 " + "301 Moved Permanently" + "\r\nLocation: " == "HTTP/1.1 301 Moved Permanently\r\nLocation: ";
  }

  lemma LiteralRest(host: string)
    ensures var reply := "HTTP/1.1 301 Moved Permanently\r\nLocation: " + host + "\r\n\r\n";
            reply[32 + 10..] == host + "\r\n" + "\r\n" && reply[32 + 10..][..|host|] == host
  {
    var start := "HTTP/1.1 301 Moved Permanently\r\nLocation: ";
    assert |start| == 42;
    DropFront(start, host, "\r\n\r\n");
  }

  lemma DropFront(a: string, b: string, c: string)
    ensures (a + b + c)[|a|..] == b + c && (b + c)[..|b|] == b
  {
  }

  /** A plain redirect points to the host it names. */
  lemma LiteralRedirect(host: string)
    requires '\r' !in host
    ensures RedirectTarget("HTTP/1.1 301 Moved Permanently\r\nLocation: " + host + "\r\n\r\n") == Some(host)
  {
    hide RedirectTarget, Occurs, FirstAt;
    var moved, after := "301 Moved Permanently", "\r\nLocation: " + host + "\r\n\r\n";
    var reply := "HTTP/1.1 301 Moved Permanently\r\nLocation: " + host + "\r\n\r\n";
    LiteralStart(host);
    LiteralPhrase(host);
    LiteralRest(host);
    FirstByItsFirst("HTTP/1.1 301 Moved Permanently\r\n", "Location: ", host + "\r\n" + "\r\n");
    FirstByItsFirst(host, "\r\n", "\r\n");
    OccursInItself(moved);
    OccursMore("HTTP/1.1 ", moved, after, moved, 0);
    PointsToAs(reply, host, |"HTTP/1.1 "| + 0, 32);
    TargetMeaning(reply, host);
  }

  lemma PointsToAs(reply: string, host: string, i: int, j: nat)
    requires Occurs(reply, "301 Moved Permanently", i) && FirstAt(reply, "Location: ", j)
    requires j + 10 <= |reply| && FirstAt(reply[j + 10..], "\r\n", |host|)
    requires |host| <= |reply| - j - 10 && reply[j + 10..][..|host|] == host
    ensures PointsTo(reply, host)
  {
  }

  lemma OccursBegins(s: string, needle: string, j: int)
    requires Occurs(s, needle, j) && needle != ""
    ensures s[j] == needle[0]
  {
    assert s[j..j + |needle|][0] == s[j];
  }

  lemma OccursInItself(s: string)
    ensures Occurs(s, s, 0)
  {
    assert s[0..|s|] == s;
  }

  // A needle whose first character does not come before it.
  lemma FirstByItsFirst(before: string, needle: string, after: string)
    requires needle != "" && needle[0] !in before
    ensures FirstAt(before + needle + after, needle, |before|)
  {
    var s := before + needle + after;
    assert s[|before|..|before| + |needle|] == needle;
    forall j | 0 <= j < |before| ensures !Occurs(s, needle, j) {
      assert s[j] == before[j] && before[j] in before;
      if Occurs(s, needle, j) {
        OccursBegins(s, needle, j);
      }
    }
  }

  lemma PointsSomewhere(reply: string, host: string)
    requires PointsTo(reply, host)
    ensures (exists i :: Occurs(reply, "301 Moved Permanently", i)) && exists i :: Occurs(reply, "Location: ", i)
  {
    var i :| FirstAt(reply, "Location: ", i);
    assert Occurs(reply, "Location: ", i);
  }

  /** A reply without the 301 phrase, or without a Location header, points nowhere. */
  lemma LiteralArrival(reply: string)
    requires !(exists i :: Occurs(reply, "301 Moved Permanently", i)) || !(exists i :: Occurs(reply, "Location: ", i))
    ensures RedirectTarget(reply) == None
  {
    hide PointsTo, Occurs, RedirectTarget;
    if RedirectTarget(reply) != None {
      TargetMeaning(reply, RedirectTarget(reply).value);
      PointsSomewhere(reply, RedirectTarget(reply).value);
    }
  }

  // ---------- one exchange ----------

  /** One exchange.  Without a connection it breaks off.  With one, the peer is sent the request, as far
      as it takes it; if that is not all, the exchange breaks off.  Otherwise the first 1024 bytes
      that the peer delivers are received, and the text before the first NUL decides whether this
      redirects, and where to. */
  lemma ExchangeMeaning(net: Network, host: string, path: string, count: int)
    ensures var step, talk := StepOf(net, host, path, count), TalkOf(net, host, path, count);
      var request := "GET " + path + " HTTP/1.1\r\nHost: " + host + "\r\nConnection: close\r\n\r\n";
      match net(host, count)
      case NoConnection => step == Broken && talk == Talk(host, "", "")
      case Conversation(accepts, incoming) =>
        if accepts < |request| then step == Broken && talk == Talk(host, request[..accepts], "")
        else
          && talk == Talk(host, request, if |incoming| <= 1024 then incoming else incoming[..1024])
          && !step.Broken?
          && (forall target :: step == Redirected(target) <==> PointsTo(CString(talk.received), target))
          && (step == Arrived <==> forall target :: !PointsTo(CString(talk.received), target))
  {
    RequestIs(path, host);
    hide RedirectTarget, PointsTo, RequestText, CString;
    match net(host, count) {
      case NoConnection =>
      case Conversation(accepts, incoming) =>
        assert |incoming| == 1024 ==> incoming[..1024] == incoming;
        var reply := CString(Kept(incoming));
        forall target ensures RedirectTarget(reply) == Some(target) <==> PointsTo(reply, target) {
          TargetMeaning(reply, target);
        }
    }
  }

  /** What an exchange leaves in the caller's buffer: the bytes received, and behind them what was there
      before. */
  lemma BufferMeaning(net: Network, host: string, path: string, count: int, response: string)
    ensures var received := TalkOf(net, host, path, count).received;
      var after := ResponseAfter(net, host, path, count, response);
      && (|response| >= 1024 ==> (
            && |after| == |response|
            && forall j :: 0 <= j < |response| ==> after[j] == if j < |received| then received[j] else response[j]))
      && (response == "" ==> after == "")
      && |received| <= 1024
  {
    hide RequestText;
  }

  // ---------- the whole chain ----------

  lemma {:induction false} TextsSent(net: Network, host: string, path: string, count: int, response: string, k: nat)
    requires k < |Talks(net, host, path, count)|
    ensures var talks := Talks(net, host, path, count);
      var request := RequestText(if k == 0 then path else "/", talks[k].host);
      && (k == 0 ==> talks[k].host == host)
      && talks[k].sent <= request
      && (talks[k].sent != request ==>
          k == |talks| - 1 && talks[k].received == "" && Walk(net, host, path, count, response).code == HTTP_UNKNOWN)
    decreases k
  {
    hide StepOf, TalkOf, ResponseAfter, Walk, Talks, RequestText;
    FirstExchange(net, host, path, count, response);
    ExchangeSends(net, host, path, count);
    RequestIs(path, host);
    var step := StepOf(net, host, path, count);
    if k > 0 {
      TextsSent(net, step.host, "/", count + 1, ResponseAfter(net, host, path, count, response), k - 1);
    }
  }

  /** The k-th host asked is sent the request for its path (the caller's path for the first host, "/" for
      every other), in order and from the start, and all of it unless the chain breaks off there. */
  lemma RequestsSent(net: Network, host: string, path: string, count: int, response: string, k: nat)
    requires k < |Talks(net, host, path, count)|
    ensures var talks := Talks(net, host, path, count);
      var request := "GET " + (if k == 0 then path else "/") + " HTTP/1.1\r\nHost: " + talks[k].host
                     + "\r\nConnection: close\r\n\r\n";
      && (k == 0 ==> talks[k].host == host)
      && talks[k].sent <= request
      && (talks[k].sent != request ==>
          k == |talks| - 1 && talks[k].received == "" && Walk(net, host, path, count, response).code == HTTP_UNKNOWN)
  {
    hide Walk, Talks;
    RequestIs(if k == 0 then path else "/", Talks(net, host, path, count)[k].host);
    TextsSent(net, host, path, count, response, k);
  }

  /** What is sent whole is read by the server's parser as a GET for that path with that Host, if the path
      is one word and the host has no newline, and only then. */
  lemma SentIsRead(path: string, host: string)
    ensures Parse("GET " + path + " HTTP/1.1\r\nHost: " + host + "\r\nConnection: close\r\n\r\n")
            == Parsed(HTTPRequest("GET", path, map["Host" := host, "Connection" := "close"], ""))
       <==> path != "" && NoSpaces(path) && '\n' !in host
  {
    RequestIs(path, host);
    hide Parse, RequestText, NoSpaces;
    RequestIsRead(path, host);
  }

  // Where an exchange leads, without the bytes of its request.
  lemma ExchangeLeads(net: Network, host: string, path: string, count: int)
    ensures var step, talk := StepOf(net, host, path, count), TalkOf(net, host, path, count);
      && talk.host == host
      && match step
         case Broken =>
           net(host, count).NoConnection? || net(host, count).accepts < |RequestText(path, host)|
         case Redirected(target) => PointsTo(CString(talk.received), target)
         case Arrived => talk.sent == RequestText(path, host) && PointsNowhere(CString(talk.received))
  {
    hide RedirectTarget, RequestText, CString, PointsTo;
    match net(host, count) {
      case NoConnection =>
      case Conversation(accepts, incoming) =>
        var reply := CString(Kept(incoming));
        forall target ensures RedirectTarget(reply) == Some(target) <==> PointsTo(reply, target) {
          TargetMeaning(reply, target);
        }
    }
  }

  ghost predicate PointsNowhere(reply: string) {
    forall host :: !PointsTo(reply, host)
  }

  /** Every host but the first is the one that the reply of the host before points to. */
  lemma {:induction false} HostsFollow(net: Network, host: string, path: string, count: int, k: nat)
    requires k + 1 < |Talks(net, host, path, count)|
    ensures var talks := Talks(net, host, path, count);
            PointsTo(CString(talks[k].received), talks[k + 1].host)
    decreases k
  {
    hide StepOf, TalkOf, PointsTo, PointsNowhere, Talks, Walk, CString, RequestText;
    FirstExchange(net, host, path, count, "");
    ExchangeLeads(net, host, path, count);
    var step := StepOf(net, host, path, count);
    if k > 0 {
      HostsFollow(net, step.host, "/", count + 1, k - 1);
    } else {
      FirstExchange(net, step.host, "/", count + 1, ResponseAfter(net, host, path, count, ""));
      ExchangeLeads(net, step.host, "/", count + 1);
    }
  }

  // How the chain ends, with the request as a name.
  ghost predicate EndsAs(net: Network, path: string, count: int, talks: seq<Talk>, code: HttpResult) {
    talks != [] &&
    var last := talks[|talks| - 1];
    var request := RequestText(if |talks| == 1 then path else "/", last.host);
    match code
    case HTTP_SUCCESSFUL => last.sent == request && PointsNowhere(CString(last.received))
    case HTTP_NOT_FOUND => |talks| == 6 - count && exists h :: PointsTo(CString(last.received), h)
    case HTTP_UNKNOWN =>
      net(last.host, count + |talks| - 1).NoConnection? || net(last.host, count + |talks| - 1).accepts < |request|
  }

  lemma EndsLater(net: Network, path: string, count: int, first: Talk, more: seq<Talk>, code: HttpResult)
    requires EndsAs(net, "/", count + 1, more, code)
    ensures EndsAs(net, path, count, [first] + more, code)
  {
    hide RequestText, PointsTo, PointsNowhere, CString;
  }

  lemma {:induction false} ChainEndsAs(net: Network, host: string, path: string, count: int, response: string)
    ensures var talks, o := Talks(net, host, path, count), Walk(net, host, path, count, response);
      && o.exchanges == |talks| <= (if count > 5 then 0 else 6 - count)
      && (count > 5 ==> talks == [] && o.code == HTTP_NOT_FOUND && o.response == response)
      && (count <= 5 ==> EndsAs(net, path, count, talks, o.code))
    decreases 6 - count
  {
    hide StepOf, TalkOf, PointsTo, PointsNowhere, Talks, Walk, ResponseAfter, CString, RequestText;
    FirstExchange(net, host, path, count, response);
    if count <= 5 {
      ExchangeLeads(net, host, path, count);
      var step := StepOf(net, host, path, count);
      if step.Redirected? {
        ChainEndsAs(net, step.host, "/", count + 1, ResponseAfter(net, host, path, count, response));
        if count < 5 {
          EndsLater(net, path, count, TalkOf(net, host, path, count), Talks(net, step.host, "/", count + 1),
                    Walk(net, host, path, count, response).code);
        } else {
          assert [TalkOf(net, host, path, count)] + [] == [TalkOf(net, host, path, count)];
        }
      }
    }
  }

  /** How the chain ends.  At most 6 - c hosts are asked from redirect count c on.  In success, the last
      host was sent the whole request and its reply points nowhere; in not-found, the limit is used up
      and the last reply still points somewhere; in failure, the last host gave no connection or did
      not take the whole request. */
  lemma ChainMeaning(net: Network, host: string, path: string, count: int, response: string)
    ensures var talks, o := Talks(net, host, path, count), Walk(net, host, path, count, response);
      && o.exchanges == |talks| <= (if count > 5 then 0 else 6 - count)
      && (count > 5 ==> talks == [] && o.code == HTTP_NOT_FOUND && o.response == response)
      && (count <= 5 ==> (
            && talks != [] &&
            var last := talks[|talks| - 1];
            var request := "GET " + (if |talks| == 1 then path else "/") + " HTTP/1.1\r\nHost: " + last.host
                           + "\r\nConnection: close\r\n\r\n";
            match o.code
            case HTTP_SUCCESSFUL => last.sent == request && forall h :: !PointsTo(CString(last.received), h)
            case HTTP_NOT_FOUND => |talks| == 6 - count && exists h :: PointsTo(CString(last.received), h)
            case HTTP_UNKNOWN =>
              || net(last.host, count + |talks| - 1).NoConnection?
              || net(last.host, count + |talks| - 1).accepts < |request|))
  {
    hide Talks, Walk, PointsTo, CString;
    ChainEndsAs(net, host, path, count, response);
    var talks, code := Talks(net, host, path, count), Walk(net, host, path, count, response).code;
    if count <= 5 {
      assert EndsAs(net, path, count, talks, code);
      RequestIs(if |talks| == 1 then path else "/", talks[|talks| - 1].host);
      hide RequestText;
    }
  }

  // ---------- the caller's buffer ----------

  /** The last talk that received more than j bytes. */
  ghost predicate LastBeyond(talks: seq<Talk>, j: nat, k: nat) {
    && k < |talks| && j < |talks[k].received|
    && forall m :: k < m < |talks| ==> |talks[m].received| <= j
  }

  /** The caller's buffer afterwards, byte by byte: from the last host that delivered that many bytes, or
      as it was; a missing buffer stays missing. */
  lemma {:induction false} BufferBytes(net: Network, host: string, path: string, count: int, response: string, j: nat)
    requires |response| >= 1024 && j < |response|
    ensures var talks, after := Talks(net, host, path, count), Walk(net, host, path, count, response).response;
      && |after| == |response|
      && (forall k: nat :: LastBeyond(talks, j, k) ==> after[j] == talks[k].received[j])
      && ((forall k :: 0 <= k < |talks| ==> |talks[k].received| <= j) ==> after[j] == response[j])
    decreases MAX_REDIRECTION + 1 - count
  {
    hide StepOf, TalkOf, Talks, Walk, ResponseAfter, LastBeyond;
    FirstExchange(net, host, path, count, response);
    if count > MAX_REDIRECTION {
      NoneBeyond(j);
    } else {
      BufferMeaning(net, host, path, count, response);
      var step, response' := StepOf(net, host, path, count), ResponseAfter(net, host, path, count, response);
      var first, more := TalkOf(net, host, path, count), [];
      if step.Redirected? {
        BufferBytes(net, step.host, "/", count + 1, response', j);
        more := Talks(net, step.host, "/", count + 1);
      } else {
        NoneBeyond(j);
        assert [first] + [] == [first];
      }
      BytesLater(first, more, j);
    }
  }

  lemma NoneBeyond(j: nat)
    ensures forall k: nat :: !LastBeyond([], j, k)
  {
  }

  // The first talk counts for a byte only if no later one reaches it.
  lemma BytesLater(first: Talk, more: seq<Talk>, j: nat)
    ensures forall k: nat :: k > 0 ==> (LastBeyond([first] + more, j, k) <==> LastBeyond(more, j, k - 1))
    ensures LastBeyond([first] + more, j, 0) ==>
      j < |first.received| && forall k :: 0 <= k < |more| ==> |more[k].received| <= j
    ensures (forall k :: 0 <= k <= |more| ==> |([first] + more)[k].received| <= j) ==>
      |first.received| <= j && forall k :: 0 <= k < |more| ==> |more[k].received| <= j
  {
    var all := [first] + more;
    assert forall k :: 0 <= k < |more| ==> all[k + 1] == more[k];
    forall k: nat | k > 0 ensures LastBeyond(all, j, k) <==> LastBeyond(more, j, k - 1) {
      assert forall m :: k < m < |all| ==> all[m] == more[m - 1];
    }
  }

  lemma {:induction false} NoBuffer(net: Network, host: string, path: string, count: int)
    ensures Walk(net, host, path, count, "").response == ""
    decreases MAX_REDIRECTION + 1 - count
  {
    hide StepOf, TalkOf, Talks, Walk, ResponseAfter;
    FirstExchange(net, host, path, count, "");
    if count <= MAX_REDIRECTION {
      BufferMeaning(net, host, path, count, "");
      var step := StepOf(net, host, path, count);
      if step.Redirected? {
        NoBuffer(net, step.host, "/", count + 1);
      }
    }
  }
}
