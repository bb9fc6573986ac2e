/** Printing walks an unordered map, and set_header accepts any Content-Length, even one with
    newlines in it, which then prints as several lines.  Exactly when printing and parsing gives
    everything back, in whatever order the map is walked. */
module AnyOrder {

  import opened Text
  import opened HttpParser
  import opened HttpLaws
  import opened HttpResponse
  import opened RoundTrip

  // ---------- lines ----------

  /** A text as the lines it prints as. */
  function Lines(s: string): (lines: seq<string>)
    decreases |s|
  {
    if '\n' !in s then [s] else [FirstLine(s)] + Lines(AfterLine(s))
  }

  lemma {:induction false} LinesJoin(s: string)
    ensures Joined(Lines(s)) == s + "\n" && Lines(s) != []
    ensures forall line :: line in Lines(s) ==> '\n' !in line
    decreases |s|
  {
    if '\n' !in s {
      assert [s][1..] == [] && Joined([s]) == s + "\n" + "";
    } else {
      var line, more := FirstLine(s), AfterLine(s);
      LinesJoin(more);
      StartSplit(s);
      assert ([line] + Lines(more))[1..] == Lines(more);
      assert Joined([line] + Lines(more)) == line + "\n" + (more + "\n");
    }
  }

  lemma {:induction false} JoinedConcat(a: seq<string>, b: seq<string>)
    ensures Joined(a + b) == Joined(a) + Joined(b)
  {
    if a == [] {
      assert a + b == b;
    } else {
      JoinedConcat(a[1..], b);
      assert (a + b)[1..] == a[1..] + b;
    }
  }

  lemma {:induction false} HeadersConcat(a: seq<string>, b: seq<string>)
    ensures HeadersOf(a + b) == HeadersOf(a) + HeadersOf(b)
  {
    hide HeadersOf, HasColon, KeyOf, ValueOf;
    if b == [] {
      assert a + b == a;
      NoHeaders();
    } else {
      var m := |b| - 1;
      assert b == b[..m] + [b[m]] && a + b == a + b[..m] + [b[m]];
      HeadersConcat(a, b[..m]);
      OneMoreHeader(a + b[..m], b[m]);
      OneMoreHeader(b[..m], b[m]);
    }
  }

  /** The position of the first blank line; the number of lines if there is none. */
  function BlankAt(lines: seq<string>): (b: nat)
    ensures b <= |lines| && (b < |lines| ==> lines[b] == BLANK)
    ensures forall i :: 0 <= i < b ==> lines[i] != BLANK
  {
    if lines == [] || lines[0] == BLANK then 0 else 1 + BlankAt(lines[1..])
  }

  // ---------- the lines of a stored Content-Length ----------

  function LengthLines(val: string): seq<string> {
    Lines(HeaderLine(CONTENT_LENGTH, val))
  }

  lemma FirstLineBegins(s: string, pre: string)
    requires pre <= s && '\n' !in pre
    ensures Lines(s) != [] && pre <= Lines(s)[0]
  {
    if '\n' in s {
      assert IndexOf(s, '\n') >= |pre|;
    }
  }

  // The first of them is a Content-Length header, whatever its value.
  lemma FirstIsLength(val: string)
    ensures var w := LengthLines(val);
            w != [] && w[0] != BLANK && HasColon(w[0]) && KeyOf(w[0]) == CONTENT_LENGTH
  {
    var pre := CONTENT_LENGTH + ":";
    assert '\n' !in CONTENT_LENGTH && '\n' !in ":";
    assert HeaderLine(CONTENT_LENGTH, val) == pre + (val + "\r");
    hide Lines, HasColon, KeyOf, HeaderLine;
    FirstLineBegins(HeaderLine(CONTENT_LENGTH, val), pre);
    var line := LengthLines(val)[0];
    assert line == pre + line[|pre|..];
    LengthKey(line[|pre|..]);
  }

  lemma LengthKey(t: string)
    ensures var line := CONTENT_LENGTH + ":" + t;
            line != BLANK && HasColon(line) && KeyOf(line) == CONTENT_LENGTH
  {
    var line := CONTENT_LENGTH + ":" + t;
    var cut := DropReturn(line);
    assert cut[..|CONTENT_LENGTH|] == CONTENT_LENGTH && cut[|CONTENT_LENGTH|] == ':';
    assert ':' !in CONTENT_LENGTH;
    IndexOfIs(cut, ':', |CONTENT_LENGTH|);
  }

  // ---------- one order ----------

  /** The header lines before, of, and after the stored Content-Length. */
  lemma LinesInOrder(headers: map<string, string>, a: seq<string>, b: seq<string>)
    requires CONTENT_LENGTH in headers && forall k :: k in a + b ==> k in headers
    ensures forall k :: k in a + [CONTENT_LENGTH] + b ==> k in headers
    ensures Joined(PrintedLines(headers, a + [CONTENT_LENGTH] + b)) ==
            Joined(PrintedLines(headers, a)) + Joined(LengthLines(headers[CONTENT_LENGTH]))
            + Joined(PrintedLines(headers, b))
  {
    var line := HeaderLine(CONTENT_LENGTH, headers[CONTENT_LENGTH]);
    var x, y := PrintedLines(headers, a), PrintedLines(headers, b);
    hide HeaderLine, Joined, Lines;
    assert forall k :: k in a ==> k in a + b;
    assert forall k :: k in b ==> k in a + b;
    assert PrintedLines(headers, a + [CONTENT_LENGTH] + b) == x + [line] + y;
    JoinedConcat(x + [line], y);
    JoinedAppend(x, line);
    LinesJoin(line);
  }

  /** What follows a blank line that the stored Content-Length smuggles in: the lines behind it, the
      headers that come later, and the rest of the message. */
  function Tail(headers: map<string, string>, behind: seq<string>, more: seq<string>, body: string): string
    requires forall k :: k in more ==> k in headers
  {
    Joined(behind) + HeaderText(headers, more) + (LengthLine(|body|) + "\n") + "\r\n" + body
  }

  lemma RegroupOpen(start: string, x: string, w: string, y: string, d: string, body: string)
    ensures start + (x + w + y) + d + "\r\n" + body == start + (x + w + y + d + "\r\n" + body)
  {
  }

  lemma RegroupBlank(start: string, x: string, w: string, behind: string, y: string, d: string, body: string)
    ensures start + (x + (w + ("\r\n" + behind)) + y) + d + "\r\n" + body
         == start + (x + w + "\r\n" + (behind + y + d + "\r\n" + body))
  {
    assert x + (w + ("\r\n" + behind)) + y == x + w + "\r\n" + behind + y;
  }

  /** Without a smuggled blank line, all lines are header lines. */
  lemma RenderedOpen(status: int, headers: map<string, string>, a: seq<string>, b: seq<string>, body: string)
    requires CONTENT_LENGTH in headers && forall k :: k in a + b ==> k in headers
    ensures var order := a + [CONTENT_LENGTH] + b;
      var lines := PrintedLines(headers, a) + LengthLines(headers[CONTENT_LENGTH]) + PrintedLines(headers, b);
      && (forall k :: k in order ==> k in headers)
      && Render(status, headers, order, body) ==
         StatusLine(status) + "\n" + (Joined(lines + [LengthLine(|body|)]) + "\r\n" + body)
  {
    hide Joined, HeaderText, StatusLine, LengthLine, PrintedLines, LengthLines;
    var order := a + [CONTENT_LENGTH] + b;
    var x, w, y := PrintedLines(headers, a), LengthLines(headers[CONTENT_LENGTH]), PrintedLines(headers, b);
    LinesInOrder(headers, a, b);
    HeaderTextIsJoined(headers, order);
    JoinedConcat(x + w, y);
    JoinedConcat(x, w);
    JoinedAppend(x + w + y, LengthLine(|body|));
    RegroupOpen(StatusLine(status) + "\n", Joined(x), Joined(w), Joined(y), LengthLine(|body|) + "\n", body);
  }

  /** With one, the header section ends there. */
  lemma RenderedClosed(status: int, headers: map<string, string>, a: seq<string>, b: seq<string>, body: string)
    requires CONTENT_LENGTH in headers && forall k :: k in a + b ==> k in headers
    requires BlankAt(LengthLines(headers[CONTENT_LENGTH])) < |LengthLines(headers[CONTENT_LENGTH])|
    ensures var order, w := a + [CONTENT_LENGTH] + b, LengthLines(headers[CONTENT_LENGTH]);
      var n := BlankAt(w);
      && (forall k :: k in order ==> k in headers)
      && Render(status, headers, order, body) == StatusLine(status) + "\n" +
         (Joined(PrintedLines(headers, a) + w[..n]) + "\r\n" + Tail(headers, w[n + 1..], b, body))
  {
    hide Joined, HeaderText, StatusLine, LengthLine, PrintedLines, LengthLines;
    var order, w := a + [CONTENT_LENGTH] + b, LengthLines(headers[CONTENT_LENGTH]);
    var n := BlankAt(w);
    var x := PrintedLines(headers, a);
    LinesInOrder(headers, a, b);
    HeaderTextIsJoined(headers, order);
    HeaderTextIsJoined(headers, b);
    JoinedConcat(x, w[..n]);
    assert w == w[..n] + ([BLANK] + w[n + 1..]);
    JoinedConcat(w[..n], [BLANK] + w[n + 1..]);
    JoinedBlank(w[n + 1..]);
    RegroupBlank(StatusLine(status) + "\n", Joined(x), Joined(w[..n]), Joined(w[n + 1..]), HeaderText(headers, b),
                 LengthLine(|body|) + "\n", body);
  }

  lemma JoinedBlank(lines: seq<string>)
    ensures Joined([BLANK] + lines) == "\r\n" + Joined(lines)
  {
    assert ([BLANK] + lines)[1..] == lines;
  }

  /** Exactly when a message with these header lines is read as these headers and this body. */
  lemma ReadBack(status: int, lines: seq<string>, rest: string, h: map<string, string>, body: string)
    requires HeaderLines(lines) && |body| <= |rest|
    requires CONTENT_LENGTH in h && h[CONTENT_LENGTH] == Decimal(|body|)
    ensures Parse(StatusLine(status) + "\n" + (Joined(lines) + "\r\n" + rest))
            == Parsed(HTTPRequest("HTTP/1.1", ToString(status), h, body))
       <==> HeadersOf(lines) == h && |body| <= INT_MAX && body <= rest
  {
    hide Parse, HeadersOf, Joined, StatusLine, ToString, HeaderLines, Stoi, Decimal;
    ReadAs(status, lines, rest);
    if HeadersOf(lines) == h {
      BodyIsRead(h, body, rest);
      hide BodyOf;
    }
  }

  ghost predicate Plain(headers: map<string, string>, keys: seq<string>) {
    forall k :: k in keys ==> k in headers && PlainHeader(k, headers[k])
  }

  // The header map of the printed lines of some keys.
  function Back(headers: map<string, string>, keys: seq<string>): map<string, string>
    requires forall k :: k in keys ==> k in headers
  {
    map k | k in keys :: DropSpace(headers[k])
  }

  lemma BackIsRead(headers: map<string, string>, keys: seq<string>)
    requires Plain(headers, keys)
    ensures HeadersOf(PrintedLines(headers, keys)) == Back(headers, keys) && HeaderLines(PrintedLines(headers, keys))
  {
    hide HeadersOf, PrintedLines, DropSpace, HeaderLines;
    PrintedHeadersAreRead(headers, keys);
    PrintedLinesAreHeaderLines(headers, keys);
  }

  lemma HeaderLinesConcat(a: seq<string>, b: seq<string>)
    requires HeaderLines(a) && HeaderLines(b)
    ensures HeaderLines(a + b)
  {
  }

  // The lines of a stored Content-Length, up to a blank line among them.
  lemma LengthLinesOk(val: string, n: nat)
    requires n <= BlankAt(LengthLines(val))
    ensures HeaderLines(LengthLines(val)[..n])
  {
    LinesJoin(HeaderLine(CONTENT_LENGTH, val));
    assert forall line :: line in LengthLines(val)[..n] ==> line in LengthLines(val);
  }

  // What the header lines say when there is no smuggled blank line.
  lemma OpenLines(headers: map<string, string>, a: seq<string>, w: seq<string>, b: seq<string>, n: nat)
    requires Plain(headers, a) && Plain(headers, b) && HeaderLines(w)
    ensures var lines := PrintedLines(headers, a) + w + PrintedLines(headers, b) + [LengthLine(n)];
      && HeaderLines(lines)
      && HeadersOf(lines) == (Back(headers, a) + HeadersOf(w) + Back(headers, b))[CONTENT_LENGTH := Decimal(n)]
  {
    hide HeadersOf, LengthLine, PrintedLines, Back, Decimal, PlainHeader, HeaderLines;
    var x, y := PrintedLines(headers, a), PrintedLines(headers, b);
    BackIsRead(headers, a);
    BackIsRead(headers, b);
    HeadersConcat(x, w);
    HeadersConcat(x + w, y);
    LengthIsRead(x + w + y, n);
    HeaderLinesConcat(x, w);
    HeaderLinesConcat(x + w, y);
    OneHeaderLine(LengthLine(n));
    HeaderLinesConcat(x + w + y, [LengthLine(n)]);
  }

  lemma OneHeaderLine(line: string)
    requires '\n' !in line && line != BLANK
    ensures HeaderLines([line])
  {
  }

  // What a message read in these lines needs to come back.
  lemma ComesBackAs(status: int, headers: map<string, string>, order: seq<string>, body: string,
                    lines: seq<string>, rest: string)
    requires (forall k :: k in order ==> k in headers) && HeaderLines(lines) && |body| <= |rest|
    requires Render(status, headers, order, body) == StatusLine(status) + "\n" + (Joined(lines) + "\r\n" + rest)
    ensures ComesBack(status, headers, order, body) <==> (
      HeadersOf(lines) == headers[CONTENT_LENGTH := Decimal(|body|)] && |body| <= INT_MAX && body <= rest)
  {
    hide Parse, Render, HeadersOf, StatusLine, Joined, ToString, Decimal, HeaderLines;
    ReadBack(status, lines, rest, headers[CONTENT_LENGTH := Decimal(|body|)], body);
  }

  /** In one order, without a smuggled blank line. */
  lemma ComesBackOpen(status: int, headers: map<string, string>, a: seq<string>, b: seq<string>, body: string)
    requires CONTENT_LENGTH in headers && Plain(headers, a) && Plain(headers, b)
    requires BlankAt(LengthLines(headers[CONTENT_LENGTH])) == |LengthLines(headers[CONTENT_LENGTH])|
    ensures forall k :: k in a + [CONTENT_LENGTH] + b ==> k in headers
    ensures var w, d := LengthLines(headers[CONTENT_LENGTH]), Decimal(|body|);
      ComesBack(status, headers, a + [CONTENT_LENGTH] + b, body) <==> (
        && (Back(headers, a) + HeadersOf(w) + Back(headers, b))[CONTENT_LENGTH := d] == headers[CONTENT_LENGTH := d]
        && |body| <= INT_MAX)
  {
    hide ComesBack, Render, HeadersOf, StatusLine, LengthLine, PrintedLines, LengthLines, Joined, Back, BlankAt;
    hide Decimal, PlainHeader, HeaderLines;
    var w := LengthLines(headers[CONTENT_LENGTH]);
    LengthLinesOk(headers[CONTENT_LENGTH], |w|);
    assert w[..|w|] == w;
    OpenLines(headers, a, w, b, |body|);
    RenderedOpen(status, headers, a, b, body);
    ComesBackAs(status, headers, a + [CONTENT_LENGTH] + b, body,
                PrintedLines(headers, a) + w + PrintedLines(headers, b) + [LengthLine(|body|)], body);
  }

  lemma TailEnds(headers: map<string, string>, behind: seq<string>, more: seq<string>, body: string)
    requires forall k :: k in more ==> k in headers
    ensures |body| <= |Tail(headers, behind, more, body)|
  {
  }

  // What the header lines say before a smuggled blank line.
  lemma ClosedLines(headers: map<string, string>, a: seq<string>, w: seq<string>)
    requires Plain(headers, a) && HeaderLines(w)
    ensures HeaderLines(PrintedLines(headers, a) + w)
    ensures HeadersOf(PrintedLines(headers, a) + w) == Back(headers, a) + HeadersOf(w)
  {
    hide HeadersOf, PrintedLines, Back, PlainHeader, HeaderLines;
    BackIsRead(headers, a);
    HeadersConcat(PrintedLines(headers, a), w);
    HeaderLinesConcat(PrintedLines(headers, a), w);
  }

  /** In one order, with a smuggled blank line. */
  lemma ComesBackClosed(status: int, headers: map<string, string>, a: seq<string>, b: seq<string>, body: string)
    requires CONTENT_LENGTH in headers && Plain(headers, a) && forall k :: k in b ==> k in headers
    requires BlankAt(LengthLines(headers[CONTENT_LENGTH])) < |LengthLines(headers[CONTENT_LENGTH])|
    ensures forall k :: k in a + [CONTENT_LENGTH] + b ==> k in headers
    ensures var w := LengthLines(headers[CONTENT_LENGTH]);
      var n := BlankAt(w);
      ComesBack(status, headers, a + [CONTENT_LENGTH] + b, body) <==> (
        && Back(headers, a) + HeadersOf(w[..n]) == headers[CONTENT_LENGTH := Decimal(|body|)]
        && |body| <= INT_MAX && body <= Tail(headers, w[n + 1..], b, body))
  {
    hide ComesBack, Render, HeadersOf, StatusLine, PrintedLines, LengthLines, Joined, Back, BlankAt;
    hide Decimal, PlainHeader, HeaderText, HeaderLines, Tail;
    var w := LengthLines(headers[CONTENT_LENGTH]);
    var n := BlankAt(w);
    LengthLinesOk(headers[CONTENT_LENGTH], n);
    ClosedLines(headers, a, w[..n]);
    RenderedClosed(status, headers, a, b, body);
    TailEnds(headers, w[n + 1..], b, body);
    ComesBackAs(status, headers, a + [CONTENT_LENGTH] + b, body, PrintedLines(headers, a) + w[..n],
                Tail(headers, w[n + 1..], b, body));
  }

  // ---------- every order ----------

  ghost predicate AlwaysComesBack(status: int, headers: map<string, string>, body: string) {
    forall order :: IsOrderOf(order, headers) ==> ComesBack(status, headers, order, body)
  }

  // Some headers that may come after Content-Length.
  ghost predicate MayFollow(more: seq<string>, headers: map<string, string>) {
    && (forall k :: k in more ==> k in headers && k != CONTENT_LENGTH)
    && (forall i, j :: 0 <= i < j < |more| ==> more[i] != more[j])
  }

  /** The lines smuggled in by the stored Content-Length say nothing new, and the blank line is the
      real one. */
  ghost predicate NothingNew(headers: map<string, string>, lines: seq<string>) {
    && Clean(headers)
    && (forall k :: k in HeadersOf(lines) && k != CONTENT_LENGTH ==> k in headers && headers[k] == HeadersOf(lines)[k])
  }

  /** The body is what is printed behind a smuggled blank line: either the smuggled lines behind it
      already begin with the body, or the body begins with all of these and goes on like the rest of
      the message, whichever headers the map has next. */
  ghost predicate BodyBehind(headers: map<string, string>, behind: seq<string>, body: string) {
    var smuggled := Joined(behind);
    || body <= smuggled
    || (smuggled <= body && forall more :: MayFollow(more, headers) ==>
          body[|smuggled|..] <= HeaderText(headers, more) + (LengthLine(|body|) + "\n") + "\r\n" + body)
  }

  lemma PrefixOfTwo(body: string, x: string, y: string)
    ensures body <= x + y <==> body <= x || (x <= body && body[|x|..] <= y)
  {
    if x <= body && body[|x|..] <= y {
      assert body == x + body[|x|..];
    }
    if body <= x + y {
      if |body| <= |x| {
        assert (x + y)[..|body|] == x[..|body|];
      } else {
        assert (x + y)[..|body|] == x + y[..|body| - |x|];
      }
    }
  }

  // The condition in the form in which reading the message meets it.
  lemma BodyBehindTail(headers: map<string, string>, behind: seq<string>, body: string)
    ensures BodyBehind(headers, behind, body) <==>
            forall more :: MayFollow(more, headers) ==> body <= Tail(headers, behind, more, body)
  {
    hide Joined, HeaderText, LengthLine;
    forall more | MayFollow(more, headers)
      ensures body <= Tail(headers, behind, more, body) <==> (
        || body <= Joined(behind)
        || (Joined(behind) <= body &&
            body[|Joined(behind)|..] <= HeaderText(headers, more) + (LengthLine(|body|) + "\n") + "\r\n" + body))
    {
      var rest := HeaderText(headers, more) + (LengthLine(|body|) + "\n") + "\r\n" + body;
      assert Tail(headers, behind, more, body) == Joined(behind) + rest;
      PrefixOfTwo(body, Joined(behind), rest);
    }
    assert MayFollow([], headers);
  }

  /** The lines before a smuggled blank line say it all, and the body is what is printed behind it. */
  ghost predicate SaysItAll(headers: map<string, string>, lines: seq<string>, behind: seq<string>, body: string) {
    && HeadersOf(lines) == headers[CONTENT_LENGTH := Decimal(|body|)]
    && BodyBehind(headers, behind, body)
  }

  /** What the stored Content-Length, whatever it is, must be like. */
  ghost predicate Harmless(headers: map<string, string>, body: string) {
    if CONTENT_LENGTH !in headers then Clean(headers)
    else
      var w := LengthLines(headers[CONTENT_LENGTH]);
      var n := BlankAt(w);
      if n == |w| then NothingNew(headers, w) else SaysItAll(headers, w[..n], w[n + 1..], body)
  }

  lemma {:induction false} SomeOrder(keys: set<string>) returns (order: seq<string>)
    ensures forall k :: k in order <==> k in keys
    ensures forall i, j :: 0 <= i < j < |order| ==> order[i] != order[j]
    decreases |keys|
  {
    if keys == {} {
      order := [];
    } else {
      var k :| k in keys;
      var more := SomeOrder(keys - {k});
      order := more + [k];
    }
  }

  lemma SplitSeq(order: seq<string>, i: nat)
    requires i < |order|
    ensures order == order[..i] + [order[i]] + order[i + 1..]
    ensures forall k :: k in order ==> k == order[i] || k in order[..i] || k in order[i + 1..]
  {
    var a, b := order[..i], order[i + 1..];
    assert order == a + [order[i]] + b;
    forall k | k in order ensures k == order[i] || k in a || k in b {
      assert k in a + [order[i]] + b;
    }
  }

  // Every order has Content-Length somewhere.
  lemma WhereLength(headers: map<string, string>, order: seq<string>) returns (i: nat)
    requires IsOrderOf(order, headers) && CONTENT_LENGTH in headers
    ensures i < |order| && order[i] == CONTENT_LENGTH && forall k :: k in headers ==> k in order
  {
    i :| 0 <= i < |order| && order[i] == CONTENT_LENGTH;
  }

  lemma SplitOrder(headers: map<string, string>, order: seq<string>) returns (a: seq<string>, b: seq<string>)
    requires IsOrderOf(order, headers) && CONTENT_LENGTH in headers
    ensures order == a + [CONTENT_LENGTH] + b
    ensures MayFollow(a, headers) && MayFollow(b, headers)
    ensures forall k :: k in headers ==> k == CONTENT_LENGTH || k in a || k in b
  {
    hide MayFollow, IsOrderOf;
    var i := WhereLength(headers, order);
    PartMayFollow(headers, order, 0, i, i);
    PartMayFollow(headers, order, i + 1, |order|, i);
    SplitSeq(order, i);
    assert order[0..i] == order[..i] && order[i + 1..|order|] == order[i + 1..];
    a, b := order[..i], order[i + 1..];
  }

  lemma PartMayFollow(headers: map<string, string>, order: seq<string>, lo: nat, hi: nat, i: nat)
    requires IsOrderOf(order, headers) && lo <= hi <= |order| && i < |order| && order[i] == CONTENT_LENGTH
    requires !(lo <= i < hi)
    ensures MayFollow(order[lo..hi], headers)
  {
    forall k | k in order[lo..hi] ensures k in headers && k != CONTENT_LENGTH {
      var j :| lo <= j < hi && order[j] == k;
      assert k in order;
    }
  }

  // Any headers may come after Content-Length.
  lemma OrderWith(headers: map<string, string>, b: seq<string>) returns (a: seq<string>)
    requires CONTENT_LENGTH in headers && MayFollow(b, headers)
    ensures IsOrderOf(a + [CONTENT_LENGTH] + b, headers) && MayFollow(a, headers)
    ensures forall k :: k in headers && k != CONTENT_LENGTH ==> k in a || k in b
  {
    a := SomeOrder(headers.Keys - {CONTENT_LENGTH} - (set k | k in b));
    assert forall i, j :: 0 <= i < |a| && 0 <= j < |b| ==> a[i] in a && b[j] in b;
  }

  // Reading back in the two ends of the order: Content-Length first, and Content-Length last.
  lemma OpenIsHarmless(status: int, headers: map<string, string>, body: string)
    requires CONTENT_LENGTH in headers && AlwaysComesBack(status, headers, body)
    requires BlankAt(LengthLines(headers[CONTENT_LENGTH])) == |LengthLines(headers[CONTENT_LENGTH])|
    ensures |body| <= INT_MAX && NothingNew(headers, LengthLines(headers[CONTENT_LENGTH]))
  {
    hide Parse, Render, HeadersOf, LengthLines, BlankAt, ToString, Decimal, PlainHeader, DropSpace, Back;
    var rest := OrderWith(headers, []);
    var w, d := HeadersOf(LengthLines(headers[CONTENT_LENGTH])), Decimal(|body|);
    assert rest + [CONTENT_LENGTH] + [] == rest + [CONTENT_LENGTH];
    assert IsOrderOf([] + [CONTENT_LENGTH] + rest, headers);
    assert ComesBack(status, headers, [] + [CONTENT_LENGTH] + rest, body);
    assert ComesBack(status, headers, rest + [CONTENT_LENGTH] + [], body);
    CameBackPlain(Render(status, headers, rest + [CONTENT_LENGTH] + [], body), headers, d);
    ComesBackOpen(status, headers, [], rest, body);
    ComesBackOpen(status, headers, rest, [], body);
    FirstThenLast(headers, rest, w, d);
  }

  lemma FirstThenLast(headers: map<string, string>, rest: seq<string>, w: map<string, string>, d: string)
    requires forall k :: k in rest <==> k in headers && k != CONTENT_LENGTH
    requires (Back(headers, []) + w + Back(headers, rest))[CONTENT_LENGTH := d] == headers[CONTENT_LENGTH := d]
    requires (Back(headers, rest) + w + Back(headers, []))[CONTENT_LENGTH := d] == headers[CONTENT_LENGTH := d]
    ensures forall k :: k in headers && k != CONTENT_LENGTH ==> DropSpace(headers[k]) == headers[k]
    ensures forall k :: k in w && k != CONTENT_LENGTH ==> k in headers && headers[k] == w[k]
  {
    hide DropSpace;
    var h := headers[CONTENT_LENGTH := d];
    var x := (Back(headers, []) + w + Back(headers, rest))[CONTENT_LENGTH := d];
    var y := (Back(headers, rest) + w + Back(headers, []))[CONTENT_LENGTH := d];
    forall k | k in headers && k != CONTENT_LENGTH ensures DropSpace(headers[k]) == headers[k] {
      assert x[k] == h[k] && k in Back(headers, rest);
    }
    forall k | k in w && k != CONTENT_LENGTH ensures k in headers && headers[k] == w[k] {
      assert k in y && y[k] == w[k] && h[k] == y[k];
    }
  }

  lemma ClosedIsHarmless(status: int, headers: map<string, string>, body: string)
    requires CONTENT_LENGTH in headers && AlwaysComesBack(status, headers, body)
    requires BlankAt(LengthLines(headers[CONTENT_LENGTH])) < |LengthLines(headers[CONTENT_LENGTH])|
    ensures |body| <= INT_MAX && Harmless(headers, body)
  {
    hide Parse, Render, HeadersOf, LengthLines, BlankAt, ToString, Decimal, PlainHeader, DropSpace, Tail, BodyBehind;
    var w := LengthLines(headers[CONTENT_LENGTH]);
    var n := BlankAt(w);
    var rest := OrderWith(headers, []);
    assert rest + [CONTENT_LENGTH] + [] == rest + [CONTENT_LENGTH];
    assert IsOrderOf([] + [CONTENT_LENGTH] + rest, headers);
    assert ComesBack(status, headers, [] + [CONTENT_LENGTH] + rest, body);
    CameBackPlain(Render(status, headers, [] + [CONTENT_LENGTH] + rest, body), headers, Decimal(|body|));
    ComesBackClosed(status, headers, [], rest, body);
    assert Back(headers, []) + HeadersOf(w[..n]) == HeadersOf(w[..n]);
    forall more | MayFollow(more, headers) ensures body <= Tail(headers, w[n + 1..], more, body) {
      var a := OrderWith(headers, more);
      assert ComesBack(status, headers, a + [CONTENT_LENGTH] + more, body);
      ComesBackClosed(status, headers, a, more, body);
    }
    BodyBehindTail(headers, w[n + 1..], body);
  }

  lemma HarmlessOpen(status: int, headers: map<string, string>, order: seq<string>, body: string)
    requires CONTENT_LENGTH in headers && IsOrderOf(order, headers) && |body| <= INT_MAX
    requires BlankAt(LengthLines(headers[CONTENT_LENGTH])) == |LengthLines(headers[CONTENT_LENGTH])|
    requires NothingNew(headers, LengthLines(headers[CONTENT_LENGTH]))
    ensures ComesBack(status, headers, order, body)
  {
    hide Parse, Render, HeadersOf, LengthLines, BlankAt, ToString, Decimal, PlainHeader, DropSpace;
    var a, b := SplitOrder(headers, order);
    var w, d := HeadersOf(LengthLines(headers[CONTENT_LENGTH])), Decimal(|body|);
    ComesBackOpen(status, headers, a, b, body);
    assert (Back(headers, a) + w + Back(headers, b))[CONTENT_LENGTH := d] == headers[CONTENT_LENGTH := d];
  }

  lemma ReadIsPlain(headers: map<string, string>, lines: seq<string>, d: string, keys: seq<string>)
    requires HeaderLines(lines) && HeadersOf(lines) == headers[CONTENT_LENGTH := d] && MayFollow(keys, headers)
    ensures Plain(headers, keys)
  {
    ParsedHeadersArePlain(lines);
    hide HeadersOf, PlainHeader;
    forall k | k in keys ensures k in headers && PlainHeader(k, headers[k]) {
      assert k in headers[CONTENT_LENGTH := d];
    }
  }

  // Whoever comes before says nothing that is not said again.
  lemma SaidAgain(headers: map<string, string>, h: map<string, string>, keys: seq<string>, d: string)
    requires h == headers[CONTENT_LENGTH := d] && MayFollow(keys, headers)
    ensures Back(headers, keys) + h == h
  {
    hide DropSpace;
  }

  lemma HarmlessClosed(status: int, headers: map<string, string>, order: seq<string>, body: string)
    requires CONTENT_LENGTH in headers && IsOrderOf(order, headers) && |body| <= INT_MAX
    requires BlankAt(LengthLines(headers[CONTENT_LENGTH])) < |LengthLines(headers[CONTENT_LENGTH])|
    requires Harmless(headers, body)
    ensures ComesBack(status, headers, order, body)
  {
    hide Parse, Render, HeadersOf, LengthLines, BlankAt, ToString, Decimal, DropSpace, Tail, Plain, Back, HeaderLines;
    hide BodyBehind;
    var w, d := LengthLines(headers[CONTENT_LENGTH]), Decimal(|body|);
    var n := BlankAt(w);
    LengthLinesOk(headers[CONTENT_LENGTH], n);
    var a, b := SplitOrder(headers, order);
    ReadIsPlain(headers, w[..n], d, a);
    BodyBehindTail(headers, w[n + 1..], body);
    ComesBackClosed(status, headers, a, b, body);
    SaidAgain(headers, HeadersOf(w[..n]), a, d);
  }

  /** The round trip, exactly: parsing what was printed gives back the status, the headers with
      Content-Length set to the length of the body, and the body, in whatever order the map is
      walked, if and only if the length fits an int and the headers are harmless. */
  lemma PrintThenParse(status: int, headers: map<string, string>, body: string)
    ensures AlwaysComesBack(status, headers, body) <==> |body| <= INT_MAX && Harmless(headers, body)
  {
    hide ComesBack, Parse, Render, HeadersOf, LengthLines, NothingNew, SaysItAll, Clean;
    if CONTENT_LENGTH !in headers {
      var some := SomeOrder(headers.Keys);
      assert IsOrderOf(some, headers);
      PrintThenParseInOrder(status, headers, some, body);
      forall order | IsOrderOf(order, headers)
        ensures ComesBack(status, headers, order, body) <==> Clean(headers) && |body| <= INT_MAX
      {
        PrintThenParseInOrder(status, headers, order, body);
      }
    } else if BlankAt(LengthLines(headers[CONTENT_LENGTH])) == |LengthLines(headers[CONTENT_LENGTH])| {
      if AlwaysComesBack(status, headers, body) {
        OpenIsHarmless(status, headers, body);
      } else if |body| <= INT_MAX && Harmless(headers, body) {
        forall order | IsOrderOf(order, headers) ensures ComesBack(status, headers, order, body) {
          HarmlessOpen(status, headers, order, body);
        }
      }
    } else {
      if AlwaysComesBack(status, headers, body) {
        ClosedIsHarmless(status, headers, body);
      } else if |body| <= INT_MAX && Harmless(headers, body) {
        forall order | IsOrderOf(order, headers) ensures ComesBack(status, headers, order, body) {
          HarmlessClosed(status, headers, order, body);
        }
      }
    }
  }

  lemma OneLine(val: string)
    requires '\n' !in val
    ensures LengthLines(val) == [HeaderLine(CONTENT_LENGTH, val)]
  {
    assert '\n' !in CONTENT_LENGTH && '\n' !in ":" && '\n' !in "\r";
  }

  lemma OneKey(line: string)
    requires HasColon(line) && KeyOf(line) == CONTENT_LENGTH
    ensures forall k :: k in HeadersOf([line]) ==> k == CONTENT_LENGTH
  {
    hide HasColon, KeyOf, ValueOf, HeadersOf;
    NoHeaders();
    OneMoreHeader([], line);
    assert [] + [line] == [line];
  }

  /** For a Content-Length of one line, as set_body stores it, harmless means clean. */
  lemma OneLineIsHarmless(headers: map<string, string>, body: string)
    requires CONTENT_LENGTH in headers && '\n' !in headers[CONTENT_LENGTH]
    ensures Harmless(headers, body) <==> Clean(headers)
  {
    hide LengthLines, HasColon, KeyOf, Clean, HeaderLine, HeadersOf, SaysItAll;
    var val := headers[CONTENT_LENGTH];
    OneLine(val);
    FirstIsLength(val);
    OneKey(HeaderLine(CONTENT_LENGTH, val));
    assert BlankAt(LengthLines(val)) != 0;
    hide BlankAt;
  }

  // ---------- it happens ----------

  // The lines of a Content-Length that smuggles in a header.
  lemma SmuggledLines()
    ensures LengthLines("0\nX:b") == [CONTENT_LENGTH + ":" + "0", HeaderLine("X", "b")]
  {
    var line, more := CONTENT_LENGTH + ":" + "0", HeaderLine("X", "b");
    assert '\n' !in CONTENT_LENGTH && '\n' !in ":" && '\n' !in "0";
    assert HeaderLine(CONTENT_LENGTH, "0\nX:b") == line + "\n" + more;
    assert '\n' in HeaderLine(CONTENT_LENGTH, "0\nX:b") by { assert (line + "\n" + more)[|line|] == '\n'; }
    LineSplit(line, more);
    assert '\n' !in more;
    assert Lines(more) == [more];
    assert Lines(line + "\n" + more) == [line] + Lines(more);
  }

  lemma SmuggledHeaders()
    ensures HeadersOf(LengthLines("0\nX:b")) == map[CONTENT_LENGTH := "0", "X" := "b"]
  {
    var line, more := CONTENT_LENGTH + ":" + "0", HeaderLine("X", "b");
    SmuggledLines();
    HeaderLineIsRead("X", "b");
    LengthHeader([], "0");
    NoHeaders();
    hide HeadersOf, HasColon, KeyOf, ValueOf, HeaderLine;
    OneMoreHeader([line], more);
    assert [] + [line] == [line] && [line] + [more] == [line, more];
  }

  // The two orders, as maps.
  lemma SmuggledWinsOrLoses(headers: map<string, string>)
    requires headers == map["X" := "a", CONTENT_LENGTH := "0\nX:b"]
    ensures var w := map[CONTENT_LENGTH := "0", "X" := "b"];
      && (Back(headers, []) + w + Back(headers, ["X"]))[CONTENT_LENGTH := "0"] == headers[CONTENT_LENGTH := "0"]
      && (Back(headers, ["X"]) + w + Back(headers, []))[CONTENT_LENGTH := "0"] != headers[CONTENT_LENGTH := "0"]
  {
    var w := map[CONTENT_LENGTH := "0", "X" := "b"];
    assert "X" != CONTENT_LENGTH && "a"[0] != "b"[0];
    assert Back(headers, ["X"]) == map["X" := "a"];
    assert (Back(headers, ["X"]) + w + Back(headers, []))[CONTENT_LENGTH := "0"]["X"] == "b";
    assert headers[CONTENT_LENGTH := "0"]["X"] == "a";
  }

  lemma SmuggledIsOpen()
    ensures BlankAt(LengthLines("0\nX:b")) == |LengthLines("0\nX:b")|
    ensures PlainHeader("X", "a") && Decimal(0) == "0"
  {
    SmuggledLines();
    assert |HeaderLine("X", "b")| > 1;
  }

  /** The round trip fails: a stored Content-Length of two lines smuggles in a header, which wins or
      loses against the real one depending on the order of the map. */
  lemma SmuggledHeader()
    ensures var headers := map["X" := "a", CONTENT_LENGTH := "0\nX:b"];
            ComesBack(200, headers, [CONTENT_LENGTH, "X"], "") && !ComesBack(200, headers, ["X", CONTENT_LENGTH], "")
  {
    var headers := map["X" := "a", CONTENT_LENGTH := "0\nX:b"];
    hide ComesBack, HeadersOf, LengthLines, BlankAt, Decimal, PlainHeader, Back;
    SmuggledIsOpen();
    SmuggledHeaders();
    SmuggledWinsOrLoses(headers);
    assert [] + [CONTENT_LENGTH] + ["X"] == [CONTENT_LENGTH, "X"];
    assert ["X"] + [CONTENT_LENGTH] + [] == ["X", CONTENT_LENGTH];
    ComesBackOpen(200, headers, [], ["X"], "");
    ComesBackOpen(200, headers, ["X"], [], "");
  }

  /** It fails in every order for a value that begins with a space. */
  lemma LeadingSpace(order: seq<string>)
    requires IsOrderOf(order, map["X" := " v"])
    ensures !ComesBack(200, map["X" := " v"], order, "")
  {
    var headers := map["X" := " v"];
    assert "X" in headers && "X" != CONTENT_LENGTH;
    assert DropSpace(" v") == "v" && |" v"| == 2;
    assert !Clean(headers);
    hide ComesBack, Clean;
    PrintThenParseInOrder(200, headers, order, "");
  }
}
