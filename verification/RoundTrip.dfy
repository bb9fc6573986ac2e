/** The printer and the parser undo each other. */
module RoundTrip {

  import opened Text
  import opened HttpParser
  import opened HttpLaws
  import opened HttpResponse

  // ---------- what a parsed header map can contain ----------

  /** No line break anywhere, no colon in a key. */
  ghost predicate PlainHeader(key: string, val: string) {
    ':' !in key && '\n' !in key && '\n' !in val
  }

  lemma {:induction false} ParsedHeadersArePlain(lines: seq<string>)
    requires forall line :: line in lines ==> '\n' !in line
    ensures forall k :: k in HeadersOf(lines) ==> PlainHeader(k, HeadersOf(lines)[k])
  {
    if lines != [] {
      var front, line := lines[..|lines|-1], lines[|lines|-1];
      ParsedHeadersArePlain(front);
      assert line in lines;
      HeaderLineMeaning(line);
    }
  }

  lemma ParsedIsPlain(raw: string)
    requires Parse(raw).Parsed?
    ensures var h := Parse(raw).request.headers;
            forall k :: k in h ==> PlainHeader(k, h[k])
  {
    HeadLinesOk(AfterLine(raw));
    ParsedHeadersArePlain(HeadOf(AfterLine(raw)).lines);
  }

  // ---------- reading printed headers ----------

  /** The header lines as the parser will see them. */
  function PrintedLines(headers: map<string, string>, order: seq<string>): (lines: seq<string>)
    requires forall k :: k in order ==> k in headers
    ensures |lines| == |order|
    ensures forall i :: 0 <= i < |order| ==> lines[i] == HeaderLine(order[i], headers[order[i]])
  {
    if order == [] then []
    else PrintedLines(headers, order[..|order|-1]) + [HeaderLine(order[|order|-1], headers[order[|order|-1]])]
  }

  lemma {:induction false} JoinedAppend(lines: seq<string>, line: string)
    ensures Joined(lines + [line]) == Joined(lines) + (line + "\n")
  {
    if lines == [] {
      assert [] + [line] == [line] && [line][1..] == [];
      assert Joined([line]) == line + "\n" + "";
    } else {
      assert (lines + [line])[1..] == lines[1..] + [line];
      JoinedAppend(lines[1..], line);
      assert lines[0] + "\n" + (Joined(lines[1..]) + (line + "\n"))
          == lines[0] + "\n" + Joined(lines[1..]) + (line + "\n");
    }
  }

  lemma {:induction false} HeaderTextIsJoined(headers: map<string, string>, order: seq<string>)
    requires forall k :: k in order ==> k in headers
    ensures HeaderText(headers, order) == Joined(PrintedLines(headers, order))
  {
    if order != [] {
      var front, k := order[..|order|-1], order[|order|-1];
      HeaderTextIsJoined(headers, front);
      JoinedAppend(PrintedLines(headers, front), HeaderLine(k, headers[k]));
    }
  }

  /** A printed header line is read back as its key and its value, less one leading space. */
  lemma HeaderLineIsRead(key: string, val: string)
    requires ':' !in key
    ensures HasColon(HeaderLine(key, val))
    ensures KeyOf(HeaderLine(key, val)) == key && ValueOf(HeaderLine(key, val)) == DropSpace(val)
  {
    var line := HeaderLine(key, val);
    assert line[..|line|-1] == key + ":" + val;
    PrintedHeader(key + ":" + val, key, val);
  }

  lemma {:induction false} PrintedHeadersAreRead(headers: map<string, string>, order: seq<string>)
    requires forall k :: k in order ==> k in headers && ':' !in k
    ensures HeadersOf(PrintedLines(headers, order)).Keys == (set k | k in order)
    ensures forall k :: k in order ==> HeadersOf(PrintedLines(headers, order))[k] == DropSpace(headers[k])
  {
    hide HasColon, KeyOf, ValueOf;
    if order != [] {
      var front, k := order[..|order|-1], order[|order|-1];
      assert order == front + [k] && k in order;
      PrintedHeadersAreRead(headers, front);
      OneMoreHeader(PrintedLines(headers, front), HeaderLine(k, headers[k]));
      HeaderLineIsRead(k, headers[k]);
    }
  }

  lemma PrintedMap(headers: map<string, string>, order: seq<string>)
    requires IsOrderOf(order, headers) && forall k :: k in headers ==> ':' !in k
    ensures HeadersOf(PrintedLines(headers, order)) == map k | k in headers :: DropSpace(headers[k])
  {
    hide HeadersOf, PrintedLines, DropSpace;
    PrintedHeadersAreRead(headers, order);
  }

  lemma LengthIsRead(lines: seq<string>, n: nat)
    ensures HeadersOf(lines + [LengthLine(n)]) == HeadersOf(lines)[CONTENT_LENGTH := Decimal(n)]
    ensures '\n' !in LengthLine(n) && LengthLine(n) != BLANK
  {
    hide HasColon, KeyOf, ValueOf, HeadersOf;
    DecimalIsPlain(n);
    assert LengthLine(n) == HeaderLine(CONTENT_LENGTH, " " + Decimal(n));
    HeaderLineIsRead(CONTENT_LENGTH, " " + Decimal(n));
    assert (" " + Decimal(n))[1..] == Decimal(n);
    OneMoreHeader(lines, LengthLine(n));
  }

  // ---------- the status line ----------

  lemma StatusIsOneLine(status: int)
    ensures '\n' !in StatusLine(status) && StatusLine(status) != BLANK
  {
    var code, message := ToString(status), CodeToMessage(status);
    ToStringIsOneWord(status);
    assert '\n' !in code by { assert forall c :: c in code ==> !IsSpace(c); }
    assert '\n' !in message;
    assert '\n' !in "HTTP/1.1 " && '\n' !in " " && '\n' !in "\r";
    hide ToString, CodeToMessage;
    assert forall c :: c in StatusLine(status) ==>
      c in "HTTP/1.1 " || c in code || c in " " || c in message || c in "\r";
  }

  lemma StatusIsRead(status: int)
    ensures Word(StatusLine(status)) == "HTTP/1.1"
    ensures Word(AfterWord(StatusLine(status))) == ToString(status)
  {
    hide ToString, Word, AfterWord;
    var code, tail := ToString(status), " " + CodeToMessage(status) + "\r";
    ToStringIsOneWord(status);
    assert StatusLine(status) == "HTTP/1.1" + (" " + code + tail);
    WordOf("HTTP/1.1", " " + code + tail);
    WordOf(code, tail);
  }

  // ---------- the whole message ----------

  lemma Regroup(a: string, b: string, c: string, d: string, e: string)
    ensures a + b + c + d + e == a + (b + c + d + e)
  {
  }

  /** The printed message as a grammar, whatever the headers contain. */
  lemma RenderShape(status: int, headers: map<string, string>, order: seq<string>, body: string)
    requires forall k :: k in order ==> k in headers
    ensures var lines := PrintedLines(headers, order) + [LengthLine(|body|)];
            Render(status, headers, order, body) == StatusLine(status) + "\n" + (Joined(lines) + "\r\n" + body)
  {
    hide StatusLine, HeaderText, LengthLine, Joined, PrintedLines;
    HeaderTextIsJoined(headers, order);
    JoinedAppend(PrintedLines(headers, order), LengthLine(|body|));
    Regroup(StatusLine(status) + "\n", HeaderText(headers, order), LengthLine(|body|) + "\n", "\r\n", body);
  }

  /** The status line, some header lines, a blank line and a rest, as the parser takes them. */
  lemma ReadAs(status: int, lines: seq<string>, rest: string)
    requires HeaderLines(lines)
    ensures Parse(StatusLine(status) + "\n" + (Joined(lines) + "\r\n" + rest)) ==
            match BodyOf(HeadersOf(lines), rest)
            case Failed(error) => Failed(error)
            case Parsed(r) => Parsed(r.(method_ := "HTTP/1.1", path := ToString(status)))
  {
    hide HeadersOf, HeadOf, FirstLine, AfterLine, BodyOf, Word, AfterWord, StatusLine, ToString, Joined, HeaderLines;
    StatusIsRead(status);
    StatusIsOneLine(status);
    LineSplit(StatusLine(status), Joined(lines) + "\r\n" + rest);
    HeadOfJoined(lines, rest);
  }

  // A body whose length the headers give.
  lemma BodyIsRead(h: map<string, string>, body: string, rest: string)
    requires CONTENT_LENGTH in h && h[CONTENT_LENGTH] == Decimal(|body|) && |body| <= |rest|
    ensures BodyOf(h, rest) ==
            if |body| <= INT_MAX then Parsed(HTTPRequest("", "", h, rest[..|body|])) else Failed(BadNumber(OutOfRange))
  {
    hide Stoi, Decimal;
    StoiOfDecimal(|body|);
  }

  /** With plain headers, each value comes back less one leading space, Content-Length is the
      length of the body, and the body is whole, unless its length does not fit an int. */
  lemma PrintedMessageIsRead(status: int, headers: map<string, string>, order: seq<string>, body: string)
    requires IsOrderOf(order, headers)
    requires forall k :: k in headers ==> PlainHeader(k, headers[k])
    ensures var h := (map k | k in headers :: DropSpace(headers[k]))[CONTENT_LENGTH := Decimal(|body|)];
            Parse(Render(status, headers, order, body)) ==
            if |body| <= INT_MAX then Parsed(HTTPRequest("HTTP/1.1", ToString(status), h, body))
            else Failed(BadNumber(OutOfRange))
  {
    hide Parse, BodyOf, HeadersOf, Joined, StatusLine, LengthLine, Render, ToString, DropSpace, PrintedLines, Decimal;
    var lines := PrintedLines(headers, order);
    var all := lines + [LengthLine(|body|)];
    RenderShape(status, headers, order, body);
    PrintedLinesAreHeaderLines(headers, order);
    LengthIsRead(lines, |body|);
    ReadAs(status, all, body);
    PrintedMap(headers, order);
    BodyIsRead(HeadersOf(all), body, body);
  }

  lemma PrintedLinesAreHeaderLines(headers: map<string, string>, order: seq<string>)
    requires forall k :: k in order ==> k in headers && PlainHeader(k, headers[k])
    ensures HeaderLines(PrintedLines(headers, order))
  {
    forall line | line in PrintedLines(headers, order) ensures '\n' !in line && line != BLANK {
      var i :| 0 <= i < |order| && PrintedLines(headers, order)[i] == line;
      assert order[i] in order;
      assert line[|order[i]|] == ':';
    }
  }

  /** What printing needs to be undone by parsing: plain headers, and no value that begins with a
      space; the Content-Length value does not matter, since it is printed again. */
  ghost predicate Clean(headers: map<string, string>) {
    forall k :: k in headers && k != CONTENT_LENGTH ==>
      PlainHeader(k, headers[k]) && DropSpace(headers[k]) == headers[k]
  }

  lemma CleanPrintsBack(headers: map<string, string>, d: string)
    requires Clean(headers)
    ensures (map k | k in headers :: DropSpace(headers[k]))[CONTENT_LENGTH := d] == headers[CONTENT_LENGTH := d]
  {
  }

  lemma PrintsBackIsClean(headers: map<string, string>, d: string)
    requires forall k :: k in headers ==> PlainHeader(k, headers[k])
    requires (map k | k in headers :: DropSpace(headers[k]))[CONTENT_LENGTH := d] == headers[CONTENT_LENGTH := d]
    ensures Clean(headers)
  {
    var r := (map k | k in headers :: DropSpace(headers[k]))[CONTENT_LENGTH := d];
    forall k | k in headers && k != CONTENT_LENGTH ensures DropSpace(headers[k]) == headers[k] {
      assert r[k] == DropSpace(headers[k]);
    }
  }

  // If the headers came back, they were plain.
  lemma CameBackPlain(raw: string, headers: map<string, string>, d: string)
    requires Parse(raw).Parsed? && Parse(raw).request.headers == headers[CONTENT_LENGTH := d]
    ensures forall k :: k in headers && k != CONTENT_LENGTH ==> PlainHeader(k, headers[k])
  {
    hide Parse;
    ParsedIsPlain(raw);
    forall k | k in headers && k != CONTENT_LENGTH ensures PlainHeader(k, headers[k]) {
      assert k in headers[CONTENT_LENGTH := d];
    }
  }

  lemma CleanIsPlain(headers: map<string, string>)
    requires Clean(headers) && (CONTENT_LENGTH in headers ==> '\n' !in headers[CONTENT_LENGTH])
    ensures forall k :: k in headers ==> PlainHeader(k, headers[k])
  {
    assert ':' !in CONTENT_LENGTH && '\n' !in CONTENT_LENGTH;
  }

  /** What the round trip promises: status, headers, Content-Length and body all come back. */
  ghost predicate ComesBack(status: int, headers: map<string, string>, order: seq<string>, body: string)
    requires forall k :: k in order ==> k in headers
  {
    Parse(Render(status, headers, order, body))
    == Parsed(HTTPRequest("HTTP/1.1", ToString(status), headers[CONTENT_LENGTH := Decimal(|body|)], body))
  }

  lemma CleanComesBack(status: int, headers: map<string, string>, order: seq<string>, body: string)
    requires IsOrderOf(order, headers)
    requires CONTENT_LENGTH in headers ==> '\n' !in headers[CONTENT_LENGTH]
    requires Clean(headers) && |body| <= INT_MAX
    ensures ComesBack(status, headers, order, body)
  {
    CleanIsPlain(headers);
    CleanPrintsBack(headers, Decimal(|body|));
    hide Parse, Render, ToString, Decimal, DropSpace;
    PrintedMessageIsRead(status, headers, order, body);
  }

  lemma ComesBackIsClean(status: int, headers: map<string, string>, order: seq<string>, body: string)
    requires IsOrderOf(order, headers)
    requires CONTENT_LENGTH in headers ==> '\n' !in headers[CONTENT_LENGTH]
    requires ComesBack(status, headers, order, body)
    ensures Clean(headers) && |body| <= INT_MAX
  {
    hide Parse, Render, ToString, Decimal, DropSpace, Clean;
    CameBackPlain(Render(status, headers, order, body), headers, Decimal(|body|));
    assert ':' !in CONTENT_LENGTH && '\n' !in CONTENT_LENGTH;
    PrintedMessageIsRead(status, headers, order, body);
    PrintsBackIsClean(headers, Decimal(|body|));
  }

  /** The round trip in one order, when the stored Content-Length is a single line: everything comes
      back if and only if the headers are clean and the length fits an int. */
  lemma PrintThenParseInOrder(status: int, headers: map<string, string>, order: seq<string>, body: string)
    requires IsOrderOf(order, headers)
    requires CONTENT_LENGTH in headers ==> '\n' !in headers[CONTENT_LENGTH]
    ensures ComesBack(status, headers, order, body) <==> Clean(headers) && |body| <= INT_MAX
  {
    if ComesBack(status, headers, order, body) {
      ComesBackIsClean(status, headers, order, body);
    } else if Clean(headers) && |body| <= INT_MAX {
      CleanComesBack(status, headers, order, body);
    }
  }

  // The printed body is as long as its Content-Length asks for.
  lemma PrintedLengthFits(lines: seq<string>, body: string)
    requires CONTENT_LENGTH in HeadersOf(lines) && HeadersOf(lines)[CONTENT_LENGTH] == Decimal(|body|)
    ensures Needed(HeadersOf(lines)) <= |body|
  {
    hide HeadersOf, Decimal, Stoi;
    StoiOfDecimal(|body|);
  }

  // A status line, header lines, a blank line and a body that is long enough.
  lemma CompleteAs(status: int, lines: seq<string>, body: string)
    requires HeaderLines(lines) && Needed(HeadersOf(lines)) <= |body|
    ensures Complete(StatusLine(status) + "\n" + (Joined(lines) + "\r\n" + body))
  {
    hide HeadersOf, HeadOf, FirstLine, AfterLine, Needed, StatusLine, Joined, HeaderLines;
    StatusIsOneLine(status);
    LineSplit(StatusLine(status), Joined(lines) + "\r\n" + body);
    HeadOfJoined(lines, body);
    assert (StatusLine(status) + "\n" + (Joined(lines) + "\r\n" + body))[|StatusLine(status)|] == '\n';
  }

  /** What is printed is always a complete message when the headers are plain: a reader knows where
      it ends. */
  lemma PrintedIsComplete(status: int, headers: map<string, string>, order: seq<string>, body: string)
    requires IsOrderOf(order, headers)
    requires forall k :: k in headers ==> PlainHeader(k, headers[k])
    ensures Complete(Render(status, headers, order, body))
  {
    hide HeadersOf, Complete, Render, StatusLine, LengthLine, Joined, PrintedLines, Decimal, Needed;
    var lines := PrintedLines(headers, order);
    var all := lines + [LengthLine(|body|)];
    RenderShape(status, headers, order, body);
    PrintedLinesAreHeaderLines(headers, order);
    LengthIsRead(lines, |body|);
    PrintedLengthFits(all, body);
    CompleteAs(status, all, body);
  }
}
