/** The server's HTTP parser: a stream with a position, read line by line. */
module HttpParser {

  import opened Text

  // What getline returns and leaves, on the part of the stream that is still unread.

  function FirstLine(s: string): (line: string)
    ensures '\n' !in line && line <= s
    ensures |line| < |s| ==> s[|line|] == '\n'
  {
    s[..IndexOf(s, '\n')]
  }

  function AfterLine(s: string): (t: string)
    ensures s != "" ==> |t| < |s|
  {
    var i := IndexOf(s, '\n');
    if i < |s| then s[i + 1..] else ""
  }

  const BLANK: string := "\r"
  const CONTENT_LENGTH: string := "Content-Length"

  /** The header section of a message: the lines before the blank line, what follows it, and
      whether the blank line was there, with its newline. */
  datatype Head = Head(lines: seq<string>, rest: string, closed: bool)

  function HeadOf(s: string): (h: Head)
    ensures |h.rest| <= |s|
    decreases |s|
  {
    if s == "" then Head([], "", false)
    else if FirstLine(s) == BLANK then Head([], AfterLine(s), |s| > 1)
    else
      var h := HeadOf(AfterLine(s));
      h.(lines := [FirstLine(s)] + h.lines)
  }

  lemma HeadStep(s: string)
    ensures s == "" || FirstLine(s) == BLANK ==> HeadOf(s).lines == [] && HeadOf(s).rest == AfterLine(s)
    ensures s != "" && FirstLine(s) != BLANK ==> (
      && HeadOf(s).lines == [FirstLine(s)] + HeadOf(AfterLine(s)).lines
      && HeadOf(s).rest == HeadOf(AfterLine(s)).rest)
    ensures s != "" ==> |AfterLine(s)| < |s|
  {
  }

  // ---------- one header line ----------

  function DropReturn(line: string): string {
    if line != "" && line[|line|-1] == '\r' then line[..|line|-1] else line
  }

  function DropSpace(val: string): string {
    if val != "" && val[0] == ' ' then val[1..] else val
  }

  predicate HasColon(line: string) {
    IndexOf(DropReturn(line), ':') < |DropReturn(line)|
  }

  /** The text before the first colon. */
  function KeyOf(line: string): string {
    DropReturn(line)[..IndexOf(DropReturn(line), ':')]
  }

  /** The text after the first colon, without one leading space. */
  function ValueOf(line: string): string
    requires HasColon(line)
  {
    DropSpace(DropReturn(line)[IndexOf(DropReturn(line), ':') + 1..])
  }

  /** The header map: lines without a colon are ignored, and of two lines with the same key the
      later one wins. */
  function HeadersOf(lines: seq<string>): map<string, string> {
    if lines == [] then map[]
    else
      var h, line := HeadersOf(lines[..|lines|-1]), lines[|lines|-1];
      if HasColon(line) then h[KeyOf(line) := ValueOf(line)] else h
  }

  lemma NoHeaders()
    ensures HeadersOf([]) == map[]
  {
  }

  lemma OneMoreHeader(lines: seq<string>, line: string)
    ensures HeadersOf(lines + [line]) ==
            if HasColon(line) then HeadersOf(lines)[KeyOf(line) := ValueOf(line)] else HeadersOf(lines)
  {
    assert (lines + [line])[..|lines|] == lines;
  }

  // ---------- the whole message ----------

  datatype HTTPRequest = HTTPRequest(method_: string, path: string, headers: map<string, string>, body: string)

  // The exceptions that parsing can end in: the two of stoi, and resize to a negative length.
  datatype ParseError = BadNumber(error: NumberError) | NegativeLength

  datatype ParseResult = Parsed(request: HTTPRequest) | Failed(error: ParseError)

  /** n bytes: the available ones, padded with NULs. */
  function Padded(s: string, n: nat): (t: string)
    ensures |t| == n
    ensures forall i :: 0 <= i < n ==> t[i] == if i < |s| then s[i] else '\0'
  {
    if n <= |s| then s[..n] else s + seq(n - |s|, _ => '\0')
  }

  function StartLine(raw: string): string {
    if FirstLine(raw) == BLANK then "" else FirstLine(raw)
  }

  function BodyOf(headers: map<string, string>, rest: string): ParseResult {
    if CONTENT_LENGTH !in headers then Parsed(HTTPRequest("", "", headers, ""))
    else
      match Stoi(headers[CONTENT_LENGTH])
      case NoInt(error) => Failed(BadNumber(error))
      case Int(n) => if n < 0 then Failed(NegativeLength) else Parsed(HTTPRequest("", "", headers, Padded(rest, n)))
  }

  /** What a message means. */
  function Parse(raw: string): ParseResult {
    var head := HeadOf(AfterLine(raw));
    match BodyOf(HeadersOf(head.lines), head.rest)
    case Failed(error) => Failed(error)
    case Parsed(r) =>
      var start := StartLine(raw);
      Parsed(r.(method_ := Word(start), path := Word(AfterWord(start))))
  }

  // ---------- std::istringstream ----------

  class InputStream {
    const data: string
    var pos: nat

    ghost predicate Valid()
      reads this
    {
      pos <= |data|
    }

    ghost function Rest(): string
      requires Valid()
      reads this
    {
      data[pos..]
    }

    constructor (data: string)
      ensures Valid() && Rest() == data
    {
      this.data := data;
      pos := 0;
    }

    /** std::getline: fails only when nothing is left. */
    method GetLine() returns (ok: bool, line: string)
      requires Valid()
      modifies this
      ensures Valid() && ok == (old(Rest()) != "")
      ensures line == FirstLine(old(Rest())) && Rest() == AfterLine(old(Rest()))
    {
      ghost var s := Rest();
      ok, line := pos < |data|, "";
      ghost var i := 0;
      while pos < |data| && data[pos] != '\n'
        invariant i <= |s| && pos == old(pos) + i <= |data|
        invariant line == s[..i] && '\n' !in line
      {
        line := line + [data[pos]];
        pos, i := pos + 1, i + 1;
      }
      IndexOfIs(s, '\n', i);
      if pos < |data| {
        pos := pos + 1;
      }
    }

    method SkipSpaces()
      requires Valid()
      modifies this
      ensures Valid() && Rest() == DropSpaces(old(Rest()))
    {
      while pos < |data| && IsSpace(data[pos])
        invariant Valid() && DropSpaces(Rest()) == DropSpaces(old(Rest()))
      {
        assert Rest()[1..] == data[pos + 1..];
        pos := pos + 1;
      }
    }

    /** operator>> into a string. */
    method ExtractWord() returns (word: string)
      requires Valid()
      modifies this
      ensures Valid()
      ensures word == Word(old(Rest())) && Rest() == AfterWord(old(Rest()))
    {
      hide DropSpaces;
      SkipSpaces();
      word := "";
      ghost var s, i := Rest(), 0;
      while pos < |data| && !IsSpace(data[pos])
        invariant i <= |s| && pos == |data| - |s| + i
        invariant word == s[..i] && NoSpaces(word)
      {
        word := word + [data[pos]];
        pos, i := pos + 1, i + 1;
      }
      assert s == s[..i] + s[i..];
      TakeWordOf(s[..i], s[i..]);
    }

    /** read: as many of the next n bytes as there are. */
    method Read(n: nat) returns (bytes: string)
      requires Valid()
      modifies this
      ensures Valid()
      ensures bytes == if n <= |old(Rest())| then old(Rest())[..n] else old(Rest())
    {
      var m := if n <= |data| - pos then n else |data| - pos;
      bytes := data[pos..pos + m];
      pos := pos + m;
    }
  }

  class HTTPParser {

    constructor () {
    }

    /** The method and the path: the first two words of the start line. */
    method ParseStart(iss: InputStream) returns (method_: string, path: string)
      requires iss.Valid()
      modifies iss
      ensures iss.Valid() && iss.Rest() == AfterLine(old(iss.Rest()))
      ensures method_ == Word(StartLine(old(iss.Rest()))) && path == Word(AfterWord(StartLine(old(iss.Rest()))))
    {
      method_, path := "", "";
      var ok, line := iss.GetLine();
      if ok && line != BLANK {
        var issFirstLine := new InputStream(line);
        method_ := issFirstLine.ExtractWord();
        path := issFirstLine.ExtractWord();
      }
    }

    /** One header line: split at the first colon, if there is one. */
    method ParseHeader(whole: string, headers: map<string, string>) returns (headers': map<string, string>)
      ensures headers' == if HasColon(whole) then headers[KeyOf(whole) := ValueOf(whole)] else headers
    {
      var line := whole;
      headers' := headers;
      if line != "" && line[|line| - 1] == '\r' {
        line := line[..|line| - 1];
      }
      var pivot := IndexOf(line, ':');
      if pivot < |line| {
        var key, val := line[..pivot], line[pivot + 1..];
        if val != "" && val[0] == ' ' {
          val := val[1..];
        }
        headers' := headers[key := val];
      }
    }

    /** The line loop: reads the header section and stops after its blank line. */
    method ParseHeaders(iss: InputStream) returns (headers: map<string, string>)
      requires iss.Valid()
      modifies iss
      ensures iss.Valid()
      ensures headers == HeadersOf(HeadOf(old(iss.Rest())).lines)
      ensures iss.Rest() == HeadOf(old(iss.Rest())).rest
    {
      hide HasColon, KeyOf, ValueOf, FirstLine, AfterLine, HeadersOf, HeadOf;
      headers := map[];
      ghost var s, lines := iss.Rest(), [];
      NoHeaders();
      ghost var head := HeadOf(s);
      var ok, line := iss.GetLine();
      while ok && line != BLANK
        invariant iss.Valid() && ok == (s != "") && line == FirstLine(s) && iss.Rest() == AfterLine(s)
        invariant head.lines == lines + HeadOf(s).lines && head.rest == HeadOf(s).rest
        invariant headers == HeadersOf(lines)
        decreases |s|
      {
        headers := ParseHeader(line, headers);
        OneMoreHeader(lines, line);
        HeadStep(s);
        assert lines + ([line] + HeadOf(AfterLine(s)).lines) == lines + [line] + HeadOf(AfterLine(s)).lines;
        lines, s := lines + [line], AfterLine(s);
        ok, line := iss.GetLine();
      }
      HeadStep(s);
      assert lines + [] == lines;
    }

    /** The body: as many bytes as Content-Length says, if it says anything. */
    method ParseBody(iss: InputStream, headers: map<string, string>) returns (r: ParseResult)
      requires iss.Valid()
      modifies iss
      ensures r == BodyOf(headers, old(iss.Rest()))
      ensures "Content-Length" !in headers ==> r.Parsed? && r.request.body == ""
      ensures "Content-Length" in headers ==>
        match Stoi(headers["Content-Length"])
        case NoInt(error) => r == Failed(BadNumber(error))
        case Int(n) =>
          if n < 0 then r == Failed(NegativeLength)
          else
            && r.Parsed? && |r.request.body| == n
            && forall i :: 0 <= i < n ==>
                 r.request.body[i] == if i < |old(iss.Rest())| then old(iss.Rest())[i] else '\0'
    {
      var body := "";
      if CONTENT_LENGTH in headers {
        var length := Stoi(headers[CONTENT_LENGTH]);
        if length.NoInt? {
          return Failed(BadNumber(length.error));
        }
        if length.value < 0 {
          return Failed(NegativeLength);
        }
        ghost var rest := iss.Rest();
        var bytes := iss.Read(length.value);
        body := bytes + seq(length.value - |bytes|, _ => '\0');
        assert body == Padded(rest, length.value);
      }
      r := Parsed(HTTPRequest("", "", headers, body));
    }

    method ParseRequest(raw: string) returns (r: ParseResult)
      ensures r == Parse(raw)
    {
      var iss := new InputStream(raw);
      var method_, path := ParseStart(iss);
      var headers := ParseHeaders(iss);
      r := ParseBody(iss, headers);
      if r.Parsed? {
        r := Parsed(r.request.(method_ := method_, path := path));
      }
    }
  }
}
