/** Whole messages in plain terms: what the parser makes of any start line, header lines and bytes
    that follow them, stated without the parser's own functions for the body. */
module HttpMeaning {

  import opened Text
  import opened HttpParser
  import opened HttpLaws

  /** A header line, with or without its carriage return, is its key up to the first colon and its
      value after that, less one space in front. */
  lemma HeaderLineReads(key: string, val: string)
    requires ':' !in key
    ensures var line := key + ":" + val + "\r";
            HasColon(line) && KeyOf(line) == key
            && ValueOf(line) == if val != "" && val[0] == ' ' then val[1..] else val
    ensures (val == "" || val[|val| - 1] != '\r') ==>
            var line := key + ":" + val;
            HasColon(line) && KeyOf(line) == key
            && ValueOf(line) == if val != "" && val[0] == ' ' then val[1..] else val
  {
    var cut := key + ":" + val;
    PrintedHeader(cut, key, val);
    assert (cut + "\r")[..|cut|] == cut;
    assert val != "" ==> cut[|cut| - 1] == val[|val| - 1];
    assert val == "" ==> cut[|cut| - 1] == ':';
  }

  lemma NoColonNoHeader(line: string)
    requires ':' !in line
    ensures !HasColon(line)
  {
    assert forall c :: c in DropReturn(line) ==> c in line;
  }

  /** How the message goes on after its headers: without a Content-Length nothing of it is read; with
      one, as many bytes as its last one says, the missing ones as NULs; or the error that this ends
      in. */
  ghost predicate ReadsBody(p: ParseResult, lines: seq<string>, rest: string) {
    && ((forall i :: !LastHeader(lines, "Content-Length", i)) ==>
          p.Parsed? && p.request.headers == HeadersOf(lines) && p.request.body == "")
    && (forall i :: LastHeader(lines, "Content-Length", i) ==>
          match Stoi(ValueOf(lines[i]))
          case NoInt(error) => p == Failed(BadNumber(error))
          case Int(n) =>
            if n < 0 then p == Failed(NegativeLength)
            else
              && p.Parsed? && p.request.headers == HeadersOf(lines) && |p.request.body| == n
              && forall j :: 0 <= j < n ==> p.request.body[j] == if j < |rest| then rest[j] else '\0')
  }

  lemma BodyReads(raw: string, lines: seq<string>, rest: string)
    requires HeadOf(AfterLine(raw)).lines == lines && HeadOf(AfterLine(raw)).rest == rest
    ensures ReadsBody(Parse(raw), lines, rest)
  {
    hide HeadOf, HeadersOf, HasColon, KeyOf, ValueOf, Stoi, Word, AfterWord, FirstLine, AfterLine, LastHeader;
    LastHeaderWins(lines, "Content-Length");
  }

  /** A message with its blank line. */
  lemma MessageMeaning(start: string, lines: seq<string>, rest: string)
    requires '\n' !in start && HeaderLines(lines)
    ensures ReadsBody(Parse(start + "\n" + (Joined(lines) + "\r\n" + rest)), lines, rest)
  {
    hide HeadOf, AfterLine, Parse, ReadsBody, FirstLine, Joined, HeaderLines;
    LineSplit(start, Joined(lines) + "\r\n" + rest);
    HeadOfJoined(lines, rest);
    BodyReads(start + "\n" + (Joined(lines) + "\r\n" + rest), lines, rest);
  }

  lemma HeadOfLast(last: string)
    requires '\n' !in last
    ensures HeadOf(last).rest == "" && HeadOf(last).lines == if last == "" || last == "\r" then [] else [last]
  {
    WholeLine(last);
    HeadStep(last);
    NoHead();
    hide FirstLine, AfterLine;
  }

  lemma JoinedLast(line: string, more: seq<string>, last: string)
    ensures Joined([line] + more) + last == line + "\n" + (Joined(more) + last)
    ensures Joined([]) + last == last
  {
    assert ([line] + more)[1..] == more;
  }

  lemma {:induction false} HeadOfOpen(lines: seq<string>, last: string)
    requires HeaderLines(lines) && '\n' !in last
    ensures HeadOf(Joined(lines) + last).rest == ""
    ensures HeadOf(Joined(lines) + last).lines == lines + (if last == "" || last == "\r" then [] else [last])
  {
    hide HeadOf, Joined;
    if lines == [] {
      JoinedLast("", [], last);
      HeadOfLast(last);
    } else {
      var line, more := lines[0], lines[1..];
      assert line in lines && forall l :: l in more ==> l in lines;
      HeadOfOpen(more, last);
      assert [line] + more == lines;
      JoinedLast(line, more, last);
      HeadLine(line, Joined(more) + last);
    }
  }

  /** A message without its blank line: what follows the last newline is one more header line, and the
      body has no bytes of its own. */
  lemma OpenMessageMeaning(start: string, lines: seq<string>, last: string)
    requires '\n' !in start && HeaderLines(lines) && '\n' !in last
    ensures ReadsBody(Parse(start + "\n" + (Joined(lines) + last)),
                      lines + (if last == "" || last == "\r" then [] else [last]), "")
    ensures ReadsBody(Parse(start), [], "")
  {
    hide HeadOf, AfterLine, Parse, ReadsBody, FirstLine, Joined, HeaderLines;
    LineSplit(start, Joined(lines) + last);
    HeadOfOpen(lines, last);
    BodyReads(start + "\n" + (Joined(lines) + last), lines + (if last == "" || last == "\r" then [] else [last]), "");
    WholeLine(start);
    NoHead();
    BodyReads(start, [], "");
  }

  lemma NoHead()
    ensures HeadOf("").lines == [] && HeadOf("").rest == ""
  {
  }

  /** A non-empty text without white space. */
  ghost predicate IsWord(w: string) {
    w != "" && forall c :: c in w ==> c !in " \t\n\U{0B}\U{0C}\r"
  }

  lemma WordIsPlain(w: string)
    requires IsWord(w)
    ensures w != "" && NoSpaces(w) && '\n' !in w && w != BLANK
  {
    assert w[0] in w && BLANK[0] == '\r';
  }

  /** The start line: its first two words, with white space of any kind between and behind them, are the
      method and the path; a line of one word and a blank line leave the rest empty. */
  lemma StartMeaning(m: string, x: char, p: string, y: char, more: string, rest: string)
    requires IsWord(m) && IsWord(p) && x in " \t\U{0B}\U{0C}\r" && y in " \t\U{0B}\U{0C}\r" && '\n' !in more
    ensures var result := Parse(m + [x] + p + [y] + more + "\n" + rest);
            result.Parsed? ==> result.request.method_ == m && result.request.path == p
    ensures var result := Parse(m + "\n" + rest);
            result.Parsed? ==> result.request.method_ == m && result.request.path == ""
    ensures var result := Parse("\r\n" + rest);
            result.Parsed? ==> result.request.method_ == "" && result.request.path == ""
  {
    hide HeadOf, HeadersOf, BodyOf, Word, AfterWord, FirstLine, AfterLine, IsWord;
    StartOfTwo(m, x, p, y, more, rest);
    StartOfOne(m, rest);
    assert "\r\n" + rest == "\r" + "\n" + rest;
    LineSplit("\r", rest);
    WordOfNothing();
  }

  lemma StartOfTwo(m: string, x: char, p: string, y: char, more: string, rest: string)
    requires IsWord(m) && IsWord(p) && x in " \t\U{0B}\U{0C}\r" && y in " \t\U{0B}\U{0C}\r" && '\n' !in more
    ensures var start := StartLine(m + [x] + p + [y] + more + "\n" + rest);
            Word(start) == m && Word(AfterWord(start)) == p
  {
    hide Word, AfterWord;
    WordIsPlain(m);
    WordIsPlain(p);
    var line := m + [x] + p + [y] + more;
    assert '\n' !in line by {
      assert x != '\n' && y != '\n';
      assert forall c :: c in line ==> c in m || c == x || c in p || c == y || c in more;
    }
    LineSplit(line, rest);
    hide FirstLine, AfterLine;
    assert line != BLANK by { assert |line| > 1; }
    assert line == m + ([x] + p + ([y] + more));
    NextWord(m, [x] + p + ([y] + more));
    SpaceThenWord(x, p, [y] + more);
  }

  lemma NextWord(w: string, t: string)
    requires w != "" && NoSpaces(w) && (t == "" || IsSpace(t[0]))
    ensures Word(w + t) == w && AfterWord(w + t) == t
  {
    WordOf(w, t);
  }

  lemma SpaceThenWord(x: char, w: string, t: string)
    requires IsSpace(x) && w != "" && NoSpaces(w) && (t == "" || IsSpace(t[0]))
    ensures Word([x] + w + t) == w
  {
    assert ([x] + w + t)[1..] == w + t;
    assert DropSpaces([x] + w + t) == DropSpaces(w + t);
    NextWord(w, t);
  }

  lemma StartOfOne(m: string, rest: string)
    requires IsWord(m)
    ensures var start := StartLine(m + "\n" + rest);
            Word(start) == m && Word(AfterWord(start)) == ""
  {
    hide Word, AfterWord;
    WordIsPlain(m);
    LineSplit(m, rest);
    assert m == m + "";
    WordOf(m, "");
    WordOfNothing();
  }

  lemma WordOfNothing()
    ensures Word("") == "" && Word(AfterWord("")) == ""
  {
  }
}
