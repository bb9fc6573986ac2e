/** What the parser's result means: the header section as a grammar, the header map as a lookup,
    and exactly when a message is complete. */
module HttpLaws {

  import opened Text
  import opened HttpParser

  // ---------- the header section as a grammar ----------

  /** The lines written out, each followed by a newline. */
  function Joined(lines: seq<string>): string {
    if lines == [] then "" else lines[0] + "\n" + Joined(lines[1..])
  }

  ghost predicate HeaderLines(lines: seq<string>) {
    forall line :: line in lines ==> '\n' !in line && line != BLANK
  }

  lemma LineSplit(line: string, t: string)
    requires '\n' !in line
    ensures FirstLine(line + "\n" + t) == line && AfterLine(line + "\n" + t) == t
  {
    var s := line + "\n" + t;
    assert s[..|line|] == line && s[|line|] == '\n' && s[|line| + 1..] == t;
    IndexOfIs(s, '\n', |line|);
  }

  lemma StartSplit(raw: string)
    requires '\n' in raw
    ensures raw == FirstLine(raw) + "\n" + AfterLine(raw)
  {
    var i := IndexOf(raw, '\n');
    assert raw == raw[..i] + [raw[i]] + raw[i + 1..];
  }

  lemma {:induction false} HeadLinesOk(s: string)
    ensures HeaderLines(HeadOf(s).lines)
    decreases |s|
  {
    if s != "" && FirstLine(s) != BLANK {
      HeadLinesOk(AfterLine(s));
    }
  }

  lemma WholeLine(s: string)
    requires '\n' !in s
    ensures FirstLine(s) == s && AfterLine(s) == ""
  {
  }

  lemma ClosedHasLine(s: string)
    requires HeadOf(s).closed
    ensures '\n' in s
  {
    if '\n' !in s {
      WholeLine(s);
    }
  }

  lemma JoinedStep(line: string, lines: seq<string>, rest: string)
    ensures Joined([line] + lines) + "\r\n" + rest == line + "\n" + (Joined(lines) + "\r\n" + rest)
  {
    assert ([line] + lines)[1..] == lines;
  }

  /** A closed header section is its lines, a blank line and the rest... */
  lemma {:induction false} HeadSplits(s: string)
    requires HeadOf(s).closed
    ensures s == Joined(HeadOf(s).lines) + "\r\n" + HeadOf(s).rest
    decreases |s|
  {
    var line, t := FirstLine(s), AfterLine(s);
    ClosedHasLine(s);
    StartSplit(s);
    if line == BLANK {
      assert s == "" + "\r\n" + t;
    } else {
      HeadSplits(t);
      JoinedStep(line, HeadOf(t).lines, HeadOf(t).rest);
    }
  }

  lemma HeadLine(line: string, t: string)
    requires '\n' !in line && line != BLANK
    ensures HeadOf(line + "\n" + t) == HeadOf(t).(lines := [line] + HeadOf(t).lines)
  {
    LineSplit(line, t);
    assert (line + "\n" + t)[|line|] == '\n';
    hide FirstLine, AfterLine;
  }

  lemma HeadBlank(rest: string)
    ensures HeadOf("\r\n" + rest) == Head([], rest, true)
  {
    assert "\r\n" + rest == "\r" + "\n" + rest;
    LineSplit("\r", rest);
  }

  /** ...and any such lines, blank line and rest are read back as just that. */
  lemma {:induction false} HeadOfJoined(lines: seq<string>, rest: string)
    requires HeaderLines(lines)
    ensures HeadOf(Joined(lines) + "\r\n" + rest) == Head(lines, rest, true)
  {
    hide HeadOf;
    if lines == [] {
      assert Joined(lines) + "\r\n" + rest == "\r\n" + rest;
      HeadBlank(rest);
    } else {
      var line, more := lines[0], lines[1..];
      assert line in lines && forall l :: l in more ==> l in lines;
      HeadOfJoined(more, rest);
      assert [line] + more == lines;
      JoinedStep(line, more, rest);
      HeadLine(line, Joined(more) + "\r\n" + rest);
    }
  }

  // ---------- the header map as a lookup ----------

  /** Line i is a header line for this key, and no later line is. */
  ghost predicate LastHeader(lines: seq<string>, key: string, i: int) {
    && 0 <= i < |lines| && HasColon(lines[i]) && KeyOf(lines[i]) == key
    && forall j :: i < j < |lines| && HasColon(lines[j]) ==> KeyOf(lines[j]) != key
  }

  /** A key is in the map exactly if some line has it, and its value is the one of the last such line. */
  lemma {:induction false} LastHeaderWins(lines: seq<string>, key: string)
    ensures key in HeadersOf(lines) <==> exists i :: LastHeader(lines, key, i)
    ensures forall i :: LastHeader(lines, key, i) ==> HeadersOf(lines)[key] == ValueOf(lines[i])
  {
    hide HasColon, KeyOf, ValueOf;
    if lines != [] {
      var m := |lines| - 1;
      var front := lines[..m];
      LastHeaderWins(front, key);
      if HasColon(lines[m]) && KeyOf(lines[m]) == key {
        assert LastHeader(lines, key, m);
      } else {
        assert forall i :: LastHeader(lines, key, i) <==> LastHeader(front, key, i);
      }
    }
  }

  lemma SplitAt(s: string, i: nat)
    requires i < |s|
    ensures s == s[..i] + [s[i]] + s[i + 1..]
  {
  }

  lemma ColonSplit(s: string)
    requires ':' in s
    ensures s == s[..IndexOf(s, ':')] + ":" + s[IndexOf(s, ':') + 1..]
  {
    SplitAt(s, IndexOf(s, ':'));
  }

  lemma SpaceSplit(val: string)
    ensures val == DropSpace(val) || val == " " + DropSpace(val)
  {
    if val != "" && val[0] == ' ' {
      assert val == [val[0]] + val[1..];
    }
  }

  /** A header line is its key, a colon, at most one space that does not count, its value and at
      most one carriage return that does not count; the key has no colon. */
  lemma HeaderLineMeaning(line: string)
    ensures HasColon(line) <==> ':' in DropReturn(line)
    ensures HasColon(line) ==> (
      && ':' !in KeyOf(line)
      && (DropReturn(line) == KeyOf(line) + ":" + ValueOf(line)
          || DropReturn(line) == KeyOf(line) + ":" + (" " + ValueOf(line))))
    ensures line == DropReturn(line) || line == DropReturn(line) + "\r"
  {
    hide DropSpace;
    var s := DropReturn(line);
    if ':' in s {
      ColonSplit(s);
      SpaceSplit(s[IndexOf(s, ':') + 1..]);
    }
  }

  // ---------- framing ----------

  /** The number of body bytes that the headers ask for. */
  function Needed(headers: map<string, string>): nat {
    if CONTENT_LENGTH !in headers then 0
    else match Stoi(headers[CONTENT_LENGTH])
         case Int(n) => if n > 0 then n else 0
         case NoInt(_) => 0
  }

  /** The start line and the blank line are there, each with its newline, and so is the whole body. */
  predicate Complete(raw: string) {
    var head := HeadOf(AfterLine(raw));
    '\n' in raw && head.closed && Needed(HeadersOf(head.lines)) <= |head.rest|
  }

  lemma StartAppend(raw: string, x: string)
    requires '\n' in raw
    ensures FirstLine(raw + x) == FirstLine(raw) && AfterLine(raw + x) == AfterLine(raw) + x
  {
    StartSplit(raw);
    assert raw + x == FirstLine(raw) + "\n" + (AfterLine(raw) + x);
    LineSplit(FirstLine(raw), AfterLine(raw) + x);
  }

  lemma BodyAppend(headers: map<string, string>, rest: string, x: string)
    requires Needed(headers) <= |rest|
    ensures BodyOf(headers, rest + x) == BodyOf(headers, rest)
  {
    if CONTENT_LENGTH in headers && Stoi(headers[CONTENT_LENGTH]).Int? && Stoi(headers[CONTENT_LENGTH]).value >= 0 {
      var n := Stoi(headers[CONTENT_LENGTH]).value;
      assert Padded(rest + x, n) == Padded(rest, n);
    }
  }

  /** Nothing that follows a complete message changes what it means. */
  lemma CompleteIsStable(raw: string, x: string)
    requires Complete(raw)
    ensures Parse(raw + x) == Parse(raw)
  {
    hide HeadersOf, HeadOf, FirstLine, AfterLine, BodyOf, Word, AfterWord, Needed, Joined;
    var s := AfterLine(raw);
    var head := HeadOf(s);
    StartAppend(raw, x);
    HeadSplits(s);
    HeadLinesOk(s);
    assert s + x == Joined(head.lines) + "\r\n" + (head.rest + x);
    HeadOfJoined(head.lines, head.rest + x);
    BodyAppend(HeadersOf(head.lines), head.rest, x);
  }

  lemma ContinueLine(line: string, t: string)
    requires '\n' !in line && line != BLANK
    ensures HeadOf(line + "\n" + t).lines == [line] + HeadOf(t).lines
  {
    LineSplit(line, t);
  }

  lemma UnclosedStep(s: string)
    requires '\n' in s && !HeadOf(s).closed
    ensures FirstLine(s) != BLANK && !HeadOf(AfterLine(s)).closed
  {
    assert |FirstLine(s)| < |s|;
  }

  /** An unclosed header section can be continued: after some text, any further lines are read as
      header lines. */
  lemma {:induction false} Continue(s: string) returns (pre: string, lines: seq<string>)
    requires !HeadOf(s).closed
    ensures forall t :: HeadOf(s + (pre + t)).lines == lines + HeadOf(t).lines
    decreases |s|
  {
    hide HeadOf;
    if s == "" {
      pre, lines := "", [];
      forall t ensures HeadOf(s + (pre + t)).lines == lines + HeadOf(t).lines {
        assert s + (pre + t) == t;
      }
    } else if '\n' in s {
      UnclosedStep(s);
      var rest;
      pre, rest := Continue(AfterLine(s));
      lines := [FirstLine(s)] + rest;
      forall t ensures HeadOf(s + (pre + t)).lines == lines + HeadOf(t).lines {
        ContinueRest(s, pre, rest, t);
      }
    } else {
      pre := if s == BLANK then "x\n" else "\n";
      var line := if s == BLANK then "\rx" else s;
      lines := [line];
      forall t ensures HeadOf(s + (pre + t)).lines == lines + HeadOf(t).lines {
        ContinueLine(line, t);
        assert s + (pre + t) == line + "\n" + t;
      }
    }
  }

  lemma ContinueRest(s: string, pre: string, rest: seq<string>, t: string)
    requires '\n' in s && FirstLine(s) != BLANK
    requires HeadOf(AfterLine(s) + (pre + t)).lines == rest + HeadOf(t).lines
    ensures HeadOf(s + (pre + t)).lines == [FirstLine(s)] + rest + HeadOf(t).lines
  {
    hide HeadOf;
    var line, s' := FirstLine(s), AfterLine(s);
    StartSplit(s);
    ContinueLine(line, s' + (pre + t));
    assert s + (pre + t) == line + "\n" + (s' + (pre + t));
    assert [line] + (rest + HeadOf(t).lines) == [line] + rest + HeadOf(t).lines;
  }

  /** Where a printed header line is split. */
  lemma PrintedHeader(s: string, key: string, val: string)
    requires s == key + ":" + val && ':' !in key
    ensures IndexOf(s, ':') == |key| < |s| && s[..|key|] == key && s[|key| + 1..] == val
  {
    IndexOfIs(s, ':', |key|);
  }

  lemma LengthHeader(lines: seq<string>, d: string)
    requires d == "0" || d == "1"
    ensures HeadersOf(lines + [CONTENT_LENGTH + ":" + d]) == HeadersOf(lines)[CONTENT_LENGTH := d]
  {
    hide HeadersOf;
    var line := CONTENT_LENGTH + ":" + d;
    PrintedHeader(line, CONTENT_LENGTH, d);
    assert line[|line| - 1] == d[0];
    OneMoreHeader(lines, line);
  }

  lemma LengthLineAlone(d: string)
    requires d == "0" || d == "1"
    ensures HeadOf(CONTENT_LENGTH + ":" + d + "\n").lines == [CONTENT_LENGTH + ":" + d]
  {
    var line := CONTENT_LENGTH + ":" + d;
    LineSplit(line, "");
    assert line + "\n" + "" == line + "\n";
  }

  lemma LengthNumber(d: string)
    requires d == "0" || d == "1"
    ensures Stoi(d).Int? && Stoi(d).value >= 0
  {
    StoiOfDecimal(0);
    StoiOfDecimal(1);
    assert Decimal(0) == "0" && Decimal(1) == "1";
  }

  lemma LengthIsObeyed(raw: string, pre: string, lines: seq<string>, d: string)
    requires d == "0" || d == "1"
    requires forall t :: HeadOf(AfterLine(raw + (pre + t))).lines == lines + HeadOf(t).lines
    ensures var p := Parse(raw + (pre + (CONTENT_LENGTH + ":" + d + "\n")));
            p.Parsed? && CONTENT_LENGTH in p.request.headers && p.request.headers[CONTENT_LENGTH] == d
  {
    hide HeadersOf, HeadOf, AfterLine, Stoi;
    LengthHeader(lines, d);
    LengthLineAlone(d);
    LengthNumber(d);
  }

  // Without a finished header section, further headers would still be obeyed.
  lemma OpenHeadIsUnstable(raw: string)
    requires '\n' !in raw || !HeadOf(AfterLine(raw)).closed
    ensures exists x :: Parse(raw + x) != Parse(raw)
  {
    hide Parse, HeadOf, AfterLine;
    var pre, lines := AnyOpenHead(raw);
    var x0, x1 := pre + (CONTENT_LENGTH + ":" + "0" + "\n"), pre + (CONTENT_LENGTH + ":" + "1" + "\n");
    LengthIsObeyed(raw, pre, lines, "0");
    LengthIsObeyed(raw, pre, lines, "1");
    var p0, p1 := Parse(raw + x0), Parse(raw + x1);
    assert p0.request.headers[CONTENT_LENGTH] == "0" && p1.request.headers[CONTENT_LENGTH] == "1";
    assert "0"[0] != "1"[0];
    assert p0 != p1;
    if p0 == Parse(raw) {
      assert Parse(raw + x1) != Parse(raw);
    }
  }

  lemma AnyOpenHead(raw: string) returns (pre: string, lines: seq<string>)
    requires '\n' !in raw || !HeadOf(AfterLine(raw)).closed
    ensures forall t :: HeadOf(AfterLine(raw + (pre + t))).lines == lines + HeadOf(t).lines
  {
    hide HeadOf, AfterLine;
    if '\n' in raw {
      pre, lines := Continue(AfterLine(raw));
      forall t ensures HeadOf(AfterLine(raw + (pre + t))).lines == lines + HeadOf(t).lines {
        StartAppend(raw, pre + t);
      }
    } else {
      pre, lines := "\n", [];
      forall t ensures HeadOf(AfterLine(raw + (pre + t))).lines == lines + HeadOf(t).lines {
        LineSplit(raw, t);
        assert raw + (pre + t) == raw + "\n" + t;
        assert lines + HeadOf(t).lines == HeadOf(t).lines;
      }
    }
  }

  // With bytes missing from the body, the next byte would still be part of it.
  lemma ShortBodyIsUnstable(raw: string)
    requires '\n' in raw && HeadOf(AfterLine(raw)).closed && !Complete(raw)
    ensures Parse(raw + "a") != Parse(raw)
  {
    var s := AfterLine(raw);
    var head := HeadOf(s);
    StartAppend(raw, "a");
    HeadSplits(s);
    HeadLinesOk(s);
    assert s + "a" == Joined(head.lines) + "\r\n" + (head.rest + "a");
    HeadOfJoined(head.lines, head.rest + "a");
    var n := Needed(HeadersOf(head.lines));
    assert Padded(head.rest, n)[|head.rest|] == '\0';
    assert Padded(head.rest + "a", n)[|head.rest|] == 'a';
  }

  /** Framing, exactly: a message means the same whatever bytes follow it if and only if it is complete. */
  lemma Framing(raw: string)
    ensures Complete(raw) <==> forall x :: Parse(raw + x) == Parse(raw)
  {
    if Complete(raw) {
      forall x ensures Parse(raw + x) == Parse(raw) {
        CompleteIsStable(raw, x);
      }
    } else if '\n' in raw && HeadOf(AfterLine(raw)).closed {
      ShortBodyIsUnstable(raw);
    } else {
      OpenHeadIsUnstable(raw);
    }
  }

  // A closed message cut off n bytes into its body.
  lemma MessageSplit(raw: string, n: nat) returns (cut: string, tail: string)
    requires '\n' in raw && HeadOf(AfterLine(raw)).closed && n <= |HeadOf(AfterLine(raw)).rest|
    ensures raw == cut + tail && |tail| == |HeadOf(AfterLine(raw)).rest| - n
    ensures '\n' in cut
    ensures HeadOf(AfterLine(cut)) == HeadOf(AfterLine(raw)).(rest := HeadOf(AfterLine(raw)).rest[..n])
  {
    var s := AfterLine(raw);
    var head := HeadOf(s);
    HeadSplits(s);
    HeadLinesOk(s);
    StartSplit(raw);
    hide HeadOf, FirstLine, AfterLine, Joined;
    var line, j := FirstLine(raw), Joined(head.lines) + "\r\n";
    cut, tail := line + "\n" + (j + head.rest[..n]), head.rest[n..];
    CutIs(line + "\n", j, head.rest, n);
    HeadOfJoined(head.lines, head.rest[..n]);
    LineSplit(line, j + head.rest[..n]);
    assert cut[|line|] == '\n';
  }

  lemma CutIs(a: string, j: string, rest: string, n: nat)
    requires n <= |rest|
    ensures a + (j + rest) == a + (j + rest[..n]) + rest[n..]
  {
  }

  /** Of a complete message only the bytes through the blank line and the body bytes asked for matter. */
  lemma OnlyTheMessageMatters(raw: string)
    requires Complete(raw)
    ensures var head := HeadOf(AfterLine(raw));
            var k := |raw| - |head.rest| + Needed(HeadersOf(head.lines));
            0 <= k <= |raw| && Complete(raw[..k]) && Parse(raw[..k]) == Parse(raw)
  {
    hide HeadOf, Parse, Needed, HeadersOf, AfterLine;
    var head := HeadOf(AfterLine(raw));
    var n := Needed(HeadersOf(head.lines));
    var cut, tail := MessageSplit(raw, n);
    CompleteIsStable(cut, tail);
    assert raw[..|cut|] == cut;
  }
}
