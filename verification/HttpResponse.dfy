/** The server's HTTP printer. */
module HttpResponse {

  import opened Text
  import opened HttpParser

  function CodeToMessage(code: int): string {
    match code
    case 200 => "OK"
    case 404 => "Not Found"
    case 500 => "Internal Server Error"
    case _ => "Unknown"
  }

  function StatusLine(status: int): string {
    "HTTP/1.1 " + ToString(status) + " " + CodeToMessage(status) + "\r"
  }

  /** One order in which an unordered map may be walked. */
  ghost predicate IsOrderOf(order: seq<string>, headers: map<string, string>) {
    && (forall k :: k in order <==> k in headers)
    && (forall i, j :: 0 <= i < j < |order| ==> order[i] != order[j])
  }

  function HeaderLine(key: string, val: string): string {
    key + ":" + val + "\r"
  }

  function LengthLine(n: nat): string {
    CONTENT_LENGTH + ": " + Decimal(n) + "\r"
  }

  /** The header lines, written out in the given order. */
  function HeaderText(headers: map<string, string>, order: seq<string>): string
    requires forall k :: k in order ==> k in headers
  {
    if order == [] then ""
    else
      var front, k := order[..|order|-1], order[|order|-1];
      HeaderText(headers, front) + (HeaderLine(k, headers[k]) + "\n")
  }

  /** What is printed: status line, headers, a last Content-Length, a blank line, the body. */
  function Render(status: int, headers: map<string, string>, order: seq<string>, body: string): string
    requires forall k :: k in order ==> k in headers
  {
    StatusLine(status) + "\n" + HeaderText(headers, order) + (LengthLine(|body|) + "\n") + "\r\n" + body
  }

  // Numbers of three digits.
  lemma ThreeDigits(a: nat, b: nat, c: nat)
    requires 0 < a < 10 && b < 10 && c < 10
    ensures Decimal(100 * a + 10 * b + c) == ["0123456789"[a]] + ["0123456789"[b]] + ["0123456789"[c]]
  {
    DecimalNotation(0, a);
    DecimalNotation(a, b);
    DecimalNotation(10 * a + b, c);
    assert 10 * (10 * a + b) + c == 100 * a + 10 * b + c;
    hide Decimal;
  }

  lemma KnownNumbers()
    ensures ToString(200) == "200" && ToString(404) == "404" && ToString(500) == "500"
  {
    ThreeDigits(2, 0, 0);
    ThreeDigits(4, 0, 4);
    ThreeDigits(5, 0, 0);
    hide Decimal;
  }

  // The status lines.
  lemma LineOf200()
    ensures StatusLine(200) + "\n" == "HTTP/1.1 200 OK\r\n"
  {
    KnownNumbers();
    hide ToString;
  }

  lemma LineOf404()
    ensures StatusLine(404) + "\n" == "HTTP/1.1 404 Not Found\r\n"
  {
    KnownNumbers();
    hide ToString;
  }

  lemma LineOf500()
    ensures StatusLine(500) + "\n" == "HTTP/1.1 500 Internal Server Error\r\n"
  {
    KnownNumbers();
    hide ToString;
  }

  lemma LineOfOther(status: int)
    requires status != 200 && status != 404 && status != 500
    ensures StatusLine(status) + "\n" == "HTTP/1.1 " + ToString(status) + " Unknown\r\n"
  {
    hide ToString;
    assert " " + "Unknown" + "\r" + "\n" == " Unknown\r\n";
    var number := ToString(status);
    assert "HTTP/1.1 " + number + " " + "Unknown" + "\r" + "\n"
        == "HTTP/1.1 " + number + (" " + "Unknown" + "\r" + "\n");
  }

  lemma Known(status: int)
    ensures status == 200 ==> StatusLine(status) + "\n" == "HTTP/1.1 200 OK\r\n"
    ensures status == 404 ==> StatusLine(status) + "\n" == "HTTP/1.1 404 Not Found\r\n"
    ensures status == 500 ==> StatusLine(status) + "\n" == "HTTP/1.1 500 Internal Server Error\r\n"
    ensures status != 200 && status != 404 && status != 500 ==>
      StatusLine(status) + "\n" == "HTTP/1.1 " + ToString(status) + " Unknown\r\n"
  {
    hide StatusLine, ToString;
    if status == 200 {
      LineOf200();
    } else if status == 404 {
      LineOf404();
    } else if status == 500 {
      LineOf500();
    } else {
      LineOfOther(status);
    }
  }

  lemma StatusLinePrinted(status: int)
    ensures "HTTP/1.1 " + ToString(status) + " " + CodeToMessage(status) + "\r\n" == StatusLine(status) + "\n"
  {
  }

  lemma LengthLinePrinted(n: nat)
    ensures "Content-Length: " + Decimal(n) + "\r\n" == LengthLine(n) + "\n"
  {
  }

  lemma RenderBegins(status: int, headers: map<string, string>, order: seq<string>, body: string)
    requires forall k :: k in order ==> k in headers
    ensures StatusLine(status) + "\n" <= Render(status, headers, order, body)
  {
    hide StatusLine, HeaderText, LengthLine;
    var start, text, length := StatusLine(status) + "\n", HeaderText(headers, order), LengthLine(|body|) + "\n";
    assert Render(status, headers, order, body) == start + (text + length + "\r\n" + body);
  }

  lemma LengthEnds(start: string, n: nat, body: string)
    ensures start + (LengthLine(n) + "\n") + "\r\n" + body
         == start + ("Content-Length: " + Decimal(n) + "\r\n\r\n" + body)
  {
    hide Decimal;
    assert LengthLine(n) + "\n" == "Content-Length: " + Decimal(n) + "\r\n";
    assert (LengthLine(n) + "\n") + "\r\n" == "Content-Length: " + Decimal(n) + "\r\n\r\n";
  }

  lemma RenderEnds(status: int, headers: map<string, string>, order: seq<string>, body: string)
    requires forall k :: k in order ==> k in headers
    ensures var end := "Content-Length: " + Decimal(|body|) + "\r\n\r\n" + body;
            var s := Render(status, headers, order, body);
            |end| <= |s| && s[|s| - |end|..] == end
  {
    hide StatusLine, HeaderText, LengthLine, Decimal;
    var end := "Content-Length: " + Decimal(|body|) + "\r\n\r\n" + body;
    var start := StatusLine(status) + "\n" + HeaderText(headers, order);
    LengthEnds(start, |body|, body);
    assert (start + end)[|start|..] == end;
  }

  lemma {:induction false} HeaderTextPrints(headers: map<string, string>, order: seq<string>, j: nat)
    requires (forall k :: k in order ==> k in headers) && j < |order|
    ensures exists i :: Occurs(HeaderText(headers, order), order[j] + ":" + headers[order[j]] + "\r\n", i)
  {
    var m := |order| - 1;
    var front, line := HeaderText(headers, order[..m]), order[m] + ":" + headers[order[m]] + "\r\n";
    assert HeaderLine(order[m], headers[order[m]]) + "\n" == line;
    assert HeaderText(headers, order) == front + line;
    if j == m {
      assert Occurs(front + line, line, |front|);
    } else {
      HeaderTextPrints(headers, order[..m], j);
      var i :| Occurs(front, order[j] + ":" + headers[order[j]] + "\r\n", i);
      OccursMore("", front, line, order[j] + ":" + headers[order[j]] + "\r\n", i);
      assert "" + front + line == front + line;
    }
  }

  lemma RenderPrints(status: int, headers: map<string, string>, order: seq<string>, body: string)
    requires IsOrderOf(order, headers)
    ensures forall k :: k in headers ==>
      exists i :: Occurs(Render(status, headers, order, body), k + ":" + headers[k] + "\r\n", i)
  {
    hide StatusLine, HeaderText, LengthLine, Occurs;
    var start, text, length := StatusLine(status) + "\n", HeaderText(headers, order), LengthLine(|body|) + "\n";
    assert Render(status, headers, order, body) == start + text + (length + "\r\n" + body);
    forall k | k in headers
      ensures exists i :: Occurs(Render(status, headers, order, body), k + ":" + headers[k] + "\r\n", i)
    {
      var j :| 0 <= j < |order| && order[j] == k;
      HeaderTextPrints(headers, order, j);
      var i :| Occurs(text, k + ":" + headers[k] + "\r\n", i);
      OccursMore(start, text, length + "\r\n" + body, k + ":" + headers[k] + "\r\n", i);
    }
  }

  class HTTPResponse {
    var status: int
    var headers: map<string, string>
    var body: string

    /** The constructor ignores both its arguments and leaves the status unset. */
    constructor (code: int, body: string)
      ensures headers == map[] && this.body == ""
    {
      status := *;
      headers, this.body := map[], "";
    }

    method SetStatus(status: int)
      modifies this`status
      ensures this.status == status
    {
      this.status := status;
    }

    method SetHeader(key: string, val: string)
      modifies this`headers
      ensures headers == old(headers)[key := val]
    {
      headers := headers[key := val];
    }

    method SetBody(body: string)
      modifies this`body, this`headers
      ensures this.body == body
      ensures headers == old(headers)["Content-Length" := Decimal(|body|)]
    {
      this.body := body;
      SetHeader(CONTENT_LENGTH, Decimal(|body|));
    }

    // The header loop of to_string.
    method PrintHeaders() returns (s: string, ghost order: seq<string>)
      ensures IsOrderOf(order, headers)
      ensures s == HeaderText(headers, order)
    {
      s, order := "", [];
      var left := headers.Keys;
      while left != {}
        invariant left <= headers.Keys
        invariant forall k :: k in order <==> k in headers && k !in left
        invariant forall i, j :: 0 <= i < j < |order| ==> order[i] != order[j]
        invariant s == HeaderText(headers, order)
        decreases |left|
      {
        var k :| k in left;
        s := s + (k + ":" + headers[k] + "\r\n");
        assert (order + [k])[..|order|] == order;
        assert k + ":" + headers[k] + "\r\n" == HeaderLine(k, headers[k]) + "\n";
        order, left := order + [k], left - {k};
      }
    }

    /** to_string: the map is walked in some order, whichever it is. */
    method Print() returns (s: string, ghost order: seq<string>)
      ensures IsOrderOf(order, headers)
      ensures s == Render(status, headers, order, body)
      ensures status == 200 ==> "HTTP/1.1 200 OK\r\n" <= s
      ensures status == 404 ==> "HTTP/1.1 404 Not Found\r\n" <= s
      ensures status == 500 ==> "HTTP/1.1 500 Internal Server Error\r\n" <= s
      ensures status != 200 && status != 404 && status != 500 ==>
        "HTTP/1.1 " + ToString(status) + " Unknown\r\n" <= s
      ensures var end := "Content-Length: " + Decimal(|body|) + "\r\n\r\n" + body;
              |end| <= |s| && s[|s| - |end|..] == end
      ensures forall k :: k in headers ==> exists i :: Occurs(s, k + ":" + headers[k] + "\r\n", i)
    {
      hide HeaderText, ToString, Decimal, Occurs, CodeToMessage;
      s := "HTTP/1.1 " + ToString(status) + " " + CodeToMessage(status) + "\r\n";
      StatusLinePrinted(status);
      var headerText;
      headerText, order := PrintHeaders();
      s := s + headerText;
      s := s + ("Content-Length: " + Decimal(|body|) + "\r\n");
      LengthLinePrinted(|body|);
      s := s + "\r\n";
      s := s + body;
      hide StatusLine, LengthLine;
      assert s == Render(status, headers, order, body);
      hide Render;
      Known(status);
      RenderBegins(status, headers, order, body);
      RenderEnds(status, headers, order, body);
      RenderPrints(status, headers, order, body);
    }
  }
}
