/** Strings as the C and C++ library functions see them. */
module Text {

  /** The C string held in a buffer: the bytes before the first NUL. */
  function CString(s: string): (t: string)
    ensures '\0' !in t
    ensures t <= s
    ensures t == s || s[|t|] == '\0'
  {
    if s == [] || s[0] == '\0' then [] else [s[0]] + CString(s[1..])
  }

  lemma {:induction false} CStringOf(text: string, rest: string)
    requires '\0' !in text && (rest == "" || rest[0] == '\0')
    ensures CString(text + rest) == text
  {
    if text == "" {
      assert text + rest == rest;
    } else {
      assert text[0] in text;
      assert (text + rest)[1..] == text[1..] + rest;
      CStringOf(text[1..], rest);
    }
  }

  /** The first index of c, or the length if there is none. */
  function IndexOf(s: string, c: char): (i: nat)
    ensures i <= |s|
    ensures i < |s| ==> s[i] == c
    ensures i < |s| <==> c in s
    ensures c !in s[..i]
  {
    if s == "" || s[0] == c then 0
    else
      assert s[..1 + IndexOf(s[1..], c)] == [s[0]] + s[1..][..IndexOf(s[1..], c)];
      1 + IndexOf(s[1..], c)
  }

  lemma IndexOfIs(s: string, c: char, i: nat)
    requires i <= |s| && c !in s[..i] && (i < |s| ==> s[i] == c)
    ensures IndexOf(s, c) == i
  {
    assert forall j :: 0 <= j < i ==> s[j] in s[..i];
    assert forall j :: 0 <= j < IndexOf(s, c) ==> s[j] in s[..IndexOf(s, c)];
  }

  ghost predicate Occurs(s: string, needle: string, i: int) {
    0 <= i <= i + |needle| <= |s| && s[i..i + |needle|] == needle
  }

  lemma OccursMore(before: string, s: string, after: string, needle: string, i: int)
    requires Occurs(s, needle, i)
    ensures Occurs(before + s + after, needle, |before| + i)
  {
    assert (before + s + after)[|before|..|before| + |s|] == s;
    assert s[i..i + |needle|] == (before + s + after)[|before| + i..|before| + i + |needle|];
  }

  /** isspace in the C locale. */
  predicate IsSpace(c: char) {
    c == ' ' || c == '\t' || c == '\n' || c == '\U{0B}' || c == '\U{0C}' || c == '\r'
  }

  predicate IsDigit(c: char) {
    '0' <= c <= '9'
  }

  predicate NoSpaces(s: string) {
    forall c :: c in s ==> !IsSpace(c)
  }

  function DropSpaces(s: string): string {
    if s != "" && IsSpace(s[0]) then DropSpaces(s[1..]) else s
  }

  function TakeWord(s: string): (w: string)
    ensures w <= s && NoSpaces(w)
    ensures |w| < |s| ==> IsSpace(s[|w|])
  {
    if s != "" && !IsSpace(s[0]) then [s[0]] + TakeWord(s[1..]) else ""
  }

  /** What operator>> extracts into a string: the next word, or nothing. */
  function Word(s: string): string {
    TakeWord(DropSpaces(s))
  }

  /** What operator>> leaves in the stream. */
  function AfterWord(s: string): string {
    DropSpaces(s)[|Word(s)|..]
  }

  lemma {:induction false} TakeWordOf(w: string, t: string)
    requires NoSpaces(w) && (t == "" || IsSpace(t[0]))
    ensures TakeWord(w + t) == w
  {
    if w == "" {
      assert w + t == t;
    } else {
      assert (w + t)[1..] == w[1..] + t;
      TakeWordOf(w[1..], t);
    }
  }

  lemma WordOf(w: string, t: string)
    requires w != "" && NoSpaces(w) && (t == "" || IsSpace(t[0]))
    ensures Word(w + t) == w && AfterWord(w + t) == t
    ensures Word(" " + w + t) == w && AfterWord(" " + w + t) == t
  {
    assert w[0] in w;
    assert (" " + w + t)[1..] == w + t;
    assert DropSpaces(w + t) == w + t;
    TakeWordOf(w, t);
  }

  // ---------- numbers ----------

  function Digit(n: nat): char
    requires n < 10
  {
    '0' + n as char
  }

  /** std::to_string of a non-negative number. */
  function Decimal(n: nat): (s: string)
    ensures s != "" && forall c :: c in s ==> IsDigit(c)
  {
    if n < 10 then [Digit(n)] else Decimal(n / 10) + [Digit(n % 10)]
  }

  /** std::to_string of any integer. */
  function ToString(n: int): string {
    if n < 0 then "-" + Decimal(-n) else Decimal(n)
  }

  function DigitsValue(s: string): nat
    requires forall c :: c in s ==> IsDigit(c)
  {
    if s == "" then 0
    else
      var last := s[|s|-1];
      assert last in s && IsDigit(last);
      10 * DigitsValue(s[..|s|-1]) + (last - '0') as nat
  }

  function TakeDigits(s: string): (t: string)
    ensures forall c :: c in t ==> IsDigit(c)
  {
    if s != "" && IsDigit(s[0]) then [s[0]] + TakeDigits(s[1..]) else ""
  }

  lemma {:induction false} TakeDigitsOf(s: string, t: string)
    requires (forall c :: c in s ==> IsDigit(c)) && (t == "" || !IsDigit(t[0]))
    ensures TakeDigits(s + t) == s
  {
    if s == "" {
      assert s + t == t;
    } else {
      assert s[0] in s && (s + t)[1..] == s[1..] + t;
      TakeDigitsOf(s[1..], t);
    }
  }

  lemma {:induction false} DropSpacesOf(pre: string, s: string)
    requires (forall c :: c in pre ==> IsSpace(c)) && (s == "" || !IsSpace(s[0]))
    ensures DropSpaces(pre + s) == s
  {
    if pre == "" {
      assert pre + s == s;
    } else {
      assert pre[0] in pre && (pre + s)[1..] == pre[1..] + s;
      DropSpacesOf(pre[1..], s);
    }
  }

  lemma {:induction false} DecimalValue(n: nat)
    ensures DigitsValue(Decimal(n)) == n
  {
    var s := Decimal(n);
    if n < 10 {
      assert s[..0] == "";
    } else {
      DecimalValue(n / 10);
      assert s[..|s|-1] == Decimal(n / 10);
    }
  }

  /** Decimal notation: the digits 0 to 9, the last one for the units, and no leading zero. */
  lemma DecimalNotation(n: nat, d: nat)
    requires d < 10
    ensures Decimal(d) == ["0123456789"[d]]
    ensures n > 0 ==> Decimal(10 * n + d) == Decimal(n) + ["0123456789"[d]] && Decimal(n)[0] != '0'
    ensures n > 0 ==> ToString(0 - n as int) == "-" + Decimal(n)
  {
    assert Digit(d) == "0123456789"[d];
    if n > 0 {
      assert (10 * n + d) / 10 == n && (10 * n + d) % 10 == d;
      NoLeadingZero(n);
    }
  }

  lemma {:induction false} NoLeadingZero(n: nat)
    requires n > 0
    ensures Decimal(n)[0] != '0'
  {
    if n >= 10 {
      NoLeadingZero(n / 10);
    }
  }

  const INT_MAX: int := 0x7fff_ffff

  datatype NumberError = InvalidArgument | OutOfRange
  datatype Number = Int(value: int) | NoInt(error: NumberError)

  /** std::stoi: leading spaces, an optional sign, digits; whatever follows is ignored. */
  function Stoi(s: string): Number {
    StoiAt(DropSpaces(s))
  }

  function StoiAt(t: string): Number {
    var negative := t != "" && t[0] == '-';
    var digits := TakeDigits(if t != "" && (t[0] == '-' || t[0] == '+') then t[1..] else t);
    if digits == "" then NoInt(InvalidArgument)
    else
      var v := if negative then 0 - DigitsValue(digits) as int else DigitsValue(digits) as int;
      if -INT_MAX - 1 <= v <= INT_MAX then Int(v) else NoInt(OutOfRange)
  }

  lemma DigitsAreRead(n: nat, t: string)
    requires t == "" || !IsDigit(t[0])
    ensures TakeDigits(Decimal(n) + t) == Decimal(n) && DigitsValue(Decimal(n)) == n
    ensures Decimal(n) != "" && IsDigit(Decimal(n)[0])
  {
    assert Decimal(n)[0] in Decimal(n);
    TakeDigitsOf(Decimal(n), t);
    DecimalValue(n);
  }

  lemma StoiAtPositive(n: nat, t: string)
    requires t == "" || !IsDigit(t[0])
    ensures StoiAt(Decimal(n) + t) == if n <= INT_MAX then Int(n) else NoInt(OutOfRange)
  {
    hide TakeDigits, Decimal, DigitsValue;
    DigitsAreRead(n, t);
  }

  lemma StoiAtNegative(n: nat, t: string)
    requires t == "" || !IsDigit(t[0])
    ensures StoiAt("-" + Decimal(n) + t) == if n <= INT_MAX + 1 then Int(0 - n as int) else NoInt(OutOfRange)
  {
    hide TakeDigits, Decimal, DigitsValue;
    DigitsAreRead(n, t);
    assert ("-" + Decimal(n) + t)[1..] == Decimal(n) + t;
  }

  /** stoi reads a printed integer wherever it stands: leading spaces and whatever follows the
      digits do not matter; it fails exactly if the integer does not fit an int. */
  lemma StoiReads(pre: string, n: int, t: string)
    requires (forall c :: c in pre ==> IsSpace(c)) && (t == "" || !IsDigit(t[0]))
    ensures Stoi(pre + ToString(n) + t) == if -2147483648 <= n <= 2147483647 then Int(n) else NoInt(OutOfRange)
  {
    hide TakeDigits, Decimal, DigitsValue, StoiAt, DropSpaces;
    var m: nat := if n < 0 then -n else n;
    var digits := Decimal(m);
    assert digits[0] in digits && IsDigit(digits[0]);
    assert pre + ToString(n) + t == pre + (ToString(n) + t);
    DropSpacesOf(pre, ToString(n) + t);
    if n < 0 {
      StoiAtNegative(m, t);
    } else {
      StoiAtPositive(m, t);
    }
  }

  lemma {:induction false} LeadingZero(digits: string)
    requires forall c :: c in digits ==> IsDigit(c)
    ensures forall c :: c in "0" + digits ==> IsDigit(c)
    ensures DigitsValue("0" + digits) == DigitsValue(digits)
  {
    var s := "0" + digits;
    if digits == "" {
      assert s[..0] == "" && s[|s| - 1] == '0';
    } else {
      var m := |digits| - 1;
      assert s[..|s| - 1] == "0" + digits[..m] && s[|s| - 1] == digits[m];
      LeadingZero(digits[..m]);
    }
  }

  /** stoi takes a plus sign and leading zeros, too, and fails as invalid exactly if no digit follows
      the spaces and the sign. */
  lemma StoiForms(s: string)
    ensures s != "" && IsDigit(s[0]) ==> Stoi(s).Int? || Stoi(s) == NoInt(OutOfRange)
    ensures s != "" && IsDigit(s[0]) ==> Stoi("+" + s) == Stoi(s) && Stoi("0" + s) == Stoi(s)
    ensures s == "" || (!IsDigit(s[0]) && !IsSpace(s[0])) ==> Stoi("+" + s) == Stoi("-" + s) == NoInt(InvalidArgument)
    ensures s == "" || (!IsDigit(s[0]) && !IsSpace(s[0]) && s[0] != '+' && s[0] != '-') ==>
      Stoi(s) == NoInt(InvalidArgument)
    ensures Stoi(" " + s) == Stoi(s)
  {
    assert ("+" + s)[1..] == s && ("-" + s)[1..] == s && ("0" + s)[1..] == s && (" " + s)[1..] == s;
    if s != "" && IsDigit(s[0]) {
      LeadingZero(TakeDigits(s));
      assert TakeDigits("0" + s) == "0" + TakeDigits(s);
    }
  }

  lemma StoiOfDecimal(n: nat)
    ensures Stoi(Decimal(n)) == if n <= INT_MAX then Int(n) else NoInt(OutOfRange)
  {
    StoiReads("", n, "");
    assert "" + ToString(n) + "" == Decimal(n);
  }

  lemma ToStringIsOneWord(n: int)
    ensures ToString(n) != "" && NoSpaces(ToString(n))
  {
  }

  lemma DecimalIsPlain(n: nat)
    ensures '\n' !in Decimal(n) && Decimal(n)[0] != ' '
  {
    assert Decimal(n)[0] in Decimal(n);
  }
}
