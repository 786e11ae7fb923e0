/** The text layer of the IMAP client: decimals, command tags, literal markers and quoting. */
module ImapText {
  import opened Common
  import opened Text

  // ----- decimals -----------------------------------------------------------------------

  predicate IsDigit(c: char) { '0' <= c <= '9' }

  ghost predicate AllDigits(s: string) { forall i :: 0 <= i < |s| ==> IsDigit(s[i]) }

  predicate Digits(s: string) { s == "" || (IsDigit(s[0]) && Digits(s[1..])) }

  function DigitChar(d: nat): (c: char)
    requires d < 10
    ensures IsDigit(c) && (c - '0') as int == d
  {
    '0' + d as char
  }

  /** Display of an unsigned integer. */
  function Decimal(n: nat): (s: string)
    ensures s != ""
  {
    if n < 10 then [DigitChar(n)] else Decimal(n / 10) + [DigitChar(n % 10)]
  }

  function DigitsValue(s: string): nat
    requires Digits(s)
  {
    DigitsPrefix(s);
    if s == "" then 0 else 10 * DigitsValue(s[..|s| - 1]) + (s[|s| - 1] - '0') as int
  }

  lemma {:induction false} DigitsAll(s: string)
    ensures Digits(s) <==> AllDigits(s)
  {
    if s != "" {
      DigitsAll(s[1..]);
      assert AllDigits(s[1..]) && IsDigit(s[0]) ==> AllDigits(s) by {
        assert forall i :: 0 < i < |s| ==> s[i] == s[1..][i - 1];
      }
      assert AllDigits(s) ==> AllDigits(s[1..]);
    }
  }

  lemma DigitsPrefix(s: string)
    requires Digits(s)
    ensures s != "" ==> Digits(s[..|s| - 1]) && IsDigit(s[|s| - 1])
  {
    DigitsAll(s);
    if s != "" { DigitsAll(s[..|s| - 1]); }
  }

  lemma {:induction false} DecimalRoundTrip(n: nat)
    ensures Digits(Decimal(n)) && DigitsValue(Decimal(n)) == n
  {
    DigitsAll(Decimal(n));
    if n >= 10 {
      DecimalRoundTrip(n / 10);
      DigitsAll(Decimal(n / 10));
      assert Decimal(n)[..|Decimal(n)| - 1] == Decimal(n / 10);
    }
  }

  const USIZE_BOUND: nat := 0x1_0000_0000_0000_0000

  /** `str::parse::<usize>`: an optional plus sign, then at least one digit, in range. */
  function ParseUsize(s: string): Option<nat> {
    var t := if s != "" && s[0] == '+' then s[1..] else s;
    if t == "" || !Digits(t) || DigitsValue(t) >= USIZE_BOUND then None else Some(DigitsValue(t))
  }

  /** `str::parse::<i64>`: an optional sign, then at least one digit, in range. */
  function ParseI64(s: string): Option<int> {
    var negative := s != "" && s[0] == '-';
    var t := if s != "" && (s[0] == '+' || s[0] == '-') then s[1..] else s;
    if t == "" || !Digits(t) then None
    else
      var d: int := DigitsValue(t);
      var v := if negative then -d else d;
      if -(USIZE_BOUND / 2) <= v < USIZE_BOUND / 2 then Some(v) else None
  }

  lemma ParseDecimal(n: nat)
    ensures n < USIZE_BOUND ==> ParseUsize(Decimal(n)) == Some(n)
    ensures n < USIZE_BOUND / 2 ==> ParseI64(Decimal(n)) == Some(n)
  {
    DecimalRoundTrip(n);
    DigitsAll(Decimal(n));
    assert IsDigit(Decimal(n)[0]);
  }

  /** Signs are read: a minus by `i64`, a plus by both. */
  lemma ParseSigned(n: nat)
    ensures n <= USIZE_BOUND / 2 ==> ParseI64("-" + Decimal(n)) == Some(-(n as int))
    ensures n < USIZE_BOUND / 2 ==> ParseI64("+" + Decimal(n)) == Some(n)
    ensures n < USIZE_BOUND ==> ParseUsize("+" + Decimal(n)) == Some(n)
  {
    DecimalRoundTrip(n);
    assert ("-" + Decimal(n))[1..] == Decimal(n) && ("+" + Decimal(n))[1..] == Decimal(n);
  }

  // ----- tags ---------------------------------------------------------------------------

  /** `{:03}`: at least three characters, zeros on the left. */
  function Pad3(s: string): string
    decreases 3 - |s|
  {
    if |s| < 3 then Pad3("0" + s) else s
  }

  /** The tag of one value of the counter. */
  function Tag(n: nat): string { "A" + Pad3(Decimal(n)) }

  lemma {:induction false} LeadingZero(s: string)
    requires Digits(s)
    ensures Digits("0" + s) && DigitsValue("0" + s) == DigitsValue(s)
    decreases |s|
  {
    assert ("0" + s)[1..] == s;
    DigitsAll("0" + s);
    if s == "" {
      assert ("0" + s)[..0] == "";
    } else {
      DigitsPrefix(s);
      LeadingZero(s[..|s| - 1]);
      assert ("0" + s)[..|s|] == "0" + s[..|s| - 1];
    }
  }

  lemma {:induction false} PadValue(s: string)
    requires Digits(s)
    ensures Digits(Pad3(s)) && DigitsValue(Pad3(s)) == DigitsValue(s)
    decreases 3 - |s|
  {
    if |s| < 3 {
      LeadingZero(s);
      PadValue("0" + s);
    }
  }

  lemma TagInjective(m: nat, n: nat)
    requires Tag(m) == Tag(n)
    ensures m == n
  {
    DecimalRoundTrip(m);
    DecimalRoundTrip(n);
    PadValue(Decimal(m));
    PadValue(Decimal(n));
    assert Tag(m)[1..] == Pad3(Decimal(m)) && Tag(n)[1..] == Pad3(Decimal(n));
  }

  lemma {:induction false} PadLength(s: string)
    ensures |Pad3(s)| == if |s| < 3 then 3 else |s|
    decreases 3 - |s|
  {
    if |s| < 3 { PadLength("0" + s); }
  }

  /** A tag is the letter and at least three digits, which denote the counter. */
  lemma TagShape(n: nat)
    ensures |Tag(n)| >= 4 && Tag(n)[0] == 'A' && (|Tag(n)| > 4 ==> |Tag(n)| == |Decimal(n)| + 1)
    ensures Digits(Tag(n)[1..]) && DigitsValue(Tag(n)[1..]) == n
  {
    DecimalRoundTrip(n);
    PadValue(Decimal(n));
    PadLength(Decimal(n));
    assert Tag(n)[1..] == Pad3(Decimal(n));
  }

  lemma TagSpaceless(n: nat)
    ensures Spaceless(Tag(n)) && Tag(n)[0] == 'A'
  {
    DecimalRoundTrip(n);
    PadValue(Decimal(n));
    DigitsAll(Pad3(Decimal(n)));
  }

  /** A completion line is taken for one command only: `A100 ` is no prefix of an `A1000 ` line. */
  lemma TagsUnambiguous(m: nat, n: nat, text: string)
    ensures StartsWith(Tag(n) + " " + text, Tag(m) + " ") <==> m == n
  {
    TagSpaceless(m);
    TagSpaceless(n);
    var line, prefix := Tag(n) + " " + text, Tag(m) + " ";
    if StartsWith(line, prefix) {
      assert forall i :: 0 <= i < |prefix| ==> line[i] == prefix[i];
      assert prefix[|Tag(m)|] == ' ' && line[|Tag(n)|] == ' ';
      assert |Tag(m)| == |Tag(n)|;
      assert Tag(m) == prefix[..|Tag(m)|] == line[..|Tag(n)|] == Tag(n);
      TagInjective(m, n);
    }
    assert Tag(n) + " " <= line;
  }

  /** The wrapping counter hands out distinct tags within any window of 2^32 calls. */
  lemma TagsDistinct(start: nat, i: nat, j: nat)
    requires start < U32_BOUND && i < j < i + U32_BOUND
    ensures Tag((start + i) % U32_BOUND) != Tag((start + j) % U32_BOUND)
  {
    if Tag((start + i) % U32_BOUND) == Tag((start + j) % U32_BOUND) {
      TagInjective((start + i) % U32_BOUND, (start + j) % U32_BOUND);
    }
  }

  // ----- literal markers ----------------------------------------------------------------

  /** Between the last `{` and the first `}` after it. */
  function Braced(line: string): Option<string> {
    match RFind(line, '{')
    case None => None
    case Some(start) =>
      match Find(line[start..], '}')
      case None => None
      case Some(end) => assert end > 0; Some(line[start + 1..start + end])
  }

  /** extract_literal_size. */
  function LiteralSize(line: string): Option<nat> {
    match Braced(line)
    case None => None
    case Some(inner) => ParseUsize(inner)
  }

  /** What a server prints before a literal (section 4.3 of RFC 3501). */
  function Marker(n: nat): string { "{" + Decimal(n) + "}\r\n" }

  lemma DecimalChars(n: nat, c: char)
    requires !IsDigit(c)
    ensures c !in Decimal(n)
  {}

  lemma LastBrace(prefix: string, rest: string)
    requires '{' !in rest
    ensures LastAt(prefix + (['{'] + rest), '{', |prefix|)
    ensures (prefix + (['{'] + rest))[|prefix|..] == "" + (['{'] + rest)
  {}

  lemma LastBraces(prefix: string, inner: string, suffix: string)
    requires '{' !in inner && '}' !in inner && '{' !in suffix
    ensures Braced(prefix + (['{'] + (inner + (['}'] + suffix)))) == Some(inner)
  {
    var line := prefix + (['{'] + (inner + (['}'] + suffix)));
    LastBrace(prefix, inner + (['}'] + suffix));
    RFindAt(line, '{', |prefix|);
    FirstBeyond("", '{', inner, '}', suffix);
    FindAt(line[|prefix|..], '}', 1 + |inner|);
    Between(prefix, '{', inner, ['}'] + suffix);
  }

  /** Whatever precedes it, a marker at the end of a line is read back. */
  lemma MarkerRoundTrip(prefix: string, n: nat)
    requires n < USIZE_BOUND
    ensures LiteralSize(prefix + Marker(n)) == Some(n)
  {
    DecimalChars(n, '{');
    DecimalChars(n, '}');
    LastBraces(prefix, Decimal(n), "\r\n");
    assert Marker(n) == ['{'] + (Decimal(n) + (['}'] + "\r\n"));
    ParseDecimal(n);
  }

  // ----- quoting ------------------------------------------------------------------------

  /** `str::replace` of one char by a string. */
  function Replace(s: string, c: char, to: string): string {
    if s == "" then "" else (if s[0] == c then to else [s[0]]) + Replace(s[1..], c, to)
  }

  /** quote: two replaces in a row. */
  function Quote(s: string): string { "\"" + Replace(Replace(s, '\\', "\\\\"), '\"', "\\\"") + "\"" }

  /** The same as one escape per character. */
  function Escape(s: string): string {
    if s == "" then "" else (if s[0] == '\\' || s[0] == '\"' then ['\\', s[0]] else [s[0]]) + Escape(s[1..])
  }

  lemma {:induction false} ReplaceConcat(s: string, t: string, c: char, to: string)
    ensures Replace(s + t, c, to) == Replace(s, c, to) + Replace(t, c, to)
    decreases |s|
  {
    if s == "" {
      assert s + t == t;
    } else {
      assert (s + t)[1..] == s[1..] + t;
      ReplaceConcat(s[1..], t, c, to);
    }
  }

  lemma {:induction false} QuoteIsEscape(s: string)
    ensures Replace(Replace(s, '\\', "\\\\"), '\"', "\\\"") == Escape(s)
    decreases |s|
  {
    if s != "" {
      QuoteIsEscape(s[1..]);
      var first := if s[0] == '\\' then "\\\\" else [s[0]];
      ReplaceConcat(first, Replace(s[1..], '\\', "\\\\"), '\"', "\\\"");
      if s[0] == '\\' {
        assert "\\\\"[1..] == "\\" && "\\"[1..] == "";
        assert Replace("\\", '\"', "\\\"") == "\\";
        assert Replace("\\\\", '\"', "\\\"") == "\\\\";
      } else {
        assert [s[0]][1..] == "";
        assert Replace([s[0]], '\"', "\\\"") == (if s[0] == '\"' then "\\\"" else [s[0]]);
      }
    }
  }

  /** A reader of quoted strings (section 9 of RFC 3501), after the opening quote: the string
      and what follows the closing quote. CR and LF cannot occur in one. */
  function Unquote(s: string): Option<(string, string)>
    decreases |s|
  {
    if s == "" || s[0] == '\r' || s[0] == '\n' then None
    else if s[0] == '\"' then Some(("", s[1..]))
    else if s[0] == '\\' then
      if |s| < 2 || (s[1] != '\\' && s[1] != '\"') then None
      else match Unquote(s[2..])
           case None => None
           case Some(r) => Some(([s[1]] + r.0, r.1))
    else
      match Unquote(s[1..])
      case None => None
      case Some(r) => Some(([s[0]] + r.0, r.1))
  }

  lemma UnquoteOne(c: char, tail: string)
    requires c != '\\' && c != '\"'
    ensures Unquote([c] + tail) ==
      match Unquote(tail)
      case None => None
      case Some(r) => if c == '\r' || c == '\n' then None else Some(([c] + r.0, r.1))
  {}

  lemma UnquoteEscaped(c: char, tail: string)
    requires c == '\\' || c == '\"'
    ensures Unquote(['\\', c] + tail) ==
      match Unquote(tail)
      case None => None
      case Some(r) => Some(([c] + r.0, r.1))
  {}

  lemma {:induction false} EscapeRoundTrip(s: string, rest: string)
    ensures Unquote(Escape(s) + ("\"" + rest))
         == if '\r' in s || '\n' in s then None else Some((s, rest))
    decreases |s|
  {
    if s == "" {
      assert Escape(s) + ("\"" + rest) == "\"" + rest;
      assert ("\"" + rest)[1..] == rest;
    } else {
      EscapeRoundTrip(s[1..], rest);
      var tail := Escape(s[1..]) + ("\"" + rest);
      assert s == [s[0]] + s[1..];
      if s[0] == '\\' || s[0] == '\"' {
        AppendAssoc(['\\', s[0]], Escape(s[1..]), "\"" + rest);
        UnquoteEscaped(s[0], tail);
      } else {
        AppendAssoc([s[0]], Escape(s[1..]), "\"" + rest);
        UnquoteOne(s[0], tail);
      }
    }
  }

  lemma AfterOpeningQuote(e: string, rest: string)
    ensures ("\"" + e + "\"" + rest)[1..] == e + ("\"" + rest)
  {}

  /** A quoted argument is read back exactly when it has no CR or LF, and nothing more is
      consumed. */
  lemma QuoteRoundTrip(s: string, rest: string)
    ensures Quote(s) + rest == "\"" + Escape(s) + "\"" + rest
    ensures Unquote((Quote(s) + rest)[1..]) == Some((s, rest)) <==> '\r' !in s && '\n' !in s
  {
    QuoteIsEscape(s);
    EscapeRoundTrip(s, rest);
    AfterOpeningQuote(Escape(s), rest);
  }
}
