/** SELECT: what select_mailbox reads out of a response, and what a reader that allows for the
    white space in it would read. */
module ImapSelect {
  import opened Common
  import opened Text
  import opened ImapText
  import opened ImapReader

  const UIDVALIDITY := "UIDVALIDITY"
  const EXISTS := "EXISTS"

  function LeadingDigits(s: string): string {
    if s == "" || !IsDigit(s[0]) then "" else [s[0]] + LeadingDigits(s[1..])
  }

  function TrailingDigits(s: string): string {
    if s == "" || !IsDigit(s[|s| - 1]) then "" else TrailingDigits(s[..|s| - 1]) + [s[|s| - 1]]
  }

  /** The number read directly after the first UIDVALIDITY of a line, if one is. */
  function UidValidityOf(line: string): Option<int> {
    match FindPart(Upper(line), UIDVALIDITY)
    case None => None
    case Some(i) => ParseI64(LeadingDigits(line[i + |UIDVALIDITY|..]))
  }

  /** The number read directly before the first EXISTS of a line, if one is. */
  function ExistsOf(line: string): Option<int> {
    match FindPart(Upper(line), EXISTS)
    case None => None
    case Some(i) => ParseI64(TrailingDigits(line[..i]))
  }

  /** The repaired readers skip white space. */
  function RepairedUidValidityOf(line: string): Option<int> {
    match FindPart(Upper(line), UIDVALIDITY)
    case None => None
    case Some(i) => ParseI64(LeadingDigits(TrimStart(line[i + |UIDVALIDITY|..])))
  }

  function RepairedExistsOf(line: string): Option<int> {
    match FindPart(Upper(line), EXISTS)
    case None => None
    case Some(i) => ParseI64(TrailingDigits(TrimEnd(line[..i])))
  }

  /** The last value that `read` gets out of a line; `value` if it gets none. */
  function LastRead(lines: seq<string>, read: string -> Option<int>, value: int): int
    decreases |lines|
  {
    if lines == [] then value
    else LastRead(lines[1..], read, match read(lines[0]) case None => value case Some(n) => n)
  }

  // ----- digits -------------------------------------------------------------------------

  lemma {:induction false} LeadingDigitsOf(d: string, rest: string)
    requires Digits(d) && (rest == "" || !IsDigit(rest[0]))
    ensures LeadingDigits(d + rest) == d
    decreases |d|
  {
    if d == "" {
      assert d + rest == rest;
    } else {
      assert (d + rest)[1..] == d[1..] + rest;
      LeadingDigitsOf(d[1..], rest);
    }
  }

  lemma {:induction false} LeadingDigitsAreDigits(s: string)
    ensures Digits(LeadingDigits(s))
    ensures LeadingDigits(s) == "" <==> s == "" || !IsDigit(s[0])
    decreases |s|
  {
    if s != "" && IsDigit(s[0]) {
      LeadingDigitsAreDigits(s[1..]);
      assert ([s[0]] + LeadingDigits(s[1..]))[1..] == LeadingDigits(s[1..]);
    }
  }

  lemma {:induction false} TrailingDigitsOf(head: string, d: string)
    requires AllDigits(d) && (head == "" || !IsDigit(head[|head| - 1]))
    ensures TrailingDigits(head + d) == d
    decreases |d|
  {
    var s := head + d;
    if d == "" {
      assert s == head;
    } else {
      assert s[..|s| - 1] == head + d[..|d| - 1];
      TrailingDigitsOf(head, d[..|d| - 1]);
    }
  }

  // ----- the UIDVALIDITY of a line ------------------------------------------------------

  /** A value is read exactly when a digit follows the word directly and the digits denote a
      number below 2^63; then it is that number. */
  lemma UidValidityReadExactlyWhen(line: string, n: int)
    requires FindPart(Upper(line), UIDVALIDITY).Some?
    ensures var after := line[FindPart(Upper(line), UIDVALIDITY).value + |UIDVALIDITY|..];
      && Digits(LeadingDigits(after))
      && (UidValidityOf(line) == Some(n) <==>
            after != "" && IsDigit(after[0]) && DigitsValue(LeadingDigits(after)) < USIZE_BOUND / 2
            && n == DigitsValue(LeadingDigits(after)))
  {
    LeadingDigitsAreDigits(line[FindPart(Upper(line), UIDVALIDITY).value + |UIDVALIDITY|..]);
  }

  lemma UpperConcat(s: string, t: string)
    ensures Upper(s + t) == Upper(s) + Upper(t)
  {}

  /** The first letter of the word occurs in it only once, so the word cannot begin before the place it
      is put and end after it. */
  predicate FirstOnce(part: string) { part != "" && forall i :: 0 < i < |part| ==> part[i] != part[0] }

  lemma OccursFirst(s: string, part: string, i: nat)
    requires part != "" && OccursAt(s, part, i)
    ensures i < |s| && s[i] == part[0]
  {
    assert s[i..i + |part|][0] == s[i];
  }

  /** An occurrence that begins in `prefix` lies in it, or runs over the part put after it. */
  lemma OccursEarly(prefix: string, part: string, rest: string, j: nat)
    requires j < |prefix| && OccursAt(prefix + (part + rest), part, j) && part != ""
    ensures OccursAt(prefix, part, j) || (|prefix| - j < |part| && part[|prefix| - j] == part[0])
  {
    var s := prefix + (part + rest);
    if j + |part| <= |prefix| {
      assert prefix[j..j + |part|] == s[j..j + |part|];
    } else {
      assert s[j..j + |part|][|prefix| - j] == s[|prefix|];
    }
  }

  lemma FirstPlace(prefix: string, part: string, rest: string)
    requires FirstOnce(part) && !Contains(prefix, part)
    ensures FindPart(prefix + (part + rest), part) == Some(|prefix|)
  {
    var s := prefix + (part + rest);
    assert OccursAt(s, part, |prefix|);
    assert Contains(s, part);
    forall j: nat | j < |prefix| ensures !OccursAt(s, part, j) {
      if OccursAt(s, part, j) { OccursEarly(prefix, part, rest, j); }
    }
  }

  ghost predicate Lacks(text: string, word: string) { !Contains(Upper(text), word) }

  /** The line's text around the word. */
  lemma WordPlace(prefix: string, word: string, rest: string)
    requires FirstOnce(word) && Upper(word) == word && Lacks(prefix, word)
    ensures FindPart(Upper(prefix + (word + rest)), word) == Some(|prefix|)
  {
    UpperConcat(prefix, word + rest);
    UpperConcat(word, rest);
    FirstPlace(Upper(prefix), word, Upper(rest));
  }

  // ----- printed lines ------------------------------------------------------------------

  /** A line with the word and a number after it: `* OK [UIDVALIDITY 7] UIDs valid` has the gap
      `" "` (section 7.1 of RFC 3501). */
  function ValidityText(prefix: string, gap: string, n: nat, rest: string): string {
    prefix + (UIDVALIDITY + (gap + (Decimal(n) + rest)))
  }

  /** `* 7 EXISTS` (section 7.3.1), likewise. */
  function ExistsText(n: nat, gap: string): string { "* " + Decimal(n) + gap + (EXISTS + "") }

  lemma AfterDecimal(n: nat, rest: string)
    requires rest == "" || !IsDigit(rest[0])
    ensures LeadingDigits(Decimal(n) + rest) == Decimal(n)
    ensures var s := Decimal(n) + rest; s != "" && IsDigit(s[0]) && !IsSpace(s[0])
  {
    DecimalRoundTrip(n);
    LeadingDigitsOf(Decimal(n), rest);
    assert (Decimal(n) + rest)[0] == Decimal(n)[0];
  }

  lemma UidValidityWord()
    ensures FirstOnce(UIDVALIDITY) && Upper(UIDVALIDITY) == UIDVALIDITY
    ensures FirstOnce(EXISTS) && Upper(EXISTS) == EXISTS
  {}

  /** The printed number is read exactly when nothing stands between the word and it; the repaired
      reader always gets it. */
  lemma ValidityReadExactlyWhen(prefix: string, gap: string, n: nat, rest: string)
    requires Lacks(prefix, UIDVALIDITY) && Blank(gap) && (rest == "" || !IsDigit(rest[0]))
    ensures gap != "" ==> UidValidityOf(ValidityText(prefix, gap, n, rest)) == None
    ensures gap == "" && n < USIZE_BOUND / 2 ==> UidValidityOf(ValidityText(prefix, gap, n, rest)) == Some(n)
    ensures n < USIZE_BOUND / 2 ==> RepairedUidValidityOf(ValidityText(prefix, gap, n, rest)) == Some(n)
  {
    var line, after := ValidityText(prefix, gap, n, rest), gap + (Decimal(n) + rest);
    UidValidityWord();
    WordPlace(prefix, UIDVALIDITY, after);
    AfterWord(prefix, UIDVALIDITY, after);
    ParseDecimal(n);
    AfterDecimal(n, rest);
    BlankSkipped(gap, Decimal(n) + rest);
    if gap == "" { assert after == Decimal(n) + rest; } else { assert IsSpace(after[0]) && LeadingDigits(after) == ""; }
  }

  lemma AfterWord(prefix: string, word: string, after: string)
    ensures (prefix + (word + after))[|prefix| + |word|..] == after
    ensures (prefix + (word + after))[..|prefix|] == prefix
  {}

  ghost predicate NoChar(s: string, c: char) { forall i :: 0 <= i < |s| ==> UpperChar(s[i]) != c }

  /** Without its first letter a word does not occur. */
  lemma NoFirstLetter(text: string, word: string)
    requires word != "" && NoChar(text, word[0])
    ensures Lacks(text, word)
  {
    if Contains(Upper(text), word) {
      var i: nat :| i <= |Upper(text)| && OccursAt(Upper(text), word, i);
      OccursFirst(Upper(text), word, i);
    }
  }

  lemma NoCharConcat(s: string, t: string, c: char)
    requires NoChar(s, c) && NoChar(t, c)
    ensures NoChar(s + t, c)
  {}

  lemma DecimalHasNone(n: nat, c: char)
    requires !IsDigit(c)
    ensures NoChar(Decimal(n), c)
  {
    DecimalRoundTrip(n);
    DigitsAll(Decimal(n));
  }

  lemma HeadHasNone(n: nat, gap: string, c: char)
    requires Blank(gap) && 'A' <= c <= 'Z'
    ensures NoChar("* " + Decimal(n) + gap, c)
  {
    DecimalHasNone(n, c);
    NoCharConcat("* ", Decimal(n), c);
    NoCharConcat("* " + Decimal(n), gap, c);
  }

  lemma ExistsReadExactlyWhen(n: nat, gap: string)
    requires Blank(gap)
    ensures gap != "" ==> ExistsOf(ExistsText(n, gap)) == None
    ensures gap == "" && n < USIZE_BOUND / 2 ==> ExistsOf(ExistsText(n, gap)) == Some(n)
    ensures n < USIZE_BOUND / 2 ==> RepairedExistsOf(ExistsText(n, gap)) == Some(n)
  {
    var head := "* " + Decimal(n);
    UidValidityWord();
    HeadHasNone(n, gap, 'E');
    NoFirstLetter(head + gap, EXISTS);
    WordPlace(head + gap, EXISTS, "");
    AfterWord(head + gap, EXISTS, "");
    ParseDecimal(n);
    DecimalRoundTrip(n);
    DigitsAll(Decimal(n));
    TrailingDigitsOf("* ", Decimal(n));
    BlankDropped(head, gap);
    if gap == "" { assert head + gap == head; } else { assert TrailingDigits(head + gap) == ""; }
  }

  // ----- whole responses ----------------------------------------------------------------

  /** An untagged line of a SELECT response. */
  datatype SelectLine =
    | Other(text: string)
    | Validity(prefix: string, value: nat, rest: string)
    | Exists(count: nat)

  function Shown(l: SelectLine): string {
    match l
    case Other(text) => text
    case Validity(prefix, n, rest) => ValidityText(prefix, " ", n, rest)
    case Exists(n) => ExistsText(n, " ")
  }

  function ShownLines(ls: seq<SelectLine>): seq<string> { seq(|ls|, i requires 0 <= i < |ls| => Shown(ls[i])) }

  /** The line as the standard has it, with one space before or after each number. */
  ghost predicate Standard(l: SelectLine) {
    match l
    case Other(text) => StarLine(text) && !Marked(text) && Lacks(text, UIDVALIDITY) && Lacks(text, EXISTS)
    case Validity(prefix, n, rest) =>
      && StarLine(Shown(l)) && !Marked(Shown(l)) && Lacks(prefix, UIDVALIDITY) && Lacks(Shown(l), EXISTS)
      && n < USIZE_BOUND / 2 && (rest == "" || !IsDigit(rest[0]))
    case Exists(n) => n < USIZE_BOUND / 2
  }

  /** What the response says: the last value of its kind. */
  function LastValidity(ls: seq<SelectLine>, value: int): int
    decreases |ls|
  {
    if ls == [] then value else LastValidity(ls[1..], if ls[0].Validity? then ls[0].value else value)
  }

  function LastExists(ls: seq<SelectLine>, value: int): int
    decreases |ls|
  {
    if ls == [] then value else LastExists(ls[1..], if ls[0].Exists? then ls[0].count else value)
  }

  lemma ExistsIsPlain(n: nat)
    ensures StarLine(ExistsText(n, " ")) && !Marked(ExistsText(n, " "))
    ensures Lacks(ExistsText(n, " "), UIDVALIDITY)
  {
    var line := ExistsText(n, " ");
    DecimalChars(n, '{');
    DecimalChars(n, '\n');
    assert '{' !in line + "\r\n";
    HeadHasNone(n, " ", 'U');
    NoCharConcat("* " + Decimal(n) + " ", EXISTS + "", 'U');
    NoFirstLetter(line, UIDVALIDITY);
  }

  /** What the readers make of one standard line. */
  lemma StandardLineRead(l: SelectLine)
    requires Standard(l)
    ensures StarLine(Shown(l)) && !Marked(Shown(l))
    ensures UidValidityOf(Shown(l)) == None && ExistsOf(Shown(l)) == None
    ensures RepairedUidValidityOf(Shown(l)) == if l.Validity? then Some(l.value) else None
    ensures RepairedExistsOf(Shown(l)) == if l.Exists? then Some(l.count) else None
  {
    match l
    case Other(_) =>
    case Validity(prefix, n, rest) => ValidityReadExactlyWhen(prefix, " ", n, rest);
    case Exists(n) =>
      ExistsIsPlain(n);
      ExistsReadExactlyWhen(n, " ");
  }

  lemma ShownTail(ls: seq<SelectLine>)
    requires ls != []
    ensures ShownLines(ls) != [] && ShownLines(ls)[0] == Shown(ls[0]) && ShownLines(ls)[1..] == ShownLines(ls[1..])
  {}

  lemma {:induction false} ReadNothing(lines: seq<string>, read: string -> Option<int>, value: int)
    requires forall i :: 0 <= i < |lines| ==> read(lines[i]) == None
    ensures LastRead(lines, read, value) == value
    decreases |lines|
  {
    if lines != [] { ReadNothing(lines[1..], read, value); }
  }

  lemma {:induction false} RepairedReadsLast(ls: seq<SelectLine>, validity: int, exist: int)
    requires forall i :: 0 <= i < |ls| ==> Standard(ls[i])
    ensures LastRead(ShownLines(ls), RepairedUidValidityOf, validity) == LastValidity(ls, validity)
    ensures LastRead(ShownLines(ls), RepairedExistsOf, exist) == LastExists(ls, exist)
    decreases |ls|
  {
    if ls != [] {
      ShownTail(ls);
      StandardLineRead(ls[0]);
      RepairedReadsLast(ls[1..], if ls[0].Validity? then ls[0].value else validity,
                        if ls[0].Exists? then ls[0].count else exist);
    }
  }

  /** From the bytes of any standard SELECT response: select_mailbox gets 0 for both numbers,
      whatever they are, and the repaired readers get both. */
  lemma SelectYieldsZero(ls: seq<SelectLine>, last: string, rest: string, k: nat)
    requires (forall i :: 0 <= i < |ls| ==> Standard(ls[i])) && Completion(last, Tag(k))
    ensures var r := ReadCommand(Lines(ShownLines(ls)) + (last + rest), Tag(k), []);
      && r == Complete(Response(Trim(last), ShownLines(ls)), rest)
      && LastRead(r.value.data, UidValidityOf, 0) == 0 && LastRead(r.value.data, ExistsOf, 0) == 0
      && LastRead(r.value.data, RepairedUidValidityOf, 0) == LastValidity(ls, 0)
      && LastRead(r.value.data, RepairedExistsOf, 0) == LastExists(ls, 0)
  {
    var texts := ShownLines(ls);
    forall i | 0 <= i < |ls|
      ensures StarLine(texts[i]) && !Marked(texts[i]) && UidValidityOf(texts[i]) == None && ExistsOf(texts[i]) == None
    {
      StandardLineRead(ls[i]);
    }
    PlainResponse(texts, last, rest, k);
    ReadNothing(texts, UidValidityOf, 0);
    ReadNothing(texts, ExistsOf, 0);
    RepairedReadsLast(ls, 0, 0);
  }

  const VALID := "] UIDs valid"

  lemma OrdinaryTail(n: nat)
    ensures var tail := UIDVALIDITY + (" " + (Decimal(n) + VALID));
      && '{' !in tail && '\n' !in tail && NoChar(tail, 'E') && tail[|tail| - 1] == 'd'
  {
    DecimalChars(n, '{');
    DecimalChars(n, '\n');
    DecimalHasNone(n, 'E');
    NoCharConcat(Decimal(n), VALID, 'E');
    NoCharConcat(" ", Decimal(n) + VALID, 'E');
    NoCharConcat(UIDVALIDITY, " " + (Decimal(n) + VALID), 'E');
  }

  lemma PlainAround(head: string, tail: string)
    requires head != "" && head[0] == '*' && '{' !in head && '\n' !in head
    requires tail != "" && !IsSpace(tail[|tail| - 1]) && '{' !in tail && '\n' !in tail
    ensures StarLine(head + tail) && !Marked(head + tail)
  {
    assert '{' !in head + tail + "\r\n";
  }

  /** The line of section 7.1, for every number. */
  lemma OrdinaryLineIsStandard(n: nat)
    requires n < USIZE_BOUND / 2
    ensures Standard(Validity("* OK [", n, VALID))
  {
    var prefix, tail := "* OK [", UIDVALIDITY + (" " + (Decimal(n) + VALID));
    OrdinaryTail(n);
    PlainAround(prefix, tail);
    NoFirstLetter(prefix, UIDVALIDITY);
    NoCharConcat(prefix, tail, 'E');
    NoFirstLetter(prefix + tail, EXISTS);
  }
}
