/** LIST: what list_mailboxes takes out of a response, and when that is what the server listed. */
module ImapList {
  import opened Common
  import opened Text
  import opened ImapText
  import opened ImapReader

  /** The mailbox of one LIST line: what stands between its last two quotes. */
  function ListedMailbox(line: string): Option<string> {
    if !StartsWith(Upper(line), "* LIST") then None
    else
      match RFind(line, '\"')
      case None => None
      case Some(last) =>
        match RFind(line[..last], '\"')
        case None => None
        case Some(second) => Some(line[second + 1..last])
  }

  function ListedMailboxes(lines: seq<string>): seq<string> {
    if lines == [] then []
    else (match ListedMailbox(lines[0]) case None => [] case Some(f) => [f]) + ListedMailboxes(lines[1..])
  }

  // ----- one line -----------------------------------------------------------------------

  lemma {:induction false} EscapeShape(s: string)
    ensures '\"' in s <==> '\"' in Escape(s)
    ensures |Escape(s)| >= |s|
    ensures '\"' !in s && '\\' !in s <==> |Escape(s)| == |s|
    ensures |Escape(s)| == |s| ==> Escape(s) == s
    decreases |s|
  {
    if s != "" {
      EscapeShape(s[1..]);
      assert s == [s[0]] + s[1..];
    }
  }

  lemma LastQuotes(prefix: string, e: string)
    ensures ('\"' !in e ==> StartsWith(Upper(prefix), "* LIST") ==>
      ListedMailbox(prefix + ("\"" + e + "\"")) == Some(e))
    ensures ListedMailbox(prefix + ("\"" + e + "\"")).Some? ==>
      '\"' !in ListedMailbox(prefix + ("\"" + e + "\"")).value
  {
    var line := prefix + ("\"" + e + "\"");
    var last := |line| - 1;
    RFindAt(line, '\"', last);
    if '\"' !in e && StartsWith(Upper(prefix), "* LIST") {
      assert Upper(prefix) <= Upper(line);
      RFindAt(line[..last], '\"', |prefix|);
      assert line[|prefix| + 1..last] == e;
    }
  }

  /** A mailbox printed as the quoted last item of a LIST line is recovered exactly when its
      name has no quote and no backslash: escapes are not undone. */
  lemma ListedExactlyWhen(prefix: string, name: string)
    requires StartsWith(Upper(prefix), "* LIST")
    ensures ListedMailbox(prefix + Quote(name)) == Some(name) <==> '\"' !in name && '\\' !in name
  {
    QuoteIsEscape(name);
    EscapeShape(name);
    LastQuotes(prefix, Escape(name));
  }

  /** The word LIST may be in any case. */
  lemma ListedInAnyCase(head: string, prefix: string, name: string)
    requires |head| == 6 && forall i :: 0 <= i < 6 ==> SameLetter(head[i], "* LIST"[i])
    requires '\"' !in name && '\\' !in name
    ensures ListedMailbox(head + prefix + Quote(name)) == Some(name)
  {
    UpperSame(head, "* LIST");
    assert Upper("* LIST") == "* LIST";
    assert Upper(head) <= Upper(head + prefix);
    ListedExactlyWhen(head + prefix, name);
  }

  /** A plain name: what the server lists is what SELECT then asks for. */
  ghost predicate PlainName(name: string) {
    '\"' !in name && '\\' !in name && '\r' !in name && '\n' !in name
  }

  lemma ListThenSelect(prefix: string, name: string)
    requires StartsWith(Upper(prefix), "* LIST") && PlainName(name)
    ensures ListedMailbox(prefix + Quote(name)).Some?
    ensures var sent := Quote(ListedMailbox(prefix + Quote(name)).value);
      sent == "\"" + name + "\"" && Unquote(sent[1..]) == Some((name, ""))
  {
    ListedExactlyWhen(prefix, name);
    QuoteIsEscape(name);
    EscapeShape(name);
    QuoteRoundTrip(name, "");
    assert Quote(name) + "" == Quote(name);
  }

  // ----- lines as servers print them ----------------------------------------------------

  /** How a name is put: as a quoted string, an atom or a literal (section 9 of RFC 3501). */
  datatype Form = Quoted | Atom | AsLiteral

  /** One LIST line (section 7.2.2 of RFC 3501). */
  datatype ListLine = ListLine(attributes: string, delimiter: Option<char>, name: string, form: Form)

  function Delimiter(d: Option<char>): string { match d case None => "NIL" case Some(c) => Quote([c]) }

  /** The line up to its name. */
  function Head(l: ListLine): string { "* LIST (" + l.attributes + ") " + Delimiter(l.delimiter) + " " }

  function Printed(l: ListLine): string {
    match l.form
    case Quoted => Head(l) + Quote(l.name)
    case Atom => Head(l) + l.name
    case AsLiteral => Head(l) + Marker(|l.name|) + l.name
  }

  predicate AtomChar(c: char) { ' ' < c <= '~' && c !in "(){%*\"\\" }

  predicate IsAtom(s: string) { s != "" && forall i :: 0 <= i < |s| ==> AtomChar(s[i]) }

  /** Attributes are atoms, or behind a backslash; no line end is in the delimiter or a quoted name,
      and no line feed in any name. */
  ghost predicate Proper(l: ListLine) {
    && (forall i :: 0 <= i < |l.attributes| ==> AtomChar(l.attributes[i]) || l.attributes[i] in " \\")
    && l.delimiter != Some('\r') && l.delimiter != Some('\n') && '\n' !in l.name
    && (l.form.Quoted? ==> '\r' !in l.name)
    && (l.form.Atom? ==> IsAtom(l.name)) && |l.name| < USIZE_BOUND
  }

  function Start(l: ListLine): string { "* LIST (" + l.attributes + ") " }

  lemma HeadStarts(l: ListLine)
    ensures Head(l) == Start(l) + (Delimiter(l.delimiter) + " ")
    ensures Head(l)[0] == '*' && StartsWith(Upper(Head(l)), "* LIST") && StartsWith(Upper(Start(l)), "* LIST")
  {
    assert Upper("* LIST") == "* LIST";
    assert Upper(Head(l))[..6] == Upper(Head(l)[..6]) && Upper(Start(l))[..6] == Upper(Start(l)[..6]);
  }

  lemma StartLacks(l: ListLine, c: char)
    requires Proper(l) && (c == '\n' || c == '{' || c == '\"')
    ensures c !in Start(l)
  {
    assert forall i :: 0 <= i < |l.attributes| ==> l.attributes[i] != c;
  }

  lemma HeadChars(l: ListLine)
    requires Proper(l)
    ensures '\n' !in Head(l) && ('{' in Head(l) ==> l.delimiter == Some('{'))
  {
    StartLacks(l, '\n');
    StartLacks(l, '{');
    HeadStarts(l);
    DelimiterIs(l.delimiter);
  }

  lemma DelimiterIs(d: Option<char>)
    ensures Delimiter(d) == match d
      case None => "NIL"
      case Some(c) => if c == '\"' || c == '\\' then ['\"', '\\', c, '\"'] else ['\"', c, '\"']
  {
    if d.Some? {
      QuoteIsEscape([d.value]);
      assert Escape([d.value][1..]) == "";
    }
  }

  lemma {:induction false} EscapeKeeps(s: string, c: char)
    requires c != '\\'
    ensures c in Escape(s) <==> c in s
    decreases |s|
  {
    if s != "" {
      EscapeKeeps(s[1..], c);
      assert s == [s[0]] + s[1..];
    }
  }

  function BeforeBrace(s: string): Option<string> {
    match Find(s, '}') case None => None case Some(end) => Some(s[..end])
  }

  lemma CloserShifted(b: string)
    ensures Find(['{'] + b, '}') == match Find(b, '}') case None => None case Some(end) => Some(1 + end)
  {
    var tail := ['{'] + b;
    if '}' in b { FindAt(tail, '}', 1 + Find(b, '}').value); } else { assert '}' !in tail; }
  }

  lemma Slice(line: string, start: nat, b: string, end: nat)
    requires start <= |line| && line[start..] == ['{'] + b && end <= |b|
    ensures start + 1 + end <= |line| && line[start + 1..start + (1 + end)] == b[..end]
  {
    assert line[start + 1..] == b;
  }

  lemma BracedFrom(line: string, start: nat, b: string)
    requires LastAt(line, '{', start) && line[start..] == ['{'] + b
    ensures Braced(line) == BeforeBrace(b)
  {
    RFindAt(line, '{', start);
    CloserShifted(b);
    if Find(b, '}').Some? { Slice(line, start, b, Find(b, '}').value); }
  }

  lemma BracedIs(a: string, b: string)
    requires '{' !in b
    ensures Braced(a + (['{'] + b)) == BeforeBrace(b)
  {
    LastBrace(a, b);
    BracedFrom(a + (['{'] + b), |a|, b);
  }

  lemma BeforeBraceOnly(b: string, suffix: string)
    requires '}' !in suffix
    ensures BeforeBrace(b + suffix) == BeforeBrace(b)
  {
    if '}' in b {
      var end := Find(b, '}').value;
      FindAt(b + suffix, '}', end);
      assert (b + suffix)[..end] == b[..end];
    } else {
      assert '}' !in b + suffix;
    }
  }

  lemma SplitAtBrace(name: string) returns (a: string, b: string)
    requires '{' in name
    ensures name == a + (['{'] + b) && '{' !in b
  {
    var j := RFind(name, '{').value;
    a, b := name[..j], name[j + 1..];
  }

  lemma Regroup(p: string, q: string, a: string, b: string, c: string)
    ensures p + (q + (a + (['{'] + b) + c)) == (p + q + a) + (['{'] + (b + c))
  {}

  /** A brace with a quote right behind it opens no marker. */
  lemma QuotedBrace(a: string, b: string)
    requires '{' !in b && b != "" && b[0] == '\"'
    ensures LiteralSize(a + (['{'] + b)) == None
  {
    BracedIs(a, b);
    if '}' in b {
      var end := Find(b, '}').value;
      assert b[..end] != "" && b[..end][0] == '\"';
      assert !Digits(b[..end]);
    }
  }

  /** What stands before the quoted name adds no marker, and its quotes take none away. */
  lemma MarkedByName(head: string, name: string)
    requires '{' in name
    ensures LiteralSize(head + ("\"" + (name + "\"\r\n"))) == LiteralSize(name)
  {
    var a, b := SplitAtBrace(name);
    Regroup(head, "\"", a, b, "\"\r\n");
    BracedIs(head + "\"" + a, b + "\"\r\n");
    BracedIs(a, b);
    BeforeBraceOnly(b, "\"\r\n");
  }

  lemma BraceHead(l: ListLine, tail: string)
    requires l.delimiter == Some('{')
    ensures Head(l) + tail == (Start(l) + "\"") + (['{'] + ("\" " + tail))
  {
    HeadStarts(l);
    DelimiterIs(l.delimiter);
    BraceBetween(Start(l), Delimiter(l.delimiter), tail);
  }

  lemma BraceBetween(start: string, d: string, tail: string)
    requires d == ['\"', '{', '\"']
    ensures start + (d + " ") + tail == (start + "\"") + (['{'] + ("\" " + tail))
  {}

  /** A line whose only brace is its delimiter announces nothing. */
  lemma DelimiterUnmarked(l: ListLine, tail: string)
    requires Proper(l) && '{' !in tail
    ensures LiteralSize(Head(l) + tail) == None
  {
    HeadChars(l);
    if l.delimiter == Some('{') {
      BraceHead(l, tail);
      QuotedBrace(Start(l) + "\"", "\" " + tail);
    } else {
      assert '{' !in Head(l) + tail;
    }
  }

  lemma NameLine(l: ListLine)
    requires Proper(l) && l.form.Quoted? && '\"' !in l.name && '\\' !in l.name
    ensures LiteralSize(Printed(l) + "\r\n") == LiteralSize(l.name)
  {
    QuoteIsEscape(l.name);
    EscapeShape(l.name);
    var tail := "\"" + (l.name + "\"\r\n");
    assert Printed(l) + "\r\n" == Head(l) + tail;
    if '{' in l.name { MarkedByName(Head(l), l.name); } else { DelimiterUnmarked(l, tail); }
  }

  // ----- which lines come back ----------------------------------------------------------

  /** A quoted name that comes back. The last condition: it does not read as a literal marker, as
      `{5}` or `a{5}b` do. */
  predicate Recoverable(name: string) { '\"' !in name && '\\' !in name && LiteralSize(name).None? }

  /** The line gives back its name: a quoted one that is recoverable, or an atom that happens to be
      the hierarchy delimiter, which is what is read instead of any atom. */
  predicate ComesBack(l: ListLine) {
    match l.form
    case Quoted => Recoverable(l.name)
    case Atom => l.delimiter.Some? && l.name == [l.delimiter.value]
    case AsLiteral => false
  }

  lemma LastTwoQuotes(a: string, v: string, b: string)
    requires StartsWith(Upper(a), "* LIST") && '\"' !in v && '\"' !in b
    ensures ListedMailbox(a + ("\"" + v + "\"" + b)) == Some(v)
  {
    var line := a + ("\"" + v + "\"" + b);
    var last := |a| + 1 + |v|;
    RFindAt(line, '\"', last);
    RFindAt(line[..last], '\"', |a|);
    assert line[|a| + 1..last] == v;
    assert Upper(a) <= Upper(line);
  }

  /** An atom is never read: with a quoted delimiter the delimiter is listed in its place, as it
      stands between the quotes; with NIL nothing is. */
  lemma AtomListsDelimiter(l: ListLine)
    requires Proper(l) && l.form.Atom?
    ensures ListedMailbox(Printed(l)) == match l.delimiter
      case None => None
      case Some(c) => Some(if c == '\"' then "" else if c == '\\' then "\\\\" else [c])
  {
    HeadStarts(l);
    DelimiterIs(l.delimiter);
    match l.delimiter
    case None =>
      StartLacks(l, '\"');
      assert '\"' !in Printed(l);
    case Some(c) => if c == '\"' { AtomAfterQuote(l); } else { AtomAfterChar(l, c); }
  }

  lemma AtomAfterQuote(l: ListLine)
    requires Proper(l) && l.form.Atom? && l.delimiter == Some('\"')
    ensures ListedMailbox(Printed(l)) == Some("")
  {
    HeadStarts(l);
    DelimiterIs(l.delimiter);
    EscapedQuote(Start(l), Delimiter(l.delimiter), l.name);
    assert Upper(Start(l)) <= Upper(Start(l) + "\"\\");
    LastTwoQuotes(Start(l) + "\"\\", "", " " + l.name);
  }

  lemma EscapedQuote(start: string, d: string, name: string)
    requires d == ['\"', '\\', '\"', '\"']
    ensures start + (d + " ") + name == start + "\"\\" + ("\"" + "" + "\"" + (" " + name))
  {}

  lemma AtomAfterChar(l: ListLine, c: char)
    requires Proper(l) && l.form.Atom? && l.delimiter == Some(c) && c != '\"'
    ensures ListedMailbox(Printed(l)) == Some(if c == '\\' then "\\\\" else [c])
  {
    var v := if c == '\\' then "\\\\" else [c];
    HeadStarts(l);
    DelimiterIs(l.delimiter);
    BetweenQuotes(Start(l), v, Delimiter(l.delimiter), l.name);
    LastTwoQuotes(Start(l), v, " " + l.name);
  }

  lemma BetweenQuotes(start: string, v: string, d: string, name: string)
    requires d == "\"" + v + "\""
    ensures start + (d + " ") + name == start + ("\"" + v + "\"" + (" " + name))
  {}

  lemma SingleIsStarLine(l: ListLine)
    requires Proper(l) && !l.form.AsLiteral?
    ensures StarLine(Printed(l))
  {
    HeadStarts(l);
    HeadChars(l);
    QuoteIsEscape(l.name);
    EscapeKeeps(l.name, '\n');
    if l.form.Atom? { assert Printed(l)[|Printed(l)| - 1] == l.name[|l.name| - 1]; }
  }

  lemma AtomUnmarked(l: ListLine)
    requires Proper(l) && l.form.Atom?
    ensures !Marked(Printed(l))
  {
    AppendAssoc(Head(l), l.name, "\r\n");
    assert '{' !in l.name + "\r\n";
    DelimiterUnmarked(l, l.name + "\r\n");
  }

  lemma AtomExactlyWhen(l: ListLine)
    requires Proper(l) && l.form.Atom?
    ensures ComesBack(l) <==> ListedMailbox(Printed(l)) == Some(l.name)
  {
    AtomListsDelimiter(l);
  }

  /** Both halves of coming back: the line reaches the parser, and the parser reads the name. */
  lemma LineExactlyWhen(l: ListLine)
    requires Proper(l) && !l.form.AsLiteral?
    ensures ComesBack(l) <==> !Marked(Printed(l)) && ListedMailbox(Printed(l)) == Some(l.name)
  {
    if l.form.Quoted? {
      HeadStarts(l);
      ListedExactlyWhen(Head(l), l.name);
      if '\"' !in l.name && '\\' !in l.name { NameLine(l); }
    } else {
      AtomUnmarked(l);
      AtomExactlyWhen(l);
    }
  }

  /** The mailbox INBOX as common servers list it, `* LIST () "/" INBOX`: `/` comes back instead. */
  lemma InboxIsNotListed(attributes: string)
    requires Proper(ListLine(attributes, Some('/'), "INBOX", Atom))
    ensures var l := ListLine(attributes, Some('/'), "INBOX", Atom);
      && Printed(l) == "* LIST (" + attributes + ") " + "\"/\"" + " " + "INBOX"
      && ListedMailbox(Printed(l)) == Some("/") && !ComesBack(l) && Recoverable("INBOX")
  {
    AtomListsDelimiter(ListLine(attributes, Some('/'), "INBOX", Atom));
    DelimiterIs(Some('/'));
    assert '{' !in "INBOX";
  }
}
