/** A reader of LIST responses that takes names in all three forms, and literals only where the
    standard puts them. */
module ImapListRepaired {
  import opened Common
  import opened Text
  import opened ImapText
  import opened ImapReader
  import opened ImapList
  import opened ImapListResponse

  function AfterSpace(s: string): Option<string> { if s != "" && s[0] == ' ' then Some(s[1..]) else None }

  /** What follows the delimiter, which is a quoted character or NIL. */
  function AfterDelimiter(s: string): Option<string> {
    if s != "" && s[0] == '\"' then
      match Unquote(s[1..])
      case None => None
      case Some(r) => AfterSpace(r.1)
    else if StartsWith(Upper(s), "NIL") then AfterSpace(s[3..])
    else None
  }

  /** The last item of a LIST line, as it stands. */
  function LastItem(line: string): Option<string> {
    if !StartsWith(Upper(line), "* LIST") then None
    else
      match Find(line, ')')
      case None => None
      case Some(i) =>
        match AfterSpace(line[i + 1..])
        case None => None
        case Some(s) => AfterDelimiter(s)
  }

  /** The name in an item: an atom, or a quoted string with its escapes undone. */
  function ItemName(item: string): Option<string> {
    if item == "" then None
    else if item[0] != '\"' then Some(item)
    else
      match Unquote(item[1..])
      case None => None
      case Some(r) => if r.1 == "" then Some(r.0) else None
  }

  function RepairedMailbox(line: string): Option<string> {
    match LastItem(line) case None => None case Some(item) => ItemName(item)
  }

  // ----- one line -----------------------------------------------------------------------

  lemma AttributesEnd(l: ListLine, tail: string)
    requires Proper(l)
    ensures var line := "* LIST (" + l.attributes + (")" + tail);
      Find(line, ')') == Some(8 + |l.attributes|) && line[9 + |l.attributes|..] == tail
  {
    var line := "* LIST (" + l.attributes + (")" + tail);
    assert forall i :: 0 <= i < |l.attributes| ==> l.attributes[i] != ')';
    FindAt(line, ')', 8 + |l.attributes|);
  }

  lemma DelimiterRead(d: Option<char>, tail: string)
    requires d != Some('\r') && d != Some('\n')
    ensures AfterDelimiter(Delimiter(d) + (" " + tail)) == Some(tail)
  {
    match d
    case None =>
      var s := "NIL" + (" " + tail);
      assert Upper(s)[..3] == "NIL";
      assert s[3..] == " " + tail;
    case Some(c) =>
      var e := Escape([c]);
      QuoteIsEscape([c]);
      EscapeRoundTrip([c], " " + tail);
      assert Quote([c]) + (" " + tail) == "\"" + (e + ("\"" + (" " + tail)));
      assert (" " + tail)[1..] == tail;
  }

  lemma LastItemFrom(line: string, i: nat, s: string, tail: string)
    requires StartsWith(Upper(line), "* LIST") && Find(line, ')') == Some(i) && line[i + 1..] == " " + s
    requires AfterDelimiter(s) == Some(tail)
    ensures LastItem(line) == Some(tail)
  {
    assert (" " + s)[1..] == s;
  }

  lemma LastItemIs(l: ListLine, tail: string)
    requires Proper(l)
    ensures LastItem(Head(l) + tail) == Some(tail)
  {
    var s := Delimiter(l.delimiter) + (" " + tail);
    HeadAndTail(l, tail);
    AttributesEnd(l, " " + s);
    DelimiterRead(l.delimiter, tail);
    LastItemFrom(Head(l) + tail, 8 + |l.attributes|, s, tail);
  }

  lemma HeadAndTail(l: ListLine, tail: string)
    ensures Head(l) + tail == "* LIST (" + l.attributes + (")" + (" " + (Delimiter(l.delimiter) + (" " + tail))))
    ensures StartsWith(Upper(Head(l) + tail), "* LIST")
  {
    HeadStarts(l);
    UpperPrefix(Head(l), tail);
    Regrouped("* LIST (" + l.attributes, Delimiter(l.delimiter), tail);
  }

  lemma UpperPrefix(head: string, tail: string)
    requires StartsWith(Upper(head), "* LIST")
    ensures StartsWith(Upper(head + tail), "* LIST")
  {
    assert Upper(head) <= Upper(head + tail);
  }

  lemma Regrouped(a: string, d: string, tail: string)
    ensures a + ") " + d + " " + tail == a + (")" + (" " + (d + (" " + tail))))
  {}

  lemma QuotedItem(name: string)
    requires '\r' !in name && '\n' !in name
    ensures ItemName(Quote(name)) == Some(name)
  {
    QuoteIsEscape(name);
    EscapeRoundTrip(name, "");
    assert Quote(name)[1..] == Escape(name) + ("\"" + "");
  }

  /** The repaired reader gets every name that stands in its line, quoted or as an atom. */
  lemma RepairedReadsName(l: ListLine)
    requires Proper(l) && !l.form.AsLiteral?
    ensures RepairedMailbox(Printed(l)) == Some(l.name)
  {
    match l.form
    case Atom => LastItemIs(l, l.name);
    case Quoted =>
      LastItemIs(l, Quote(l.name));
      QuotedItem(l.name);
  }

  // ----- whole responses ----------------------------------------------------------------

  /** A literal announced where the standard puts it: at the end of the line. */
  function EndMarker(line: string): Option<nat> {
    if |line| < 3 || line[|line| - 3..] != "}\r\n" then None
    else
      match RFind(line, '{')
      case None => None
      case Some(i) => if i < |line| - 3 then ParseUsize(line[i + 1..|line| - 3]) else None
  }

  /** The loop, collecting names. */
  function RepairedList(s: string, tag: string, names: seq<string>): Outcome<seq<string>>
    decreases |s|
  {
    if s == "" then Stalled
    else
      var (line, rest) := SplitLine(s);
      match EndMarker(line)
      case Some(n) =>
        if |rest| < n + 2 then ShortRead
        else RepairedList(rest[n + 2..], tag, if LastItem(line).Some? then names + [rest[..n]] else names)
      case None =>
        if Completes(line, tag) then Complete(names, rest)
        else
          match RepairedMailbox(Trim(line))
          case None => RepairedList(rest, tag, names)
          case Some(name) => RepairedList(rest, tag, names + [name])
  }

  lemma ParsedHasNoBrace(s: string)
    requires ParseUsize(s).Some?
    ensures '}' !in s
  {
    var t := if s != "" && s[0] == '+' then s[1..] else s;
    DigitsAll(t);
    assert s == t || s == ['+'] + t;
  }

  /** What is announced there the program takes for an announcement too. */
  lemma EndMarkerIsMarker(line: string)
    requires EndMarker(line).Some?
    ensures LiteralSize(line).Some?
  {
    var i, end := RFind(line, '{').value, |line| - 3;
    ParsedHasNoBrace(line[i + 1..end]);
    var tail := line[i..];
    assert line[end..][0] == '}';
    forall j | 0 <= j < end - i ensures tail[j] != '}' {
      if j > 0 { assert tail[j] == line[i + 1..end][j - 1]; }
    }
    FindAt(tail, '}', end - i);
  }

  lemma AnnouncementEnds(head: string, n: nat)
    requires n < USIZE_BOUND
    ensures EndMarker(head + Marker(n)) == Some(n)
  {
    DecimalChars(n, '{');
    ParseDecimal(n);
    MarkerAtEnd(head, Decimal(n), head + Marker(n));
  }

  lemma MarkerAtEnd(head: string, d: string, line: string)
    requires line == head + ("{" + d + "}\r\n") && '{' !in d
    ensures EndMarker(line) == ParseUsize(d)
  {
    EndOf3(head, d, line);
    LastAtBrace(head, d, line);
    RFindAt(line, '{', |head|);
  }

  lemma EndOf3(head: string, d: string, line: string)
    requires line == head + ("{" + d + "}\r\n")
    ensures |line| == |head| + |d| + 4 && line[|line| - 3..] == "}\r\n" && line[|head| + 1..|line| - 3] == d
  {}

  lemma LastAtBrace(head: string, d: string, line: string)
    requires line == head + ("{" + d + "}\r\n") && '{' !in d
    ensures LastAt(line, '{', |head|)
  {}

  lemma SingleHasNoEndMarker(l: ListLine)
    requires Proper(l) && !l.form.AsLiteral?
    ensures EndMarker(Unit(l)).None?
  {
    if l.form.Quoted? {
      assert Unit(l)[|Unit(l)| - 3] == '\"';
      assert Unit(l)[|Unit(l)| - 3..][0] == '\"';
    } else {
      AppendAssoc(Head(l), l.name, "\r\n");
      assert '{' !in l.name + "\r\n";
      DelimiterUnmarked(l, l.name + "\r\n");
      if EndMarker(Unit(l)).Some? { EndMarkerIsMarker(Unit(l)); }
    }
  }

  lemma RepairedLine(l: ListLine, more: string, k: nat, names: seq<string>)
    requires Proper(l)
    ensures RepairedList(Unit(l) + more, Tag(k), names) == RepairedList(more, Tag(k), names + [l.name])
  {
    if l.form.AsLiteral? {
      LiteralUnit(l);
      AnnouncementEnds(Head(l), |l.name|);
      LastItemIs(l, Marker(|l.name|));
      AppendAssoc(Announcement(l), l.name + "\r\n", more);
      SplitsAt(Announcement(l), l.name + "\r\n" + more);
      TakeName(l.name, more);
    } else {
      UnitTrimmed(l);
      SplitsAt(Unit(l), more);
      SingleHasNoEndMarker(l);
      SingleIsStarLine(l);
      TagFirst(Unit(l), k);
      RepairedReadsName(l);
    }
  }

  lemma RepairedLast(last: string, rest: string, k: nat, names: seq<string>)
    requires Completion(last, Tag(k))
    ensures RepairedList(last + rest, Tag(k), names) == Complete(names, rest)
  {
    SplitsAt(last, rest);
    if EndMarker(last).Some? { EndMarkerIsMarker(last); }
  }

  /** A line that is no LIST line. */
  lemma RepairedOther(text: string, more: string, k: nat, names: seq<string>)
    requires IsOther(text)
    ensures RepairedList(text + "\r\n" + more, Tag(k), names) == RepairedList(more, Tag(k), names)
  {
    OtherLine(text);
    SplitsAt(text + "\r\n", more);
    TagFirst(text + "\r\n", k);
    if EndMarker(text + "\r\n").Some? { EndMarkerIsMarker(text + "\r\n"); }
  }

  lemma RepairedItem(i: ListItem, more: string, k: nat, names: seq<string>)
    requires ProperItem(i)
    ensures RepairedList(Shown(i) + more, Tag(k), names) == RepairedList(more, Tag(k), names + Given(i))
  {
    match i
    case Mailbox(l) => RepairedLine(l, more, k, names);
    case Other(text) =>
      RepairedOther(text, more, k, names);
      assert names + [] == names;
  }

  /** From the same bytes, every response comes back whole. */
  lemma {:induction false} RepairedListReadsAll(
    ls: seq<ListItem>, last: string, rest: string, k: nat, names: seq<string>)
    requires AllProper(ls) && Completion(last, Tag(k))
    ensures RepairedList(Stream(ls, last, rest), Tag(k), names) == Complete(names + Names(ls), rest)
    decreases |ls|
  {
    if ls == [] {
      assert Stream(ls, last, rest) == last + rest;
      assert names + Names(ls) == names;
      RepairedLast(last, rest, k, names);
    } else {
      StreamMore(ls, last, rest);
      RepairedItem(ls[0], Stream(ls[1..], last, rest), k, names);
      RepairedListReadsAll(ls[1..], last, rest, k, names + Given(ls[0]));
      NamesTail(ls);
      AppendAssoc(names, Given(ls[0]), Names(ls[1..]));
    }
  }
}
