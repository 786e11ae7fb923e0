/** Whole LIST responses: exactly when list_mailboxes returns what the server listed. */
module ImapListResponse {
  import opened Common
  import opened Text
  import opened ImapText
  import opened ImapReader
  import opened ImapList

  function Unit(l: ListLine): string { Printed(l) + "\r\n" }

  /** An untagged line of a response to LIST. */
  datatype ListItem =
    | Mailbox(line: ListLine)
    | Other(text: string)

  function Shown(i: ListItem): string {
    match i case Mailbox(l) => Unit(l) case Other(text) => text + "\r\n"
  }

  function PrintList(ls: seq<ListItem>): string {
    if ls == [] then "" else Shown(ls[0]) + PrintList(ls[1..])
  }

  /** The other lines are no LIST lines and have neither quotes nor a literal. */
  ghost predicate IsOther(text: string) {
    StarLine(text) && !Marked(text) && '\"' !in text && !StartsWith(Upper(text), "* LIST")
  }

  ghost predicate ProperItem(i: ListItem) { match i case Mailbox(l) => Proper(l) case Other(text) => IsOther(text) }

  ghost predicate AllProper(ls: seq<ListItem>) { forall i :: 0 <= i < |ls| ==> ProperItem(ls[i]) }

  function Given(i: ListItem): seq<string> { match i case Mailbox(l) => [l.name] case Other(_) => [] }

  /** The mailboxes of the response. */
  function Names(ls: seq<ListItem>): seq<string> { if ls == [] then [] else Given(ls[0]) + Names(ls[1..]) }

  ghost predicate QuoteFree(names: seq<string>) { forall j :: 0 <= j < |names| ==> '\"' !in names[j] }

  // ----- what can be listed -------------------------------------------------------------

  function Count(data: seq<string>): nat { |ListedMailboxes(data)| }

  function Lists(d: string): nat { if ListedMailbox(d).Some? then 1 else 0 }

  lemma {:induction false} ListedConcat(a: seq<string>, b: seq<string>)
    ensures ListedMailboxes(a + b) == ListedMailboxes(a) + ListedMailboxes(b)
    decreases |a|
  {
    if a == [] {
      assert a + b == b;
    } else {
      assert (a + b)[1..] == a[1..] + b;
      ListedConcat(a[1..], b);
    }
  }

  lemma CountSnoc(data: seq<string>, d: string)
    ensures Count(data + [d]) == Count(data) + Lists(d)
  {
    ListedConcat(data, [d]);
    assert ListedMailboxes([d][1..]) == [];
  }

  /** What is listed starts like a LIST line and has two quotes. */
  lemma ListingShape(z: string) returns (i: nat, j: nat)
    requires ListedMailbox(z).Some?
    ensures |z| > 1 && z[0] == '*' && z[1] == ' ' && i < j < |z| && z[i] == '\"' && z[j] == '\"'
  {
    assert Upper(z)[0] == "* LIST"[0] && Upper(z)[1] == "* LIST"[1];
    j := RFind(z, '\"').value;
    i := RFind(z[..j], '\"').value;
  }

  lemma CompletionListsNothing(last: string, n: nat, k: nat)
    requires Completes(last, Tag(k)) && n <= |last|
    ensures ListedMailbox(last[..n]).None?
  {
    if ListedMailbox(last[..n]).Some? {
      var i, j := ListingShape(last[..n]);
      TagFirst(last, k);
    }
  }

  lemma QuoteFreeListsNothing(z: string)
    requires '\"' !in z
    ensures ListedMailbox(z).None?
  {}

  ghost predicate IsPart(t: string, p: nat, z: string) { p + |z| <= |t| && z == t[p..p + |z|] }

  /** Where the trimmed text stands in the text. */
  lemma TrimWithin(s: string) returns (lead: nat)
    ensures IsPart(s, lead, Trim(s))
  {
    lead := |s| - |TrimStart(s)|;
    TrimStartIs(s);
    TrimEndIs(TrimStart(s));
  }

  /** In `t` a star after the first character but before `h` has no space behind it, and from `h` on
      there are quotes at `h` and `e` at most. */
  ghost predicate OneName(t: string, h: nat, e: nat) {
    && (forall p :: 0 < p < h && p < |t| && t[p] == '*' ==> p + 1 < |t| && t[p + 1] != ' ')
    && (forall p :: h <= p < |t| && t[p] == '\"' ==> p == h || p == e)
  }

  lemma NotTwoQuotes(t: string, h: nat, e: nat, p: nat, z: string, i: nat, j: nat)
    requires OneName(t, h, e) && 0 < p && IsPart(t, p, z) && |z| > 1 && i < j < |z|
    ensures z[0] == '*' && z[1] == ' ' && z[i] == '\"' ==> z[j] != '\"'
  {
    assert z[0] == t[p] && z[1] == t[p + 1] && z[i] == t[p + i] && z[j] == t[p + j];
  }

  /** No part of such a text lists anything, unless it begins where the text does. */
  lemma PartListsNothing(t: string, h: nat, e: nat, p: nat, z: string)
    requires OneName(t, h, e) && 0 < p && IsPart(t, p, z)
    ensures ListedMailbox(z).None?
  {
    if ListedMailbox(z).Some? {
      var i, j := ListingShape(z);
      NotTwoQuotes(t, h, e, p, z, i, j);
    }
  }

  lemma PartOfSuffix(t: string, cut: nat, y: string, lead: nat, z: string)
    requires cut <= |t| && y == t[cut..] && IsPart(y, lead, z)
    ensures IsPart(t, cut + lead, z)
  {}

  lemma StartStars(l: ListLine, p: nat)
    requires Proper(l) && 0 < p < |Start(l)|
    ensures Start(l)[p] != '*'
  {}

  /** No star in a line but its first character is followed by a space, short of the name. */
  lemma StarsInHead(l: ListLine, p: nat)
    requires Proper(l) && 0 < p < |Head(l)|
    ensures Head(l)[p] == '*' ==> p + 1 < |Head(l)| && Head(l)[p + 1] != ' '
  {
    HeadStarts(l);
    if p < |Start(l)| { StartStars(l, p); } else { DelimiterIs(l.delimiter); }
  }

  lemma UnitIs(l: ListLine)
    requires !l.form.AsLiteral?
    ensures Unit(l) == Head(l) + (if l.form.Quoted? then "\"" + Escape(l.name) + "\"\r\n" else l.name + "\r\n")
  {
    QuoteIsEscape(l.name);
    if l.form.Atom? { AppendAssoc(Head(l), l.name, "\r\n"); }
  }

  lemma UnitShape(l: ListLine)
    requires Proper(l) && !l.form.AsLiteral? && '\"' !in l.name
    ensures |Unit(l)| > |Head(l)| + 2 && OneName(Unit(l), |Head(l)|, |Unit(l)| - 3)
  {
    UnitIs(l);
    EscapeShape(l.name);
    var t := Unit(l);
    forall p | 0 < p < |Head(l)| && t[p] == '*' ensures p + 1 < |t| && t[p + 1] != ' ' {
      StarsInHead(l, p);
      assert t[p] == Head(l)[p] && t[p + 1] == Head(l)[p + 1];
    }
  }

  lemma SuffixOf(t: string, h: nat, e: nat, cut: nat, y: string)
    requires OneName(t, h, e) && 0 < cut <= |t| && y == t[cut..]
    ensures ListedMailbox(Trim(y)).None?
  {
    var lead := TrimWithin(y);
    PartOf(t, h, e, cut, y, lead, Trim(y));
  }

  lemma PartOf(t: string, h: nat, e: nat, cut: nat, y: string, lead: nat, z: string)
    requires OneName(t, h, e) && 0 < cut <= |t| && y == t[cut..] && IsPart(y, lead, z)
    ensures ListedMailbox(z).None?
  {
    PartOfSuffix(t, cut, y, lead, z);
    PartListsNothing(t, h, e, cut + lead, z);
  }

  /** No proper end of a line lists anything. */
  lemma SuffixListsNothing(l: ListLine, cut: nat)
    requires Proper(l) && !l.form.AsLiteral? && '\"' !in l.name && 0 < cut <= |Unit(l)|
    ensures ListedMailbox(Trim(Unit(l)[cut..])).None?
  {
    UnitShape(l);
    SuffixOf(Unit(l), |Head(l)|, |Unit(l)| - 3, cut, Unit(l)[cut..]);
  }

  // ----- one round of the loop ----------------------------------------------------------

  lemma {:induction false} CompleteConsumes(s: string, tag: string, data: seq<string>, r: Outcome<Response>)
    requires r == ReadCommand(s, tag, data) && r.Complete?
    ensures |r.rest| < |s|
    decreases |s|
  {
    var (line, rest) := SplitLine(s);
    match LiteralSize(line)
    case Some(n) => CompleteConsumes(rest[n + 2..], tag, data + [rest[..n]], r);
    case None => if !Completes(line, tag) { CompleteConsumes(rest, tag, data + [Trim(line)], r); }
  }

  /** What the loop has collected stays where it is. */
  lemma {:induction false} DataStays(s: string, tag: string, data: seq<string>, i: nat, r: Outcome<Response>)
    requires r == ReadCommand(s, tag, data) && r.Complete? && i < |data|
    ensures i < |r.value.data| && r.value.data[i] == data[i]
    decreases |s|
  {
    var (line, rest) := SplitLine(s);
    match LiteralSize(line)
    case Some(n) => DataStays(rest[n + 2..], tag, data + [rest[..n]], i, r);
    case None => if !Completes(line, tag) { DataStays(rest, tag, data + [Trim(line)], i, r); }
  }

  /** The three things a line can be to a loop that ends before `rest`. */
  lemma LineRead(y: string, more: string, tag: string, data: seq<string>, r: Outcome<Response>)
    requires IsLine(y) && r == ReadCommand(y + more, tag, data) && r.Complete?
    ensures LiteralSize(y).Some? ==>
      var n := LiteralSize(y).value; |more| >= n + 2 && r == ReadCommand(more[n + 2..], tag, data + [more[..n]])
    ensures LiteralSize(y).None? && Completes(y, tag) ==> r.rest == more && r.value.data == data
    ensures LiteralSize(y).None? && !Completes(y, tag) ==> r == ReadCommand(more, tag, data + [Trim(y)])
  {
    SplitsAt(y, more);
  }

  lemma ReadMarked(y: string, more: string, n: nat, tag: string, data: seq<string>, r: Outcome<Response>)
    requires IsLine(y) && LiteralSize(y) == Some(n) && r == ReadCommand(y + more, tag, data) && r.Complete?
    ensures |more| >= n + 2 && r == ReadCommand(more[n + 2..], tag, data + [more[..n]])
  {
    LineRead(y, more, tag, data, r);
  }

  lemma ReadPlain(y: string, more: string, tag: string, data: seq<string>, r: Outcome<Response>)
    requires IsLine(y) && LiteralSize(y) == None && r == ReadCommand(y + more, tag, data) && r.Complete?
    requires |r.rest| < |more|
    ensures r == ReadCommand(more, tag, data + [Trim(y)])
  {
    LineRead(y, more, tag, data, r);
  }

  /** A loop that ends before `rest` takes an end of the last line before it for the completion. */
  lemma EndRead(z: string, rest: string, tag: string, data: seq<string>, r: Outcome<Response>)
    requires IsLine(z) && r == ReadCommand(z + rest, tag, data) && r.Complete? && r.rest == rest
    ensures r.value.data == data
  {
    LineRead(z, rest, tag, data, r);
    match LiteralSize(z)
    case Some(n) => CompleteConsumes(rest[n + 2..], tag, data + [rest[..n]], r);
    case None => if !Completes(z, tag) { CompleteConsumes(rest, tag, data + [Trim(z)], r); }
  }

  lemma LineEnds(l: string, cut: nat)
    requires IsLine(l) && cut < |l|
    ensures IsLine(l[cut..])
  {}

  // ----- no line is listed twice --------------------------------------------------------

  /** The rest of the response from line `ls[0]` on, and what follows it. */
  function Stream(ls: seq<ListItem>, last: string, rest: string): string { PrintList(ls) + (last + rest) }

  lemma StreamMore(ls: seq<ListItem>, last: string, rest: string)
    requires ls != []
    ensures Stream(ls, last, rest) == Shown(ls[0]) + Stream(ls[1..], last, rest)
  {
    AppendAssoc(Shown(ls[0]), PrintList(ls[1..]), last + rest);
  }

  lemma LongerThanRest(ls: seq<ListItem>, last: string, rest: string)
    requires last != ""
    ensures |Stream(ls, last, rest)| > |rest|
  {}

  lemma UnitLine(l: ListLine)
    requires Proper(l) && !l.form.AsLiteral?
    ensures IsLine(Unit(l))
  {
    SingleIsStarLine(l);
    assert Unit(l)[..|Unit(l)| - 1] == Printed(l) + "\r";
  }

  ghost predicate Fine(ls: seq<ListItem>, last: string, k: nat) {
    AllProper(ls) && QuoteFree(Names(ls)) && Completion(last, Tag(k))
  }

  lemma FineTail(ls: seq<ListItem>, last: string, k: nat)
    requires ls != [] && Fine(ls, last, k)
    ensures ProperItem(ls[0]) && Fine(ls[1..], last, k)
    ensures match ls[0]
      case Mailbox(l) => '\"' !in l.name && |Names(ls)| == |Names(ls[1..])| + 1
      case Other(_) => Names(ls) == Names(ls[1..])
  {
    NamesTail(ls);
    match ls[0]
    case Mailbox(l) => FreeTail(l.name, Names(ls[1..]), Names(ls));
    case Other(_) => assert [] + Names(ls[1..]) == Names(ls[1..]);
  }

  lemma FreeTail(name: string, names: seq<string>, all: seq<string>)
    requires all == [name] + names && QuoteFree(all)
    ensures '\"' !in name && QuoteFree(names) && |all| == |names| + 1
  {
    assert all[0] == name;
    forall j | 0 <= j < |names| ensures '\"' !in names[j] { assert all[j + 1] == names[j]; }
  }

  /** The loop over `s` returns `r`, and does so where `rest` begins. */
  ghost predicate Finishes(s: string, k: nat, data: seq<string>, rest: string, r: Outcome<Response>) {
    r == ReadCommand(s, Tag(k), data) && r.Complete? && r.rest == rest
  }

  /** The head of a line whose name comes as a literal. */
  function Announcement(l: ListLine): string { Head(l) + Marker(|l.name|) }

  lemma LiteralUnit(l: ListLine)
    requires Proper(l) && l.form.AsLiteral?
    ensures Unit(l) == Announcement(l) + (l.name + "\r\n") && Announces(Announcement(l), |l.name|)
  {
    HeadChars(l);
    MarkerLine(Head(l), |l.name|);
    AppendAssoc(Announcement(l), l.name, "\r\n");
  }

  /** From a line on, each line of the response gives at most one listed name, whatever the loop
      takes the lines for. */
  lemma {:induction false} BoundaryBudget(ls: seq<ListItem>, last: string, rest: string, k: nat, data: seq<string>,
                                          r: Outcome<Response>)
    requires Fine(ls, last, k) && Finishes(Stream(ls, last, rest), k, data, rest, r)
    ensures Count(r.value.data) <= Count(data) + |Names(ls)|
    decreases |Stream(ls, last, rest)|, 1, |ls|
  {
    if ls == [] {
      assert Stream(ls, last, rest) == last + rest;
      EndRead(last, rest, Tag(k), data, r);
    } else {
      FineTail(ls, last, k);
      StreamMore(ls, last, rest);
      match ls[0]
      case Other(text) =>
        OtherLine(text);
        LineBudget(Shown(ls[0]), ls[1..], last, rest, k, data, r);
      case Mailbox(l) => MailboxBudget(l, ls[1..], last, rest, k, data, r);
    }
  }

  /** A LIST line before the lines `ls`. */
  lemma {:induction false} MailboxBudget(l: ListLine, ls: seq<ListItem>, last: string, rest: string, k: nat,
                                         data: seq<string>, r: Outcome<Response>)
    requires Proper(l) && '\"' !in l.name && Fine(ls, last, k)
    requires Finishes(Unit(l) + Stream(ls, last, rest), k, data, rest, r)
    ensures Count(r.value.data) <= Count(data) + |Names(ls)| + 1
    decreases |Unit(l) + Stream(ls, last, rest)|, 1, |ls|
  {
    if l.form.AsLiteral? {
      FromStart(Unit(l));
      LiteralBudget(l, 0, ls, last, rest, k, data, r);
    } else {
      UnitLine(l);
      LineBudget(Unit(l), ls, last, rest, k, data, r);
    }
  }

  /** A line before the lines `ls`. */
  lemma {:induction false} LineBudget(y: string, ls: seq<ListItem>, last: string, rest: string, k: nat,
                                      data: seq<string>, r: Outcome<Response>)
    requires IsLine(y) && Fine(ls, last, k)
    requires Finishes(y + Stream(ls, last, rest), k, data, rest, r)
    ensures Count(r.value.data) <= Count(data) + |Names(ls)| + Lists(Trim(y))
    decreases |y + Stream(ls, last, rest)|, 0, 0
  {
    var more := Stream(ls, last, rest);
    if LiteralSize(y).Some? {
      var n := LiteralSize(y).value;
      ReadMarked(y, more, n, Tag(k), data, r);
      SwallowBudget(n, ls, last, rest, k, data, r);
    } else {
      LongerThanRest(ls, last, rest);
      ReadPlain(y, more, Tag(k), data, r);
      CountSnoc(data, Trim(y));
      BoundaryBudget(ls, last, rest, k, data + [Trim(y)], r);
    }
  }

  /** A line with its name as a literal, from a place in its head on, lists nothing. */
  lemma {:induction false} LiteralBudget(l: ListLine, cut: nat, ls: seq<ListItem>, last: string, rest: string, k: nat,
                                         data: seq<string>, r: Outcome<Response>)
    requires Proper(l) && l.form.AsLiteral? && '\"' !in l.name && Fine(ls, last, k) && cut <= |Head(l)|
    requires Finishes(Unit(l)[cut..] + Stream(ls, last, rest), k, data, rest, r)
    ensures Count(r.value.data) <= Count(data) + |Names(ls)|
    decreases |Unit(l)[cut..] + Stream(ls, last, rest)|, 0, 0
  {
    var more := Stream(ls, last, rest);
    LiteralUnit(l);
    HeadChars(l);
    MarkerLine(Head(l)[cut..], |l.name|);
    CutInHead(l, cut, more);
    ReadMarked(Head(l)[cut..] + Marker(|l.name|), l.name + "\r\n" + more, |l.name|, Tag(k), data, r);
    TakeName(l.name, more);
    QuoteFreeListsNothing(l.name);
    CountSnoc(data, l.name);
    BoundaryBudget(ls, last, rest, k, data + [l.name], r);
  }

  lemma TakeName(name: string, more: string)
    ensures (name + "\r\n" + more)[..|name|] == name && (name + "\r\n" + more)[|name| + 2..] == more
  {}

  lemma CutInHead(l: ListLine, cut: nat, more: string)
    requires Unit(l) == Announcement(l) + (l.name + "\r\n") && cut <= |Head(l)|
    ensures Unit(l)[cut..] + more == Head(l)[cut..] + Marker(|l.name|) + (l.name + "\r\n" + more)
  {
    DropWithin(Announcement(l), l.name + "\r\n", cut);
    DropWithin(Head(l), Marker(|l.name|), cut);
    AppendAssoc(Announcement(l)[cut..], l.name + "\r\n", more);
  }

  /** `n` bytes taken for a literal, from a line's beginning on, list no more than the line would. */
  lemma {:induction false} SwallowBudget(n: nat, ls: seq<ListItem>, last: string, rest: string, k: nat,
                                         data: seq<string>, r: Outcome<Response>)
    requires Fine(ls, last, k) && n + 2 <= |Stream(ls, last, rest)|
    requires Finishes(Stream(ls, last, rest)[n + 2..], k, data + [Stream(ls, last, rest)[..n]], rest, r)
    ensures Count(r.value.data) <= Count(data) + |Names(ls)|
    decreases |Stream(ls, last, rest)| - n - 2, |ls| + 4, 0
  {
    var lit := Stream(ls, last, rest)[..n];
    if ls == [] {
      assert Stream(ls, last, rest) == last + rest;
      SwallowLast(n, last, rest, k, data, r);
    } else {
      CountSnoc(data, lit);
      BytesList(n, ls, last, rest, k, lit);
      SkipBudget(n + 2, ls, last, rest, k, data + [lit], r);
    }
  }

  /** Bytes from a line's beginning on list something only if that is a LIST line. */
  lemma BytesList(n: nat, ls: seq<ListItem>, last: string, rest: string, k: nat, lit: string)
    requires ls != [] && Fine(ls, last, k) && n <= |Stream(ls, last, rest)| && lit == Stream(ls, last, rest)[..n]
    ensures Lists(lit) + |Names(ls[1..])| <= |Names(ls)|
  {
    FineTail(ls, last, k);
    StreamMore(ls, last, rest);
    match ls[0]
    case Mailbox(_) =>
    case Other(text) => OtherStart(text, Stream(ls[1..], last, rest), Stream(ls, last, rest), n, lit);
  }

  lemma OtherStart(text: string, more: string, s: string, n: nat, lit: string)
    requires IsOther(text) && s == text + "\r\n" + more && n <= |s| && lit == s[..n]
    ensures Lists(lit) == 0
  {
    OtherPrefix(text, more, lit);
  }

  lemma SwallowLast(n: nat, last: string, rest: string, k: nat, data: seq<string>, r: Outcome<Response>)
    requires Completion(last, Tag(k)) && n + 2 <= |last + rest|
    requires Finishes((last + rest)[n + 2..], k, data + [(last + rest)[..n]], rest, r)
    ensures Count(r.value.data) == Count(data)
  {
    SkipLast(n + 2, last, rest, k, data + [(last + rest)[..n]], r);
    PrefixListsNothing(last, rest, n, k, (last + rest)[..n]);
    CountDead(data, (last + rest)[..n], r.value.data);
  }

  lemma CountDead(data: seq<string>, d: string, all: seq<string>)
    requires all == data + [d] && ListedMailbox(d).None?
    ensures Count(all) == Count(data)
  {
    CountSnoc(data, d);
  }

  lemma PrefixListsNothing(last: string, rest: string, n: nat, k: nat, lit: string)
    requires Completes(last, Tag(k)) && n <= |last| && lit == (last + rest)[..n]
    ensures ListedMailbox(lit).None?
  {
    assert lit == last[..n];
    CompletionListsNothing(last, n, k);
  }

  lemma SkipLast(m: nat, last: string, rest: string, k: nat, data: seq<string>, r: Outcome<Response>)
    requires IsLine(last) && m <= |last + rest| && Finishes((last + rest)[m..], k, data, rest, r)
    ensures m < |last| && r.value.data == data
  {
    CompleteConsumes((last + rest)[m..], Tag(k), data, r);
    DropWithin(last, rest, m);
    LastPart(last, m, rest, k, data, r);
  }

  lemma LastPart(last: string, m: nat, rest: string, k: nat, data: seq<string>, r: Outcome<Response>)
    requires IsLine(last) && m < |last| && Finishes(last[m..] + rest, k, data, rest, r)
    ensures r.value.data == data
  {
    LineEnds(last, m);
    EndRead(last[m..], rest, Tag(k), data, r);
  }

  /** Reading goes on `m` bytes after a line's beginning: not all of the line is left. */
  lemma {:induction false} SkipBudget(m: nat, ls: seq<ListItem>, last: string, rest: string, k: nat,
                                      data: seq<string>, r: Outcome<Response>)
    requires Fine(ls, last, k) && 0 < m <= |Stream(ls, last, rest)| && ls != []
    requires Finishes(Stream(ls, last, rest)[m..], k, data, rest, r)
    ensures Count(r.value.data) <= Count(data) + |Names(ls[1..])|
    decreases |Stream(ls, last, rest)| - m, |ls| + 3, 1
  {
    if m <= |Shown(ls[0])| {
      SkipWithin(m, ls, last, rest, k, data, r);
    } else {
      SkipBeyond(m, ls, last, rest, k, data, r);
    }
  }

  lemma {:induction false} SkipWithin(m: nat, ls: seq<ListItem>, last: string, rest: string, k: nat,
                                      data: seq<string>, r: Outcome<Response>)
    requires Fine(ls, last, k) && 0 < m <= |Stream(ls, last, rest)| && ls != []
    requires Finishes(Stream(ls, last, rest)[m..], k, data, rest, r) && m <= |Shown(ls[0])|
    ensures Count(r.value.data) <= Count(data) + |Names(ls[1..])|
    decreases |Stream(ls, last, rest)| - m, |ls| + 3, 0
  {
    FineTail(ls, last, k);
    StreamWithin(ls, last, rest, m);
    match ls[0]
    case Mailbox(l) => SuffixBudget(l, m, ls[1..], last, rest, k, data, r);
    case Other(text) => OtherBudget(text, m, ls[1..], last, rest, k, data, r);
  }

  lemma {:induction false} SkipBeyond(m: nat, ls: seq<ListItem>, last: string, rest: string, k: nat,
                                      data: seq<string>, r: Outcome<Response>)
    requires Fine(ls, last, k) && 0 < m <= |Stream(ls, last, rest)| && ls != []
    requires Finishes(Stream(ls, last, rest)[m..], k, data, rest, r) && m > |Shown(ls[0])|
    ensures Count(r.value.data) <= Count(data) + |Names(ls[1..])|
    decreases |Stream(ls, last, rest)| - m, |ls| + 3, 0
  {
    var j := m - |Shown(ls[0])|;
    FineTail(ls, last, k);
    StreamBeyond(ls, last, rest, m, j);
    SkipMore(j, ls[1..], last, rest, k, data, r);
  }

  lemma StreamWithin(ls: seq<ListItem>, last: string, rest: string, m: nat)
    requires ls != [] && m <= |Shown(ls[0])|
    ensures m <= |Stream(ls, last, rest)|
    ensures Stream(ls, last, rest)[m..] == Shown(ls[0])[m..] + Stream(ls[1..], last, rest)
    ensures |Shown(ls[0])[m..] + Stream(ls[1..], last, rest)| == |Stream(ls, last, rest)| - m
  {
    StreamMore(ls, last, rest);
    DropWithin(Shown(ls[0]), Stream(ls[1..], last, rest), m);
  }

  lemma StreamBeyond(ls: seq<ListItem>, last: string, rest: string, m: nat, j: nat)
    requires ls != [] && m == |Shown(ls[0])| + j && m <= |Stream(ls, last, rest)|
    ensures j <= |Stream(ls[1..], last, rest)| && |Stream(ls[1..], last, rest)| - j == |Stream(ls, last, rest)| - m
    ensures Stream(ls, last, rest)[m..] == Stream(ls[1..], last, rest)[j..]
  {
    StreamMore(ls, last, rest);
    DropAll(Shown(ls[0]), Stream(ls[1..], last, rest), Stream(ls, last, rest), m, j);
  }

  lemma DropAll(u: string, more: string, s: string, m: nat, j: nat)
    requires s == u + more && m == |u| + j && m <= |s|
    ensures j <= |more| && |more| - j == |s| - m && s[m..] == more[j..]
  {}

  lemma {:induction false} SkipMore(m: nat, ls: seq<ListItem>, last: string, rest: string, k: nat,
                                    data: seq<string>, r: Outcome<Response>)
    requires Fine(ls, last, k) && 0 < m <= |Stream(ls, last, rest)|
    requires Finishes(Stream(ls, last, rest)[m..], k, data, rest, r)
    ensures Count(r.value.data) <= Count(data) + |Names(ls)|
    decreases |Stream(ls, last, rest)| - m, |ls| + 3, 2
  {
    if ls == [] {
      assert Stream(ls, last, rest) == last + rest;
      SkipLast(m, last, rest, k, data, r);
    } else {
      FineTail(ls, last, k);
      SkipBudget(m, ls, last, rest, k, data, r);
    }
  }

  /** Reading goes on within another line. */
  lemma {:induction false} OtherBudget(text: string, cut: nat, ls: seq<ListItem>, last: string, rest: string, k: nat,
                                       data: seq<string>, r: Outcome<Response>)
    requires IsOther(text) && Fine(ls, last, k) && 0 < cut <= |text + "\r\n"|
    requires Finishes((text + "\r\n")[cut..] + Stream(ls, last, rest), k, data, rest, r)
    ensures Count(r.value.data) <= Count(data) + |Names(ls)|
    decreases |(text + "\r\n")[cut..] + Stream(ls, last, rest)|, 2, |ls|
  {
    var y, more := (text + "\r\n")[cut..], Stream(ls, last, rest);
    if y == "" {
      assert y + more == more;
      BoundaryBudget(ls, last, rest, k, data, r);
    } else {
      OtherLine(text);
      LineEnds(text + "\r\n", cut);
      TrimLacksQuotes(y);
      LineBudget(y, ls, last, rest, k, data, r);
    }
  }

  lemma OtherLine(text: string)
    requires IsOther(text)
    ensures IsLine(text + "\r\n") && '\"' !in text + "\r\n" && LiteralSize(text + "\r\n").None?
    ensures Trim(text + "\r\n") == text && ListedMailbox(text).None?
  {
    assert (text + "\r\n")[..|text| + 1] == text + "\r";
    TrimLine(text);
  }

  /** Bytes from the beginning of another line on do not look like a LIST line. */
  lemma OtherPrefix(text: string, more: string, lit: string)
    requires IsOther(text) && lit <= text + "\r\n" + more
    ensures ListedMailbox(lit).None?
  {
    LongEnough(text, more, lit);
    if |text| >= 6 && |lit| >= 6 { assert Upper(text)[..6] == Upper(lit)[..6]; }
  }

  lemma LongEnough(text: string, more: string, lit: string)
    requires lit <= text + "\r\n" + more
    ensures StartsWith(Upper(lit), "* LIST") ==> |text| >= 6
  {
    if |text| < |lit| { assert Upper(lit)[|text|] == '\r'; }
  }

  lemma DropWithin(u: string, more: string, m: nat)
    requires m <= |u|
    ensures (u + more)[m..] == u[m..] + more
  {}

  lemma DropBeyond(u: string, more: string, m: nat)
    requires |u| <= m <= |u + more|
    ensures (u + more)[m..] == more[m - |u|..]
  {}

  /** Reading goes on within line `l`, before the lines `ls`. */
  lemma {:induction false} SuffixBudget(l: ListLine, cut: nat, ls: seq<ListItem>, last: string, rest: string, k: nat,
                                        data: seq<string>, r: Outcome<Response>)
    requires Proper(l) && '\"' !in l.name && Fine(ls, last, k) && 0 < cut <= |Unit(l)|
    requires Finishes(Unit(l)[cut..] + Stream(ls, last, rest), k, data, rest, r)
    ensures Count(r.value.data) <= Count(data) + |Names(ls)|
    decreases |Unit(l)[cut..] + Stream(ls, last, rest)|, 2, |ls|
  {
    var y, more := Unit(l)[cut..], Stream(ls, last, rest);
    if y == "" {
      assert y + more == more;
      BoundaryBudget(ls, last, rest, k, data, r);
    } else if !l.form.AsLiteral? {
      SingleEnd(l, cut);
      LineBudget(y, ls, last, rest, k, data, r);
    } else if cut <= |Head(l)| {
      LiteralBudget(l, cut, ls, last, rest, k, data, r);
    } else if cut < |Announcement(l)| {
      MarkerEndBudget(l, cut, ls, last, rest, k, data, r);
    } else {
      NameEnd(l, cut);
      LineBudget(y, ls, last, rest, k, data, r);
    }
  }

  lemma NameEnd(l: ListLine, cut: nat)
    requires Proper(l) && l.form.AsLiteral? && '\"' !in l.name && |Announcement(l)| <= cut < |Unit(l)|
    ensures IsLine(Unit(l)[cut..]) && ListedMailbox(Trim(Unit(l)[cut..])).None?
  {
    LiteralUnit(l);
    NameAsLine(l.name, cut - |Announcement(l)|);
    DropBeyond(Announcement(l), l.name + "\r\n", cut);
  }

  lemma SingleEnd(l: ListLine, cut: nat)
    requires Proper(l) && !l.form.AsLiteral? && '\"' !in l.name && 0 < cut < |Unit(l)|
    ensures IsLine(Unit(l)[cut..]) && ListedMailbox(Trim(Unit(l)[cut..])).None?
  {
    UnitLine(l);
    LineEnds(Unit(l), cut);
    SuffixListsNothing(l, cut);
  }

  /** The line is cut within its marker: the name is then read as a line. */
  lemma {:induction false} MarkerEndBudget(l: ListLine, cut: nat, ls: seq<ListItem>, last: string, rest: string,
                                           k: nat, data: seq<string>, r: Outcome<Response>)
    requires Proper(l) && l.form.AsLiteral? && '\"' !in l.name && Fine(ls, last, k)
    requires |Head(l)| < cut < |Announcement(l)|
    requires Finishes(Unit(l)[cut..] + Stream(ls, last, rest), k, data, rest, r)
    ensures Count(r.value.data) <= Count(data) + |Names(ls)|
    decreases |Unit(l)[cut..] + Stream(ls, last, rest)|, 0, 0
  {
    var h, name, more := Announcement(l)[cut..], l.name + "\r\n", Stream(ls, last, rest);
    LiteralUnit(l);
    MarkerEnd(l, cut);
    DropWithin(Announcement(l), name, cut);
    AppendAssoc(h, name, more);
    LongerThanRest(ls, last, rest);
    ReadPlain(h, name + more, Tag(k), data, r);
    CountSnoc(data, Trim(h));
    NameAsLine(l.name, 0);
    LineBudget(name, ls, last, rest, k, data + [Trim(h)], r);
  }

  /** An end of a marker that lacks its brace is a line of no interest. */
  lemma MarkerEnd(l: ListLine, cut: nat)
    requires Proper(l) && |Head(l)| < cut < |Announcement(l)|
    ensures var h := Announcement(l)[cut..];
      IsLine(h) && LiteralSize(h).None? && ListedMailbox(Trim(h)).None?
  {
    var d := Decimal(|l.name|);
    DecimalChars(|l.name|, '{');
    DecimalChars(|l.name|, '\"');
    DecimalChars(|l.name|, '\n');
    DropBeyond(Head(l), Marker(|l.name|), cut);
    MarkerTail(d, cut - |Head(l)|);
    PlainTail(Announcement(l)[cut..]);
  }

  lemma PlainTail(h: string)
    requires '{' !in h && '\"' !in h
    ensures LiteralSize(h).None? && ListedMailbox(Trim(h)).None?
  {
    TrimLacksQuotes(h);
  }

  lemma MarkerTail(d: string, c: nat)
    requires 0 < c < |d| + 4 && '{' !in d && '\"' !in d && '\n' !in d
    ensures var h := ("{" + d + "}\r\n")[c..]; IsLine(h) && '{' !in h && '\"' !in h
  {
    var h := ("{" + d + "}\r\n")[c..];
    assert h == (d + "}\r\n")[c - 1..];
    assert h[..|h| - 1] == (d + "}\r")[c - 1..];
  }

  lemma TrimLacksQuotes(s: string)
    requires '\"' !in s
    ensures ListedMailbox(Trim(s)).None?
  {
    var lead := TrimWithin(s);
  }

  lemma NameAsLine(name: string, cut: nat)
    requires '\"' !in name && '\n' !in name && cut < |name| + 2
    ensures var y := (name + "\r\n")[cut..]; IsLine(y) && ListedMailbox(Trim(y)).None?
  {
    var y := (name + "\r\n")[cut..];
    assert y[..|y| - 1] == (name + "\r")[cut..];
    TrimLacksQuotes(y);
  }

  // ----- main results -------------------------------------------------------------------

  lemma DataPrefix(s: string, tag: string, data: seq<string>, r: Outcome<Response>)
    requires r == ReadCommand(s, tag, data) && r.Complete?
    ensures |data| <= |r.value.data| && r.value.data == data + r.value.data[|data|..]
  {
    if data != [] { DataStays(s, tag, data, |data| - 1, r); }
    forall i | 0 <= i < |data| ensures i < |r.value.data| && r.value.data[i] == data[i] {
      DataStays(s, tag, data, i, r);
    }
  }

  /** What has been listed stays listed, in its place. */
  lemma ListedPrefix(s: string, tag: string, data: seq<string>, r: Outcome<Response>)
    requires r == ReadCommand(s, tag, data) && r.Complete?
    ensures ListedMailboxes(data) <= ListedMailboxes(r.value.data)
  {
    DataPrefix(s, tag, data, r);
    ListedConcat(data, r.value.data[|data|..]);
  }

  lemma {:induction false} ListedLacksQuotes(lines: seq<string>)
    ensures QuoteFree(ListedMailboxes(lines))
    decreases |lines|
  {
    if lines != [] { ListedLacksQuotes(lines[1..]); }
  }

  lemma NamesTail(ls: seq<ListItem>)
    requires ls != []
    ensures Names(ls) == Given(ls[0]) + Names(ls[1..])
  {}

  lemma NamesQuoteFree(names: seq<string>, all: seq<string>, before: seq<string>)
    requires all == before + names && QuoteFree(all)
    ensures QuoteFree(names)
  {
    forall j | 0 <= j < |names| ensures '\"' !in names[j] { assert all[|before| + j] == names[j]; }
  }

  lemma UnitTrimmed(l: ListLine)
    requires Proper(l) && !l.form.AsLiteral?
    ensures IsLine(Unit(l)) && Trim(Unit(l)) == Printed(l) && LiteralSize(Unit(l)).Some? == Marked(Printed(l))
  {
    UnitLine(l);
    SingleIsStarLine(l);
    TrimLine(Printed(l));
  }

  /** A line that some name is listed for, over those of the lines after it, has its name in it. */
  lemma NotLiteral(l: ListLine, ls: seq<ListItem>, last: string, rest: string, k: nat, data: seq<string>,
                   r: Outcome<Response>)
    requires Proper(l) && '\"' !in l.name && Fine(ls, last, k)
    requires Finishes(Unit(l) + Stream(ls, last, rest), k, data, rest, r)
    requires Count(r.value.data) > Count(data) + |Names(ls)|
    ensures !l.form.AsLiteral?
  {
    if l.form.AsLiteral? {
      FromStart(Unit(l));
      LiteralBudget(l, 0, ls, last, rest, k, data, r);
    }
  }

  lemma FromStart(s: string)
    ensures s[0..] == s
  {}

  /** Nor is it taken for an announcement. */
  lemma NotAnnounced(y: string, ls: seq<ListItem>, last: string, rest: string, k: nat, data: seq<string>,
                     r: Outcome<Response>)
    requires IsLine(y) && Fine(ls, last, k)
    requires Finishes(y + Stream(ls, last, rest), k, data, rest, r) && Count(r.value.data) > Count(data) + |Names(ls)|
    ensures LiteralSize(y).None?
  {
    match LiteralSize(y)
    case None =>
    case Some(n) =>
      ReadMarked(y, Stream(ls, last, rest), n, Tag(k), data, r);
      SwallowBudget(n, ls, last, rest, k, data, r);
  }

  /** Such a line comes back itself. */
  lemma FirstComesBack(l: ListLine, ls: seq<ListItem>, last: string, rest: string, k: nat, data: seq<string>,
                       r: Outcome<Response>)
    requires Proper(l) && '\"' !in l.name && Fine(ls, last, k)
    requires Finishes(Unit(l) + Stream(ls, last, rest), k, data, rest, r)
    requires ListedMailboxes(r.value.data) == ListedMailboxes(data) + ([l.name] + Names(ls))
    ensures ComesBack(l) && Finishes(Stream(ls, last, rest), k, data + [Printed(l)], rest, r)
    ensures ListedMailboxes(data + [Printed(l)]) == ListedMailboxes(data) + [l.name]
  {
    NotLiteral(l, ls, last, rest, k, data, r);
    UnitTrimmed(l);
    NotAnnounced(Unit(l), ls, last, rest, k, data, r);
    LongerThanRest(ls, last, rest);
    ReadPlain(Unit(l), Stream(ls, last, rest), Tag(k), data, r);
    PlainComesBack(l, ls, last, rest, k, data, r);
  }

  lemma PlainComesBack(l: ListLine, ls: seq<ListItem>, last: string, rest: string, k: nat, data: seq<string>,
                       r: Outcome<Response>)
    requires Proper(l) && !l.form.AsLiteral? && !Marked(Printed(l)) && Fine(ls, last, k)
    requires Finishes(Stream(ls, last, rest), k, data + [Printed(l)], rest, r)
    requires ListedMailboxes(r.value.data) == ListedMailboxes(data) + ([l.name] + Names(ls))
    ensures ComesBack(l) && ListedMailboxes(data + [Printed(l)]) == ListedMailboxes(data) + [l.name]
  {
    var data' := data + [Printed(l)];
    CountSnoc(data, Printed(l));
    BoundaryBudget(ls, last, rest, k, data', r);
    ListedPrefix(Stream(ls, last, rest), Tag(k), data', r);
    ListedConcat(data, [Printed(l)]);
    ListedOne(Printed(l));
    SamePlace(ListedMailboxes(data), ListedMailbox(Printed(l)), l.name, Names(ls), ListedMailboxes(r.value.data));
    LineExactlyWhen(l);
  }

  lemma ListedOne(d: string)
    ensures ListedMailboxes([d]) == match ListedMailbox(d) case None => [] case Some(v) => [v]
  {
    assert ListedMailboxes([d][1..]) == [];
  }

  lemma SamePlace(before: seq<string>, v: Option<string>, name: string, names: seq<string>, all: seq<string>)
    requires v.Some? && before + [v.value] <= all && all == before + ([name] + names)
    ensures v.value == name
  {
    assert (before + [v.value])[|before|] == all[|before|];
  }

  /** The rest of the names still come back after the first line. */
  lemma OneComesBack(ls: seq<ListItem>, last: string, rest: string, k: nat, data: seq<string>, r: Outcome<Response>)
      returns (data': seq<string>)
    requires ls != [] && AllProper(ls) && Completion(last, Tag(k)) && Finishes(Stream(ls, last, rest), k, data, rest, r)
    requires ListedMailboxes(r.value.data) == ListedMailboxes(data) + Names(ls)
    ensures ls[0].Mailbox? ==> ComesBack(ls[0].line)
    ensures AllProper(ls[1..]) && Finishes(Stream(ls[1..], last, rest), k, data', rest, r)
    ensures ListedMailboxes(r.value.data) == ListedMailboxes(data') + Names(ls[1..])
  {
    ListedLacksQuotes(r.value.data);
    NamesQuoteFree(Names(ls), ListedMailboxes(r.value.data), ListedMailboxes(data));
    FineTail(ls, last, k);
    StreamMore(ls, last, rest);
    NamesTail(ls);
    match ls[0]
    case Mailbox(l) =>
      FirstComesBack(l, ls[1..], last, rest, k, data, r);
      AppendAssoc(ListedMailboxes(data), [l.name], Names(ls[1..]));
      data' := data + [Printed(l)];
    case Other(text) =>
      OtherLine(text);
      LongerThanRest(ls[1..], last, rest);
      ReadPlain(text + "\r\n", Stream(ls[1..], last, rest), Tag(k), data, r);
      ListedConcat(data, [text]);
      ListedOne(text);
      assert ListedMailboxes(data) + [] == ListedMailboxes(data);
      data' := data + [text];
  }

  ghost predicate AllBack(ls: seq<ListItem>) { forall i :: 0 <= i < |ls| && ls[i].Mailbox? ==> ComesBack(ls[i].line) }

  lemma AllBackCons(ls: seq<ListItem>)
    requires ls != [] && (ls[0].Mailbox? ==> ComesBack(ls[0].line)) && AllBack(ls[1..])
    ensures AllBack(ls)
  {
    forall i | 0 <= i < |ls| && ls[i].Mailbox? ensures ComesBack(ls[i].line) {
      if i > 0 { assert ls[i] == ls[1..][i - 1]; }
    }
  }

  lemma {:induction false} AllComeBack(ls: seq<ListItem>, last: string, rest: string, k: nat, data: seq<string>,
                                       r: Outcome<Response>)
    requires AllProper(ls) && Completion(last, Tag(k)) && Finishes(Stream(ls, last, rest), k, data, rest, r)
    requires ListedMailboxes(r.value.data) == ListedMailboxes(data) + Names(ls)
    ensures AllBack(ls)
    decreases |ls|
  {
    if ls != [] {
      var data' := OneComesBack(ls, last, rest, k, data, r);
      AllComeBack(ls[1..], last, rest, k, data', r);
      AllBackCons(ls);
    }
  }

  function TextOf(i: ListItem): string { match i case Mailbox(l) => Printed(l) case Other(text) => text }

  function Texts(ls: seq<ListItem>): seq<string> { seq(|ls|, i requires 0 <= i < |ls| => TextOf(ls[i])) }

  /** A line that comes back, or one that is no LIST line, reaches the parser and lists what it should. */
  lemma TextListed(i: ListItem)
    requires ProperItem(i) && (i.Mailbox? ==> ComesBack(i.line))
    ensures StarLine(TextOf(i)) && !Marked(TextOf(i))
    ensures ListedMailbox(TextOf(i)) == if i.Mailbox? then Some(i.line.name) else None
  {
    match i
    case Mailbox(l) =>
      SingleIsStarLine(l);
      LineExactlyWhen(l);
    case Other(text) => OtherLine(text);
  }

  lemma {:induction false} TextsListed(ls: seq<ListItem>)
    requires AllProper(ls) && AllBack(ls)
    ensures PrintList(ls) == Lines(Texts(ls)) && ListedMailboxes(Texts(ls)) == Names(ls)
    decreases |ls|
  {
    if ls != [] {
      assert Texts(ls)[1..] == Texts(ls[1..]);
      TextListed(ls[0]);
      TextsListed(ls[1..]);
    }
  }

  lemma BackAreListed(ls: seq<ListItem>, last: string, rest: string, k: nat)
    requires AllProper(ls) && Completion(last, Tag(k)) && AllBack(ls)
    ensures ReadCommand(Stream(ls, last, rest), Tag(k), []) == Complete(Response(Trim(last), Texts(ls)), rest)
    ensures ListedMailboxes(Texts(ls)) == Names(ls)
  {
    forall i | 0 <= i < |ls| ensures StarLine(Texts(ls)[i]) && !Marked(Texts(ls)[i]) { TextListed(ls[i]); }
    TextsListed(ls);
    PlainResponse(Texts(ls), last, rest, k);
  }

  /** From the bytes a server prints for LIST to the mailboxes, whatever the attributes, delimiters
      and forms of its lines and whatever other lines stand between them: all of them come back, in
      order and with the cursor at the end of the response, exactly when each LIST line has a quoted
      name without a quote, a backslash or a literal marker, or an atom that is the hierarchy
      delimiter. */
  lemma ListResponseExactlyWhen(ls: seq<ListItem>, last: string, rest: string, k: nat)
    requires AllProper(ls) && Completion(last, Tag(k))
    ensures var r := ReadCommand(PrintList(ls) + (last + rest), Tag(k), []);
      (r.Complete? && ListedMailboxes(r.value.data) == Names(ls) && r.rest == rest)
        <==> AllBack(ls)
  {
    var r := ReadCommand(Stream(ls, last, rest), Tag(k), []);
    if r.Complete? && ListedMailboxes(r.value.data) == Names(ls) && r.rest == rest {
      assert ListedMailboxes([]) + Names(ls) == Names(ls);
      AllComeBack(ls, last, rest, k, [], r);
    }
    if AllBack(ls) { BackAreListed(ls, last, rest, k); }
  }

  // ----- names that look like markers ---------------------------------------------------

  /** A quoted name that carries a literal marker: the reader takes as many of the following bytes as
      it says, and two more, for a literal and its end, and never returns the line. */
  lemma MarkedNameSwallows(l: ListLine, n: nat, more: string, tag: string, data: seq<string>)
    requires Proper(l) && l.form.Quoted? && '\"' !in l.name && '\\' !in l.name && LiteralSize(l.name) == Some(n)
    ensures ReadCommand(Unit(l) + more, tag, data)
         == if |more| < n + 2 then ShortRead else ReadCommand(more[n + 2..], tag, data + [more[..n]])
  {
    NameLine(l);
    SingleIsStarLine(l);
    MarkedLineSwallows(Printed(l), more, tag, data);
  }

  /** Every name with a number in braces, and no brace after it, carries one. */
  lemma NumberedName(x: string, n: nat, y: string)
    requires n < USIZE_BOUND && '{' !in y
    ensures LiteralSize(x + (['{'] + (Decimal(n) + (['}'] + y)))) == Some(n)
  {
    DecimalChars(n, '{');
    DecimalChars(n, '}');
    LastBraces(x, Decimal(n), y);
    ParseDecimal(n);
  }

  /** The mailbox `{5}`, quoted: a line that list_mailboxes could read, and that never gets to it. */
  lemma BracedFiveIsLost(l: ListLine, more: string, tag: string, data: seq<string>)
    requires Proper(l) && l.form.Quoted? && l.name == "{5}" && |more| >= 7
    ensures ListedMailbox(Printed(l)) == Some(l.name)
    ensures ReadCommand(Unit(l) + more, tag, data) == ReadCommand(more[7..], tag, data + [more[..5]])
  {
    BracedFive();
    PlainFive(l.name);
    HeadStarts(l);
    ListedExactlyWhen(Head(l), l.name);
    MarkedNameSwallows(l, 5, more, tag, data);
  }

  lemma PlainFive(name: string)
    requires name == "{5}"
    ensures '\"' !in name && '\\' !in name
  {}

  lemma BracedFive()
    ensures LiteralSize("{5}") == Some(5)
  {
    assert Decimal(5) == "5";
    assert "{5}" == "" + (['{'] + (Decimal(5) + (['}'] + "")));
    NumberedName("", 5, "");
  }
}
