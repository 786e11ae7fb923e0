/** Reading IMAP responses: lines, length-delimited literals and the tagged completion line. */
module ImapReader {
  import opened Common
  import opened Text
  import opened ImapText

  // ----- lines --------------------------------------------------------------------------

  /** `read_line`: up to and with the next LF, or all that is left. */
  function SplitLine(s: string): (r: (string, string))
    ensures s == r.0 + r.1
    ensures s != "" ==> r.0 != ""
  {
    match Find(s, '\n')
    case None => (s, "")
    case Some(i) => (s[..i + 1], s[i + 1..])
  }

  ghost predicate IsLine(l: string) { l != "" && l[|l| - 1] == '\n' && '\n' !in l[..|l| - 1] }

  lemma SplitsAt(l: string, rest: string)
    requires IsLine(l)
    ensures SplitLine(l + rest) == (l, rest)
  {
    FindAt(l + rest, '\n', |l| - 1);
  }

  predicate Completes(line: string, tag: string) { StartsWith(Trim(line), tag + " ") }

  // ----- what the two read loops compute ------------------------------------------------

  /** How a read loop ends. `Stalled` is the end of the stream: read_line then returns nothing
      for ever and the loop makes no more progress. */
  datatype Outcome<T> =
    | Complete(value: T, rest: string)
    | ShortRead
    | Stalled

  datatype Response = Response(statusLine: string, data: seq<string>)

  /** The loop of `command`. */
  function ReadCommand(s: string, tag: string, data: seq<string>): Outcome<Response>
    decreases |s|
  {
    if s == "" then Stalled
    else
      var (line, rest) := SplitLine(s);
      match LiteralSize(line)
      case Some(n) =>
        if |rest| < n + 2 then ShortRead
        else ReadCommand(rest[n + 2..], tag, data + [rest[..n]])
      case None =>
        if Completes(line, tag) then Complete(Response(Trim(line), data), rest)
        else ReadCommand(rest, tag, data + [Trim(line)])
  }

  /** The loop of uid_fetch_raw; None is a response without a body. */
  function ReadFetch(s: string, tag: string, body: Option<Bytes>): Outcome<Option<Bytes>>
    decreases |s|
  {
    if s == "" then Stalled
    else
      var (line, rest) := SplitLine(s);
      match LiteralSize(line)
      case Some(n) =>
        if |rest| < n + 2 then ShortRead
        else if Completes(line, tag) then Complete(Some(rest[..n]), rest[n + 2..])
        else ReadFetch(rest[n + 2..], tag, Some(rest[..n]))
      case None =>
        if Completes(line, tag) then Complete(body, rest) else ReadFetch(rest, tag, body)
  }

  // ----- a server's printer -------------------------------------------------------------

  /** An untagged line of no interest. */
  ghost predicate Noise(l: string, tag: string) { IsLine(l) && LiteralSize(l).None? && !Completes(l, tag) }

  /** The tagged completion line. */
  ghost predicate Completion(l: string, tag: string) { IsLine(l) && LiteralSize(l).None? && Completes(l, tag) }

  datatype Item =
    | Untagged(line: string)
    | Literal(line: string, bytes: Bytes, trailer: string)

  function Print(item: Item): string {
    match item
    case Untagged(line) => line
    case Literal(line, bytes, trailer) => line + (bytes + trailer)
  }

  function PrintAll(items: seq<Item>): string {
    if items == [] then "" else Print(items[0]) + PrintAll(items[1..])
  }

  /** A line that announces a literal of `n` bytes. */
  ghost predicate Announces(l: string, n: nat) { IsLine(l) && LiteralSize(l) == Some(n) }

  ghost predicate Printable(item: Item, tag: string) {
    match item
    case Untagged(line) => Noise(line, tag)
    case Literal(line, bytes, trailer) => Announces(line, |bytes|) && |trailer| == 2
  }

  function Datum(item: Item): string {
    match item case Untagged(line) => Trim(line) case Literal(_, bytes, _) => bytes
  }

  function Data(items: seq<Item>): seq<string> {
    if items == [] then [] else [Datum(items[0])] + Data(items[1..])
  }

  /** A server's marker at the end of a line, whatever precedes it. */
  lemma MarkerLine(prefix: string, n: nat)
    requires '\n' !in prefix && n < USIZE_BOUND
    ensures Announces(prefix + Marker(n), n)
  {
    MarkerRoundTrip(prefix, n);
    DecimalChars(n, '\n');
    var l := prefix + Marker(n);
    assert l[..|l| - 1] == prefix + "{" + Decimal(n) + "}\r";
  }

  // ----- one round of a loop ------------------------------------------------------------

  lemma SplitBytes(bytes: string, trailer: string, rest: string)
    requires |trailer| == 2
    ensures var s := bytes + trailer + rest; s[..|bytes|] == bytes && s[|bytes| + 2..] == rest
  {}

  lemma CommandNoise(l: string, rest: string, tag: string, data: seq<string>)
    requires Noise(l, tag)
    ensures ReadCommand(l + rest, tag, data) == ReadCommand(rest, tag, data + [Trim(l)])
  {
    SplitsAt(l, rest);
  }

  lemma CommandLiteral(line: string, bytes: string, trailer: string, rest: string, tag: string, data: seq<string>)
    requires Announces(line, |bytes|) && |trailer| == 2
    ensures ReadCommand(line + (bytes + trailer + rest), tag, data) == ReadCommand(rest, tag, data + [bytes])
  {
    SplitsAt(line, bytes + trailer + rest);
    SplitBytes(bytes, trailer, rest);
  }

  lemma CommandItem(item: Item, more: string, tag: string, data: seq<string>)
    requires Printable(item, tag)
    ensures ReadCommand(Print(item) + more, tag, data) == ReadCommand(more, tag, data + [Datum(item)])
  {
    match item
    case Untagged(line) => CommandNoise(line, more, tag, data);
    case Literal(line, bytes, trailer) =>
      AppendAssoc(line, bytes + trailer, more);
      CommandLiteral(line, bytes, trailer, more, tag, data);
  }

  lemma {:induction false} CommandItems(items: seq<Item>, more: string, tag: string, data: seq<string>)
    requires forall i :: i in items ==> Printable(i, tag)
    ensures ReadCommand(PrintAll(items) + more, tag, data) == ReadCommand(more, tag, data + Data(items))
    decreases |items|
  {
    if items == [] {
      assert PrintAll(items) + more == more;
      assert data + Data(items) == data;
    } else {
      var item := items[0];
      assert item in items;
      AppendAssoc(Print(item), PrintAll(items[1..]), more);
      CommandItem(item, PrintAll(items[1..]) + more, tag, data);
      CommandItems(items[1..], more, tag, data + [Datum(item)]);
      AppendAssoc(data, [Datum(item)], Data(items[1..]));
    }
  }

  /** The command loop reads any response of untagged lines and literals, in order, and stops
      exactly after its completion line: literal bytes may look like anything. */
  lemma CommandFraming(items: seq<Item>, last: string, rest: string, tag: string, data: seq<string>)
    requires forall i :: i in items ==> Printable(i, tag)
    requires Completion(last, tag)
    ensures ReadCommand(PrintAll(items) + (last + rest), tag, data)
         == Complete(Response(Trim(last), data + Data(items)), rest)
  {
    CommandItems(items, last + rest, tag, data);
    SplitsAt(last, rest);
  }

  // ----- how a read loop ends -----------------------------------------------------------

  /** How a stream goes on after whole lines and literals: not at all, with a part of a line, with
      too few bytes of a literal and its line end, or with the completion line. */
  datatype Ending =
    | Silence
    | CutLine(part: string)
    | CutLiteral(line: string, size: nat, bytes: Bytes)
    | Final(last: string, rest: string)

  function PrintEnding(e: Ending): string {
    match e
    case Silence => ""
    case CutLine(part) => part
    case CutLiteral(line, _, bytes) => line + bytes
    case Final(last, rest) => last + rest
  }

  ghost predicate Ends(e: Ending, tag: string) {
    match e
    case Silence => true
    case CutLine(part) => part != "" && '\n' !in part
    case CutLiteral(line, size, bytes) => Announces(line, size) && |bytes| < size + 2
    case Final(last, _) => Completion(last, tag)
  }

  /** The completion line, if there is one; it may be cut short. */
  function LineOf(e: Ending): string {
    match e
    case CutLine(part) => part
    case Final(last, _) => last
    case _ => ""
  }

  /** What a loop that would return `value` at the completion line makes of an ending. */
  function EndOf<T>(e: Ending, tag: string, value: T): Outcome<T> {
    match e
    case Silence => Stalled
    case CutLine(part) =>
      if LiteralSize(part).Some? then ShortRead
      else if Completes(part, tag) then Complete(value, "")
      else Stalled
    case CutLiteral(_, _, _) => ShortRead
    case Final(_, rest) => Complete(value, rest)
  }

  lemma PartLine(part: string)
    requires part != "" && '\n' !in part
    ensures SplitLine(part) == (part, "")
  {}

  /** The command loop on any framed stream. It spins for ever exactly when the stream ends after
      whole items, or within a line that neither shows a literal marker nor starts with the tag; a
      literal cut short is an error, and a cut completion line is taken for the whole one. */
  lemma CommandEnds(items: seq<Item>, e: Ending, tag: string, data: seq<string>)
    requires (forall i :: i in items ==> Printable(i, tag)) && Ends(e, tag)
    ensures ReadCommand(PrintAll(items) + PrintEnding(e), tag, data)
         == EndOf(e, tag, Response(Trim(LineOf(e)), data + Data(items)))
  {
    CommandItems(items, PrintEnding(e), tag, data);
    match e
    case Silence =>
    case CutLine(part) => PartLine(part);
    case CutLiteral(line, _, bytes) => SplitsAt(line, bytes);
    case Final(last, rest) => SplitsAt(last, rest);
  }

  /** Without a completion line the loop never ends, however much it has been sent: it reads on
      until the stream is exhausted and then spins. */
  lemma NoCompletionStalls(items: seq<Item>, tag: string, data: seq<string>)
    requires forall i :: i in items ==> Printable(i, tag)
    ensures ReadCommand(PrintAll(items), tag, data) == Stalled
  {
    CommandEnds(items, Silence, tag, data);
    assert PrintAll(items) + "" == PrintAll(items);
  }

  lemma SplitIsLine(s: string)
    requires '\n' in s
    ensures IsLine(SplitLine(s).0)
  {}

  /** The item at the head of a stream that goes on after its first line. */
  lemma HeadItem(line: string, rest: string, tag: string) returns (item: Item, more: string)
    requires IsLine(line) && (LiteralSize(line).None? ==> !Completes(line, tag))
    requires LiteralSize(line).Some? ==> |rest| >= LiteralSize(line).value + 2
    ensures Printable(item, tag) && item.line == line && line + rest == Print(item) + more && |more| <= |rest|
  {
    match LiteralSize(line)
    case None => item, more := Untagged(line), rest;
    case Some(n) =>
      item, more := Literal(line, rest[..n], rest[n..n + 2]), rest[n + 2..];
      assert rest == rest[..n] + rest[n..n + 2] + more;
      AppendAssoc(line, rest[..n] + rest[n..n + 2], more);
  }

  ghost predicate Framed(s: string, items: seq<Item>, e: Ending, tag: string) {
    && (forall i :: i in items ==> Printable(i, tag)) && Ends(e, tag)
    && s == PrintAll(items) + PrintEnding(e)
  }

  lemma NothingBefore(data: seq<string>)
    ensures [] + data == data
  {}

  /** The whole loop of `command`. */
  lemma CommandEndsAt(items: seq<Item>, e: Ending, s: string, tag: string, o: Outcome<Response>)
    requires Framed(s, items, e, tag) && o == ReadCommand(s, tag, [])
    ensures o == EndOf(e, tag, Response(Trim(LineOf(e)), Data(items)))
  {
    CommandEnds(items, e, tag, []);
    NothingBefore(Data(items));
  }

  /** Every stream is framed: so `CommandEnds` says of each whether the loop terminates. */
  lemma {:induction false} EveryStreamIsFramed(s: string, tag: string) returns (items: seq<Item>, e: Ending)
    ensures Framed(s, items, e, tag)
    decreases |s|
  {
    var (line, rest) := SplitLine(s);
    var size := LiteralSize(line);
    if '\n' !in s {
      e := if s == "" then Silence else CutLine(s);
      items := FrameEnding(s, e, tag);
    } else if size.Some? && |rest| < size.value + 2 {
      SplitIsLine(s);
      e := CutLiteral(line, size.value, rest);
      items := FrameEnding(s, e, tag);
    } else if size.None? && Completes(line, tag) {
      SplitIsLine(s);
      e := Final(line, rest);
      items := FrameEnding(s, e, tag);
    } else {
      SplitIsLine(s);
      var item, more := HeadItem(line, rest, tag);
      items, e := EveryStreamIsFramed(more, tag);
      items := FrameMore(s, item, more, items, e, tag);
    }
  }

  lemma FrameEnding(s: string, e: Ending, tag: string) returns (items: seq<Item>)
    requires s == PrintEnding(e) && Ends(e, tag)
    ensures Framed(s, items, e, tag)
  {
    items := [];
    assert PrintAll([]) + s == s;
  }

  lemma FrameMore(s: string, item: Item, more: string, items: seq<Item>, e: Ending, tag: string)
      returns (all: seq<Item>)
    requires s == Print(item) + more && Printable(item, tag) && Framed(more, items, e, tag)
    ensures Framed(s, all, e, tag)
  {
    all := [item] + items;
    AppendAssoc(Print(item), PrintAll(items), PrintEnding(e));
    assert all[1..] == items;
    assert forall i :: i in all ==> i == item || i in items;
  }

  /** The end of such a stream leaves the loop with nothing to read and nothing to return. */
  predicate Spins(e: Ending, tag: string) {
    e.Silence? || (e.CutLine? && LiteralSize(e.part).None? && !Completes(e.part, tag))
  }

  lemma CommandSpinsExactlyWhen(s: string, tag: string, data: seq<string>)
    ensures ReadCommand(s, tag, data).Stalled? <==> exists items, e :: Framed(s, items, e, tag) && Spins(e, tag)
  {
    var items, e := EveryStreamIsFramed(s, tag);
    CommandEnds(items, e, tag, data);
    forall items', e' | Framed(s, items', e', tag) && Spins(e', tag) ensures ReadCommand(s, tag, data).Stalled? {
      CommandEnds(items', e', tag, data);
    }
  }

  // ----- responses of plain lines -------------------------------------------------------

  /** What a server prints as an untagged response line, without its CRLF. */
  predicate StarLine(l: string) { l != "" && l[0] == '*' && !IsSpace(l[|l| - 1]) && '\n' !in l }

  ghost predicate StarLines(ls: seq<string>) { forall i :: 0 <= i < |ls| ==> StarLine(ls[i]) }

  /** The line is taken for the announcement of a literal. */
  predicate Marked(l: string) { LiteralSize(l + "\r\n").Some? }

  function Lines(ls: seq<string>): string {
    if ls == [] then "" else ls[0] + "\r\n" + Lines(ls[1..])
  }

  lemma TagFirst(l: string, k: nat)
    requires l != "" && l[0] == '*'
    ensures !Completes(l, Tag(k))
  {
    TagSpaceless(k);
    assert TrimStart(l) == l;
    TrimEndIs(l);
    assert Trim(l) != "" ==> Trim(l)[0] == '*';
  }

  /** A completion line is that of one command: its tag, a space and a text. */
  lemma CompletesExactlyWhen(j: nat, k: nat, text: string)
    requires text != "" && !IsSpace(text[|text| - 1])
    ensures Completes(Tag(j) + " " + text + "\r\n", Tag(k)) <==> j == k
  {
    var line := Tag(j) + " " + text;
    TagSpaceless(j);
    assert line[0] == Tag(j)[0] && line[|line| - 1] == text[|text| - 1];
    TrimLine(line);
    TagsUnambiguous(k, j, text);
  }

  /** No command's tag begins such a line, so it is an untagged line for every command. */
  lemma StarLineIsNoise(l: string, k: nat)
    requires StarLine(l) && !Marked(l)
    ensures Noise(l + "\r\n", Tag(k)) && Trim(l + "\r\n") == l
  {
    TrimLine(l);
    TagFirst(l + "\r\n", k);
    assert (l + "\r\n")[..|l| + 1] == l + "\r";
  }

  /** Such lines reach the caller as they are. */
  lemma {:induction false} PlainLines(ls: seq<string>, more: string, k: nat, data: seq<string>)
    requires StarLines(ls) && forall i :: 0 <= i < |ls| ==> !Marked(ls[i])
    ensures ReadCommand(Lines(ls) + more, Tag(k), data) == ReadCommand(more, Tag(k), data + ls)
    decreases |ls|
  {
    if ls == [] {
      assert Lines(ls) + more == more;
      assert data + ls == data;
    } else {
      StarLineIsNoise(ls[0], k);
      AppendAssoc(ls[0] + "\r\n", Lines(ls[1..]), more);
      CommandNoise(ls[0] + "\r\n", Lines(ls[1..]) + more, Tag(k), data);
      PlainLines(ls[1..], more, k, data + [ls[0]]);
      assert [ls[0]] + ls[1..] == ls;
      AppendAssoc(data, [ls[0]], ls[1..]);
    }
  }

  lemma PlainResponse(ls: seq<string>, last: string, rest: string, k: nat)
    requires StarLines(ls) && forall i :: 0 <= i < |ls| ==> !Marked(ls[i])
    requires Completion(last, Tag(k))
    ensures ReadCommand(Lines(ls) + (last + rest), Tag(k), []) == Complete(Response(Trim(last), ls), rest)
  {
    PlainLines(ls, last + rest, k, []);
    SplitsAt(last, rest);
    assert [] + ls == ls;
  }

  /** A line with a marker never reaches the caller: it and the bytes it announces, with two
      more, are swallowed, whatever they were meant to be. */
  lemma MarkedLineSwallows(l: string, more: string, tag: string, data: seq<string>)
    requires StarLine(l) && Marked(l)
    ensures var n := LiteralSize(l + "\r\n").value;
      ReadCommand(l + "\r\n" + more, tag, data)
        == if |more| < n + 2 then ShortRead else ReadCommand(more[n + 2..], tag, data + [more[..n]])
  {
    assert (l + "\r\n")[..|l| + 1] == l + "\r";
    SplitsAt(l + "\r\n", more);
  }

  // ----- FETCH --------------------------------------------------------------------------

  /** A FETCH response: lines before, the marker line, the body, the rest of that line (its
      first two bytes, and what remains of it), lines after, and the completion line. */
  datatype FetchResponse = FetchResponse(
    before: seq<string>, prefix: string, body: Bytes, closing: string, remainder: string,
    after: seq<string>, last: string)

  function Concat(lines: seq<string>): string {
    if lines == [] then "" else lines[0] + Concat(lines[1..])
  }

  function PrintFetch(r: FetchResponse): string {
    Concat(r.before) + (r.prefix + Marker(|r.body|) + (r.body + r.closing + (r.remainder + (Concat(r.after) + r.last))))
  }

  /** The line that the literal interrupts goes on with at least two bytes. The loop takes them
      for CRLF, though in a FETCH response they are `)` and CR, so the lone LF remains as a line. */
  ghost predicate WellFormed(r: FetchResponse, tag: string) {
    && (forall l :: l in r.before ==> Noise(l, tag))
    && '\n' !in r.prefix && !Completes(r.prefix + Marker(|r.body|), tag) && |r.body| < USIZE_BOUND
    && |r.closing| == 2 && (r.remainder == "" || Noise(r.remainder, tag))
    && (forall l :: l in r.after ==> Noise(l, tag))
    && Completion(r.last, tag)
  }

  lemma {:induction false} FetchNoise(lines: seq<string>, rest: string, tag: string, body: Option<Bytes>)
    requires forall l :: l in lines ==> Noise(l, tag)
    ensures ReadFetch(Concat(lines) + rest, tag, body) == ReadFetch(rest, tag, body)
    decreases |lines|
  {
    if lines == [] {
      assert Concat(lines) + rest == rest;
    } else {
      assert lines[0] in lines;
      assert Concat(lines) + rest == lines[0] + (Concat(lines[1..]) + rest);
      SplitsAt(lines[0], Concat(lines[1..]) + rest);
      FetchNoise(lines[1..], rest, tag, body);
    }
  }

  lemma FetchLiteral(line: string, bytes: string, two: string, rest: string, tag: string, body: Option<Bytes>)
    requires Announces(line, |bytes|) && !Completes(line, tag) && |two| == 2
    ensures ReadFetch(line + (bytes + two + rest), tag, body) == ReadFetch(rest, tag, Some(bytes))
  {
    SplitsAt(line, bytes + two + rest);
    SplitBytes(bytes, two, rest);
  }

  lemma FetchEnd(after: seq<string>, last: string, rest: string, tag: string, body: Option<Bytes>)
    requires (forall l :: l in after ==> Noise(l, tag)) && Completion(last, tag)
    ensures ReadFetch(Concat(after) + (last + rest), tag, body) == Complete(body, rest)
  {
    FetchNoise(after, last + rest, tag, body);
    SplitsAt(last, rest);
  }

  lemma FetchRemainder(l: string, rest: string, tag: string, body: Option<Bytes>)
    requires l == "" || Noise(l, tag)
    ensures ReadFetch(l + rest, tag, body) == ReadFetch(rest, tag, body)
  {
    if l == "" { assert l + rest == rest; } else { SplitsAt(l, rest); }
  }

  /** Whatever the body's bytes, uid_fetch_raw returns them and leaves the cursor just after
      the completion line. */
  lemma FetchRoundTrip(r: FetchResponse, rest: string, tag: string)
    requires WellFormed(r, tag)
    ensures ReadFetch(PrintFetch(r) + rest, tag, None) == Complete(Some(r.body), rest)
  {
    var ending := Concat(r.after) + (r.last + rest);
    var main := r.prefix + Marker(|r.body|) + (r.body + r.closing + (r.remainder + ending));
    PrintFetchParts(r, rest);
    FetchNoise(r.before, main, tag, None);
    MarkerLine(r.prefix, |r.body|);
    FetchLiteral(r.prefix + Marker(|r.body|), r.body, r.closing, r.remainder + ending, tag, None);
    FetchRemainder(r.remainder, ending, tag, Some(r.body));
    FetchEnd(r.after, r.last, rest, tag, Some(r.body));
  }

  lemma PrintFetchParts(r: FetchResponse, rest: string)
    ensures PrintFetch(r) + rest
         == Concat(r.before) + (r.prefix + Marker(|r.body|)
            + (r.body + r.closing + (r.remainder + (Concat(r.after) + (r.last + rest)))))
  {}

  // ----- how the fetch loop ends ---------------------------------------------------------

  /** The body is that of the last literal. */
  function BodyAfter(items: seq<Item>, body: Option<Bytes>): Option<Bytes>
    decreases |items|
  {
    if items == [] then body
    else BodyAfter(items[1..], if items[0].Literal? then Some(items[0].bytes) else body)
  }

  /** uid_fetch_raw looks for the tag on marker lines too. */
  ghost predicate FetchPrintable(item: Item, tag: string) {
    Printable(item, tag) && (item.Literal? ==> !Completes(item.line, tag))
  }

  lemma FetchItem(item: Item, more: string, tag: string, body: Option<Bytes>)
    requires FetchPrintable(item, tag)
    ensures ReadFetch(Print(item) + more, tag, body)
         == ReadFetch(more, tag, if item.Literal? then Some(item.bytes) else body)
  {
    match item
    case Untagged(line) => SplitsAt(line, more);
    case Literal(line, bytes, trailer) =>
      AppendAssoc(line, bytes + trailer, more);
      FetchLiteral(line, bytes, trailer, more, tag, body);
  }

  lemma {:induction false} FetchItems(items: seq<Item>, more: string, tag: string, body: Option<Bytes>)
    requires forall i :: i in items ==> FetchPrintable(i, tag)
    ensures ReadFetch(PrintAll(items) + more, tag, body) == ReadFetch(more, tag, BodyAfter(items, body))
    decreases |items|
  {
    if items == [] {
      assert PrintAll(items) + more == more;
    } else {
      var item := items[0];
      assert item in items;
      AppendAssoc(Print(item), PrintAll(items[1..]), more);
      FetchItem(item, PrintAll(items[1..]) + more, tag, body);
      FetchItems(items[1..], more, tag, if item.Literal? then Some(item.bytes) else body);
    }
  }

  /** How a stream goes on for the fetch loop: a marker line that starts with the tag ends it too,
      after the literal. */
  datatype FetchEnding =
    | Plain(e: Ending)
    | Announced(line: string, bytes: Bytes, trailer: string, rest: string)

  function PrintFetchEnding(e: FetchEnding): string {
    match e
    case Plain(p) => PrintEnding(p)
    case Announced(line, bytes, trailer, rest) => line + (bytes + trailer + rest)
  }

  ghost predicate FetchStops(e: FetchEnding, tag: string) {
    match e
    case Plain(p) => Ends(p, tag)
    case Announced(line, bytes, trailer, _) => Announces(line, |bytes|) && Completes(line, tag) && |trailer| == 2
  }

  function FetchEndOf(e: FetchEnding, tag: string, body: Option<Bytes>): Outcome<Option<Bytes>> {
    match e
    case Plain(p) => EndOf(p, tag, body)
    case Announced(_, bytes, _, rest) => Complete(Some(bytes), rest)
  }

  lemma PlainStop(p: Ending, tag: string, body: Option<Bytes>)
    requires Ends(p, tag)
    ensures ReadFetch(PrintEnding(p), tag, body) == EndOf(p, tag, body)
  {
    match p
    case Silence =>
    case CutLine(part) => PartLine(part);
    case CutLiteral(line, _, bytes) => SplitsAt(line, bytes);
    case Final(last, rest) => SplitsAt(last, rest);
  }

  lemma AnnouncedStop(line: string, bytes: Bytes, trailer: string, rest: string, tag: string, body: Option<Bytes>)
    requires Announces(line, |bytes|) && Completes(line, tag) && |trailer| == 2
    ensures ReadFetch(line + (bytes + trailer + rest), tag, body) == Complete(Some(bytes), rest)
  {
    SplitsAt(line, bytes + trailer + rest);
    SplitBytes(bytes, trailer, rest);
  }

  /** The fetch loop on any framed stream: it spins, fails and returns where the command loop does,
      or after a literal whose announcement starts with the tag. */
  lemma FetchEnds(items: seq<Item>, e: FetchEnding, tag: string, body: Option<Bytes>)
    requires (forall i :: i in items ==> FetchPrintable(i, tag)) && FetchStops(e, tag)
    ensures ReadFetch(PrintAll(items) + PrintFetchEnding(e), tag, body) == FetchEndOf(e, tag, BodyAfter(items, body))
  {
    FetchItems(items, PrintFetchEnding(e), tag, body);
    match e
    case Plain(p) => PlainStop(p, tag, BodyAfter(items, body));
    case Announced(line, bytes, trailer, rest) =>
      AnnouncedStop(line, bytes, trailer, rest, tag, BodyAfter(items, body));
  }

  ghost predicate FetchFramed(s: string, items: seq<Item>, e: FetchEnding, tag: string) {
    && (forall i :: i in items ==> FetchPrintable(i, tag)) && FetchStops(e, tag)
    && s == PrintAll(items) + PrintFetchEnding(e)
  }

  lemma FetchFrameEnding(s: string, e: FetchEnding, tag: string) returns (items: seq<Item>)
    requires s == PrintFetchEnding(e) && FetchStops(e, tag)
    ensures FetchFramed(s, items, e, tag)
  {
    items := [];
    assert PrintAll([]) + s == s;
  }

  lemma FetchFrameMore(s: string, item: Item, more: string, items: seq<Item>, e: FetchEnding, tag: string)
      returns (all: seq<Item>)
    requires s == Print(item) + more && FetchPrintable(item, tag) && FetchFramed(more, items, e, tag)
    ensures FetchFramed(s, all, e, tag)
  {
    all := [item] + items;
    AppendAssoc(Print(item), PrintAll(items), PrintFetchEnding(e));
    assert all[1..] == items;
    assert forall i :: i in all ==> i == item || i in items;
  }

  lemma AnnouncedNow(line: string, rest: string, n: nat, tag: string) returns (e: FetchEnding)
    requires Announces(line, n) && Completes(line, tag) && |rest| >= n + 2
    ensures line + rest == PrintFetchEnding(e) && FetchStops(e, tag)
  {
    e := Announced(line, rest[..n], rest[n..n + 2], rest[n + 2..]);
    assert rest == rest[..n] + rest[n..n + 2] + rest[n + 2..];
  }

  /** Where the stream ends with its first line. */
  lemma FetchEndingNow(s: string, line: string, rest: string, tag: string) returns (e: FetchEnding)
    requires SplitLine(s) == (line, rest) && '\n' in s
    requires Completes(line, tag) || (LiteralSize(line).Some? && |rest| < LiteralSize(line).value + 2)
    ensures s == PrintFetchEnding(e) && FetchStops(e, tag)
  {
    SplitIsLine(s);
    match LiteralSize(line)
    case None => e := Plain(Final(line, rest));
    case Some(n) =>
      if |rest| < n + 2 {
        e := Plain(CutLiteral(line, n, rest));
      } else {
        e := AnnouncedNow(line, rest, n, tag);
      }
  }

  /** Every stream is framed for the fetch loop: so `FetchEnds` says of each whether it terminates. */
  lemma {:induction false} EveryFetchStreamIsFramed(s: string, tag: string)
      returns (items: seq<Item>, e: FetchEnding)
    ensures FetchFramed(s, items, e, tag)
    decreases |s|
  {
    var (line, rest) := SplitLine(s);
    var size := LiteralSize(line);
    if '\n' !in s {
      e := Plain(if s == "" then Silence else CutLine(s));
      items := FetchFrameEnding(s, e, tag);
    } else if Completes(line, tag) || (size.Some? && |rest| < size.value + 2) {
      e := FetchEndingNow(s, line, rest, tag);
      items := FetchFrameEnding(s, e, tag);
    } else {
      SplitIsLine(s);
      var item, more := HeadItem(line, rest, tag);
      items, e := EveryFetchStreamIsFramed(more, tag);
      items := FetchFrameMore(s, item, more, items, e, tag);
    }
  }

  lemma FetchSpinsExactlyWhen(s: string, tag: string, body: Option<Bytes>)
    ensures ReadFetch(s, tag, body).Stalled?
      <==> exists items, e :: FetchFramed(s, items, Plain(e), tag) && Spins(e, tag)
  {
    var items, e := EveryFetchStreamIsFramed(s, tag);
    FetchEnds(items, e, tag, body);
    if e.Plain? { assert FetchFramed(s, items, Plain(e.e), tag); }
    forall items', e' | FetchFramed(s, items', Plain(e'), tag) && Spins(e', tag)
      ensures ReadFetch(s, tag, body).Stalled?
    {
      FetchEnds(items', Plain(e'), tag, body);
    }
  }

  // ----- sessions -----------------------------------------------------------------------

  /** Reading one fetch after another, each with the tag its command was sent with. */
  function ReadFetches(s: string, tags: seq<string>): Outcome<seq<Option<Bytes>>>
    decreases |tags|
  {
    if tags == [] then Complete([], s)
    else
      match ReadFetch(s, tags[0], None)
      case ShortRead => ShortRead
      case Stalled => Stalled
      case Complete(body, rest) =>
        match ReadFetches(rest, tags[1..])
        case Complete(bodies, end) => Complete([body] + bodies, end)
        case other => other
  }

  /** The stream of the responses, followed by `rest`. */
  function PrintFetches(rs: seq<FetchResponse>, rest: string): string {
    if rs == [] then rest else PrintFetch(rs[0]) + PrintFetches(rs[1..], rest)
  }

  function Bodies(rs: seq<FetchResponse>): seq<Option<Bytes>> {
    if rs == [] then [] else [Some(rs[0].body)] + Bodies(rs[1..])
  }

  lemma SessionStep(r: FetchResponse, more: string, tags: seq<string>, bodies: seq<Option<Bytes>>, end: string)
    requires tags != [] && WellFormed(r, tags[0])
    requires ReadFetches(more, tags[1..]) == Complete(bodies, end)
    ensures ReadFetches(PrintFetch(r) + more, tags) == Complete([Some(r.body)] + bodies, end)
  {
    FetchRoundTrip(r, more, tags[0]);
  }

  /** Any sequence of fetches stays aligned with the server: every body is returned to the
      command that asked for it, and the cursor ends where the last response does. */
  lemma {:induction false} SessionStaysAligned(rs: seq<FetchResponse>, tags: seq<string>, rest: string)
    requires |tags| == |rs| && forall i :: 0 <= i < |rs| ==> WellFormed(rs[i], tags[i])
    ensures ReadFetches(PrintFetches(rs, rest), tags) == Complete(Bodies(rs), rest)
    decreases |rs|
  {
    if rs != [] {
      SessionStaysAligned(rs[1..], tags[1..], rest);
      SessionStep(rs[0], PrintFetches(rs[1..], rest), tags, Bodies(rs[1..]), rest);
    }
  }
}
