/** The IMAP client: its two read loops and the commands the engine sends. */
module ImapClient {
  import opened Common
  import opened Text
  import opened ImapText
  import opened ImapReader
  import opened ImapList
  import opened ImapListResponse
  import opened ImapSearch
  import opened ImapSelect

  // ----- the client ---------------------------------------------------------------------

  /** The process-wide counter behind next_tag; a 32-bit counter that wraps around. */
  class TagCounter {
    var value: nat

    constructor ()
      ensures value == 1
    {
      value := 1;
    }

    method NextTag() returns (tag: string)
      requires value < U32_BOUND
      modifies this
      ensures tag == Tag(old(value))
      ensures value == (old(value) + 1) % U32_BOUND
    {
      tag := Tag(value);
      value := (value + 1) % U32_BOUND;
    }
  }

  /** How a command ends. `Hangs` is a loop that spins at the end of the stream for ever. */
  datatype Result<T> = Ok(value: T) | NotConnected | Refused | BadRead | NoBody | Hangs

  /** What a read loop's outcome leaves in the stream. */
  function Remaining<T>(o: Outcome<T>): string { match o case Complete(_, rest) => rest case _ => "" }

  function ResultOf<T>(o: Outcome<T>): Result<T> {
    match o
    case Complete(v, _) => Ok(v)
    case ShortRead => BadRead
    case Stalled => Hangs
  }

  /** How a command ends over a stream with the ending `e`: with `value` at its completion line, which
      may be cut short, leaving what follows; with an error when a literal is cut short; or never. */
  ghost predicate EndsAs<T(!new)>(e: Ending, tag: string, value: Result<T>, r: Result<T>, rest: string) {
    match e
    case Silence => r == Hangs && rest == ""
    case CutLine(part) =>
      && rest == ""
      && r == if LiteralSize(part).Some? then BadRead else if Completes(part, tag) then value else Hangs
    case CutLiteral(_, _, _) => r == BadRead && rest == ""
    case Final(_, more) => r == value && rest == more
  }

  /** `command` over the bytes `s`: the status line and the data of its items, in order. */
  ghost predicate Answered(s: string, tag: string, r: Result<Response>, rest: string) {
    exists items, e ::
      Framed(s, items, e, tag) && EndsAs(e, tag, Ok(Response(Trim(LineOf(e)), Data(items))), r, rest)
  }

  /** uid_fetch_raw: the bytes of the last literal, if there was one. */
  ghost predicate FetchedAs(s: string, tag: string, r: Result<Bytes>, rest: string) {
    exists items, e :: FetchFramed(s, items, e, tag) &&
      match e
      case Plain(p) => EndsAs(p, tag, BodyOr(BodyAfter(items, None)), r, rest)
      case Announced(_, bytes, _, more) => r == Ok(bytes) && rest == more
  }

  function BodyOr(body: Option<Bytes>): Result<Bytes> { match body case None => NoBody case Some(b) => Ok(b) }

  /** list_mailboxes: what the parser lists, whatever the status. */
  ghost predicate ListedAs(s: string, tag: string, r: Result<seq<string>>, rest: string) {
    exists items, e :: Framed(s, items, e, tag) && EndsAs(e, tag, Ok(ListedMailboxes(Data(items))), r, rest)
  }

  /** uid_search_all: refused only if the response is neither OK nor mentions SEARCH. */
  ghost predicate SearchedAs(s: string, tag: string, r: Result<seq<int>>, rest: string) {
    exists items, e ::
      Framed(s, items, e, tag) && EndsAs(e, tag, UidsOf(Trim(LineOf(e)), Data(items)), r, rest)
  }

  function UidsOf(status: string, data: seq<string>): Result<seq<int>> {
    if StatusOf(status) == "OK" || AnySearch(data) then Ok(AllSearchedUids(data)) else Refused
  }

  /** select_mailbox: UIDVALIDITY and EXISTS, as they are read last. */
  ghost predicate SelectedAs(s: string, tag: string, r: Result<(int, int)>, rest: string) {
    exists items, e ::
      Framed(s, items, e, tag) && EndsAs(e, tag, NumbersOf(Trim(LineOf(e)), Data(items)), r, rest)
  }

  function NumbersOf(status: string, data: seq<string>): Result<(int, int)> {
    if StatusOf(status) == "OK" then Ok((LastRead(data, UidValidityOf, 0), LastRead(data, ExistsOf, 0))) else Refused
  }

  lemma EndsAsOf<T(!new)>(e: Ending, tag: string, value: T, o: Outcome<T>)
    requires o == EndOf(e, tag, value)
    ensures EndsAs(e, tag, Ok(value), ResultOf(o), Remaining(o))
  {}

  lemma CommandOutcome(items: seq<Item>, e: Ending, s: string, tag: string, o: Outcome<Response>)
    requires Framed(s, items, e, tag) && o == ReadCommand(s, tag, [])
    ensures EndsAs(e, tag, Ok(Response(Trim(LineOf(e)), Data(items))), ResultOf(o), Remaining(o))
  {
    CommandEndsAt(items, e, s, tag, o);
    EndsAsOf(e, tag, Response(Trim(LineOf(e)), Data(items)), o);
  }

  lemma BodyEnds(e: Ending, tag: string, body: Option<Bytes>, o: Outcome<Option<Bytes>>)
    requires o == EndOf(e, tag, body)
    ensures EndsAs(e, tag, BodyOr(body), BodyOf(o), Remaining(o))
  {}

  lemma FetchOutcome(items: seq<Item>, e: Ending, s: string, tag: string, o: Outcome<Option<Bytes>>)
    requires FetchFramed(s, items, Plain(e), tag) && o == ReadFetch(s, tag, None)
    ensures EndsAs(e, tag, BodyOr(BodyAfter(items, None)), BodyOf(o), Remaining(o))
  {
    FetchEnds(items, Plain(e), tag, None);
    BodyEnds(e, tag, BodyAfter(items, None), o);
  }

  function BodyOf(o: Outcome<Option<Bytes>>): Result<Bytes> {
    match o
    case Complete(body, _) => BodyOr(body)
    case ShortRead => BadRead
    case Stalled => Hangs
  }

  lemma CommandAnswers(s: string, tag: string, o: Outcome<Response>)
    requires o == ReadCommand(s, tag, [])
    ensures Answered(s, tag, ResultOf(o), Remaining(o))
  {
    var items, e := EveryStreamIsFramed(s, tag);
    CommandOutcome(items, e, s, tag, o);
  }

  lemma FetchAnswers(s: string, tag: string, o: Outcome<Option<Bytes>>)
    requires o == ReadFetch(s, tag, None)
    ensures FetchedAs(s, tag, BodyOf(o), Remaining(o))
  {
    var items, e := EveryFetchStreamIsFramed(s, tag);
    match e
    case Plain(p) => FetchOutcome(items, p, s, tag, o);
    case Announced(_, _, _, _) => FetchEnds(items, e, tag, None);
  }

  /** An error of the command is the error of the caller. */
  function Mapped<T, U>(r: Result<T>, f: T -> Result<U>): Result<U> {
    match r
    case Ok(v) => f(v)
    case NotConnected => NotConnected
    case Refused => Refused
    case BadRead => BadRead
    case NoBody => NoBody
    case Hangs => Hangs
  }

  predicate AnySearch(lines: seq<string>) { exists i :: 0 <= i < |lines| && Contains(lines[i], SEARCH) }

  function SearchResult(r: Response): Result<seq<int>> { UidsOf(r.statusLine, r.data) }

  function ListResult(r: Response): Result<seq<string>> { Ok(ListedMailboxes(r.data)) }

  /** The loop of list_mailboxes. */
  method CollectMailboxes(data: seq<string>) returns (folders: seq<string>)
    ensures folders == ListedMailboxes(data)
  {
    folders := [];
    var i := 0;
    while i < |data|
      invariant 0 <= i <= |data|
      invariant folders + ListedMailboxes(data[i..]) == ListedMailboxes(data)
    {
      assert data[i..][0] == data[i] && data[i..][1..] == data[i + 1..];
      var f := ListedMailbox(data[i]);
      if f.Some? { folders := folders + [f.value]; }
      i := i + 1;
    }
    assert folders + [] == folders;
  }

  /** The loop of uid_search_all. */
  method CollectUids(data: seq<string>) returns (uids: seq<int>)
    ensures uids == AllSearchedUids(data)
  {
    uids := [];
    var i := 0;
    while i < |data|
      invariant 0 <= i <= |data|
      invariant uids + AllSearchedUids(data[i..]) == AllSearchedUids(data)
    {
      assert data[i..][0] == data[i] && data[i..][1..] == data[i + 1..];
      AppendAssoc(uids, SearchedUids(data[i]), AllSearchedUids(data[i + 1..]));
      uids := uids + SearchedUids(data[i]);
      i := i + 1;
    }
    assert uids + [] == uids;
  }

  function SelectResult(r: Response): Result<(int, int)> { NumbersOf(r.statusLine, r.data) }

  /** The loop of select_mailbox. */
  method ScanNumbers(data: seq<string>) returns (validity: int, count: int)
    ensures validity == LastRead(data, UidValidityOf, 0) && count == LastRead(data, ExistsOf, 0)
  {
    validity, count := 0, 0;
    var i := 0;
    while i < |data|
      invariant 0 <= i <= |data|
      invariant LastRead(data[i..], UidValidityOf, validity) == LastRead(data, UidValidityOf, 0)
      invariant LastRead(data[i..], ExistsOf, count) == LastRead(data, ExistsOf, 0)
    {
      assert data[i..][0] == data[i] && data[i..][1..] == data[i + 1..];
      var v, n := UidValidityOf(data[i]), ExistsOf(data[i]);
      if v.Some? { validity := v.value; }
      if n.Some? { count := n.value; }
      i := i + 1;
    }
  }

  lemma EndsMapped<T(!new), U(!new)>(e: Ending, tag: string, value: T, r: Result<T>, rest: string, f: T -> Result<U>)
    requires EndsAs(e, tag, Ok(value), r, rest)
    ensures EndsAs(e, tag, f(value), Mapped(r, f), rest)
  {}

  lemma ListAnswers(s: string, tag: string, r: Result<Response>, rest: string)
    requires Answered(s, tag, r, rest)
    ensures ListedAs(s, tag, Mapped(r, ListResult), rest)
  {
    var items, e :| Framed(s, items, e, tag) && EndsAs(e, tag, Ok(Response(Trim(LineOf(e)), Data(items))), r, rest);
    EndsMapped(e, tag, Response(Trim(LineOf(e)), Data(items)), r, rest, ListResult);
  }

  lemma SearchAnswers(s: string, tag: string, r: Result<Response>, rest: string)
    requires Answered(s, tag, r, rest)
    ensures SearchedAs(s, tag, Mapped(r, SearchResult), rest)
  {
    var items, e :| Framed(s, items, e, tag) && EndsAs(e, tag, Ok(Response(Trim(LineOf(e)), Data(items))), r, rest);
    EndsMapped(e, tag, Response(Trim(LineOf(e)), Data(items)), r, rest, SearchResult);
  }

  lemma SelectAnswers(s: string, tag: string, r: Result<Response>, rest: string)
    requires Answered(s, tag, r, rest)
    ensures SelectedAs(s, tag, Mapped(r, SelectResult), rest)
  {
    var items, e :| Framed(s, items, e, tag) && EndsAs(e, tag, Ok(Response(Trim(LineOf(e)), Data(items))), r, rest);
    EndsMapped(e, tag, Response(Trim(LineOf(e)), Data(items)), r, rest, SelectResult);
  }

  // ----- what that means for printed responses ------------------------------------------

  /** An ending determines the result. */
  lemma OneEnd<T(!new)>(e: Ending, tag: string, value: Result<T>, r: Result<T>, rest: string, r': Result<T>,
                        rest': string)
    requires Ends(e, tag) && EndsAs(e, tag, value, r, rest) && EndsAs(e, tag, value, r', rest')
    ensures r == r' && rest == rest'
  {}

  lemma CommandIs(s: string, tag: string, r: Result<Response>, rest: string, o: Outcome<Response>)
    requires Answered(s, tag, r, rest) && o == ReadCommand(s, tag, [])
    ensures r == ResultOf(o) && rest == Remaining(o)
  {
    var items, e :| Framed(s, items, e, tag) && EndsAs(e, tag, Ok(Response(Trim(LineOf(e)), Data(items))), r, rest);
    CommandOutcome(items, e, s, tag, o);
    OneEnd(e, tag, Ok(Response(Trim(LineOf(e)), Data(items))), r, rest, ResultOf(o), Remaining(o));
  }

  lemma ListIs(s: string, tag: string, r: Result<seq<string>>, rest: string, o: Outcome<Response>)
    requires ListedAs(s, tag, r, rest) && o == ReadCommand(s, tag, [])
    ensures r == Mapped(ResultOf(o), ListResult) && rest == Remaining(o)
  {
    var items, e :| Framed(s, items, e, tag) && EndsAs(e, tag, Ok(ListedMailboxes(Data(items))), r, rest);
    CommandOutcome(items, e, s, tag, o);
    EndsMapped(e, tag, Response(Trim(LineOf(e)), Data(items)), ResultOf(o), Remaining(o), ListResult);
    OneEnd(e, tag, Ok(ListedMailboxes(Data(items))), r, rest, Mapped(ResultOf(o), ListResult), Remaining(o));
  }

  lemma SearchIs(s: string, tag: string, r: Result<seq<int>>, rest: string, o: Outcome<Response>)
    requires SearchedAs(s, tag, r, rest) && o == ReadCommand(s, tag, [])
    ensures r == Mapped(ResultOf(o), SearchResult) && rest == Remaining(o)
  {
    var items, e :| Framed(s, items, e, tag) && EndsAs(e, tag, UidsOf(Trim(LineOf(e)), Data(items)), r, rest);
    CommandOutcome(items, e, s, tag, o);
    EndsMapped(e, tag, Response(Trim(LineOf(e)), Data(items)), ResultOf(o), Remaining(o), SearchResult);
    OneEnd(e, tag, UidsOf(Trim(LineOf(e)), Data(items)), r, rest, Mapped(ResultOf(o), SearchResult), Remaining(o));
  }

  lemma SelectIs(s: string, tag: string, r: Result<(int, int)>, rest: string, o: Outcome<Response>)
    requires SelectedAs(s, tag, r, rest) && o == ReadCommand(s, tag, [])
    ensures r == Mapped(ResultOf(o), SelectResult) && rest == Remaining(o)
  {
    var items, e :| Framed(s, items, e, tag) && EndsAs(e, tag, NumbersOf(Trim(LineOf(e)), Data(items)), r, rest);
    CommandOutcome(items, e, s, tag, o);
    EndsMapped(e, tag, Response(Trim(LineOf(e)), Data(items)), ResultOf(o), Remaining(o), SelectResult);
    OneEnd(e, tag, NumbersOf(Trim(LineOf(e)), Data(items)), r, rest, Mapped(ResultOf(o), SelectResult), Remaining(o));
  }

  lemma FetchIs(s: string, tag: string, r: Result<Bytes>, rest: string, o: Outcome<Option<Bytes>>)
    requires FetchedAs(s, tag, r, rest) && o == ReadFetch(s, tag, None)
    ensures r == BodyOf(o) && rest == Remaining(o)
  {
    var items, e :| FetchFramed(s, items, e, tag) &&
      match e
      case Plain(p) => EndsAs(p, tag, BodyOr(BodyAfter(items, None)), r, rest)
      case Announced(_, bytes, _, more) => r == Ok(bytes) && rest == more;
    match e
    case Plain(p) =>
      FetchOutcome(items, p, s, tag, o);
      OneEnd(p, tag, BodyOr(BodyAfter(items, None)), r, rest, BodyOf(o), Remaining(o));
    case Announced(_, _, _, _) => FetchEnds(items, e, tag, None);
  }

  lemma ReturnsAt(s: string, tag: string, r: Result<Response>, rest: string, o: Outcome<Response>)
    requires Answered(s, tag, r, rest) && o == ReadCommand(s, tag, []) && o.Complete?
    ensures r == Ok(o.value) && rest == o.rest
  {
    CommandIs(s, tag, r, rest, o);
  }

  /** A response that is framed whole is returned with its status line and its data, in order. */
  lemma CommandReturns(items: seq<Item>, last: string, more: string, tag: string, r: Result<Response>, rest: string)
    requires (forall i :: i in items ==> Printable(i, tag)) && Completion(last, tag)
    requires Answered(PrintAll(items) + (last + more), tag, r, rest)
    ensures r == Ok(Response(Trim(last), Data(items))) && rest == more
  {
    CommandFraming(items, last, more, tag, []);
    NothingBefore(Data(items));
    ReturnsAt(PrintAll(items) + (last + more), tag, r, rest, Complete(Response(Trim(last), Data(items)), more));
  }

  /** Any body printed as a literal is what uid_fetch_raw returns, byte for byte. */
  lemma FetchReturnsBody(resp: FetchResponse, more: string, tag: string, r: Result<Bytes>, rest: string)
    requires WellFormed(resp, tag) && FetchedAs(PrintFetch(resp) + more, tag, r, rest)
    ensures r == Ok(resp.body) && rest == more
  {
    FetchRoundTrip(resp, more, tag);
    FetchIs(PrintFetch(resp) + more, tag, r, rest, Complete(Some(resp.body), more));
  }

  /** A response without a literal is an error, after its completion line. */
  lemma FetchReturnsNothing(lines: seq<string>, last: string, more: string, tag: string, r: Result<Bytes>, rest: string)
    requires (forall l :: l in lines ==> Noise(l, tag)) && Completion(last, tag)
    requires FetchedAs(Concat(lines) + (last + more), tag, r, rest)
    ensures r == NoBody && rest == more
  {
    FetchEnd(lines, last, more, tag, None);
    FetchIs(Concat(lines) + (last + more), tag, r, rest, Complete(None, more));
  }

  /** list_mailboxes returns the mailboxes of a LIST response exactly when all of its lines can be
      read; the status does not matter. */
  lemma ListReturnsExactlyWhen(ls: seq<ListItem>, last: string, more: string, k: nat, r: Result<seq<string>>,
                               rest: string)
    requires AllProper(ls) && Completion(last, Tag(k))
    requires ListedAs(PrintList(ls) + (last + more), Tag(k), r, rest)
    ensures r == Ok(Names(ls)) && rest == more <==> AllBack(ls)
  {
    var s := PrintList(ls) + (last + more);
    var o := ReadCommand(s, Tag(k), []);
    ListIs(s, Tag(k), r, rest, o);
    ListOk(o, Names(ls), more);
    ListResponseExactlyWhen(ls, last, more, k);
  }

  lemma ListOk(o: Outcome<Response>, names: seq<string>, more: string)
    ensures Mapped(ResultOf(o), ListResult) == Ok(names) && Remaining(o) == more
      <==> o.Complete? && ListedMailboxes(o.value.data) == names && o.rest == more
  {}

  /** uid_search_all returns the UIDs of a SEARCH response if it is OK or has a SEARCH line. */
  lemma SearchReturns(items: seq<SearchItem>, last: string, more: string, k: nat, r: Result<seq<int>>, rest: string)
    requires (forall i :: 0 <= i < |items| ==> ImapSearch.Proper(items[i])) && Completion(last, Tag(k))
    requires SearchedAs(Lines(ShownItems(items)) + (last + more), Tag(k), r, rest)
    ensures rest == more
    ensures r == if StatusOf(Trim(last)) == "OK" || (exists i :: 0 <= i < |items| && items[i].Found?)
                 then Ok(AllUids(items)) else Refused
  {
    var texts := ShownItems(items);
    forall i | 0 <= i < |items| ensures StarLine(texts[i]) && !Marked(texts[i]) { ItemSearched(items[i]); }
    PlainResponse(texts, last, more, k);
    SearchIs(Lines(texts) + (last + more), Tag(k), r, rest, Complete(Response(Trim(last), texts), more));
    ItemsSearched(items);
    SearchMentioned(items);
  }

  lemma SearchMentioned(items: seq<SearchItem>)
    requires forall i :: 0 <= i < |items| ==> ImapSearch.Proper(items[i])
    ensures AnySearch(ShownItems(items)) <==> exists i :: 0 <= i < |items| && items[i].Found?
  {
    forall i | 0 <= i < |items| ensures Contains(ShownItems(items)[i], SEARCH) <==> items[i].Found? {
      if items[i].Found? { SearchIsThere(Decimals(items[i].uids)); }
    }
    if exists i :: 0 <= i < |items| && items[i].Found? {
      var i :| 0 <= i < |items| && items[i].Found?;
      assert Contains(ShownItems(items)[i], SEARCH);
    }
  }

  /** select_mailbox returns the last UIDVALIDITY and the last EXISTS that it reads in a response of
      plain lines, in this order; 0 where it reads none. */
  lemma SelectReturns(ls: seq<string>, last: string, more: string, k: nat, r: Result<(int, int)>, rest: string)
    requires StarLines(ls) && (forall i :: 0 <= i < |ls| ==> !Marked(ls[i])) && Completion(last, Tag(k))
    requires SelectedAs(Lines(ls) + (last + more), Tag(k), r, rest)
    ensures rest == more
    ensures r == if StatusOf(Trim(last)) != "OK" then Refused
                 else Ok((LastRead(ls, UidValidityOf, 0), LastRead(ls, ExistsOf, 0)))
  {
    PlainResponse(ls, last, more, k);
    SelectIs(Lines(ls) + (last + more), Tag(k), r, rest, Complete(Response(Trim(last), ls), more));
  }

  /** select_mailbox returns 0 twice over any standard response that is OK. */
  lemma SelectReturnsZeros(ls: seq<SelectLine>, last: string, more: string, k: nat, r: Result<(int, int)>, rest: string)
    requires (forall i :: 0 <= i < |ls| ==> Standard(ls[i])) && Completion(last, Tag(k))
    requires SelectedAs(Lines(ShownLines(ls)) + (last + more), Tag(k), r, rest)
    ensures r == (if StatusOf(Trim(last)) == "OK" then Ok((0, 0)) else Refused) && rest == more
  {
    SelectYieldsZero(ls, last, more, k);
    SelectIs(Lines(ShownLines(ls)) + (last + more), Tag(k), r, rest,
             Complete(Response(Trim(last), ShownLines(ls)), more));
  }

  /** One connection: what the server has sent and is still unread, and what was sent to it.
      None is a closed half. */
  class Client {
    var reader: Option<string>
    var writer: Option<string>
    const tags: TagCounter

    ghost predicate Connected()
      reads this
    {
      reader.Some? && writer.Some?
    }

    constructor (tags: TagCounter, greeted: string)
      ensures Connected() && reader == Some(greeted) && writer == Some("") && this.tags == tags
    {
      reader, writer := Some(greeted), Some("");
      this.tags := tags;
    }

    /** command: send it under a fresh tag and read to its completion line. */
    method Command(cmd: string) returns (r: Result<Response>)
      requires tags.value < U32_BOUND
      modifies this, tags
      ensures tags.value == (old(tags.value) + 1) % U32_BOUND
      ensures old(Connected()) ==>
        var tag := Tag(old(tags.value));
        && reader.Some? && Answered(old(reader.value), tag, r, reader.value)
        && writer == Some(old(writer.value) + tag + " " + cmd + "\r\n")
      ensures old(Connected()) ==> (r.Hangs? <==> ReadCommand(old(reader.value), Tag(old(tags.value)), []).Stalled?)
      ensures !old(Connected()) ==> r == NotConnected && reader == old(reader)
    {
      var tag := tags.NextTag();
      if writer.None? { return NotConnected; }
      writer := Some(writer.value + tag + " " + cmd + "\r\n");
      if reader.None? { return NotConnected; }
      var s, rest;
      s, r, rest := reader.value, Hangs, "";
      var data: seq<string>, reading := [], true;
      ghost var o := ReadCommand(s, tag, []);
      while reading && s != ""
        invariant if reading then ReadCommand(s, tag, data) == o && r == Hangs && rest == ""
                  else r == ResultOf(o) && rest == Remaining(o)
        decreases reading, |s|
      {
        var (line, more) := SplitLine(s);
        var size := LiteralSize(line);
        if size.Some? {
          if |more| < size.value + 2 {
            r, reading := BadRead, false;
          } else {
            s, data := more[size.value + 2..], data + [more[..size.value]];
          }
        } else if Completes(line, tag) {
          r, rest, reading := Ok(Response(Trim(line), data)), more, false;
        } else {
          s, data := more, data + [Trim(line)];
        }
      }
      CommandAnswers(reader.value, tag, o);
      reader := Some(rest);
    }

    /** uid_fetch_raw. */
    method UidFetchRaw(uid: nat) returns (r: Result<Bytes>)
      requires tags.value < U32_BOUND
      modifies this, tags
      ensures tags.value == (old(tags.value) + 1) % U32_BOUND
      ensures old(Connected()) ==>
        var tag := Tag(old(tags.value));
        && reader.Some? && FetchedAs(old(reader.value), tag, r, reader.value)
        && writer == Some(old(writer.value) + tag + " UID FETCH " + Decimal(uid) + " (BODY.PEEK[])\r\n")
      ensures !old(Connected()) ==> r == NotConnected && reader == old(reader)
    {
      var tag := tags.NextTag();
      if writer.None? { return NotConnected; }
      writer := Some(writer.value + tag + " UID FETCH " + Decimal(uid) + " (BODY.PEEK[])\r\n");
      if reader.None? { return NotConnected; }
      var s, rest;
      s, r, rest := reader.value, Hangs, "";
      var body: Option<Bytes>, reading := None, true;
      ghost var o := ReadFetch(s, tag, None);
      while reading && s != ""
        invariant if reading then ReadFetch(s, tag, body) == o && r == Hangs && rest == ""
                  else r == BodyOf(o) && rest == Remaining(o)
        decreases reading, |s|
      {
        var (line, more) := SplitLine(s);
        var size := LiteralSize(line);
        s := more;
        if size.Some? && |more| < size.value + 2 {
          r, reading := BadRead, false;
        } else {
          if size.Some? { body, s := Some(more[..size.value]), more[size.value + 2..]; }
          if Completes(line, tag) {
            r := match body case None => NoBody case Some(b) => Ok(b);
            rest, reading := s, false;
          }
        }
      }
      FetchAnswers(reader.value, tag, o);
      reader := Some(rest);
    }

    /** list_mailboxes: the status of the response does not matter. */
    method ListMailboxes(reference: string, pattern: string) returns (r: Result<seq<string>>)
      requires tags.value < U32_BOUND
      modifies this, tags
      ensures old(Connected()) ==>
        var tag := Tag(old(tags.value));
        && reader.Some? && ListedAs(old(reader.value), tag, r, reader.value)
        && writer == Some(old(writer.value) + tag + " " + ("LIST " + Quote(reference) + " " + Quote(pattern)) + "\r\n")
    {
      var resp := Command("LIST " + Quote(reference) + " " + Quote(pattern));
      if old(Connected()) { ListAnswers(old(reader.value), Tag(old(tags.value)), resp, reader.value); }
      if !resp.Ok? { return Mapped(resp, ListResult); }
      var folders := CollectMailboxes(resp.value.data);
      r := Ok(folders);
    }

    /** uid_search_all. */
    method UidSearchAll() returns (r: Result<seq<int>>)
      requires tags.value < U32_BOUND
      modifies this, tags
      ensures old(Connected()) ==>
        var tag := Tag(old(tags.value));
        && reader.Some? && SearchedAs(old(reader.value), tag, r, reader.value)
        && writer == Some(old(writer.value) + tag + " " + "UID SEARCH ALL" + "\r\n")
    {
      var resp := Command("UID SEARCH ALL");
      if old(Connected()) { SearchAnswers(old(reader.value), Tag(old(tags.value)), resp, reader.value); }
      if !resp.Ok? { return Mapped(resp, SearchResult); }
      var data := resp.value.data;
      if StatusOf(resp.value.statusLine) != "OK" && !AnySearch(data) { return Refused; }
      var uids := CollectUids(data);
      r := Ok(uids);
    }

    /** select_mailbox. */
    method SelectMailbox(folder: string) returns (r: Result<(int, int)>)
      requires tags.value < U32_BOUND
      modifies this, tags
      ensures old(Connected()) ==>
        var tag := Tag(old(tags.value));
        && reader.Some? && SelectedAs(old(reader.value), tag, r, reader.value)
        && writer == Some(old(writer.value) + tag + " " + ("SELECT " + Quote(folder)) + "\r\n")
    {
      var resp := Command("SELECT " + Quote(folder));
      if old(Connected()) { SelectAnswers(old(reader.value), Tag(old(tags.value)), resp, reader.value); }
      if !resp.Ok? { return Mapped(resp, SelectResult); }
      if StatusOf(resp.value.statusLine) != "OK" { return Refused; }
      var validity, count := ScanNumbers(resp.value.data);
      r := Ok((validity, count));
    }

    /** logout: whatever comes of the command, unless it hangs, the connection is gone. */
    method Logout() returns (hung: bool)
      requires tags.value < U32_BOUND
      modifies this, tags
      ensures !hung ==> reader == None && writer == None
      ensures old(Connected()) ==> (hung <==> ReadCommand(old(reader.value), Tag(old(tags.value)), []).Stalled?)
    {
      var r := Command("LOGOUT");
      hung := r.Hangs?;
      if !hung { reader, writer := None, None; }
    }
  }
}
