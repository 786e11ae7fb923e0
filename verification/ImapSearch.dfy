/** UID SEARCH: the UIDs of a response, and the status of its completion line. */
module ImapSearch {
  import opened Common
  import opened Text
  import opened ImapText
  import opened ImapReader

  const SEARCH := "SEARCH"

  function Numbers(words: seq<string>): seq<int> {
    if words == [] then []
    else (match ParseI64(words[0]) case None => [] case Some(n) => [n]) + Numbers(words[1..])
  }

  /** The UIDs of one response line: its numeric words after the first. */
  function SearchedUids(line: string): seq<int> {
    if Contains(line, SEARCH) && Words(line) != [] then Numbers(Words(line)[1..]) else []
  }

  function AllSearchedUids(lines: seq<string>): seq<int> {
    if lines == [] then [] else SearchedUids(lines[0]) + AllSearchedUids(lines[1..])
  }

  /** The second space-separated piece of the completion line. */
  function StatusOf(line: string): string {
    match Find(line, ' ')
    case None => ""
    case Some(i) =>
      match Find(line[i + 1..], ' ')
      case None => line[i + 1..]
      case Some(j) => line[i + 1..][..j]
  }

  function Decimals(uids: seq<nat>): seq<string> {
    if uids == [] then [] else [Decimal(uids[0])] + Decimals(uids[1..])
  }

  /** `* SEARCH 1 2 3` (section 7.2.5 of RFC 3501). */
  function SearchLine(uids: seq<nat>): string { Join(["*", SEARCH] + Decimals(uids)) }

  lemma DecimalIsWord(n: nat)
    ensures IsWord(Decimal(n))
  {}

  lemma {:induction false} DecimalsBack(uids: seq<nat>)
    requires forall i :: 0 <= i < |uids| ==> uids[i] < USIZE_BOUND / 2
    ensures AllWords(Decimals(uids)) && Numbers(Decimals(uids)) == uids
    decreases |uids|
  {
    if uids != [] {
      DecimalIsWord(uids[0]);
      ParseDecimal(uids[0]);
      DecimalsBack(uids[1..]);
      assert Decimals(uids)[1..] == Decimals(uids[1..]);
      assert [uids[0]] + uids[1..] == uids;
    }
  }

  lemma SearchWordIsWord()
    ensures IsWord("*") && IsWord(SEARCH) && ParseI64(SEARCH) == None
  {}

  lemma SearchIsThere(words: seq<string>)
    ensures Contains(Join(["*", SEARCH] + words), SEARCH)
  {
    var all := ["*", SEARCH] + words;
    var line := Join(all);
    assert all[1..] == [SEARCH] + words;
    assert ([SEARCH] + words)[1..] == words;
    assert line == "*" + " " + Join([SEARCH] + words);
    assert SEARCH <= Join([SEARCH] + words);
    assert OccursAt(line, SEARCH, 2);
  }

  lemma WordsSearched(words: seq<string>)
    requires AllWords(words)
    ensures SearchedUids(Join(["*", SEARCH] + words)) == Numbers(words)
  {
    var all := ["*", SEARCH] + words;
    SearchWordIsWord();
    WordsOfJoin(all);
    SearchIsThere(words);
    assert all[1..] == [SEARCH] + words && ([SEARCH] + words)[1..] == words;
  }

  /** The UIDs a server lists are the UIDs the engine gets, in order. */
  lemma SearchRoundTrip(uids: seq<nat>)
    requires forall i :: 0 <= i < |uids| ==> uids[i] < USIZE_BOUND / 2
    ensures SearchedUids(SearchLine(uids)) == uids
  {
    DecimalsBack(uids);
    WordsSearched(Decimals(uids));
  }

  lemma {:induction false} NumbersConcat(a: seq<string>, b: seq<string>)
    ensures Numbers(a + b) == Numbers(a) + Numbers(b)
    decreases |a|
  {
    if a == [] {
      assert a + b == b;
    } else {
      assert (a + b)[1..] == a[1..] + b;
      NumbersConcat(a[1..], b);
    }
  }

  /** Words that are no numbers are passed over, such as those of `(MODSEQ 917162500)` after the UIDs
      (section 3.1.5 of RFC 7162). */
  lemma OtherWordsSkipped(before: seq<nat>, word: string, after: seq<nat>)
    requires IsWord(word) && ParseI64(word).None?
    requires forall i :: 0 <= i < |before| ==> before[i] < USIZE_BOUND / 2
    requires forall i :: 0 <= i < |after| ==> after[i] < USIZE_BOUND / 2
    ensures SearchedUids(Join(["*", SEARCH] + (Decimals(before) + ([word] + Decimals(after))))) == before + after
  {
    var a, b := Decimals(before), Decimals(after);
    DecimalsBack(before);
    DecimalsBack(after);
    OneNotNumber(a, word, b);
    MoreWords(a, word, b);
    WordsSearched(a + ([word] + b));
  }

  lemma MoreWords(a: seq<string>, word: string, b: seq<string>)
    requires AllWords(a) && IsWord(word) && AllWords(b)
    ensures AllWords(a + ([word] + b))
  {}

  lemma OneNotNumber(a: seq<string>, word: string, b: seq<string>)
    requires ParseI64(word).None?
    ensures Numbers(a + ([word] + b)) == Numbers(a) + Numbers(b)
  {
    NumbersConcat(a, [word] + b);
    NoNumberFirst([word] + b, word, b);
  }

  lemma NoNumberFirst(words: seq<string>, word: string, rest: seq<string>)
    requires words == [word] + rest && ParseI64(word).None?
    ensures Numbers(words) == Numbers(rest)
  {
    assert words[0] == word && words[1..] == rest;
  }

  lemma {:induction false} JoinEnds(words: seq<string>)
    requires words != [] && AllWords(words)
    ensures var s := Join(words); s != "" && s[0] == words[0][0] && !IsSpace(s[|s| - 1])
    decreases |words|
  {
    if |words| > 1 { JoinEnds(words[1..]); }
  }

  lemma SearchLineEnds(uids: seq<nat>)
    requires forall i :: 0 <= i < |uids| ==> uids[i] < USIZE_BOUND / 2
    ensures var s := SearchLine(uids); s != "" && s[0] == '*' && !IsSpace(s[|s| - 1])
  {
    DecimalsBack(uids);
    SearchWordIsWord();
    JoinEnds(["*", SEARCH] + Decimals(uids));
  }

  lemma {:induction false} JoinLacks(words: seq<string>, c: char)
    requires c != ' ' && forall i :: 0 <= i < |words| ==> c !in words[i]
    ensures c !in Join(words)
    decreases |words|
  {
    if |words| > 1 { JoinLacks(words[1..], c); }
  }

  lemma {:induction false} DecimalsLack(uids: seq<nat>, c: char)
    requires !IsDigit(c)
    ensures forall i :: 0 <= i < |Decimals(uids)| ==> c !in Decimals(uids)[i]
    decreases |uids|
  {
    if uids != [] {
      DecimalChars(uids[0], c);
      DecimalsLack(uids[1..], c);
    }
  }

  lemma SearchLineIsPlain(uids: seq<nat>)
    requires forall i :: 0 <= i < |uids| ==> uids[i] < USIZE_BOUND / 2
    ensures StarLine(SearchLine(uids)) && !Marked(SearchLine(uids))
  {
    var words := ["*", SEARCH] + Decimals(uids);
    SearchLineEnds(uids);
    DecimalsLack(uids, '\n');
    DecimalsLack(uids, '{');
    JoinLacks(words, '\n');
    JoinLacks(words, '{');
    assert '{' !in SearchLine(uids) + "\r\n";
  }

  // ----- whole responses ----------------------------------------------------------------

  /** An untagged line of a response to UID SEARCH. */
  datatype SearchItem =
    | Found(uids: seq<nat>)
    | Other(text: string)

  function Shown(i: SearchItem): string { match i case Found(uids) => SearchLine(uids) case Other(text) => text }

  function ShownItems(items: seq<SearchItem>): seq<string> {
    seq(|items|, i requires 0 <= i < |items| => Shown(items[i]))
  }

  ghost predicate Proper(i: SearchItem) {
    match i
    case Found(uids) => forall j :: 0 <= j < |uids| ==> uids[j] < USIZE_BOUND / 2
    case Other(text) => StarLine(text) && !Marked(text) && !Contains(text, SEARCH)
  }

  function AllUids(items: seq<SearchItem>): seq<int> {
    if items == [] then [] else (if items[0].Found? then items[0].uids else []) + AllUids(items[1..])
  }

  lemma ItemSearched(i: SearchItem)
    requires Proper(i)
    ensures StarLine(Shown(i)) && !Marked(Shown(i)) && SearchedUids(Shown(i)) == if i.Found? then i.uids else []
  {
    if i.Found? {
      SearchLineIsPlain(i.uids);
      SearchRoundTrip(i.uids);
    }
  }

  lemma {:induction false} ItemsSearched(items: seq<SearchItem>)
    requires forall i :: 0 <= i < |items| ==> Proper(items[i])
    ensures AllSearchedUids(ShownItems(items)) == AllUids(items)
    decreases |items|
  {
    if items != [] {
      ItemSearched(items[0]);
      assert ShownItems(items)[1..] == ShownItems(items[1..]);
      ItemsSearched(items[1..]);
    }
  }

  /** From the bytes of a SEARCH response, whatever other untagged lines are in it, to exactly the
      UIDs of its SEARCH lines. */
  lemma SearchResponse(items: seq<SearchItem>, last: string, rest: string, k: nat)
    requires (forall i :: 0 <= i < |items| ==> Proper(items[i])) && Completion(last, Tag(k))
    ensures var r := ReadCommand(Lines(ShownItems(items)) + (last + rest), Tag(k), []);
      r.Complete? && AllSearchedUids(r.value.data) == AllUids(items) && r.rest == rest
  {
    forall i | 0 <= i < |items| ensures StarLine(ShownItems(items)[i]) && !Marked(ShownItems(items)[i]) {
      ItemSearched(items[i]);
    }
    PlainResponse(ShownItems(items), last, rest, k);
    ItemsSearched(items);
  }

  /** The status of a completion line. */
  lemma StatusRoundTrip(tag: string, status: string, text: string)
    requires ' ' !in tag && ' ' !in status
    ensures StatusOf(tag + ([' '] + (status + ([' '] + text)))) == status
    ensures StatusOf(tag + ([' '] + status)) == status
  {
    FirstAfter(tag, ' ', status);
    FindAt(tag + ([' '] + status), ' ', |tag|);
    assert (tag + ([' '] + status))[|tag| + 1..] == status;
    var line := tag + ([' '] + (status + ([' '] + text)));
    FirstAfter(tag, ' ', status + ([' '] + text));
    FindAt(line, ' ', |tag|);
    assert line[|tag| + 1..] == status + ([' '] + text);
    FirstAfter(status, ' ', text);
    FindAt(status + ([' '] + text), ' ', |status|);
  }
}
