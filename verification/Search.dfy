/** The search page: the tag filter, the page arithmetic, and the count that goes with them. */
module Search {
  import opened Common
  import opened EmailTable
  import opened Storage
  import opened Pipeline
  import opened Text

  // ----- the tag filter -----------------------------------------------------------------

  /** `str::split` on one char. */
  function Split(s: string, c: char): seq<string>
    decreases |s|
  {
    match Find(s, c)
    case None => [s]
    case Some(i) => [s[..i]] + Split(s[i + 1..], c)
  }

  function TrimmedNonEmpty(parts: seq<string>): seq<string> {
    if parts == [] then []
    else (if Trim(parts[0]) == "" then [] else [Trim(parts[0])]) + TrimmedNonEmpty(parts[1..])
  }

  /** The comma-separated `tags` parameter. */
  function ParseTags(tags: Option<string>): seq<string> {
    TrimmedNonEmpty(Split(if tags.Some? then tags.value else "", ','))
  }

  function JoinCommas(names: seq<string>): string {
    if names == [] then "" else if |names| == 1 then names[0] else names[0] + "," + JoinCommas(names[1..])
  }

  lemma {:induction false} SplitJoined(names: seq<string>)
    requires names != [] && forall i :: 0 <= i < |names| ==> ',' !in names[i]
    ensures Split(JoinCommas(names), ',') == names
    decreases |names|
  {
    var s := JoinCommas(names);
    if |names| > 1 {
      var i := |names[0]|;
      assert FirstAt(s, ',', i);
      assert ',' in s;
      assert Find(s, ',') == Some(i);
      assert s[..i] == names[0] && s[i + 1..] == JoinCommas(names[1..]);
      SplitJoined(names[1..]);
    }
  }

  /** A name as it may be written: with white space around it. */
  datatype Padded = Padded(before: string, name: string, after: string)

  function Written(p: Padded): string { p.before + (p.name + p.after) }

  function AllWritten(ps: seq<Padded>): seq<string> {
    if ps == [] then [] else [Written(ps[0])] + AllWritten(ps[1..])
  }

  function NamesIn(ps: seq<Padded>): seq<string> {
    if ps == [] then [] else (if ps[0].name == "" then [] else [ps[0].name]) + NamesIn(ps[1..])
  }

  ghost predicate CanWrite(p: Padded) {
    && Blank(p.before) && Blank(p.after) && ',' !in p.name
    && (p.name != "" ==> !IsSpace(p.name[0]) && !IsSpace(p.name[|p.name| - 1]))
  }

  lemma WrittenTrimmed(p: Padded)
    requires CanWrite(p)
    ensures Trim(Written(p)) == p.name
  {
    if p.name != "" {
      PaddingTrimmed(p.before, p.name, p.after);
    } else {
      BothBlank(p.before, p.after);
    }
  }

  lemma BothBlank(a: string, b: string)
    requires Blank(a) && Blank(b)
    ensures Trim(a + ("" + b)) == ""
  {
    BlankTrimmed(a + ("" + b));
  }

  lemma NoComma(p: Padded)
    requires CanWrite(p)
    ensures ',' !in Written(p)
  {
    assert forall i :: 0 <= i < |p.before| ==> p.before[i] != ',';
    assert forall i :: 0 <= i < |p.after| ==> p.after[i] != ',';
  }

  ghost predicate CanWriteAll(ps: seq<Padded>) { forall i :: 0 <= i < |ps| ==> CanWrite(ps[i]) }

  lemma {:induction false} AllTrimmed(ps: seq<Padded>)
    requires CanWriteAll(ps)
    ensures TrimmedNonEmpty(AllWritten(ps)) == NamesIn(ps) && |AllWritten(ps)| == |ps|
    ensures forall i :: 0 <= i < |AllWritten(ps)| ==> ',' !in AllWritten(ps)[i]
    decreases |ps|
  {
    if ps != [] {
      WrittenTrimmed(ps[0]);
      NoComma(ps[0]);
      AllTrimmed(ps[1..]);
      FirstTrimmed(AllWritten(ps), AllWritten(ps[1..]), ps[0].name);
    }
  }

  lemma FirstTrimmed(parts: seq<string>, rest: seq<string>, name: string)
    requires parts != [] && parts[1..] == rest && Trim(parts[0]) == name
    ensures TrimmedNonEmpty(parts) == (if name == "" then [] else [name]) + TrimmedNonEmpty(rest)
  {}

  /** The names of a comma-separated list, with any white space around them and any empty places, are
      the requested tags, in order; without a list there are none. */
  lemma ParseTagsRoundTrip(ps: seq<Padded>)
    requires CanWriteAll(ps)
    ensures ParseTags(Some(JoinCommas(AllWritten(ps)))) == NamesIn(ps)
    ensures ParseTags(None) == []
  {
    assert Split("", ',') == [""] && TrimmedNonEmpty([""]) == [];
    AllTrimmed(ps);
    if ps != [] { SplitJoined(AllWritten(ps)); }
  }

  /** The inner NOT EXISTS: email `e` lacks tag `name`. */
  predicate Lacks(db: Db, e: int, name: string) {
    !exists l :: l in db.links && l.0 == e && l.1 in db.tags && db.tags[l.1] == name
  }

  /** The outer one: there is no requested tag that `e` lacks. */
  predicate Selected(db: Db, e: int, filter: seq<string>) {
    !exists i :: 0 <= i < |filter| && Lacks(db, e, filter[i])
  }

  /** The double negation is relational division: all requested tags are among the email's. */
  lemma SelectedIsDivision(db: Db, e: int, filter: seq<string>)
    ensures Selected(db, e, filter) <==> SetOf(filter) <= TagsOf(db, e)
  {
    forall i | 0 <= i < |filter| ensures Lacks(db, e, filter[i]) <==> filter[i] !in TagsOf(db, e) {}
    if SetOf(filter) <= TagsOf(db, e) {
      forall i | 0 <= i < |filter| ensures !Lacks(db, e, filter[i]) { assert filter[i] in SetOf(filter); }
    }
    if Selected(db, e, filter) {
      forall n | n in filter ensures n in TagsOf(db, e) {
        var i :| 0 <= i < |filter| && filter[i] == n;
        assert !Lacks(db, e, filter[i]);
      }
    }
  }

  /** Asking for more tags selects fewer emails; order and repetition do not matter. */
  lemma FilterMonotone(db: Db, e: int, f1: seq<string>, f2: seq<string>)
    requires SetOf(f1) <= SetOf(f2)
    ensures Selected(db, e, f2) ==> Selected(db, e, f1)
    ensures SetOf(f1) == SetOf(f2) ==> (Selected(db, e, f1) <==> Selected(db, e, f2))
  {
    SelectedIsDivision(db, e, f1);
    SelectedIsDivision(db, e, f2);
  }

  // ----- pages --------------------------------------------------------------------------

  function Page(page: Option<nat>): nat { if page.Some? && page.value > 1 then page.value else 1 }

  function PerPage(perPage: Option<nat>): (n: nat)
    ensures 1 <= n <= 100
    ensures perPage.Some? && 1 <= perPage.value <= 100 ==> n == perPage.value
  {
    match perPage
    case None => 20
    case Some(n) => if n < 1 then 1 else if n > 100 then 100 else n
  }

  /** `(page - 1) * per_page` in 32 bits, as a release build computes it. */
  function Offset(page: nat, perPage: nat): nat
    requires page >= 1
  {
    Start(page, perPage) % U32_BOUND
  }

  /** Where a page begins in the whole result. */
  function Start(page: nat, perPage: nat): nat
    requires page >= 1
  {
    (page - 1) * perPage
  }

  /** `(total as u32).div_ceil(per_page)`. */
  function TotalPages(total: nat, perPage: nat): nat
    requires perPage >= 1
  {
    if total == 0 then 0 else (total % U32_BOUND + perPage - 1) / perPage
  }

  function Min(a: nat, b: nat): nat { if a < b then a else b }

  /** LIMIT and OFFSET over the ordered result. */
  function Slice<T>(all: seq<T>, perPage: nat, offset: nat): seq<T> {
    all[Min(offset, |all|)..Min(offset + perPage, |all|)]
  }

  function PageOf<T>(all: seq<T>, perPage: nat, page: nat): seq<T>
    requires page >= 1
  {
    Slice(all, perPage, Offset(page, perPage))
  }

  /** The rows of a request. */
  function Requested<T>(all: seq<T>, page: Option<nat>, perPage: Option<nat>): seq<T> {
    PageOf(all, PerPage(perPage), Page(page))
  }

  /** The first `k` pages one after the other. */
  function Pages<T>(all: seq<T>, perPage: nat, k: nat): seq<T> {
    if k == 0 then [] else Pages(all, perPage, k - 1) + PageOf(all, perPage, k)
  }

  lemma LastPageBounds(total: nat, perPage: nat)
    requires 0 < total < U32_BOUND && perPage >= 1
    ensures var n := TotalPages(total, perPage); n >= 1 && (n - 1) * perPage < total <= n * perPage
  {
    var n := TotalPages(total, perPage);
    var x := total + perPage - 1;
    assert x == n * perPage + x % perPage;
  }

  /** The offset of a counted page lies inside the result and does not overflow. */
  lemma CountedOffset(total: nat, perPage: nat, page: nat)
    requires total < U32_BOUND && perPage >= 1 && 1 <= page <= TotalPages(total, perPage)
    ensures Offset(page, perPage) == (page - 1) * perPage < total
  {
    LastPageBounds(total, perPage);
    SmallerProduct(page - 1, TotalPages(total, perPage) - 1, perPage);
  }

  lemma SmallerProduct(a: nat, b: nat, c: nat)
    requires a <= b
    ensures a * c <= b * c
  {}

  /** Every page up to the last has an offset that does not overflow and `per_page` rows; the
      last one has between one and `per_page`. */
  lemma PageShape<T>(all: seq<T>, perPage: nat, page: nat)
    requires 0 < |all| < U32_BOUND && perPage >= 1 && 1 <= page <= TotalPages(|all|, perPage)
    ensures (page - 1) * perPage < |all| && Offset(page, perPage) == (page - 1) * perPage
    ensures page < TotalPages(|all|, perPage) ==> |PageOf(all, perPage, page)| == perPage
    ensures 1 <= |PageOf(all, perPage, page)| <= perPage
    ensures PageOf(all, perPage, page) == all[(page - 1) * perPage..Min(page * perPage, |all|)]
  {
    var n := TotalPages(|all|, perPage);
    LastPageBounds(|all|, perPage);
    CountedOffset(|all|, perPage, page);
    assert page * perPage == (page - 1) * perPage + perPage;
    if page < n { SmallerProduct(page, n - 1, perPage); }
  }

  /** The stretch of the result that is page `page` of `perPage` rows. */
  function Stretch<T>(all: seq<T>, page: nat, perPage: nat): seq<T>
    requires page >= 1
  {
    all[Min((page - 1) * perPage, |all|)..Min((page - 1) * perPage + perPage, |all|)]
  }

  /** What the parameters mean: page 1 and 20 rows by default, no page before the first, and between 1
      and 100 rows a page. */
  lemma Parameters(page: Option<nat>, perPage: Option<nat>)
    ensures Page(page) == (match page case None => 1 case Some(p) => if p == 0 then 1 else p)
    ensures PerPage(perPage) == match perPage
      case None => 20
      case Some(n) => if n == 0 then 1 else if n <= 100 then n else 100
  {}

  /** Whatever is asked for, at most 100 rows come back: for a page that begins within the result its
      stretch of it. */
  lemma RequestReturns<T>(all: seq<T>, page: Option<nat>, perPage: Option<nat>, p: nat, n: nat)
    requires |all| < U32_BOUND
    requires p == match page case None => 1 case Some(q) => if q == 0 then 1 else q
    requires n == match perPage case None => 20 case Some(m) => if m == 0 then 1 else if m <= 100 then m else 100
    ensures |Requested(all, page, perPage)| <= n <= 100
    ensures Start(p, n) < |all| ==> Requested(all, page, perPage) == Stretch(all, p, n)
  {
    Parameters(page, perPage);
    SliceLength(all, n, Offset(p, n));
    if Start(p, n) < |all| { StretchIsSlice(all, p, n); }
  }

  lemma StretchIsSlice<T>(all: seq<T>, p: nat, n: nat)
    requires p >= 1 && Start(p, n) < |all| < U32_BOUND
    ensures PageOf(all, n, p) == Stretch(all, p, n)
  {}

  lemma SliceLength<T>(all: seq<T>, perPage: nat, offset: nat)
    ensures |Slice(all, perPage, offset)| <= perPage
  {}

  lemma TakeMore<T>(all: seq<T>, lo: nat, hi: nat)
    requires lo <= hi <= |all|
    ensures all[..lo] + all[lo..hi] == all[..hi]
  {}

  lemma {:induction false} FirstPages<T>(all: seq<T>, perPage: nat, k: nat)
    requires 0 < |all| < U32_BOUND && perPage >= 1 && k <= TotalPages(|all|, perPage)
    ensures Pages(all, perPage, k) == all[..Min(k * perPage, |all|)]
  {
    if k > 0 {
      FirstPages(all, perPage, k - 1);
      PageShape(all, perPage, k);
      SmallerProduct(k - 1, k, perPage);
      TakeMore(all, (k - 1) * perPage, Min(k * perPage, |all|));
    }
  }

  /** The pages partition the results: one after the other they are the whole ordered list. */
  lemma PagesPartition<T>(all: seq<T>, perPage: nat)
    requires |all| < U32_BOUND && perPage >= 1
    ensures Pages(all, perPage, TotalPages(|all|, perPage)) == all
  {
    if |all| > 0 {
      FirstPages(all, perPage, TotalPages(|all|, perPage));
      LastPageBounds(|all|, perPage);
    }
  }

  /** A page after the last is empty exactly when its offset, wrapped to 32 bits, is past the
      end. */
  lemma BeyondLastPage<T>(all: seq<T>, perPage: nat, page: nat)
    requires perPage >= 1 && page > TotalPages(|all|, perPage)
    ensures PageOf(all, perPage, page) == [] <==> |all| <= Offset(page, perPage)
  {}

  /** Far enough beyond, the wrapped offset shows early rows again. */
  lemma WrappedPage<T>(all: seq<T>)
    requires 104 <= |all| < U32_BOUND
    ensures 42949674 > TotalPages(|all|, 100) && PageOf(all, 100, 42949674) == all[4..104]
  {}

  // ----- count and rows -----------------------------------------------------------------

  /** The emails of a search: those the text query matches that pass the tag filter. */
  function Results(db: Db, matching: set<int>, filter: seq<string>): set<int> {
    set e | e in matching && e in db.emails && Selected(db, e, filter)
  }

  ghost predicate Ordering(all: seq<int>, results: set<int>) {
    && (forall i, j :: 0 <= i < j < |all| ==> all[i] != all[j])
    && (forall e :: e in all <==> e in results)
  }

  lemma {:induction false} OrderingLength(all: seq<int>, results: set<int>)
    requires Ordering(all, results)
    ensures |all| == |results|
    decreases |all|
  {
    if all == [] {
      assert forall e :: e !in results;
      assert results == {};
    } else {
      var last := all[|all| - 1];
      var rest := all[..|all| - 1];
      assert last in all;
      forall e ensures e in rest <==> e in results - {last} {
        if e in rest { assert e in all; }
        if e in results - {last} { assert e in all; }
      }
      OrderingLength(rest, results - {last});
    }
  }

  /** However the database orders the results: with `COUNT(*)` as the total, the pages run
      through each result exactly once. */
  lemma SearchPages(db: Db, matching: set<int>, filter: seq<string>, all: seq<int>, perPage: nat)
    requires Ordering(all, Results(db, matching, filter)) && |Results(db, matching, filter)| < U32_BOUND && perPage >= 1
    ensures Pages(all, perPage, TotalPages(|Results(db, matching, filter)|, perPage)) == all
    ensures forall e :: e in all <==> e in matching && e in db.emails && SetOf(filter) <= TagsOf(db, e)
  {
    OrderingLength(all, Results(db, matching, filter));
    PagesPartition(all, perPage);
    forall e { SelectedIsDivision(db, e, filter); }
  }

  /** Short of an offset that wraps, a page has rows exactly when it is one of the counted ones. */
  lemma NonEmptyExactlyWhen<T>(all: seq<T>, perPage: nat, page: nat)
    requires |all| < U32_BOUND && perPage >= 1 && page >= 1 && Start(page, perPage) < U32_BOUND
    ensures PageOf(all, perPage, page) != [] <==> page <= TotalPages(|all|, perPage)
  {
    if page <= TotalPages(|all|, perPage) {
      PageShape(all, perPage, page);
    } else {
      BeyondLastPage(all, perPage, page);
      if |all| > 0 { PastTheEnd(|all|, perPage, page); }
    }
  }

  lemma PastTheEnd(total: nat, perPage: nat, page: nat)
    requires 0 < total < U32_BOUND && perPage >= 1 && page > TotalPages(total, perPage)
    ensures total <= Start(page, perPage)
  {
    LastPageBounds(total, perPage);
    SmallerProduct(TotalPages(total, perPage), page - 1, perPage);
  }

  // ----- the hits of a page -------------------------------------------------------------

  datatype Hit = Hit(email: int, tags: seq<string>, hasAttachment: bool)

  /** Which of the two queries of one hit fail; a failure is taken for an empty answer. */
  datatype HitFaults = HitFaults(tags: bool, attachment: bool)

  /** The collation of the database. */
  ghost predicate TotalOrder(le: (string, string) -> bool) {
    && (forall s, t :: le(s, t) || le(t, s))
    && (forall s, t, u :: le(s, t) && le(t, u) ==> le(s, u))
  }

  ghost predicate Sorted(names: seq<string>, le: (string, string) -> bool) {
    forall i, j :: 0 <= i < j < |names| ==> le(names[i], names[j])
  }

  ghost predicate Distinct(names: seq<string>) { forall i, j :: 0 <= i < j < |names| ==> names[i] != names[j] }

  function Insert(name: string, names: seq<string>, le: (string, string) -> bool): seq<string> {
    if names == [] || le(name, names[0]) then [name] + names else [names[0]] + Insert(name, names[1..], le)
  }

  lemma {:induction false} InsertKeepsOrder(name: string, names: seq<string>, le: (string, string) -> bool)
    requires TotalOrder(le) && Sorted(names, le)
    ensures Sorted(Insert(name, names, le), le)
    ensures forall n :: n in Insert(name, names, le) <==> n == name || n in names
    ensures Distinct(names) && name !in names ==> Distinct(Insert(name, names, le))
    decreases |names|
  {
    if names != [] && !le(name, names[0]) {
      InsertKeepsOrder(name, names[1..], le);
      var r := Insert(name, names[1..], le);
      assert names == [names[0]] + names[1..];
      forall j | 0 <= j < |r| ensures le(names[0], r[j]) { assert r[j] in r; }
      forall j | 0 <= j < |r| && Distinct(names) && name !in names ensures names[0] != r[j] { assert r[j] in r; }
    }
  }

  lemma SameLink(tags: map<int, string>, l: (int, int), m: (int, int))
    requires UniqueNames(tags) && l.1 in tags && m.1 in tags && l.0 == m.0
    ensures tags[l.1] == tags[m.1] ==> l == m
  {
    var t, u := l.1, m.1;
    assert tags[t] == tags[l.1] && tags[u] == tags[m.1];
  }

  /** The query for the tags of an email: a row per link, sorted by name. */
  method TagQuery(db: Db, e: int, le: (string, string) -> bool) returns (names: seq<string>)
    requires TotalOrder(le)
    ensures Sorted(names, le) && SetOf(names) == TagsOf(db, e)
    ensures UniqueNames(db.tags) ==> Distinct(names)
  {
    names := [];
    var links := set l | l in db.links && l.0 == e && l.1 in db.tags;
    ghost var all := links;
    while links != {}
      invariant links <= all && Sorted(names, le)
      invariant forall n :: n in names <==> exists l :: l in all - links && db.tags[l.1] == n
      invariant UniqueNames(db.tags) ==> Distinct(names)
    {
      var l :| l in links;
      forall m | m in all - links && UniqueNames(db.tags) ensures db.tags[m.1] != db.tags[l.1] {
        SameLink(db.tags, l, m);
      }
      InsertKeepsOrder(db.tags[l.1], names, le);
      names := Insert(db.tags[l.1], names, le);
      links := links - {l};
    }
  }

  /** What search_handler answers for one row. */
  ghost predicate IsHit(db: Db, e: int, le: (string, string) -> bool, fault: HitFaults, hit: Hit) {
    && hit.email == e
    && Sorted(hit.tags, le) && (UniqueNames(db.tags) ==> Distinct(hit.tags))
    && SetOf(hit.tags) == (if fault.tags then {} else TagsOf(db, e))
    && (hit.hasAttachment <==> !fault.attachment && HasAttachmentRow(db, e))
  }

  /** The loop of search_handler over one page. */
  method CollectHits(db: Db, page: seq<int>, le: (string, string) -> bool, faults: seq<HitFaults>)
    returns (hits: seq<Hit>)
    requires TotalOrder(le) && |faults| == |page|
    ensures |hits| == |page| && forall i :: 0 <= i < |page| ==> IsHit(db, page[i], le, faults[i], hits[i])
  {
    hits := [];
    var i := 0;
    while i < |page|
      invariant 0 <= i == |hits| <= |page|
      invariant forall j :: 0 <= j < i ==> IsHit(db, page[j], le, faults[j], hits[j])
    {
      var e := page[i];
      var tags: seq<string> := [];
      if !faults[i].tags { tags := TagQuery(db, e, le); }
      var has := !faults[i].attachment && exists x :: x in db.attachments && db.attachments[x].email == e;
      hits := hits + [Hit(e, tags, has)];
      i := i + 1;
    }
  }
}
