/** The walk over a parsed message: its body text and its attachments. */
module Mime {
  import opened Common
  import opened Text
  import opened Storage

  /** A parsed MIME part. `raw` and `text` are what its decoders return: None is a failure. */
  datatype Part = Part(
    mime: string, disposition: Option<string>, raw: Option<Bytes>, text: Option<string>, subparts: seq<Part>)

  // ----- body text ----------------------------------------------------------------------

  predicate Matches(p: Part, mime: string) { Lower(p.mime) == Lower(mime) }

  /** Types are compared without regard to case. */
  lemma MatchesExactlyWhen(p: Part, mime: string)
    ensures Matches(p, mime)
      <==> |p.mime| == |mime| && forall i :: 0 <= i < |mime| ==> SameLetter(p.mime[i], mime[i])
  {
    LowerSame(p.mime, mime);
  }

  function FindText(p: Part, mime: string): Option<string>
    decreases p, 1
  {
    if Matches(p, mime) then p.text else FindTextIn(p.subparts, mime)
  }

  function FindTextIn(ps: seq<Part>, mime: string): Option<string>
    decreases ps, 0
  {
    if ps == [] then None
    else
      match FindText(ps[0], mime)
      case Some(body) => Some(body)
      case None => FindTextIn(ps[1..], mime)
  }

  /** find_text_part: an early return out of a loop over the subparts. */
  method FindTextPart(p: Part, mime: string) returns (r: Option<string>)
    ensures r == FindText(p, mime)
    decreases p
  {
    if Matches(p, mime) { return p.text; }
    var i := 0;
    while i < |p.subparts|
      invariant 0 <= i <= |p.subparts|
      invariant FindTextIn(p.subparts[i..], mime) == FindTextIn(p.subparts, mime)
    {
      assert p.subparts[i..][0] == p.subparts[i] && p.subparts[i..][1..] == p.subparts[i + 1..];
      r := FindTextPart(p.subparts[i], mime);
      if r.Some? { return; }
      i := i + 1;
    }
    r := None;
  }

  /** All parts, each before its subparts. */
  function Preorder(p: Part): seq<Part>
    decreases p, 1
  {
    [p] + PreorderAll(p.subparts)
  }

  function PreorderAll(ps: seq<Part>): seq<Part>
    decreases ps, 0
  {
    if ps == [] then [] else Preorder(ps[0]) + PreorderAll(ps[1..])
  }

  /** The number of parts below and including `p`. */
  function Size(p: Part): nat { |Preorder(p)| }

  /** The matching parts in preorder that lie below no other matching part: starting at
      position `i` of a preorder, a match is kept and its whole subtree skipped. */
  function Outermost(parts: seq<Part>, mime: string): seq<Part>
    decreases |parts|
  {
    if parts == [] then []
    else if Matches(parts[0], mime) && Size(parts[0]) <= |parts| then
      [parts[0]] + Outermost(parts[Size(parts[0])..], mime)
    else Outermost(parts[1..], mime)
  }

  function FirstText(parts: seq<Part>): Option<string> {
    if parts == [] then None else if parts[0].text.Some? then parts[0].text else FirstText(parts[1..])
  }

  lemma {:induction false} FirstTextConcat(a: seq<Part>, b: seq<Part>)
    ensures FirstText(a + b) == if FirstText(a).Some? then FirstText(a) else FirstText(b)
    decreases |a|
  {
    if a == [] {
      assert a + b == b;
    } else {
      assert (a + b)[1..] == a[1..] + b;
      FirstTextConcat(a[1..], b);
    }
  }

  lemma {:induction false} OutermostOfPart(p: Part, rest: seq<Part>, mime: string)
    ensures Outermost(Preorder(p) + rest, mime)
         == (if Matches(p, mime) then [p] else Outermost(PreorderAll(p.subparts), mime)) + Outermost(rest, mime)
    decreases p, 1
  {
    var parts := Preorder(p) + rest;
    assert parts[0] == p;
    if Matches(p, mime) {
      assert parts[Size(p)..] == rest;
    } else {
      assert parts[1..] == PreorderAll(p.subparts) + rest;
      OutermostOfParts(p.subparts, rest, mime);
    }
  }

  lemma {:induction false} OutermostOfParts(ps: seq<Part>, rest: seq<Part>, mime: string)
    ensures Outermost(PreorderAll(ps) + rest, mime) == Outermost(PreorderAll(ps), mime) + Outermost(rest, mime)
    decreases ps, 0
  {
    if ps == [] {
      assert PreorderAll(ps) + rest == rest;
    } else {
      var tail := PreorderAll(ps[1..]);
      var own := if Matches(ps[0], mime) then [ps[0]] else Outermost(PreorderAll(ps[0].subparts), mime);
      AppendAssoc(Preorder(ps[0]), tail, rest);
      OutermostOfPart(ps[0], tail + rest, mime);
      OutermostOfPart(ps[0], tail, mime);
      OutermostOfParts(ps[1..], rest, mime);
      AppendAssoc(own, Outermost(tail, mime), Outermost(rest, mime));
    }
  }

  /** find_text_part returns the first decodable part among the outermost matches in preorder:
      it never looks below a match, even one that does not decode. */
  lemma {:induction false} FindTextIsFirst(p: Part, mime: string)
    ensures FindText(p, mime) == FirstText(Outermost(Preorder(p), mime))
    decreases p, 1
  {
    OutermostOfPart(p, [], mime);
    assert Preorder(p) + [] == Preorder(p);
    if Matches(p, mime) {
      assert [p] + Outermost([], mime) == [p];
      assert [p][1..] == [];
    } else {
      FindTextInIsFirst(p.subparts, mime);
      assert Outermost(PreorderAll(p.subparts), mime) + Outermost([], mime)
          == Outermost(PreorderAll(p.subparts), mime);
    }
  }

  lemma {:induction false} FindTextInIsFirst(ps: seq<Part>, mime: string)
    ensures FindTextIn(ps, mime) == FirstText(Outermost(PreorderAll(ps), mime))
    decreases ps, 0
  {
    if ps != [] {
      FindTextIsFirst(ps[0], mime);
      FindTextInIsFirst(ps[1..], mime);
      OutermostOfPart(ps[0], PreorderAll(ps[1..]), mime);
      OutermostOfPart(ps[0], [], mime);
      assert Preorder(ps[0]) + [] == Preorder(ps[0]);
      var own := Outermost(Preorder(ps[0]), mime);
      assert Outermost(PreorderAll(ps), mime) == own + Outermost(PreorderAll(ps[1..]), mime) by {
        assert (if Matches(ps[0], mime) then [ps[0]] else Outermost(PreorderAll(ps[0].subparts), mime)) + [] == own;
      }
      FirstTextConcat(own, Outermost(PreorderAll(ps[1..]), mime));
    }
  }

  /** extract_body_text, over the HTML stripper and the lossy decoder; None is its error. */
  function BodyText(p: Part, strip: string -> string, lossy: Bytes -> string): Option<string> {
    match FindText(p, "text/plain")
    case Some(plain) => Some(plain)
    case None =>
      match FindText(p, "text/html")
      case Some(html) => Some(strip(html))
      case None => if p.raw.Some? then Some(lossy(p.raw.value)) else None
  }

  /** A decodable text/plain part anywhere beats every text/html part: only without one does
      HTML count, and only without either the raw body. */
  lemma PlainBeatsHtml(p: Part, strip: string -> string, lossy: Bytes -> string)
    ensures var plain := FirstText(Outermost(Preorder(p), "text/plain"));
      var html := FirstText(Outermost(Preorder(p), "text/html"));
      && (plain.Some? ==> BodyText(p, strip, lossy) == plain)
      && (plain.None? && html.Some? ==> BodyText(p, strip, lossy) == Some(strip(html.value)))
      && (plain.None? && html.None? && p.raw.None? ==> BodyText(p, strip, lossy).None?)
      && (plain.None? && html.None? && p.raw.Some? ==> BodyText(p, strip, lossy) == Some(lossy(p.raw.value)))
  {
    FindTextIsFirst(p, "text/plain");
    FindTextIsFirst(p, "text/html");
  }

  // ----- attachments --------------------------------------------------------------------

  predicate IsInline(p: Part) {
    (p.disposition.Some? && Contains(Lower(p.disposition.value), "inline")) || StartsWith(p.mime, "image/")
  }

  /** The part becomes an attachment. */
  predicate Attached(p: Part) {
    && ((p.disposition.Some? && Contains(Lower(p.disposition.value), "attachment")) || IsInline(p))
    && !StartsWith(p.mime, "text/")
    && p.raw.Some? && p.raw.value != ""
  }

  /** The Content-Disposition header mentions the word, in any case. */
  ghost predicate Says(p: Part, word: string) { p.disposition.Some? && Mentions(p.disposition.value, word) }

  /** Which parts are recorded: those whose disposition mentions `attachment` or `inline`, and images,
      but no text and nothing empty or undecodable; and which of them are inline. */
  lemma AttachedExactlyWhen(p: Part)
    ensures Attached(p) <==>
      && (Says(p, "attachment") || Says(p, "inline") || "image/" <= p.mime)
      && !("text/" <= p.mime) && p.raw.Some? && p.raw.value != ""
    ensures IsInline(p) <==> Says(p, "inline") || "image/" <= p.mime
  {
    if p.disposition.Some? {
      ContainsLower(p.disposition.value, "attachment");
      ContainsLower(p.disposition.value, "inline");
    }
  }

  function TrimQuotesStart(s: string): string { if s != "" && s[0] == '\"' then TrimQuotesStart(s[1..]) else s }

  function TrimQuotesEnd(s: string): string {
    if s != "" && s[|s| - 1] == '\"' then TrimQuotesEnd(s[..|s| - 1]) else s
  }

  /** What follows `filename=`, without quotes at either end. */
  function Filename(disposition: Option<string>): string {
    match disposition
    case None => "unnamed_attachment"
    case Some(cd) =>
      match FindPart(cd, "filename=")
      case None => "unnamed_attachment"
      case Some(i) => TrimQuotesEnd(TrimQuotesStart(cd[i + 9..]))
  }

  lemma UnnamedWithoutParameter(disposition: Option<string>)
    requires disposition.None? || !Contains(disposition.value, "filename=")
    ensures Filename(disposition) == "unnamed_attachment"
  {}

  predicate AllQuotes(s: string) { forall i :: 0 <= i < |s| ==> s[i] == '\"' }

  lemma {:induction false} EndTrimmed(name: string, tail: string)
    requires name != "" && name[|name| - 1] != '\"'
    ensures |TrimQuotesEnd(name + tail)| >= |name|
    ensures TrimQuotesEnd(name + tail) == name <==> AllQuotes(tail)
    decreases |tail|
  {
    var s := name + tail;
    if tail == "" {
      assert s == name;
    } else {
      var init := tail[..|tail| - 1];
      assert s[..|s| - 1] == name + init;
      EndTrimmed(name, init);
      assert tail == init + [tail[|tail| - 1]];
    }
  }

  lemma {:induction false} OnlyQuotes(s: string)
    ensures TrimQuotesEnd(TrimQuotesStart(s)) == "" <==> AllQuotes(s)
    decreases |s|
  {
    if s != "" && s[0] == '\"' {
      OnlyQuotes(s[1..]);
      assert s == [s[0]] + s[1..];
    } else if s != "" {
      EndTrimmed([s[0]], s[1..]);
      assert [s[0]] + s[1..] == s;
    }
  }

  /** What is left of a quoted name when `tail` follows its closing quote. */
  lemma QuotesTrimmed(name: string, tail: string)
    requires '\"' !in name
    ensures TrimQuotesEnd(TrimQuotesStart("\"" + name + "\"" + tail)) == name <==> AllQuotes(tail)
  {
    var s := "\"" + name + "\"" + tail;
    var end := "\"" + tail;
    assert AllQuotes(end) <==> AllQuotes(tail) by { assert forall i :: 0 <= i < |tail| ==> tail[i] == end[i + 1]; }
    assert s[1..] == name + end;
    if name == "" {
      assert s[1..] == end;
      OnlyQuotes(end);
      assert TrimQuotesStart(s) == TrimQuotesStart(end);
    } else {
      assert TrimQuotesStart(name + end) == name + end;
      EndTrimmed(name, end);
    }
  }

  /** A quoted filename is recovered exactly when nothing but quotes follows its closing quote:
      another parameter after it stays part of the name. */
  lemma FilenameRecoveredExactlyWhen(prefix: string, name: string, tail: string)
    requires '\"' !in name
    requires FirstOccurrence(prefix + ("filename=" + ("\"" + name + "\"" + tail)), "filename=", |prefix|)
    ensures Filename(Some(prefix + ("filename=" + ("\"" + name + "\"" + tail)))) == name <==> AllQuotes(tail)
  {
    var cd := prefix + ("filename=" + ("\"" + name + "\"" + tail));
    assert Contains(cd, "filename=");
    assert FindPart(cd, "filename=") == Some(|prefix|);
    assert cd[|prefix| + 9..] == "\"" + name + "\"" + tail;
    QuotesTrimmed(name, tail);
  }

  /** A following parameter is kept as it stands, with the closing quote before it. */
  lemma FollowingParameterKept(prefix: string, name: string, tail: string)
    requires '\"' !in name && name != "" && tail != "" && tail[|tail| - 1] != '\"'
    requires FirstOccurrence(prefix + ("filename=" + ("\"" + name + "\"" + tail)), "filename=", |prefix|)
    ensures Filename(Some(prefix + ("filename=" + ("\"" + name + "\"" + tail)))) == name + "\"" + tail
  {
    var cd := prefix + ("filename=" + ("\"" + name + "\"" + tail));
    assert Contains(cd, "filename=");
    assert FindPart(cd, "filename=") == Some(|prefix|);
    assert cd[|prefix| + 9..] == "\"" + name + "\"" + tail;
    assert ("\"" + name + "\"" + tail)[1..] == name + "\"" + tail;
    assert TrimQuotesStart(name + "\"" + tail) == name + "\"" + tail;
  }

  function InfoOf(p: Part, hash: Bytes -> Hash): Info
    requires p.raw.Some?
  {
    Info(Filename(p.disposition), p.mime, p.raw.value, IsInline(p), hash(p.raw.value))
  }

  /** The attachments among `parts`, in order. */
  function Infos(parts: seq<Part>, hash: Bytes -> Hash): seq<Info> {
    if parts == [] then []
    else (if Attached(parts[0]) then [InfoOf(parts[0], hash)] else []) + Infos(parts[1..], hash)
  }

  lemma {:induction false} InfosConcat(a: seq<Part>, b: seq<Part>, hash: Bytes -> Hash)
    ensures Infos(a + b, hash) == Infos(a, hash) + Infos(b, hash)
    decreases |a|
  {
    if a == [] {
      assert a + b == b;
    } else {
      assert (a + b)[1..] == a[1..] + b;
      InfosConcat(a[1..], b, hash);
      AppendAssoc(if Attached(a[0]) then [InfoOf(a[0], hash)] else [], Infos(a[1..], hash), Infos(b, hash));
    }
  }

  /** Each has the hash of its data and is not empty. */
  lemma {:induction false} InfosHashed(parts: seq<Part>, hash: Bytes -> Hash)
    ensures forall i :: 0 <= i < |Infos(parts, hash)| ==>
      Infos(parts, hash)[i].fileHash == hash(Infos(parts, hash)[i].data) && Infos(parts, hash)[i].data != ""
    decreases |parts|
  {
    if parts != [] { InfosHashed(parts[1..], hash); }
  }

  /** The part's type, data and hash, the file name of its disposition, and its inline flag. */
  ghost predicate Describes(info: Info, p: Part, hash: Bytes -> Hash) {
    && p.raw.Some? && info.mime == p.mime && info.data == p.raw.value && info.fileHash == hash(p.raw.value)
    && info.filename == Filename(p.disposition) && (info.inlined <==> Says(p, "inline") || "image/" <= p.mime)
  }

  /** The attachment of part `i` comes after those of the parts before it, and describes it; parts
      that do not qualify give none. */
  lemma InfoAt(parts: seq<Part>, i: nat, hash: Bytes -> Hash)
    requires i < |parts|
    ensures var p, k, infos := parts[i], |Infos(parts[..i], hash)|, Infos(parts, hash);
      && |Infos(parts[..i + 1], hash)| == (if Attached(p) then k + 1 else k)
      && (Attached(p) ==> k < |infos| && Describes(infos[k], p, hash))
  {
    var p, before, after := parts[i], parts[..i], parts[i + 1..];
    AttachedExactlyWhen(p);
    assert parts[..i + 1] == before + [p] && parts == before + ([p] + after);
    InfosConcat(before, [p], hash);
    InfosConcat(before, [p] + after, hash);
    assert ([p] + after)[1..] == after && [p][1..] == [];
  }

  function Own(p: Part, hash: Bytes -> Hash): seq<Info> { if Attached(p) then [InfoOf(p, hash)] else [] }

  lemma InfosOfPart(p: Part, hash: Bytes -> Hash)
    ensures Infos(Preorder(p), hash) == Own(p, hash) + Infos(PreorderAll(p.subparts), hash)
  {}

  lemma InfosOfRest(ps: seq<Part>, i: nat, hash: Bytes -> Hash)
    requires i < |ps|
    ensures Infos(PreorderAll(ps[i..]), hash)
         == Infos(Preorder(ps[i]), hash) + Infos(PreorderAll(ps[i + 1..]), hash)
  {
    assert ps[i..][1..] == ps[i + 1..];
    InfosConcat(Preorder(ps[i]), PreorderAll(ps[i + 1..]), hash);
  }

  /** The accumulator of extract_attachments_recursive. */
  class Collector {
    var items: seq<Info>

    constructor ()
      ensures items == []
    {
      items := [];
    }

    /** Appends exactly the qualifying non-empty parts of the tree, in preorder. */
    method Walk(p: Part, hash: Bytes -> Hash)
      modifies this
      ensures items == old(items) + Infos(Preorder(p), hash)
      decreases p
    {
      ghost var start := items;
      InfosOfPart(p, hash);
      if Attached(p) { items := items + [InfoOf(p, hash)]; }
      ghost var added := Own(p, hash);
      var i := 0;
      while i < |p.subparts|
        invariant 0 <= i <= |p.subparts|
        invariant items == start + added
        invariant added + Infos(PreorderAll(p.subparts[i..]), hash) == Infos(Preorder(p), hash)
      {
        ghost var next := Infos(Preorder(p.subparts[i]), hash);
        InfosOfRest(p.subparts, i, hash);
        AppendAssoc(added, next, Infos(PreorderAll(p.subparts[i + 1..]), hash));
        AppendAssoc(start, added, next);
        Walk(p.subparts[i], hash);
        added := added + next;
        i := i + 1;
      }
      assert added + [] == added;
    }
  }

  /** A text part is never also an attachment when its type is in lower case, as the MIME
      parser gives it. */
  lemma TextIsNeverAttached(p: Part)
    requires Matches(p, "text/plain") || Matches(p, "text/html")
    requires p.mime == Lower(p.mime)
    ensures !Attached(p)
  {}
}
