/** The string functions of the Rust standard library that the program uses, on ASCII text. */
module Text {
  import opened Common

  predicate IsSpace(c: char) { c == ' ' || '\t' <= c <= '\r' }

  ghost predicate Spaceless(s: string) { forall i :: 0 <= i < |s| ==> !IsSpace(s[i]) }

  predicate FirstAt(s: string, c: char, i: nat) {
    i < |s| && s[i] == c && forall j :: 0 <= j < i ==> s[j] != c
  }

  predicate LastAt(s: string, c: char, i: nat) {
    i < |s| && s[i] == c && forall j :: i < j < |s| ==> s[j] != c
  }

  lemma {:induction false} FirstExists(s: string, c: char, k: nat)
    requires k < |s| && s[k] == c
    ensures exists i :: FirstAt(s, c, i)
    decreases k
  {
    if j: nat :| j < k && s[j] == c { FirstExists(s, c, j); } else { assert FirstAt(s, c, k); }
  }

  lemma {:induction false} LastExists(s: string, c: char, k: nat)
    requires k < |s| && s[k] == c
    ensures exists i :: LastAt(s, c, i)
    decreases |s| - k
  {
    if j: nat :| k < j < |s| && s[j] == c { LastExists(s, c, j); } else { assert LastAt(s, c, k); }
  }

  lemma HasFirst(s: string, c: char)
    requires c in s
    ensures exists i: nat :: i < |s| && FirstAt(s, c, i)
  {
    var k :| 0 <= k < |s| && s[k] == c;
    FirstExists(s, c, k);
  }

  lemma HasLast(s: string, c: char)
    requires c in s
    ensures exists i: nat :: i < |s| && LastAt(s, c, i)
  {
    var k :| 0 <= k < |s| && s[k] == c;
    LastExists(s, c, k);
  }

  /** `str::find` for one char. */
  function Find(s: string, c: char): (r: Option<nat>)
    ensures r.Some? ==> FirstAt(s, c, r.value)
    ensures r.None? <==> c !in s
  {
    if c !in s then None
    else
      HasFirst(s, c);
      var i: nat :| i < |s| && FirstAt(s, c, i);
      Some(i)
  }

  /** `str::rfind` for one char. */
  function RFind(s: string, c: char): (r: Option<nat>)
    ensures r.Some? ==> LastAt(s, c, r.value)
    ensures r.None? <==> c !in s
  {
    if c !in s then None
    else
      HasLast(s, c);
      var i: nat :| i < |s| && LastAt(s, c, i);
      Some(i)
  }

  lemma RFindAt(s: string, c: char, i: nat)
    requires LastAt(s, c, i)
    ensures RFind(s, c) == Some(i)
  {}

  lemma FindAt(s: string, c: char, i: nat)
    requires FirstAt(s, c, i)
    ensures Find(s, c) == Some(i)
  {}

  /** What stands between two chars. */
  lemma Between(prefix: string, c: char, mid: string, rest: string)
    ensures (prefix + ([c] + (mid + rest)))[|prefix| + 1..|prefix| + 1 + |mid|] == mid
  {}

  lemma FirstAfter(prefix: string, c: char, rest: string)
    requires c !in prefix
    ensures FirstAt(prefix + ([c] + rest), c, |prefix|)
  {}

  lemma FirstBeyond(prefix: string, d: char, mid: string, c: char, rest: string)
    requires c !in prefix && c !in mid && c != d
    ensures FirstAt(prefix + ([d] + (mid + ([c] + rest))), c, |prefix| + 1 + |mid|)
  {}

  function TrimStart(s: string): (r: string)
    ensures r == "" || !IsSpace(r[0])
    ensures |r| <= |s|
  {
    if s != "" && IsSpace(s[0]) then TrimStart(s[1..]) else s
  }

  function TrimEnd(s: string): (r: string)
    ensures r == "" || !IsSpace(r[|r| - 1])
    ensures |r| <= |s|
  {
    if s != "" && IsSpace(s[|s| - 1]) then TrimEnd(s[..|s| - 1]) else s
  }

  lemma {:induction false} TrimStartIs(s: string)
    ensures var r := TrimStart(s); r == s[|s| - |r|..] && forall i :: 0 <= i < |s| - |r| ==> IsSpace(s[i])
    decreases |s|
  {
    if s != "" && IsSpace(s[0]) { TrimStartIs(s[1..]); }
  }

  lemma {:induction false} TrimEndIs(s: string)
    ensures var r := TrimEnd(s); r == s[..|r|] && forall i :: |r| <= i < |s| ==> IsSpace(s[i])
    decreases |s|
  {
    if s != "" && IsSpace(s[|s| - 1]) { TrimEndIs(s[..|s| - 1]); }
  }

  /** `str::trim`. */
  function Trim(s: string): string { TrimEnd(TrimStart(s)) }

  ghost predicate Blank(s: string) { forall i :: 0 <= i < |s| ==> IsSpace(s[i]) }

  lemma {:induction false} BlankSkipped(gap: string, s: string)
    requires Blank(gap) && s != "" && !IsSpace(s[0])
    ensures TrimStart(gap + s) == s
    decreases |gap|
  {
    if gap == "" {
      assert gap + s == s;
      assert TrimStart(s) == s;
    } else {
      assert (gap + s)[0] == gap[0];
      assert (gap + s)[1..] == gap[1..] + s;
      BlankSkipped(gap[1..], s);
    }
  }

  lemma {:induction false} BlankDropped(s: string, gap: string)
    requires Blank(gap) && s != "" && !IsSpace(s[|s| - 1])
    ensures TrimEnd(s + gap) == s
    decreases |gap|
  {
    var t := s + gap;
    if gap == "" {
      assert t == s;
      assert TrimEnd(s) == s;
    } else {
      assert t[|t| - 1] == gap[|gap| - 1];
      assert t[..|t| - 1] == s + gap[..|gap| - 1];
      BlankDropped(s, gap[..|gap| - 1]);
    }
  }

  lemma {:induction false} BlankTrimmed(s: string)
    requires Blank(s)
    ensures TrimStart(s) == "" && Trim(s) == ""
    decreases |s|
  {
    if s != "" { BlankTrimmed(s[1..]); }
  }

  /** White space around a text is trimmed off. */
  lemma PaddingTrimmed(before: string, text: string, after: string)
    requires Blank(before) && Blank(after) && text != "" && !IsSpace(text[0]) && !IsSpace(text[|text| - 1])
    ensures Trim(before + (text + after)) == text
  {
    assert (text + after)[0] == text[0];
    BlankSkipped(before, text + after);
    BlankDropped(text, after);
  }

  function LowerChar(c: char): char { if 'A' <= c <= 'Z' then c - 'A' + 'a' else c }

  /** `str::to_lowercase`. */
  function Lower(s: string): string { seq(|s|, i requires 0 <= i < |s| => LowerChar(s[i])) }

  function UpperChar(c: char): char { if 'a' <= c <= 'z' then c - 'a' + 'A' else c }

  /** `str::to_uppercase`. */
  function Upper(s: string): string { seq(|s|, i requires 0 <= i < |s| => UpperChar(s[i])) }

  /** The same letter, in either case. */
  predicate SameLetter(c: char, d: char) {
    c == d || ('A' <= c <= 'Z' && d == c - 'A' + 'a') || ('a' <= c <= 'z' && d == c - 'a' + 'A')
  }

  lemma LowerChars(c: char, d: char)
    ensures LowerChar(c) == LowerChar(d) <==> SameLetter(c, d)
  {}

  /** Lower-casing forgets exactly the case of letters. */
  lemma LowerSame(s: string, t: string)
    ensures Lower(s) == Lower(t) <==> |s| == |t| && forall i :: 0 <= i < |s| ==> SameLetter(s[i], t[i])
  {
    if |s| == |t| {
      forall i | 0 <= i < |s| ensures Lower(s)[i] == Lower(t)[i] <==> SameLetter(s[i], t[i]) { LowerChars(s[i], t[i]); }
      if forall i :: 0 <= i < |s| ==> SameLetter(s[i], t[i]) { assert Lower(s) == Lower(t); }
    } else {
      assert |Lower(s)| != |Lower(t)|;
    }
  }

  lemma UpperChars(c: char, d: char)
    ensures UpperChar(c) == UpperChar(d) <==> SameLetter(c, d)
  {}

  /** So does upper-casing. */
  lemma UpperSame(s: string, t: string)
    ensures Upper(s) == Upper(t) <==> |s| == |t| && forall i :: 0 <= i < |s| ==> SameLetter(s[i], t[i])
  {
    if |s| == |t| {
      forall i | 0 <= i < |s| ensures Upper(s)[i] == Upper(t)[i] <==> SameLetter(s[i], t[i]) { UpperChars(s[i], t[i]); }
      if forall i :: 0 <= i < |s| ==> SameLetter(s[i], t[i]) { assert Upper(s) == Upper(t); }
    } else {
      assert |Upper(s)| != |Upper(t)|;
    }
  }

  predicate StartsWith(s: string, prefix: string) { prefix <= s }

  /** A line between a first and a last character that are not white space is all that trimming
      its end of line leaves. */
  lemma TrimLine(l: string)
    requires l != "" && !IsSpace(l[0]) && !IsSpace(l[|l| - 1])
    ensures Trim(l + "\r\n") == l
  {
    var s := l + "\r\n";
    assert TrimStart(s) == s;
    assert s[..|s| - 1] == l + "\r" && (l + "\r")[..|l|] == l;
    assert TrimEnd(l + "\r") == TrimEnd(l) == l;
  }

  // ----- substrings ---------------------------------------------------------------------

  /** Does `part` occur in `s` at `i`? */
  predicate OccursAt(s: string, part: string, i: nat) { i + |part| <= |s| && s[i..i + |part|] == part }

  predicate Contains(s: string, part: string) { exists i: nat :: i <= |s| && OccursAt(s, part, i) }

  predicate FirstOccurrence(s: string, part: string, i: nat) {
    OccursAt(s, part, i) && forall j: nat :: j < i ==> !OccursAt(s, part, j)
  }

  lemma {:induction false} HasFirstOccurrence(s: string, part: string, i: nat)
    requires OccursAt(s, part, i)
    ensures exists j: nat :: j <= |s| && FirstOccurrence(s, part, j)
    decreases i
  {
    if j: nat :| j < i && OccursAt(s, part, j) {
      HasFirstOccurrence(s, part, j);
    } else {
      assert i <= |s| && FirstOccurrence(s, part, i);
    }
  }

  lemma ContainsFirst(s: string, part: string)
    requires Contains(s, part)
    ensures exists j: nat :: j <= |s| && FirstOccurrence(s, part, j)
  {
    var i: nat :| i <= |s| && OccursAt(s, part, i);
    HasFirstOccurrence(s, part, i);
  }

  /** `str::find` for a string. */
  function FindPart(s: string, part: string): (r: Option<nat>)
    ensures r.Some? ==> FirstOccurrence(s, part, r.value)
    ensures r.None? <==> !Contains(s, part)
  {
    if !Contains(s, part) then None
    else
      ContainsFirst(s, part);
      var i: nat :| i <= |s| && FirstOccurrence(s, part, i);
      Some(i)
  }

  /** `word` stands in `s`, in any case. */
  ghost predicate Mentions(s: string, word: string) {
    exists i: nat :: i + |word| <= |s| && InAnyCase(s, word, i)
  }

  predicate InAnyCase(s: string, word: string, i: nat)
    requires i + |word| <= |s|
  {
    forall j :: 0 <= j < |word| ==> SameLetter(s[i + j], word[j])
  }

  lemma OccursLower(s: string, word: string, i: nat)
    requires Lower(word) == word && i + |word| <= |s|
    ensures OccursAt(Lower(s), word, i) <==> InAnyCase(s, word, i)
  {
    var part := s[i..i + |word|];
    assert Lower(s)[i..i + |word|] == Lower(part);
    LowerSame(part, word);
    assert forall j :: 0 <= j < |word| ==> part[j] == s[i + j];
  }

  /** Looking for a lower-case word in the lower-cased text. */
  lemma ContainsLower(s: string, word: string)
    requires Lower(word) == word
    ensures Contains(Lower(s), word) <==> Mentions(s, word)
  {
    if Contains(Lower(s), word) {
      var i: nat :| i <= |Lower(s)| && OccursAt(Lower(s), word, i);
      OccursLower(s, word, i);
    }
    if Mentions(s, word) {
      var i: nat :| i + |word| <= |s| && InAnyCase(s, word, i);
      OccursLower(s, word, i);
      assert i <= |Lower(s)|;
    }
  }

  // ----- words --------------------------------------------------------------------------

  function WordsFrom(s: string, word: string): seq<string>
    decreases |s|
  {
    if s == "" then (if word == "" then [] else [word])
    else if IsSpace(s[0]) then (if word == "" then [] else [word]) + WordsFrom(s[1..], "")
    else WordsFrom(s[1..], word + [s[0]])
  }

  /** `str::split_whitespace`. */
  function Words(s: string): seq<string> { WordsFrom(s, "") }

  /** `join(" ")`. */
  function Join(words: seq<string>): string {
    if words == [] then "" else if |words| == 1 then words[0] else words[0] + " " + Join(words[1..])
  }

  ghost predicate IsWord(w: string) { w != "" && Spaceless(w) }

  ghost predicate AllWords(words: seq<string>) { forall i :: 0 <= i < |words| ==> IsWord(words[i]) }

  lemma {:induction false} WordsFromAreWords(s: string, word: string)
    requires Spaceless(word)
    ensures AllWords(WordsFrom(s, word))
    decreases |s|
  {
    if s != "" {
      if IsSpace(s[0]) { WordsFromAreWords(s[1..], ""); } else { WordsFromAreWords(s[1..], word + [s[0]]); }
    }
  }

  lemma {:induction false} WordsFromSpace(a: string, b: string, word: string)
    ensures WordsFrom(a + " " + b, word) == WordsFrom(a, word) + Words(b)
    decreases |a|
  {
    var s := a + " " + b;
    if a == "" {
      assert s[1..] == b;
    } else {
      assert s[1..] == a[1..] + " " + b;
      if IsSpace(a[0]) { WordsFromSpace(a[1..], b, ""); } else { WordsFromSpace(a[1..], b, word + [a[0]]); }
    }
  }

  lemma {:induction false} WordsFromWord(w: string, word: string)
    requires Spaceless(w)
    ensures WordsFrom(w, word) == if word + w == "" then [] else [word + w]
    decreases |w|
  {
    if w == "" {
      assert word + w == word;
    } else {
      assert word + [w[0]] + w[1..] == word + w;
      WordsFromWord(w[1..], word + [w[0]]);
    }
  }

  lemma OneWord(w: string)
    requires IsWord(w)
    ensures Words(w) == [w]
  {
    WordsFromWord(w, "");
    assert "" + w == w;
  }

  /** Splitting undoes joining. */
  lemma {:induction false} WordsOfJoin(words: seq<string>)
    requires AllWords(words)
    ensures Words(Join(words)) == words
    decreases |words|
  {
    if |words| == 1 {
      OneWord(words[0]);
    } else if |words| > 1 {
      WordsFromSpace(words[0], Join(words[1..]), "");
      OneWord(words[0]);
      WordsOfJoin(words[1..]);
    }
  }

  lemma {:induction false} JoinPrefix(words: seq<string>, m: nat)
    requires m <= |words|
    ensures Join(words[..m]) <= Join(words)
    decreases |words|
  {
    if m > 1 {
      assert words[..m][1..] == words[1..][..m - 1];
      JoinPrefix(words[1..], m - 1);
    } else if m == 1 {
      assert words[..1] == [words[0]];
    }
  }
}
