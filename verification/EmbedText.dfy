/** The text handed to the embedding model. */
module EmbedText {
  import opened Text

  function Combined(subject: string, body: string): string {
    if subject == "" then body else subject + " " + body
  }

  function Take(words: seq<string>, n: nat): seq<string> { if n <= |words| then words[..n] else words }

  /** embed_text: the first `n` words, joined by single spaces. */
  function Embed(subject: string, body: string, n: nat): string { Join(Take(Words(Combined(subject, body)), n)) }

  lemma CombinedWords(subject: string, body: string)
    ensures Words(Combined(subject, body)) == Words(subject) + Words(body)
  {
    if subject != "" { WordsFromSpace(subject, body, ""); } else { assert Words(subject) == []; }
  }

  /** Its words are the first `n` words of the subject followed by the body. */
  lemma EmbedWords(subject: string, body: string, n: nat)
    ensures Words(Embed(subject, body, n)) == Take(Words(subject) + Words(body), n)
  {
    CombinedWords(subject, body);
    WordsFromAreWords(Combined(subject, body), "");
    WordsOfJoin(Take(Words(Combined(subject, body)), n));
  }

  /** It is in normal form: splitting and joining it again changes nothing. */
  lemma EmbedNormal(subject: string, body: string, n: nat)
    ensures Join(Words(Embed(subject, body, n))) == Embed(subject, body, n)
  {
    EmbedWords(subject, body, n);
    CombinedWords(subject, body);
  }

  /** A smaller limit gives a prefix. */
  lemma EmbedPrefix(subject: string, body: string, m: nat, n: nat)
    requires m <= n
    ensures Embed(subject, body, m) <= Embed(subject, body, n)
  {
    var words := Words(Combined(subject, body));
    if m <= |words| {
      JoinPrefix(Take(words, n), m);
      assert Take(words, n)[..m] == words[..m];
    }
  }
}
