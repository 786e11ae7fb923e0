/** What one undisturbed pass does to one folder, as a function of the rows before it, and
    what a sequence of such passes retries and never retries. */
module FolderPass {
  import opened Common
  import opened EmailTable

  /** The rows stored for the UIDs of `got`, which maps each to its received date. */
  function Inserted(a: int, f: string, gen: int, got: map<int, Option<int>>): set<Email> {
    set u | u in got :: Email(a, f, u, got[u], gen)
  }

  /** `received_at < cutoff`, which SQL makes false when the date is NULL. Without a cutoff
      (grace_period_days is not positive) nothing expires. */
  predicate Expired(e: Email, cutoff: Option<int>) {
    cutoff.Some? && e.received.Some? && e.received.value < cutoff.value
  }

  function ExpiredUids(rows: set<Email>, cutoff: Option<int>): set<int> {
    set e | e in rows && Expired(e, cutoff) :: e.uid
  }

  /** The rows after the pass: everything archived, less what is both expired and gone. */
  function AfterPass(before: set<Email>, stored: set<Email>, server: set<int>, cutoff: Option<int>): set<Email> {
    set e | e in before + stored && !(Expired(e, cutoff) && e.uid !in server)
  }

  /** The UIDs a pass tries to download. */
  function Attempted(before: set<Email>, server: set<int>): set<int> { Above(server, Max(Uids(before))) }

  /** UIDs of `rows` missing from the server that the grace period still protects: their date is
      NULL or not before the cutoff, or nothing is ever deleted. */
  function Protected(rows: set<Email>, server: set<int>, cutoff: Option<int>): set<int> {
    set e | e in rows && e.uid !in server
            && (cutoff.None? || e.received.None? || e.received.value >= cutoff.value) :: e.uid
  }

  lemma InsertedUids(a: int, f: string, gen: int, got: map<int, Option<int>>)
    ensures Uids(Inserted(a, f, gen, got)) == got.Keys
  {
    forall u | u in got ensures u in Uids(Inserted(a, f, gen, got)) {
      assert Email(a, f, u, got[u], gen) in Inserted(a, f, gen, got);
    }
  }

  lemma UidsUnion(x: set<Email>, y: set<Email>)
    ensures Uids(x + y) == Uids(x) + Uids(y)
  {}

  /** The archived UIDs after a pass. */
  lemma UidsAfterPass(before: set<Email>, stored: set<Email>, server: set<int>, cutoff: Option<int>)
    requires Uids(stored) <= server
    ensures Uids(AfterPass(before, stored, server, cutoff))
            == (Uids(before) + Uids(stored)) * server + Protected(before, server, cutoff)
  {}

  // ----- the retry set ------------------------------------------------------------------

  /** Of the UIDs listed by the server, those a pass leaves out of the archive are exactly the
      ones already missing at or below the old maximum and the ones it tried and did not store. */
  lemma MissingAfterPass(before: set<Email>, server: set<int>, stored: set<Email>, cutoff: Option<int>)
    requires Uids(stored) <= Attempted(before, server)
    ensures server - Uids(AfterPass(before, stored, server, cutoff))
            == (server - Uids(before) - Attempted(before, server)) + (Attempted(before, server) - Uids(stored))
  {
    UidsAfterPass(before, stored, server, cutoff);
    assert Attempted(before, server) !! Uids(before);
  }

  /** The next pass tries exactly the listed UIDs still missing above the new maximum and the
      arrivals, given that arrivals get higher UIDs than anything seen before. */
  lemma NextAttempts(after: set<Email>, server: set<int>, next: set<int>)
    requires forall u, x :: u in next - server && x in server + Uids(after) ==> x < u
    ensures Attempted(after, next)
            == (Above(next * server, Max(Uids(after))) - Uids(after)) + (next - server)
  {
    var max := Max(Uids(after));
    forall u | u in next - server ensures u in Attempted(after, next) {
      if max.Some? { assert max.value in server + Uids(after); }
    }
  }

  datatype PassInput = PassInput(server: set<int>, stored: set<Email>, cutoff: Option<int>)

  function Next(rows: set<Email>, p: PassInput): set<Email> {
    AfterPass(rows, p.stored, p.server, p.cutoff)
  }

  /** The passes a folder with unchanged UIDVALIDITY goes through. Each stores rows only for
      UIDs it attempted. */
  ghost predicate LegalPasses(rows: set<Email>, passes: seq<PassInput>)
    decreases |passes|
  {
    passes != [] ==>
      var p := passes[0];
      && Uids(p.stored) <= Attempted(rows, p.server)
      && LegalPasses(Next(rows, p), passes[1..])
  }

  ghost function RunPasses(rows: set<Email>, passes: seq<PassInput>): set<Email>
    decreases |passes|
  {
    if passes == [] then rows
    else RunPasses(Next(rows, passes[0]), passes[1..])
  }

  /** Some archived row at or above `u` exists before every pass of the run. */
  ghost predicate ShadowedThroughout(rows: set<Email>, passes: seq<PassInput>, u: int)
    decreases |passes|
  {
    passes != [] ==>
      && (exists x :: x in Uids(rows) && x >= u)
      && ShadowedThroughout(Next(rows, passes[0]), passes[1..], u)
  }

  /** A missing UID is never retried while a row at or above it remains. */
  lemma {:induction false} ShadowedStaysMissing(rows: set<Email>, passes: seq<PassInput>, u: int)
    requires LegalPasses(rows, passes) && ShadowedThroughout(rows, passes, u)
    requires u !in Uids(rows)
    ensures u !in Uids(RunPasses(rows, passes))
    decreases |passes|
  {
    if passes != [] {
      var p := passes[0];
      assert u !in Attempted(rows, p.server);
      UidsAfterPass(rows, p.stored, p.server, p.cutoff);
      assert u !in Uids(p.stored);
      assert Protected(rows, p.server, p.cutoff) <= Uids(rows);
      ShadowedStaysMissing(Next(rows, p), passes[1..], u);
    }
  }

  /** Once nothing archived reaches it any more, a listed missing UID is tried again. */
  lemma RetriedExactlyWhenUnshadowed(rows: set<Email>, server: set<int>, u: int)
    requires u in server && u !in Uids(rows)
    ensures u in Attempted(rows, server) <==> !exists x :: x in Uids(rows) && x >= u
  {}

  // ----- grace deletion as the program does it ------------------------------------------

  /** The program deletes by UID: every row of the folder whose UID some expired row has and
      the server does not list. */
  function GraceDeleted(rows: set<Email>, server: set<int>, cutoff: Option<int>): set<Email> {
    set e | e in rows && !(e.uid in ExpiredUids(rows, cutoff) && e.uid !in server)
  }

  /** That is exactly the expired and absent rows if and only if no such row shares its UID
      with one that has not expired. */
  lemma GraceExactlyWhen(rows: set<Email>, server: set<int>, cutoff: Option<int>)
    ensures GraceDeleted(rows, server, cutoff) == AfterPass(rows, {}, server, cutoff)
      <==> forall d, e | d in rows && e in rows && d.uid == e.uid && d.uid !in server ::
             Expired(d, cutoff) <==> Expired(e, cutoff)
  {
    var kept := AfterPass(rows, {}, server, cutoff);
    if GraceDeleted(rows, server, cutoff) == kept {
      forall d, e | d in rows && e in rows && d.uid == e.uid && d.uid !in server && Expired(d, cutoff)
        ensures Expired(e, cutoff)
      {
        assert e !in GraceDeleted(rows, server, cutoff);
        assert e !in kept;
      }
    }
  }
}
