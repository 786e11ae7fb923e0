/** What a pass over a folder does whatever fails: in every interleaving in which the account's
    tasks do not overlap it is the atomic pass, and it leaves out exactly the retry set. */
module EnginePass {
  import opened Common
  import opened EmailTable
  import opened FolderPass
  import opened Engine
  import opened EngineSafety
  import opened EngineMirror

  /** How far the pass has got, in terms of the rows when MAX was read and what was stored since. */
  ghost predicate Progress(pc: Pc, rows: set<Email>, a: int) {
    match pc
    case Fetching(f, v, server, todo, before, got) =>
      && rows == before + Inserted(a, f, v, got)
      && todo !! got.Keys && todo + got.Keys <= Attempted(before, server)
    case Deleting(f, v, server, todo, before, got, cutoff) =>
      var all := before + Inserted(a, f, v, got);
      && rows == (set e | e in all && !(Expired(e, cutoff) && e.uid !in server && e.uid !in todo))
      && todo <= ExpiredUids(all, cutoff) && got.Keys <= Attempted(before, server)
    case _ => true
  }

  ghost predicate TaskProgress(emails: Table, task: Task) {
    task.pc.Fetching? || task.pc.Deleting? ==>
      Progress(task.pc, Rows(emails, task.account, task.pc.folder), task.account)
  }

  ghost predicate PassInv(s: State, a: int) {
    UniqueInv(s, a) && forall t :: RunningOf(s, a, t) ==> TaskProgress(s.emails, s.tasks[t])
  }

  lemma InsertedMore(a: int, f: string, v: int, got: map<int, Option<int>>, u: int, r: Option<int>)
    requires u !in got
    ensures Inserted(a, f, v, got[u := r]) == Inserted(a, f, v, got) + {Email(a, f, u, r, v)}
  {
    forall x | x in Inserted(a, f, v, got) ensures x in Inserted(a, f, v, got[u := r]) {
      assert x.uid in got && got[u := r][x.uid] == got[x.uid];
    }
    assert got[u := r][u] == r;
  }

  lemma FetchProgress(s: State, task: Task, u: int, o: Outcome)
    requires CanMove(s, task, Fetch(u, o)) && IdsBelow(s.emails, s.nextId) && TaskProgress(s.emails, task)
    ensures TaskProgress(MovedEmails(s, task, Fetch(u, o)), MovedTask(s, task, Fetch(u, o)))
  {
    var a, pc := task.account, task.pc;
    if o.Stored? {
      InsertViews(s.emails, s.nextId, Email(a, pc.folder, u, o.received, pc.validity), a, pc.folder);
      InsertedMore(a, pc.folder, pc.validity, pc.got, u, o.received);
    }
  }

  lemma DeleteProgress(s: State, task: Task, u: int)
    requires CanMove(s, task, Delete(u)) && UniqueFor(s.emails, task.account) && TaskProgress(s.emails, task)
    ensures TaskProgress(MovedEmails(s, task, Delete(u)), MovedTask(s, task, Delete(u)))
  {
    UniqueRows(s.emails, task.account, task.pc.folder);
    DropUidViews(s.emails, task.account, task.pc.folder, u, task.account, task.pc.folder);
  }

  lemma MovedProgress(s: State, task: Task, step: Step)
    requires CanMove(s, task, step) && IdsBelow(s.emails, s.nextId) && UniqueFor(s.emails, task.account)
    requires TaskProgress(s.emails, task)
    ensures TaskProgress(MovedEmails(s, task, step), MovedTask(s, task, step))
  {
    match step
    case Fetch(u, o) => FetchProgress(s, task, u, o);
    case Delete(u) => DeleteProgress(s, task, u);
    case ReadMax => assert Inserted(task.account, task.pc.folder, task.pc.validity, map[]) == {};
    case _ =>
  }

  lemma MoveKeepsPass(s: State, l: Label, a: int)
    requires l.action.Move? && Enabled(s, l) && PassInv(s, a) && Exclusive(s, a)
    ensures PassInv(Apply(s, l), a)
  {
    var t, step, s' := l.action.t, l.action.step, Apply(s, l);
    StepKeepsUnique(s, l, a);
    MovedIsRunning(s, s.tasks[t], step);
    if l.account == a {
      assert RunningOf(s, a, t) && t in Running(s);
      MovedProgress(s, s.tasks[t], step);
      forall u | RunningOf(s', a, u) ensures u == t { assert u == t || u in Running(s); }
    } else {
      forall u | RunningOf(s', a, u) ensures TaskProgress(s'.emails, s'.tasks[u]) {
        assert RunningOf(s, a, u) && s'.tasks[u] == s.tasks[u];
        if s.tasks[u].pc.Fetching? || s.tasks[u].pc.Deleting? {
          OtherMoveKeepsRows(s, s.tasks[t], step, a, s.tasks[u].pc.folder);
        }
      }
    }
  }

  lemma StepKeepsPass(s: State, l: Label, a: int)
    requires Enabled(s, l) && PassInv(s, a) && Exclusive(s, a) && !(l.account == a && l.action.DeleteAccount?)
    ensures PassInv(Apply(s, l), a)
  {
    var s' := Apply(s, l);
    if l.action.Move? {
      MoveKeepsPass(s, l, a);
    } else {
      StepKeepsUnique(s, l, a);
      forall t | RunningOf(s', a, t) ensures TaskProgress(s'.emails, s'.tasks[t]) {
        if l.action.DeleteAccount? && (s.tasks[t].pc.Fetching? || s.tasks[t].pc.Deleting?) {
          DropAccountViews(s.emails, l.account, a, s.tasks[t].pc.folder);
        }
        assert RunningOf(s, a, t) || (l.action.Acquire? && l.action.t == t);
      }
    }
  }

  predicate AccountStays(ls: seq<Label>, a: int) {
    forall i :: 0 <= i < |ls| ==> !(ls[i].account == a && ls[i].action.DeleteAccount?)
  }

  lemma {:induction false} PassAlong(s: State, ls: seq<Label>, a: int)
    requires Legal(s, ls) && ExclusiveAlong(s, ls, a) && AccountStays(ls, a) && PassInv(s, a)
    ensures PassInv(Exec(s, ls), a)
    decreases |ls|
  {
    if ls != [] {
      assert !(ls[0].account == a && ls[0].action.DeleteAccount?);
      StepKeepsPass(s, ls[0], a);
      assert forall i :: 0 <= i < |ls[1..]| ==> ls[1..][i] == ls[i + 1];
      PassAlong(Apply(s, ls[0]), ls[1..], a);
    }
  }

  /** In every interleaving without overlapping tasks of account `a`, under arbitrary failures,
      resets and crashes: when a task is through with a folder, its rows are those of the atomic
      pass, and what the server listed and the archive lacks is exactly what was already missing at
      or below the old maximum and what was tried and not stored. */
  lemma EveryPassIsAtomic(s: State, ls: seq<Label>, max: nat, a: int, t: int)
    requires Initial(s, max) && Legal(s, ls) && ExclusiveAlong(s, ls, a) && AccountStays(ls, a)
    requires var s' := Exec(s, ls); Owns(s', a, t) && s'.tasks[t].pc.Deleting? && s'.tasks[t].pc.todo == {}
    ensures var s' := Exec(s, ls); var pc := s'.tasks[t].pc;
      var rows, tried := Rows(s'.emails, a, pc.folder), Attempted(pc.before, pc.server);
      && pc.got.Keys <= tried
      && rows == AfterPass(pc.before, Inserted(a, pc.folder, pc.validity, pc.got), pc.server, pc.cutoff)
      && pc.server - Uids(rows) == (pc.server - Uids(pc.before) - tried) + (tried - pc.got.Keys)
  {
    InitialUnique(s, max, a);
    PassAlong(s, ls, a);
    var s' := Exec(s, ls);
    var pc := s'.tasks[t].pc;
    assert RunningOf(s', a, t);
    var added := Inserted(a, pc.folder, pc.validity, pc.got);
    InsertedUids(a, pc.folder, pc.validity, pc.got);
    assert Rows(s'.emails, a, pc.folder) == AfterPass(pc.before, added, pc.server, pc.cutoff);
    MissingAfterPass(pc.before, pc.server, added, pc.cutoff);
  }

  // ----- what is never retried ----------------------------------------------------------

  /** The folder has a row at or above `u` in every state of the run. */
  ghost predicate ShadowedAlong(s: State, ls: seq<Label>, a: int, f: string, u: int)
    requires Legal(s, ls)
    decreases |ls|
  {
    && (exists x :: x in Uids(Rows(s.emails, a, f)) && x >= u)
    && (ls != [] ==> ShadowedAlong(Apply(s, ls[0]), ls[1..], a, f, u))
  }

  /** `u` is not archived in the folder, and no task means to fetch it. */
  ghost predicate Missed(s: State, a: int, f: string, u: int) {
    && IdsBelow(s.emails, s.nextId) && u !in Uids(Rows(s.emails, a, f))
    && forall t :: Owns(s, a, t) && s.tasks[t].pc.Fetching? && s.tasks[t].pc.folder == f ==> u !in s.tasks[t].pc.todo
  }

  lemma MovedMissed(s: State, task: Task, step: Step, a: int, f: string, u: int)
    requires CanMove(s, task, step) && IdsBelow(s.emails, s.nextId) && u !in Uids(Rows(s.emails, a, f))
    requires task.account == a && task.pc.Fetching? && task.pc.folder == f ==> u !in task.pc.todo
    ensures u !in Uids(Rows(MovedEmails(s, task, step), a, f))
  {
    if Stores(step) {
      var e := Email(task.account, task.pc.folder, step.uid, step.outcome.received, task.pc.validity);
      InsertViews(s.emails, s.nextId, e, a, f);
    } else {
      MovedEmailsShrink(s, task, step);
      SubTableUids(s.emails, MovedEmails(s, task, step), a, f);
    }
  }

  lemma MovedSkips(s: State, task: Task, step: Step, f: string, u: int)
    requires CanMove(s, task, step) && exists x :: x in Uids(Rows(s.emails, task.account, f)) && x >= u
    requires task.pc.Fetching? && task.pc.folder == f ==> u !in task.pc.todo
    ensures var pc := MovedPc(s, task, step); pc.Fetching? && pc.folder == f ==> u !in pc.todo
  {}

  lemma MoveMisses(s: State, l: Label, a: int, f: string, u: int)
    requires l.action.Move? && Enabled(s, l)
    requires Missed(s, a, f, u) && exists x :: x in Uids(Rows(s.emails, a, f)) && x >= u
    ensures Missed(Apply(s, l), a, f, u)
  {
    var s', t, step := Apply(s, l), l.action.t, l.action.step;
    MovedMissed(s, s.tasks[t], step, a, f, u);
    if l.account == a { MovedSkips(s, s.tasks[t], step, f, u); }
    if !Stores(step) { MovedEmailsShrink(s, s.tasks[t], step); }
    assert forall v :: Owns(s', a, v) && v != t ==> Owns(s, a, v) && s'.tasks[v] == s.tasks[v];
  }

  lemma StepMisses(s: State, l: Label, a: int, f: string, u: int)
    requires Enabled(s, l) && Missed(s, a, f, u) && exists x :: x in Uids(Rows(s.emails, a, f)) && x >= u
    ensures Missed(Apply(s, l), a, f, u)
  {
    var s' := Apply(s, l);
    if l.action.Move? {
      MoveMisses(s, l, a, f, u);
    } else {
      SubTableUids(s.emails, s'.emails, a, f);
      assert forall v :: Owns(s', a, v) && s'.tasks[v].pc.Fetching? ==> Owns(s, a, v) && s'.tasks[v] == s.tasks[v];
    }
  }

  /** In any interleaving, whatever fails: a missing UID that no task is about to fetch stays missing
      as long as a row at or above it remains. */
  lemma {:induction false} MissedStaysMissing(s: State, ls: seq<Label>, a: int, f: string, u: int)
    requires Legal(s, ls) && Missed(s, a, f, u) && ShadowedAlong(s, ls, a, f, u)
    ensures Missed(Exec(s, ls), a, f, u)
    decreases |ls|
  {
    if ls != [] {
      StepMisses(s, ls[0], a, f, u);
      MissedStaysMissing(Apply(s, ls[0]), ls[1..], a, f, u);
    }
  }

  lemma {:induction false} ExclusiveAtEnd(s: State, ls: seq<Label>, a: int)
    requires Legal(s, ls) && ExclusiveAlong(s, ls, a)
    ensures Exclusive(Exec(s, ls), a)
    decreases |ls|
  {
    if ls != [] { ExclusiveAtEnd(Apply(s, ls[0]), ls[1..], a); }
  }

  /** So what a finished pass has left out stays out, over any continuation of the run in which the
      folder keeps a row at or above it. */
  lemma LeftOutStaysMissing(s: State, ls: seq<Label>, max: nat, a: int, t: int, u: int, more: seq<Label>)
    requires Initial(s, max) && Legal(s, ls) && ExclusiveAlong(s, ls, a) && AccountStays(ls, a)
    requires var s' := Exec(s, ls); Owns(s', a, t) && s'.tasks[t].pc.Deleting? && s'.tasks[t].pc.todo == {}
    requires var s' := Exec(s, ls); var f := s'.tasks[t].pc.folder;
      && u in s'.tasks[t].pc.server - Uids(Rows(s'.emails, a, f))
      && Legal(s', more) && ShadowedAlong(s', more, a, f, u)
    ensures var s' := Exec(s, ls); u !in Uids(Rows(Exec(s', more).emails, a, s'.tasks[t].pc.folder))
  {
    var s' := Exec(s, ls);
    InitialUnique(s, max, a);
    PassAlong(s, ls, a);
    ExclusiveAtEnd(s, ls, a);
    assert t in Running(s');
    forall v | Owns(s', a, v) && !s'.tasks[v].pc.Waiting? ensures v == t { assert v in Running(s'); }
    MissedStaysMissing(s', more, a, s'.tasks[t].pc.folder, u);
  }
}
