/** The machine has the program's runs: from wherever a task stands in its pass, and whatever the
    rest of the world has done meanwhile, each further outcome of its statements is a run. */
module EngineRuns {
  import opened Common
  import opened EmailTable
  import opened FolderPass
  import opened Engine
  import opened EngineExamples
  import M = EngineMirror
  import P = EnginePass

  /** Only task `t` of account `a` moves. */
  ghost predicate OwnSteps(ls: seq<Label>, a: int, t: int) {
    forall i :: 0 <= i < |ls| ==> ls[i].account == a && ls[i].action.Move? && ls[i].action.t == t
  }

  /** Task `t` has got to `pc`, and otherwise only rows of folder `f` and the map may be different. */
  ghost predicate Got(s: State, s': State, a: int, t: int, f: string, pc: Pc)
    requires t in s.tasks
  {
    && s' == s.(tasks := s.tasks[t := s.tasks[t].(pc := pc)],
                emails := s'.emails, nextId := s'.nextId, accounts := s'.accounts)
    && OthersSame(s.emails, s'.emails, a, f) && IdsBelow(s'.emails, s'.nextId)
  }

  /** A run of `t` from `s` to `s'`. */
  ghost predicate Runs(s: State, ls: seq<Label>, s': State, a: int, t: int) {
    Legal(s, ls) && OwnSteps(ls, a, t) && Exec(s, ls) == s'
  }

  lemma RunsOn(s: State, l1: seq<Label>, s1: State, l2: seq<Label>, s2: State, a: int, t: int)
    requires Runs(s, l1, s1, a, t) && Runs(s1, l2, s2, a, t)
    ensures Runs(s, l1 + l2, s2, a, t)
  {
    ExecConcat(s, l1, l2);
  }

  lemma GotOn(s: State, s1: State, s2: State, a: int, t: int, f: string, pc1: Pc, pc2: Pc)
    requires t in s.tasks && Got(s, s1, a, t, f, pc1) && Got(s1, s2, a, t, f, pc2)
    ensures Got(s, s2, a, t, f, pc2)
  {}

  /** One statement inside a folder. */
  lemma OneStep(s: State, step: Step, a: int, t: int, f: string) returns (ls: seq<Label>, s': State)
    requires Owns(s, a, t) && CanMove(s, s.tasks[t], step) && !step.EndFolder? && !step.Abort?
    requires OthersSame(s.emails, MovedEmails(s, s.tasks[t], step), a, f)
    requires IdsBelow(MovedEmails(s, s.tasks[t], step), s.nextId + 1)
    ensures Runs(s, ls, s', a, t) && Got(s, s', a, t, f, MovedPc(s, s.tasks[t], step))
    ensures s'.emails == MovedEmails(s, s.tasks[t], step) && s'.accounts == MovedAccounts(s, s.tasks[t], step)
  {
    var l := Label(a, Move(t, step));
    ExecOne(s, l);
    ls, s' := [l], Apply(s, l);
    assert MovedTask(s, s.tasks[t], step) == s.tasks[t].(pc := MovedPc(s, s.tasks[t], step));
  }

  // ----- the fetch loop -----------------------------------------------------------------

  function Dates(u: int, o: Outcome): map<int, Option<int>> { if o.Stored? then map[u := o.received] else map[] }

  lemma StoredRow(t: Table, next: int, e: Email)
    requires IdsBelow(t, next)
    ensures OthersSame(t, t[next := e], e.account, e.folder) && IdsBelow(t[next := e], next + 1)
    ensures Rows(t[next := e], e.account, e.folder) == Rows(t, e.account, e.folder) + {e}
  {
    forall b, g { InsertViews(t, next, e, b, g); }
  }

  lemma InsertedDates(a: int, f: string, v: int, u: int, o: Outcome)
    ensures Inserted(a, f, v, Dates(u, o)) == if o.Stored? then {Email(a, f, u, o.received, v)} else {}
  {
    if o.Stored? { assert Dates(u, o)[u] == o.received; }
  }

  /** The UIDs of `seen` are through, those of `stored` with a row. */
  ghost predicate FetchedTo(s: State, ls: seq<Label>, s': State, a: int, t: int, seen: set<int>,
                            stored: map<int, Option<int>>)
    requires t in s.tasks && s.tasks[t].pc.Fetching?
  {
    var pc := s.tasks[t].pc;
    && Runs(s, ls, s', a, t) && s'.accounts == s.accounts
    && Got(s, s', a, t, pc.folder,
           Fetching(pc.folder, pc.validity, pc.server, pc.todo - seen, pc.before, pc.got + stored))
    && Rows(s'.emails, a, pc.folder) == Rows(s.emails, a, pc.folder) + Inserted(a, pc.folder, pc.validity, stored)
  }

  /** Task `t` can still fetch the UIDs of `seen` and store those of `stored`. */
  ghost predicate Fetchable(s: State, a: int, t: int, seen: set<int>, stored: map<int, Option<int>>) {
    && Owns(s, a, t) && s.tasks[t].pc.Fetching? && seen <= s.tasks[t].pc.todo && stored.Keys <= seen
    && IdsBelow(s.emails, s.nextId) && (stored != map[] ==> a in s.accounts)
  }

  lemma FetchOne(s: State, a: int, t: int, u: int, o: Outcome) returns (ls: seq<Label>, s': State)
    requires Fetchable(s, a, t, {u}, Dates(u, o))
    ensures FetchedTo(s, ls, s', a, t, {u}, Dates(u, o))
  {
    var pc := s.tasks[t].pc;
    if o.Stored? {
      assert u in Dates(u, o);
      StoredRow(s.emails, s.nextId, Email(a, pc.folder, u, o.received, pc.validity));
    }
    assert u in {u};
    ls, s' := OneStep(s, Fetch(u, o), a, t, pc.folder);
    InsertedDates(a, pc.folder, pc.validity, u, o);
    assert pc.got + Dates(u, o) == if o.Stored? then pc.got[u := o.received] else pc.got;
  }

  lemma FetchedOn(s: State, l1: seq<Label>, s1: State, l2: seq<Label>, s2: State, a: int, t: int, u: int,
                  seen: set<int>, stored: map<int, Option<int>>)
      returns (ls: seq<Label>)
    requires t in s.tasks && s.tasks[t].pc.Fetching? && u in seen
    requires FetchedTo(s, l1, s1, a, t, {u}, Dates(u, OutcomeOf(stored, u)))
    requires FetchedTo(s1, l2, s2, a, t, seen - {u}, stored - {u})
    ensures FetchedTo(s, ls, s2, a, t, seen, stored)
  {
    var pc := s.tasks[t].pc;
    OneOfDates(a, pc.folder, pc.validity, u, stored, pc.got);
    assert pc.todo - {u} - (seen - {u}) == pc.todo - seen;
    ls := GotFurther(s, l1, s1, l2, s2, a, t, pc.folder, s1.tasks[t].pc, s2.tasks[t].pc);
  }

  lemma StillFetchable(s: State, l1: seq<Label>, s1: State, a: int, t: int, u: int, seen: set<int>,
                       stored: map<int, Option<int>>)
    requires Fetchable(s, a, t, seen, stored) && u in seen
    requires FetchedTo(s, l1, s1, a, t, {u}, Dates(u, OutcomeOf(stored, u)))
    ensures Fetchable(s1, a, t, seen - {u}, stored - {u})
  {}

  lemma StayedPut(s: State, a: int, t: int, f: string)
    requires t in s.tasks && IdsBelow(s.emails, s.nextId)
    ensures Runs(s, [], s, a, t) && Got(s, s, a, t, f, s.tasks[t].pc)
  {
    assert s.tasks[t := s.tasks[t].(pc := s.tasks[t].pc)] == s.tasks;
  }

  /** Two runs inside a folder, one after the other. */
  lemma GotFurther(s: State, l1: seq<Label>, s1: State, l2: seq<Label>, s2: State, a: int, t: int, f: string,
                   pc1: Pc, pc2: Pc)
      returns (ls: seq<Label>)
    requires t in s.tasks && Runs(s, l1, s1, a, t) && Got(s, s1, a, t, f, pc1)
    requires Runs(s1, l2, s2, a, t) && Got(s1, s2, a, t, f, pc2)
    ensures Runs(s, ls, s2, a, t) && Got(s, s2, a, t, f, pc2)
  {
    ls := l1 + l2;
    RunsOn(s, l1, s1, l2, s2, a, t);
    GotOn(s, s1, s2, a, t, f, pc1, pc2);
  }

  /** The outcome of `u` among those of a pass. */
  function OutcomeOf(stored: map<int, Option<int>>, u: int): Outcome {
    if u in stored then Stored(stored[u]) else NotStored
  }

  lemma OneOfDates(a: int, f: string, v: int, u: int, stored: map<int, Option<int>>, got: map<int, Option<int>>)
    ensures var one, others := Dates(u, OutcomeOf(stored, u)), stored - {u};
      && Inserted(a, f, v, one) + Inserted(a, f, v, others) == Inserted(a, f, v, stored)
      && got + one + others == got + stored
  {
    var one, others := Dates(u, OutcomeOf(stored, u)), stored - {u};
    forall e | e in Inserted(a, f, v, stored) ensures e in Inserted(a, f, v, one) + Inserted(a, f, v, others) {
      if e.uid == u { assert u in one && one[u] == e.received; } else { assert e.uid in others; }
    }
    forall e | e in Inserted(a, f, v, one) ensures e in Inserted(a, f, v, stored) { assert u in stored; }
    forall e | e in Inserted(a, f, v, others) ensures e in Inserted(a, f, v, stored) { assert e.uid in stored; }
  }

  /** The UIDs of `seen`, each with any outcome. */
  lemma {:induction false} Fetches(s: State, a: int, t: int, seen: set<int>, stored: map<int, Option<int>>)
      returns (ls: seq<Label>, s': State)
    requires Fetchable(s, a, t, seen, stored)
    ensures FetchedTo(s, ls, s', a, t, seen, stored)
    decreases |seen|
  {
    if seen == {} {
      ls, s' := [], s;
      FetchedNothing(s, a, t, stored);
    } else {
      var u := Element(seen);
      var l1, s1 := FetchOne(s, a, t, u, OutcomeOf(stored, u));
      StillFetchable(s, l1, s1, a, t, u, seen, stored);
      var l2;
      l2, s' := Fetches(s1, a, t, seen - {u}, stored - {u});
      ls := FetchedOn(s, l1, s1, l2, s', a, t, u, seen, stored);
    }
  }

  lemma FetchedNothing(s: State, a: int, t: int, stored: map<int, Option<int>>)
    requires Fetchable(s, a, t, {}, stored)
    ensures FetchedTo(s, [], s, a, t, {}, stored)
  {
    var pc := s.tasks[t].pc;
    StayedPut(s, a, t, pc.folder);
    assert stored == map[] && pc.todo - {} == pc.todo && pc.got + stored == pc.got;
  }

  // ----- the grace loop -----------------------------------------------------------------

  lemma DroppedRow(t: Table, next: int, a: int, f: string, u: int)
    requires IdsBelow(t, next)
    ensures OthersSame(t, DropUid(t, a, f, u), a, f) && IdsBelow(DropUid(t, a, f, u), next + 1)
    ensures Rows(DropUid(t, a, f, u), a, f) == set e | e in Rows(t, a, f) && e.uid != u
  {
    forall b, g { DropUidViews(t, a, f, u, b, g); }
  }

  /** Rows without those of the UIDs of `gone` that the server does not list. */
  function Less(rows: set<Email>, gone: set<int>, server: set<int>): set<Email> {
    set e | e in rows && !(e.uid in gone && e.uid !in server)
  }

  /** The UIDs of `gone` are through. */
  ghost predicate DeletedTo(s: State, ls: seq<Label>, s': State, a: int, t: int, gone: set<int>)
    requires t in s.tasks && s.tasks[t].pc.Deleting?
  {
    var pc := s.tasks[t].pc;
    && Runs(s, ls, s', a, t) && s'.accounts == s.accounts
    && Got(s, s', a, t, pc.folder,
           Deleting(pc.folder, pc.validity, pc.server, pc.todo - gone, pc.before, pc.got, pc.cutoff))
    && Rows(s'.emails, a, pc.folder) == Less(Rows(s.emails, a, pc.folder), gone, pc.server)
  }

  lemma DeleteOne(s: State, a: int, t: int, u: int) returns (ls: seq<Label>, s': State)
    requires Owns(s, a, t) && s.tasks[t].pc.Deleting? && u in s.tasks[t].pc.todo && IdsBelow(s.emails, s.nextId)
    ensures DeletedTo(s, ls, s', a, t, {u})
  {
    DroppedRow(s.emails, s.nextId, a, s.tasks[t].pc.folder, u);
    ls, s' := OneStep(s, Delete(u), a, t, s.tasks[t].pc.folder);
  }

  lemma DeletedOn(s: State, l1: seq<Label>, s1: State, l2: seq<Label>, s2: State, a: int, t: int, u: int,
                  gone: set<int>)
      returns (ls: seq<Label>)
    requires t in s.tasks && s.tasks[t].pc.Deleting? && u in gone
    requires DeletedTo(s, l1, s1, a, t, {u}) && DeletedTo(s1, l2, s2, a, t, gone - {u})
    ensures DeletedTo(s, ls, s2, a, t, gone)
  {
    var pc := s.tasks[t].pc;
    assert pc.todo - {u} - (gone - {u}) == pc.todo - gone;
    ls := GotFurther(s, l1, s1, l2, s2, a, t, pc.folder, s1.tasks[t].pc, s2.tasks[t].pc);
  }

  /** The UIDs of `gone`, in any order. */
  lemma {:induction false} Deletes(s: State, a: int, t: int, gone: set<int>) returns (ls: seq<Label>, s': State)
    requires Owns(s, a, t) && s.tasks[t].pc.Deleting? && gone <= s.tasks[t].pc.todo && IdsBelow(s.emails, s.nextId)
    ensures DeletedTo(s, ls, s', a, t, gone)
    decreases |gone|
  {
    if gone == {} {
      ls, s' := [], s;
      StayedPut(s, a, t, s.tasks[t].pc.folder);
      assert s.tasks[t].pc.todo - gone == s.tasks[t].pc.todo;
    } else {
      var u := Element(gone);
      var l1, s1 := DeleteOne(s, a, t, u);
      var l2;
      l2, s' := Deletes(s1, a, t, gone - {u});
      ls := DeletedOn(s, l1, s1, l2, s', a, t, u, gone);
    }
  }

  // ----- the pass from any place in it --------------------------------------------------

  predicate InPass(pc: Pc) { !pc.Waiting? && !pc.Between? }

  /** The rows of the folder, without those still to be wiped. */
  function Kept(s: State, task: Task): set<Email>
    requires InPass(task.pc)
  {
    if task.pc.Selected? && MustWipe(task) then {} else Rows(s.emails, task.account, task.pc.folder)
  }

  /** The rows when MAX is read. */
  function Base(s: State, task: Task): set<Email>
    requires InPass(task.pc)
  {
    if task.pc.Fetching? || task.pc.Deleting? then task.pc.before else Kept(s, task)
  }

  predicate HasSearched(pc: Pc) { pc.Searched? || pc.Fetching? || pc.Deleting? }

  /** Unless it has searched, the task needs the mailbox to be there. */
  predicate CanSearch(s: State, task: Task)
    requires InPass(task.pc)
  {
    HasSearched(task.pc) || (task.account, task.pc.folder) in s.servers
  }

  function Listed(s: State, task: Task): set<int>
    requires InPass(task.pc) && CanSearch(s, task)
  {
    if HasSearched(task.pc) then task.pc.server else s.servers[(task.account, task.pc.folder)].uids
  }

  function ToFetch(s: State, task: Task): set<int>
    requires InPass(task.pc) && CanSearch(s, task)
  {
    if task.pc.Fetching? then task.pc.todo
    else if task.pc.Deleting? then {}
    else Attempted(Base(s, task), Listed(s, task))
  }

  function SoFar(pc: Pc): map<int, Option<int>> { if pc.Fetching? || pc.Deleting? then pc.got else map[] }

  function CutoffOf(pc: Pc, cutoff: Option<int>): Option<int> { if pc.Deleting? then pc.cutoff else cutoff }

  /** The stored maps once the task's map write is through. */
  function MapsAfter(s: State, task: Task): map<int, Validity> {
    if (task.pc.Selected? || task.pc.Cleared?) && task.account in s.accounts then
      var base := if s.perFolderWrite then s.accounts[task.account] else task.snapshot;
      s.accounts[task.account := base[task.pc.folder := task.pc.validity]]
    else s.accounts
  }

  /** The rows at the end of the pass. */
  function RowsAfter(s: State, task: Task, stored: map<int, Option<int>>, cutoff: Option<int>): set<Email>
    requires InPass(task.pc) && CanSearch(s, task)
  {
    var all := Kept(s, task) + Inserted(task.account, task.pc.folder, task.pc.validity, stored);
    Less(all, if task.pc.Deleting? then task.pc.todo else ExpiredUids(all, cutoff), Listed(s, task))
  }

  ghost predicate Ready(s: State, a: int, t: int, stored: map<int, Option<int>>) {
    && Owns(s, a, t) && InPass(s.tasks[t].pc) && CanSearch(s, s.tasks[t])
    && stored.Keys <= ToFetch(s, s.tasks[t])
    && IdsBelow(s.emails, s.nextId) && (stored != map[] ==> a in s.accounts)
  }

  /** The pass of `t` has got to its end, where only the loop over the folders goes on. */
  ghost predicate AtEnd(s: State, ls: seq<Label>, s': State, a: int, t: int, stored: map<int, Option<int>>,
                        cutoff: Option<int>)
    requires Owns(s, a, t) && InPass(s.tasks[t].pc) && CanSearch(s, s.tasks[t])
  {
    var task := s.tasks[t];
    var pc := task.pc;
    && Runs(s, ls, s', a, t) && s'.accounts == MapsAfter(s, task)
    && Got(s, s', a, t, pc.folder, Deleting(pc.folder, pc.validity, Listed(s, task), {}, Base(s, task),
                                            SoFar(pc) + stored, CutoffOf(pc, cutoff)))
    && Rows(s'.emails, a, pc.folder) == RowsAfter(s, task, stored, cutoff)
  }

  lemma FromDeleting(s: State, a: int, t: int, stored: map<int, Option<int>>, cutoff: Option<int>)
      returns (ls: seq<Label>, s': State)
    requires Ready(s, a, t, stored) && s.tasks[t].pc.Deleting?
    ensures AtEnd(s, ls, s', a, t, stored, cutoff)
  {
    var pc := s.tasks[t].pc;
    ls, s' := Deletes(s, a, t, pc.todo);
    assert stored == map[] && pc.got + stored == pc.got && pc.todo - pc.todo == {};
    assert Inserted(a, pc.folder, pc.validity, stored) == {};
    assert Kept(s, s.tasks[t]) + {} == Kept(s, s.tasks[t]);
  }

  /** The statements before the fetch loop, that at `pc` included. */
  function StatementsLeft(pc: Pc): nat {
    match pc
    case Selected(_, _) => 4
    case Cleared(_, _) => 3
    case Mapped(_, _) => 2
    case Searched(_, _, _) => 1
    case _ => 0
  }

  /** The task has come nearer to its fetch loop, with the same pass ahead. */
  ghost predicate Nearer(s: State, ls: seq<Label>, s1: State, a: int, t: int)
    requires Owns(s, a, t) && InPass(s.tasks[t].pc) && CanSearch(s, s.tasks[t])
  {
    && Runs(s, ls, s1, a, t) && t in s1.tasks && InPass(s1.tasks[t].pc) && CanSearch(s1, s1.tasks[t])
    && var task, task1 := s.tasks[t], s1.tasks[t];
    && Got(s, s1, a, t, task.pc.folder, task1.pc)
    && task1.pc.folder == task.pc.folder && task1.pc.validity == task.pc.validity
    && !task.pc.Deleting? && !task1.pc.Deleting? && SoFar(task1.pc) == SoFar(task.pc)
    && Kept(s1, task1) == Kept(s, task) && Base(s1, task1) == Base(s, task)
    && Listed(s1, task1) == Listed(s, task) && ToFetch(s1, task1) == ToFetch(s, task)
    && MapsAfter(s1, task1) == MapsAfter(s, task) && (a in s1.accounts <==> a in s.accounts)
    && (StatementsLeft(task1.pc) >= 3 ==> s1.accounts == s.accounts)
  }

  lemma WipeOne(s: State, a: int, t: int, stored: map<int, Option<int>>) returns (ls: seq<Label>, s1: State)
    requires Ready(s, a, t, stored) && s.tasks[t].pc.Selected?
    ensures Nearer(s, ls, s1, a, t) && Ready(s1, a, t, stored)
    ensures StatementsLeft(s1.tasks[t].pc) == StatementsLeft(s.tasks[t].pc) - 1
  {
    var f := s.tasks[t].pc.folder;
    forall b, g { DropFolderViews(s.emails, a, f, b, g); }
    ls, s1 := OneStep(s, Wipe, a, t, f);
  }

  lemma WriteOne(s: State, a: int, t: int, stored: map<int, Option<int>>) returns (ls: seq<Label>, s1: State)
    requires Ready(s, a, t, stored) && s.tasks[t].pc.Cleared?
    ensures Nearer(s, ls, s1, a, t) && Ready(s1, a, t, stored)
    ensures StatementsLeft(s1.tasks[t].pc) == StatementsLeft(s.tasks[t].pc) - 1
  {
    var f := s.tasks[t].pc.folder;
    ls, s1 := OneStep(s, WriteMap, a, t, f);
  }

  lemma SearchOne(s: State, a: int, t: int, stored: map<int, Option<int>>) returns (ls: seq<Label>, s1: State)
    requires Ready(s, a, t, stored) && s.tasks[t].pc.Mapped?
    ensures Nearer(s, ls, s1, a, t) && Ready(s1, a, t, stored)
    ensures StatementsLeft(s1.tasks[t].pc) == StatementsLeft(s.tasks[t].pc) - 1
  {
    var f := s.tasks[t].pc.folder;
    ls, s1 := OneStep(s, Search, a, t, f);
  }

  lemma ReadOne(s: State, a: int, t: int, stored: map<int, Option<int>>) returns (ls: seq<Label>, s1: State)
    requires Ready(s, a, t, stored) && s.tasks[t].pc.Searched?
    ensures Nearer(s, ls, s1, a, t) && Ready(s1, a, t, stored)
    ensures StatementsLeft(s1.tasks[t].pc) == StatementsLeft(s.tasks[t].pc) - 1
  {
    var f := s.tasks[t].pc.folder;
    ls, s1 := OneStep(s, ReadMax, a, t, f);
  }

  lemma NextStatement(s: State, a: int, t: int, stored: map<int, Option<int>>) returns (ls: seq<Label>, s1: State)
    requires Ready(s, a, t, stored) && !s.tasks[t].pc.Fetching? && !s.tasks[t].pc.Deleting?
    ensures Nearer(s, ls, s1, a, t) && Ready(s1, a, t, stored)
    ensures StatementsLeft(s1.tasks[t].pc) == StatementsLeft(s.tasks[t].pc) - 1
  {
    match s.tasks[t].pc
    case Selected(_, _) => ls, s1 := WipeOne(s, a, t, stored);
    case Cleared(_, _) => ls, s1 := WriteOne(s, a, t, stored);
    case Mapped(_, _) => ls, s1 := SearchOne(s, a, t, stored);
    case Searched(_, _, _) => ls, s1 := ReadOne(s, a, t, stored);
  }

  lemma EndFromNearer(s: State, l1: seq<Label>, s1: State, l2: seq<Label>, s': State, a: int, t: int,
                      stored: map<int, Option<int>>, cutoff: Option<int>)
      returns (ls: seq<Label>)
    requires Owns(s, a, t) && InPass(s.tasks[t].pc) && CanSearch(s, s.tasks[t]) && Nearer(s, l1, s1, a, t)
    requires AtEnd(s1, l2, s', a, t, stored, cutoff)
    ensures AtEnd(s, ls, s', a, t, stored, cutoff)
  {
    ls := GotFurther(s, l1, s1, l2, s', a, t, s.tasks[t].pc.folder, s1.tasks[t].pc, s'.tasks[t].pc);
  }

  lemma QueryOne(s: State, a: int, t: int, cutoff: Option<int>) returns (ls: seq<Label>, s': State)
    requires Owns(s, a, t) && s.tasks[t].pc.Fetching? && s.tasks[t].pc.todo == {} && IdsBelow(s.emails, s.nextId)
    ensures Runs(s, ls, s', a, t) && s'.accounts == s.accounts && s'.emails == s.emails
    ensures var pc := s.tasks[t].pc;
      Got(s, s', a, t, pc.folder, Deleting(pc.folder, pc.validity, pc.server,
        ExpiredUids(Rows(s.emails, a, pc.folder), cutoff), pc.before, pc.got, cutoff))
  {
    ls, s' := OneStep(s, Query(cutoff), a, t, s.tasks[t].pc.folder);
  }

  /** The second half, once the fetch loop is through. */
  lemma FromFetched(s: State, a: int, t: int, cutoff: Option<int>) returns (ls: seq<Label>, s': State)
    requires Owns(s, a, t) && s.tasks[t].pc.Fetching? && s.tasks[t].pc.todo == {} && IdsBelow(s.emails, s.nextId)
    ensures Runs(s, ls, s', a, t) && s'.accounts == s.accounts
    ensures var pc := s.tasks[t].pc; var rows := Rows(s.emails, a, pc.folder);
      && Got(s, s', a, t, pc.folder,
             Deleting(pc.folder, pc.validity, pc.server, {}, pc.before, pc.got, cutoff))
      && Rows(s'.emails, a, pc.folder) == Less(rows, ExpiredUids(rows, cutoff), pc.server)
  {
    var l1, s1 := QueryOne(s, a, t, cutoff);
    var l2;
    l2, s' := Deletes(s1, a, t, s1.tasks[t].pc.todo);
    assert s1.tasks[t].pc.todo - s1.tasks[t].pc.todo == {};
    ls := GotFurther(s, l1, s1, l2, s', a, t, s.tasks[t].pc.folder, s1.tasks[t].pc, s'.tasks[t].pc);
  }

  lemma FromFetching(s: State, a: int, t: int, stored: map<int, Option<int>>, cutoff: Option<int>)
      returns (ls: seq<Label>, s': State)
    requires Ready(s, a, t, stored) && s.tasks[t].pc.Fetching?
    ensures AtEnd(s, ls, s', a, t, stored, cutoff)
  {
    var pc := s.tasks[t].pc;
    var l1, s1 := Fetches(s, a, t, pc.todo, stored);
    assert pc.todo - pc.todo == {};
    var l2;
    l2, s' := FromFetched(s1, a, t, cutoff);
    ls := GotFurther(s, l1, s1, l2, s', a, t, pc.folder, s1.tasks[t].pc, s'.tasks[t].pc);
  }

  /** From wherever the task stands in a folder, in any state of the rest of the world: whichever of
      the UIDs ahead are stored, with whatever dates, and whatever the cutoff, the pass can go on to
      its end, with exactly these rows. */
  lemma {:induction false} PassGoesOn(s: State, a: int, t: int, stored: map<int, Option<int>>, cutoff: Option<int>)
      returns (ls: seq<Label>, s': State)
    requires Ready(s, a, t, stored)
    ensures AtEnd(s, ls, s', a, t, stored, cutoff)
    decreases StatementsLeft(s.tasks[t].pc)
  {
    var pc := s.tasks[t].pc;
    if pc.Deleting? {
      ls, s' := FromDeleting(s, a, t, stored, cutoff);
    } else if pc.Fetching? {
      ls, s' := FromFetching(s, a, t, stored, cutoff);
    } else {
      var l1, s1 := NextStatement(s, a, t, stored);
      var l2;
      l2, s' := PassGoesOn(s1, a, t, stored, cutoff);
      ls := EndFromNearer(s, l1, s1, l2, s', a, t, stored, cutoff);
    }
  }

  // ----- a whole pass -------------------------------------------------------------------

  /** The rows a pass over folder `f` starts from. */
  function StartRows(s: State, task: Task, f: string): set<Email>
    requires (task.account, f) in s.servers
  {
    if f in task.snapshot && task.snapshot[f] != s.servers[(task.account, f)].validity then {}
    else Rows(s.emails, task.account, f)
  }

  lemma SelectOne(s: State, a: int, t: int, f: string, stored: map<int, Option<int>>)
      returns (ls: seq<Label>, s1: State)
    requires Owns(s, a, t) && s.tasks[t].pc.Between? && f !in s.tasks[t].done && (a, f) in s.servers
    requires IdsBelow(s.emails, s.nextId) && (stored != map[] ==> a in s.accounts)
    requires stored.Keys <= Attempted(StartRows(s, s.tasks[t], f), s.servers[(a, f)].uids)
    ensures Runs(s, ls, s1, a, t) && Got(s, s1, a, t, f, Selected(f, s.servers[(a, f)].validity))
    ensures s1.emails == s.emails && s1.accounts == s.accounts && Ready(s1, a, t, stored)
  {
    ls, s1 := OneStep(s, Select(f), a, t, f);
  }

  /** The state at the end of a pass over `f` from `s`. */
  ghost predicate PassedOver(s: State, s': State, a: int, t: int, f: string, stored: map<int, Option<int>>,
                             cutoff: Option<int>)
    requires Owns(s, a, t) && (a, f) in s.servers
  {
    var task, box, start := s.tasks[t], s.servers[(a, f)], StartRows(s, s.tasks[t], f);
    var all := start + Inserted(a, f, box.validity, stored);
    && Got(s, s', a, t, f, Deleting(f, box.validity, box.uids, {}, start, stored, cutoff))
    && s'.accounts == (if a !in s.accounts then s.accounts else
         s.accounts[a := (if s.perFolderWrite then s.accounts[a] else task.snapshot)[f := box.validity]])
    && Rows(s'.emails, a, f) == Less(all, ExpiredUids(all, cutoff), box.uids)
  }

  lemma PassFromSelect(s: State, l1: seq<Label>, s1: State, l2: seq<Label>, s': State, a: int, t: int, f: string,
                       stored: map<int, Option<int>>, cutoff: Option<int>)
      returns (ls: seq<Label>)
    requires Owns(s, a, t) && (a, f) in s.servers && Runs(s, l1, s1, a, t)
    requires Got(s, s1, a, t, f, Selected(f, s.servers[(a, f)].validity))
    requires s1.emails == s.emails && s1.accounts == s.accounts && Ready(s1, a, t, stored)
    requires AtEnd(s1, l2, s', a, t, stored, cutoff)
    ensures Runs(s, ls, s', a, t) && PassedOver(s, s', a, t, f, stored, cutoff)
  {
    ls := GotFurther(s, l1, s1, l2, s', a, t, f, s1.tasks[t].pc, s'.tasks[t].pc);
    assert map[] + stored == stored;
  }

  lemma EndOne(s: State, a: int, t: int) returns (s': State)
    requires Owns(s, a, t) && s.tasks[t].pc.Deleting? && s.tasks[t].pc.todo == {}
    ensures Runs(s, [Label(a, Move(t, EndFolder))], s', a, t)
    ensures s' == s.(nextId := s.nextId + 1, tasks := s.tasks[t := s.tasks[t].(
              pc := Between, done := s.tasks[t].done + {s.tasks[t].pc.folder})])
  {
    ExecOne(s, Label(a, Move(t, EndFolder)));
    s' := Apply(s, Label(a, Move(t, EndFolder)));
  }

  /** Every pass is a run: from any state in which the task is between two folders and has not done
      `f`, for any part of the attempted UIDs that is stored, with any dates, and for any cutoff. Its own
      steps take the task to the end of the pass, with the rows read at MAX, what was stored, and the
      rows that the grace deletion leaves; then `f` is done. With unique keys those are the rows of the
      atomic pass. */
  lemma EveryPassIsARun(s: State, a: int, t: int, f: string, stored: map<int, Option<int>>, cutoff: Option<int>)
      returns (ls: seq<Label>, end: State, s': State)
    requires Owns(s, a, t) && s.tasks[t].pc.Between? && f !in s.tasks[t].done && (a, f) in s.servers
    requires IdsBelow(s.emails, s.nextId) && (stored != map[] ==> a in s.accounts)
    requires stored.Keys <= Attempted(StartRows(s, s.tasks[t], f), s.servers[(a, f)].uids)
    ensures Runs(s, ls, end, a, t) && PassedOver(s, end, a, t, f, stored, cutoff)
    ensures Runs(s, ls + [Label(a, Move(t, EndFolder))], s', a, t)
    ensures s' == end.(nextId := end.nextId + 1,
                       tasks := s.tasks[t := s.tasks[t].(done := s.tasks[t].done + {f})])
    ensures var start, box := StartRows(s, s.tasks[t], f), s.servers[(a, f)];
      UniqueFor(s.emails, a) ==>
        Rows(s'.emails, a, f) == AfterPass(start, Inserted(a, f, box.validity, stored), box.uids, cutoff)
  {
    var l1, s1 := SelectOne(s, a, t, f, stored);
    var l2;
    l2, end := PassGoesOn(s1, a, t, stored, cutoff);
    ls := PassFromSelect(s, l1, s1, l2, end, a, t, f, stored, cutoff);
    s' := EndOne(end, a, t);
    RunsOn(s, ls, end, [Label(a, Move(t, EndFolder))], s', a, t);
    assert s.tasks[t].(pc := Between) == s.tasks[t];
    assert s'.tasks == s.tasks[t := s.tasks[t].(done := s.tasks[t].done + {f})];
    if UniqueFor(s.emails, a) {
      M.UniqueRows(s.emails, a, f);
      LessIsAfterPass(StartRows(s, s.tasks[t], f), a, f, s.servers[(a, f)].validity, stored,
                      s.servers[(a, f)].uids, cutoff);
    }
  }

  lemma LessIsAfterPass(start: set<Email>, a: int, f: string, v: int, stored: map<int, Option<int>>,
                        server: set<int>, cutoff: Option<int>)
    requires M.ByUid(start) && stored.Keys <= server
    ensures var all := start + Inserted(a, f, v, stored);
      Less(all, ExpiredUids(all, cutoff), server) == AfterPass(start, Inserted(a, f, v, stored), server, cutoff)
  {
    InsertedUids(a, f, v, stored);
    var added, all := Inserted(a, f, v, stored), start + Inserted(a, f, v, stored);
    assert forall e :: e in added ==> e.uid in Uids(added);
    forall e | e in all && e.uid in ExpiredUids(all, cutoff) && e.uid !in server ensures Expired(e, cutoff) {
      var d :| d in all && Expired(d, cutoff) && d.uid == e.uid;
      assert d in start && e in start;
    }
  }

  // ----- failures, and everybody else ---------------------------------------------------

  /** Each statement of a pass can fail: nothing else changes, and the folder is done. */
  lemma StatementCanFail(s: State, a: int, t: int) returns (s': State)
    requires Owns(s, a, t) && InPass(s.tasks[t].pc) && (s.tasks[t].pc.Fetching? ==> s.tasks[t].pc.todo == {})
    ensures Runs(s, [Label(a, Move(t, Abort))], s', a, t)
    ensures s' == s.(nextId := s.nextId + 1, tasks := s.tasks[t := s.tasks[t].(
              pc := Between, done := s.tasks[t].done + {s.tasks[t].pc.folder})])
  {
    ExecOne(s, Label(a, Move(t, Abort)));
    s' := Apply(s, Label(a, Move(t, Abort)));
  }

  /** A task that holds a permit can die wherever it is, and gives the permit back. */
  lemma TaskCanDie(s: State, a: int, t: int) returns (s': State)
    requires Owns(s, a, t) && !s.tasks[t].pc.Waiting?
    ensures Legal(s, [Label(a, Crash(t))]) && Exec(s, [Label(a, Crash(t))]) == s'
    ensures s' == s.(tasks := s.tasks - {t}, permits := s.permits + 1)
  {
    ExecOne(s, Label(a, Crash(t)));
    s' := Apply(s, Label(a, Crash(t)));
  }

  /** In every state, whatever the tasks are doing: a tick can spawn a task for any account, which
      clones the stored map; a waiting task can get a free permit, and one between folders can end;
      mail arrives and disappears, a mailbox is reset, and a user deletes an account with its mail. */
  lemma WorldIsFree(s: State, a: int, t: int, f: string, u: int, box: Server)
    ensures a in s.accounts && t !in s.tasks ==>
      Steps(s, Label(a, Spawn(t)), s.(tasks := s.tasks[t := Task(a, s.accounts[a], {}, Waiting)]))
    ensures Owns(s, a, t) && s.tasks[t].pc.Waiting? && s.permits > 0 ==>
      Steps(s, Label(a, Acquire(t)), s.(tasks := s.tasks[t := s.tasks[t].(pc := Between)], permits := s.permits - 1))
    ensures Owns(s, a, t) && s.tasks[t].pc.Between? ==>
      Steps(s, Label(a, Finish(t)), s.(tasks := s.tasks - {t}, permits := s.permits + 1))
    ensures (a, f) in s.servers && u >= s.servers[(a, f)].next ==>
      Steps(s, Label(a, Deliver(f, u)), s.(servers := s.servers[(a, f) :=
        Server(s.servers[(a, f)].uids + {u}, u + 1, s.servers[(a, f)].validity)]))
    ensures (a, f) in s.servers ==>
      Steps(s, Label(a, Expunge(f, u)), s.(servers := s.servers[(a, f) :=
        Server(s.servers[(a, f)].uids - {u}, s.servers[(a, f)].next, s.servers[(a, f)].validity)]))
    ensures (a, f) in s.servers && box.validity > s.servers[(a, f)].validity
            && (forall v :: v in box.uids ==> v < box.next)
      ==> Steps(s, Label(a, Reset(f, box)), s.(servers := s.servers[(a, f) := box]))
    ensures a in s.accounts ==>
      Steps(s, Label(a, DeleteAccount), s.(accounts := s.accounts - {a},
        emails := map id | id in s.emails && s.emails[id].account != a :: s.emails[id]))
  {}

  // ----- the first statements of a pass -------------------------------------------------

  lemma NearerOn(s: State, l1: seq<Label>, s1: State, l2: seq<Label>, s2: State, a: int, t: int)
      returns (ls: seq<Label>)
    requires Owns(s, a, t) && InPass(s.tasks[t].pc) && CanSearch(s, s.tasks[t]) && Nearer(s, l1, s1, a, t)
    requires Nearer(s1, l2, s2, a, t) && StatementsLeft(s2.tasks[t].pc) < StatementsLeft(s1.tasks[t].pc)
    ensures Nearer(s, ls, s2, a, t)
  {
    ls := GotFurther(s, l1, s1, l2, s2, a, t, s.tasks[t].pc.folder, s1.tasks[t].pc, s2.tasks[t].pc);
  }

  /** Up to where `n` statements are left. */
  lemma {:induction false} Until(s: State, a: int, t: int, n: nat) returns (ls: seq<Label>, s1: State)
    requires Ready(s, a, t, map[]) && n <= StatementsLeft(s.tasks[t].pc) && !s.tasks[t].pc.Deleting?
    ensures Nearer(s, ls, s1, a, t) && Ready(s1, a, t, map[]) && StatementsLeft(s1.tasks[t].pc) == n
    ensures n == StatementsLeft(s.tasks[t].pc) ==> s1 == s
    decreases StatementsLeft(s.tasks[t].pc)
  {
    if StatementsLeft(s.tasks[t].pc) == n {
      ls, s1 := [], s;
      StayedPut(s, a, t, s.tasks[t].pc.folder);
    } else {
      var l1, m := NextStatement(s, a, t, map[]);
      var l2;
      l2, s1 := Until(m, a, t, n);
      if n < StatementsLeft(m.tasks[t].pc) { ls := NearerOn(s, l1, m, l2, s1, a, t); } else { ls, s1 := l1, m; }
    }
  }

  /** Where the pass over `f` stands when `n` statements are left before the fetch loop. */
  ghost predicate Begun(s: State, ls: seq<Label>, s1: State, a: int, t: int, f: string, n: nat)
    requires Owns(s, a, t) && (a, f) in s.servers
  {
    var task, box, start := s.tasks[t], s.servers[(a, f)], StartRows(s, s.tasks[t], f);
    && Runs(s, ls, s1, a, t) && t in s1.tasks && Got(s, s1, a, t, f, s1.tasks[t].pc)
    && InPass(s1.tasks[t].pc) && s1.tasks[t].pc.folder == f && s1.tasks[t].pc.validity == box.validity
    && StatementsLeft(s1.tasks[t].pc) == n
    && Rows(s1.emails, a, f) == (if n == 4 then Rows(s.emails, a, f) else start)
    && s1.accounts == (if n >= 3 || a !in s.accounts then s.accounts else
         s.accounts[a := (if s.perFolderWrite then s.accounts[a] else task.snapshot)[f := box.validity]])
    && (n == 0 ==> s1.tasks[t].pc == Fetching(f, box.validity, box.uids, Attempted(start, box.uids), start, map[]))
  }

  lemma Begins(s: State, a: int, t: int, f: string, n: nat) returns (ls: seq<Label>, s1: State)
    requires Owns(s, a, t) && s.tasks[t].pc.Between? && f !in s.tasks[t].done && (a, f) in s.servers
    requires IdsBelow(s.emails, s.nextId) && n <= 4
    ensures Begun(s, ls, s1, a, t, f, n)
  {
    var l1, m := SelectOne(s, a, t, f, map[]);
    var l2;
    l2, s1 := Until(m, a, t, n);
    ls := GotFurther(s, l1, m, l2, s1, a, t, f, m.tasks[t].pc, s1.tasks[t].pc);
  }
}
