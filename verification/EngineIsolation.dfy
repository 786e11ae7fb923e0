/** Accounts do not interfere: whatever the interleaving, an account's rows, map, tasks and
    mailboxes are those of the run in which only its own steps are taken. */
module EngineIsolation {
  import opened Common
  import opened EmailTable
  import opened FolderPass
  import opened Engine
  import opened EngineSafety

  /** All the state that belongs to one account, email rows up to row ids. */
  datatype AccountView = AccountView(
    stored: Option<Validity>, rows: set<Email>, tasks: map<int, Task>, servers: map<(int, string), Server>)

  function TasksOf(tasks: map<int, Task>, a: int): map<int, Task> {
    map t | t in tasks && tasks[t].account == a :: tasks[t]
  }

  function ServersOf(servers: map<(int, string), Server>, a: int): map<(int, string), Server> {
    map k | k in servers && k.0 == a :: servers[k]
  }

  function StoredOf(s: State, a: int): Option<Validity> {
    if a in s.accounts then Some(s.accounts[a]) else None
  }

  function View(s: State, a: int): AccountView {
    AccountView(StoredOf(s, a), AccountRows(s.emails, a), TasksOf(s.tasks, a), ServersOf(s.servers, a))
  }

  /** The steps of `ls` that concern account `a`. */
  function Only(ls: seq<Label>, a: int): seq<Label> {
    if ls == [] then []
    else if ls[0].account == a then [ls[0]] + Only(ls[1..], a)
    else Only(ls[1..], a)
  }

  // ----- the rows of an account under one statement -------------------------------------

  function MovedRows(rows: set<Email>, task: Task, step: Step): set<Email>
    requires step.Wipe? ==> task.pc.Selected?
    requires Stores(step) ==> task.pc.Fetching?
    requires step.Delete? ==> task.pc.Deleting?
  {
    match step
    case Wipe => if MustWipe(task) then set e | e in rows && !InFolder(e, task.account, task.pc.folder) else rows
    case Fetch(u, Stored(r)) => rows + {Email(task.account, task.pc.folder, u, r, task.pc.validity)}
    case Delete(u) =>
      if u in task.pc.server then rows else set e | e in rows && !HasKey(e, task.account, task.pc.folder, u)
    case _ => rows
  }

  lemma MovedAccountRows(s: State, task: Task, step: Step, a: int)
    requires CanMove(s, task, step) && IdsBelow(s.emails, s.nextId)
    ensures AccountRows(MovedEmails(s, task, step), a)
         == if task.account == a then MovedRows(AccountRows(s.emails, a), task, step) else AccountRows(s.emails, a)
  {
    match step
    case Wipe => DropFolderViews(s.emails, task.account, task.pc.folder, a, "");
    case Fetch(u, o) =>
      if o.Stored? {
        InsertViews(s.emails, s.nextId, Email(task.account, task.pc.folder, u, o.received, task.pc.validity), a, "");
      }
    case Delete(u) => DropUidViews(s.emails, task.account, task.pc.folder, u, a, "");
    case _ =>
  }

  lemma MovedSame(s: State, s1: State, task: Task, step: Step)
    requires CanMove(s, task, step) && View(s, task.account) == View(s1, task.account)
    requires s.perFolderWrite == s1.perFolderWrite
    ensures CanMove(s1, task, step)
    ensures MovedTask(s1, task, step) == MovedTask(s, task, step)
    ensures StoredOf(s.(accounts := MovedAccounts(s, task, step)), task.account)
         == StoredOf(s1.(accounts := MovedAccounts(s1, task, step)), task.account)
  {
    var a, pc := task.account, task.pc;
    assert forall f :: (a, f) in ServersOf(s.servers, a) <==> (a, f) in s.servers;
    assert forall f :: (a, f) in ServersOf(s1.servers, a) <==> (a, f) in s1.servers;
    assert forall f :: (a, f) in s.servers ==>
      ServersOf(s.servers, a)[(a, f)] == s.servers[(a, f)] && ServersOf(s1.servers, a)[(a, f)] == s1.servers[(a, f)];
    forall f ensures Rows(s.emails, a, f) == Rows(s1.emails, a, f) {
      RowsFromAccount(s.emails, a, f);
      RowsFromAccount(s1.emails, a, f);
    }
    match step case _ =>
  }

  lemma UpdateTasksOf(tasks: map<int, Task>, a: int, t: int, task: Task)
    requires task.account == a || (t in tasks ==> tasks[t].account != a)
    ensures TasksOf(tasks[t := task], a)
      == if task.account == a then TasksOf(tasks, a)[t := task] else TasksOf(tasks, a)
  {}

  lemma RemoveTasksOf(tasks: map<int, Task>, a: int, t: int)
    ensures TasksOf(tasks - {t}, a) == TasksOf(tasks, a) - {t}
  {}

  lemma UpdateServersOf(servers: map<(int, string), Server>, a: int, k: (int, string), box: Server)
    ensures ServersOf(servers[k := box], a)
         == if k.0 == a then ServersOf(servers, a)[k := box] else ServersOf(servers, a)
  {}

  // ----- one step -----------------------------------------------------------------------

  lemma OtherMove(s: State, l: Label, a: int)
    requires l.action.Move? && Enabled(s, l) && l.account != a && IdsBelow(s.emails, s.nextId)
    ensures View(Apply(s, l), a) == View(s, a)
  {
    var t, step := l.action.t, l.action.step;
    MovedAccountRows(s, s.tasks[t], step, a);
    UpdateTasksOf(s.tasks, a, t, MovedTask(s, s.tasks[t], step));
    assert StoredOf(Apply(s, l), a) == StoredOf(s, a);
  }

  lemma OtherServer(s: State, l: Label, a: int)
    requires (l.action.Deliver? || l.action.Expunge? || l.action.Reset?) && Enabled(s, l) && l.account != a
    ensures View(Apply(s, l), a) == View(s, a)
  {}

  lemma OtherStep(s: State, l: Label, a: int)
    requires Enabled(s, l) && l.account != a && IdsBelow(s.emails, s.nextId)
    ensures View(Apply(s, l), a) == View(s, a)
  {
    match l.action
    case Move(t, step) => OtherMove(s, l, a);
    case Spawn(t) => UpdateTasksOf(s.tasks, a, t, Task(l.account, s.accounts[l.account], {}, Waiting));
    case Acquire(t) => UpdateTasksOf(s.tasks, a, t, s.tasks[t].(pc := Between));
    case Finish(t) =>
      RemoveTasksOf(s.tasks, a, t);
      assert t !in TasksOf(s.tasks, a);
    case Crash(t) =>
      RemoveTasksOf(s.tasks, a, t);
      assert t !in TasksOf(s.tasks, a);
    case DeleteAccount =>
      DropAccountViews(s.emails, l.account, a, "");
      assert StoredOf(Apply(s, l), a) == StoredOf(s, a);
    case _ => OtherServer(s, l, a);
  }

  lemma OwnMove(s: State, s1: State, l: Label)
    requires l.action.Move? && Enabled(s, l) && View(s, l.account) == View(s1, l.account)
    requires s.perFolderWrite == s1.perFolderWrite
    requires IdsBelow(s.emails, s.nextId) && IdsBelow(s1.emails, s1.nextId)
    ensures Enabled(s1, l) && View(Apply(s1, l), l.account) == View(Apply(s, l), l.account)
  {
    var a, t, step := l.account, l.action.t, l.action.step;
    var task := s.tasks[t];
    assert t in TasksOf(s.tasks, a) && TasksOf(s.tasks, a)[t] == task;
    assert t in s1.tasks && s1.tasks[t] == task;
    MovedSame(s, s1, task, step);
    MovedAccountRows(s, task, step, a);
    MovedAccountRows(s1, task, step, a);
    UpdateTasksOf(s.tasks, a, t, MovedTask(s, task, step));
    UpdateTasksOf(s1.tasks, a, t, MovedTask(s, task, step));
  }

  lemma OwnServer(s: State, s1: State, l: Label)
    requires Enabled(s, l) && View(s, l.account) == View(s1, l.account)
    requires l.action.Deliver? || l.action.Expunge? || l.action.Reset?
    ensures Enabled(s1, l) && View(Apply(s1, l), l.account) == View(Apply(s, l), l.account)
  {
    var k := (l.account, l.action.folder);
    assert k in ServersOf(s.servers, k.0) && k in ServersOf(s1.servers, k.0);
    assert s.servers[k] == s1.servers[k];
    var box := Apply(s, l).servers[k];
    assert Apply(s1, l).servers[k] == box;
    UpdateServersOf(s.servers, k.0, k, box);
    UpdateServersOf(s1.servers, k.0, k, box);
    assert Apply(s, l).servers == s.servers[k := box] && Apply(s1, l).servers == s1.servers[k := box];
  }

  lemma OwnTask(s: State, s1: State, l: Label)
    requires Enabled(s, l) && View(s, l.account) == View(s1, l.account) && s1.permits >= s.permits
    requires l.action.Acquire? || l.action.Finish? || l.action.Crash?
    ensures Enabled(s1, l) && View(Apply(s1, l), l.account) == View(Apply(s, l), l.account)
  {
    var a, t := l.account, l.action.t;
    assert t in TasksOf(s.tasks, a) && t in TasksOf(s1.tasks, a) && s.tasks[t] == s1.tasks[t];
    if l.action.Acquire? {
      UpdateTasksOf(s.tasks, a, t, s.tasks[t].(pc := Between));
      UpdateTasksOf(s1.tasks, a, t, s.tasks[t].(pc := Between));
    } else {
      RemoveTasksOf(s.tasks, a, t);
      RemoveTasksOf(s1.tasks, a, t);
    }
  }

  lemma OwnStep(s: State, s1: State, l: Label)
    requires Enabled(s, l) && View(s, l.account) == View(s1, l.account)
    requires s.perFolderWrite == s1.perFolderWrite && s1.permits >= s.permits
    requires l.action.Spawn? ==> l.action.t !in s1.tasks
    requires IdsBelow(s.emails, s.nextId) && IdsBelow(s1.emails, s1.nextId)
    ensures Enabled(s1, l) && View(Apply(s1, l), l.account) == View(Apply(s, l), l.account)
  {
    var a := l.account;
    match l.action
    case Move(_, _) => OwnMove(s, s1, l);
    case Spawn(t) =>
      UpdateTasksOf(s.tasks, a, t, Task(a, s.accounts[a], {}, Waiting));
      UpdateTasksOf(s1.tasks, a, t, Task(a, s.accounts[a], {}, Waiting));
    case DeleteAccount =>
      DropAccountViews(s.emails, a, a, "");
      DropAccountViews(s1.emails, a, a, "");
    case _ =>
      if l.action.Acquire? || l.action.Finish? || l.action.Crash? {
        OwnTask(s, s1, l);
      } else {
        OwnServer(s, s1, l);
      }
  }

  // ----- whole runs ---------------------------------------------------------------------

  /** `s1` is `s` with the other accounts' steps left out. */
  ghost predicate Solo(s: State, s1: State, a: int) {
    && View(s, a) == View(s1, a) && s.perFolderWrite == s1.perFolderWrite
    && s1.tasks == TasksOf(s.tasks, a)
    && s.permits >= 0 && |Running(s)| + s.permits == |Running(s1)| + s1.permits
    && IdsBelow(s.emails, s.nextId) && IdsBelow(s1.emails, s1.nextId)
  }

  lemma Subset(x: set<int>, y: set<int>)
    requires x <= y
    ensures |x| <= |y|
  {
    assert y == x + (y - x);
  }

  lemma StepKeepsIds(s: State, l: Label)
    requires Enabled(s, l) && IdsBelow(s.emails, s.nextId)
    ensures IdsBelow(Apply(s, l).emails, Apply(s, l).nextId)
  {
    match l.action
    case Move(t, step) => if !Stores(step) { MovedEmailsShrink(s, s.tasks[t], step); }
    case _ =>
  }

  lemma OwnTasksOnly(s: State, l: Label)
    requires Enabled(s, l) && s.tasks == TasksOf(s.tasks, l.account)
    ensures Apply(s, l).tasks == TasksOf(Apply(s, l).tasks, l.account)
  {
    var s' := Apply(s, l);
    match l.action
    case Move(t, step) => assert MovedTask(s, s.tasks[t], step).account == l.account;
    case _ =>
  }

  lemma StepKeepsSums(s: State, l: Label)
    requires Enabled(s, l) && s.permits >= 0 && IdsBelow(s.emails, s.nextId)
    ensures var s' := Apply(s, l);
      && s'.permits >= 0 && |Running(s')| + s'.permits == |Running(s)| + s.permits
      && IdsBelow(s'.emails, s'.nextId) && s'.perFolderWrite == s.perFolderWrite
  {
    StepKeepsPermits(s, l);
    StepKeepsIds(s, l);
  }

  lemma SoloPermits(s: State, s1: State, a: int)
    requires Solo(s, s1, a)
    ensures s1.permits >= s.permits
  {
    assert Running(s1) <= Running(s);
    Subset(Running(s1), Running(s));
  }

  lemma OwnKeepsSolo(s: State, s1: State, l: Label)
    requires Enabled(s, l) && Solo(s, s1, l.account)
    ensures Enabled(s1, l) && Solo(Apply(s, l), Apply(s1, l), l.account)
  {
    SoloPermits(s, s1, l.account);
    OwnStep(s, s1, l);
    StepKeepsSums(s, l);
    StepKeepsSums(s1, l);
    OwnTasksOnly(s1, l);
  }

  lemma OtherKeepsSolo(s: State, s1: State, l: Label, a: int)
    requires Enabled(s, l) && Solo(s, s1, a) && l.account != a
    ensures Solo(Apply(s, l), s1, a)
  {
    OtherStep(s, l, a);
    StepKeepsSums(s, l);
  }

  /** In every interleaving, leaving out the other accounts' steps gives a run of the same
      machine, and account `a` ends with the same rows, map, tasks and mailboxes. */
  lemma {:induction false} AloneIsTheSame(s: State, s1: State, ls: seq<Label>, a: int)
    requires Legal(s, ls) && Solo(s, s1, a)
    ensures Legal(s1, Only(ls, a)) && View(Exec(s1, Only(ls, a)), a) == View(Exec(s, ls), a)
    decreases |ls|
  {
    if ls != [] {
      var l := ls[0];
      if l.account == a {
        OwnKeepsSolo(s, s1, l);
        AloneIsTheSame(Apply(s, l), Apply(s1, l), ls[1..], a);
        assert Only(ls, a)[1..] == Only(ls[1..], a);
      } else {
        OtherKeepsSolo(s, s1, l, a);
        AloneIsTheSame(Apply(s, l), s1, ls[1..], a);
      }
    }
  }

  // ----- duplicates ---------------------------------------------------------------------

  /** How many rows are `e`: more than one is possible where tasks overlap. */
  function Copies(t: Table, e: Email): nat { |IdsOf(t, e)| }

  function IdsOf(t: Table, e: Email): set<int> { set id | id in t && t[id] == e }

  ghost predicate SameCopies(t: Table, t1: Table, a: int) {
    forall e: Email :: e.account == a ==> Copies(t, e) == Copies(t1, e)
  }

  predicate Dropped(task: Task, step: Step, e: Email)
    requires step.Wipe? ==> task.pc.Selected?
    requires step.Delete? ==> task.pc.Deleting?
  {
    || (step.Wipe? && MustWipe(task) && InFolder(e, task.account, task.pc.folder))
    || (step.Delete? && step.uid !in task.pc.server && HasKey(e, task.account, task.pc.folder, step.uid))
  }

  /** What a statement makes of the number of copies depends on the task alone. */
  function MovedCopies(n: nat, task: Task, step: Step, e: Email): nat
    requires step.Wipe? ==> task.pc.Selected?
    requires Stores(step) ==> task.pc.Fetching?
    requires step.Delete? ==> task.pc.Deleting?
  {
    if Dropped(task, step, e) then 0
    else if Stores(step) && e == Email(task.account, task.pc.folder, step.uid, step.outcome.received, task.pc.validity)
    then n + 1
    else n
  }

  lemma KeptCopies(t: Table, t': Table, e: Email)
    requires SubTable(t', t) && forall id :: id in t && t[id] == e ==> id in t'
    ensures Copies(t', e) == Copies(t, e)
  {
    assert forall id: int :: id in IdsOf(t', e) <==> id in IdsOf(t, e);
    assert IdsOf(t', e) == IdsOf(t, e);
  }

  lemma GoneCopies(t: Table, e: Email)
    requires forall id :: id in t ==> t[id] != e
    ensures Copies(t, e) == 0
  {
    assert forall id: int :: id !in IdsOf(t, e);
    assert IdsOf(t, e) == {};
  }

  lemma InsertedCopies(t: Table, next: int, d: Email, e: Email)
    requires IdsBelow(t, next)
    ensures Copies(t[next := d], e) == Copies(t, e) + if d == e then 1 else 0
  {
    assert next !in IdsOf(t, e);
    assert IdsOf(t[next := d], e) == if d == e then IdsOf(t, e) + {next} else IdsOf(t, e);
  }

  lemma CopiesMoved(s: State, task: Task, step: Step, e: Email)
    requires CanMove(s, task, step) && IdsBelow(s.emails, s.nextId)
    ensures Copies(MovedEmails(s, task, step), e) == MovedCopies(Copies(s.emails, e), task, step, e)
  {
    if Stores(step) {
      InsertedCopies(s.emails, s.nextId,
        Email(task.account, task.pc.folder, step.uid, step.outcome.received, task.pc.validity), e);
    } else if Dropped(task, step, e) {
      GoneCopies(MovedEmails(s, task, step), e);
    } else {
      KeptCopies(s.emails, MovedEmails(s, task, step), e);
    }
  }

  lemma DropAccountCopies(t: Table, b: int, e: Email)
    ensures Copies(DropAccount(t, b), e) == if e.account == b then 0 else Copies(t, e)
  {
    if e.account == b { GoneCopies(DropAccount(t, b), e); } else { KeptCopies(t, DropAccount(t, b), e); }
  }

  lemma StepCopies(s: State, l: Label, e: Email)
    requires Enabled(s, l) && IdsBelow(s.emails, s.nextId)
    ensures Copies(Apply(s, l).emails, e) == match l.action
      case Move(t, step) => MovedCopies(Copies(s.emails, e), s.tasks[t], step, e)
      case DeleteAccount => if e.account == l.account then 0 else Copies(s.emails, e)
      case _ => Copies(s.emails, e)
  {
    match l.action
    case Move(t, step) => CopiesMoved(s, s.tasks[t], step, e);
    case DeleteAccount => DropAccountCopies(s.emails, l.account, e);
    case _ =>
  }

  lemma OwnStepCopies(s: State, s1: State, l: Label)
    requires Enabled(s, l) && Enabled(s1, l) && Solo(s, s1, l.account) && SameCopies(s.emails, s1.emails, l.account)
    ensures SameCopies(Apply(s, l).emails, Apply(s1, l).emails, l.account)
  {
    if l.action.Move? { assert s1.tasks[l.action.t] == TasksOf(s.tasks, l.account)[l.action.t]; }
    forall e: Email | e.account == l.account
      ensures Copies(Apply(s, l).emails, e) == Copies(Apply(s1, l).emails, e)
    {
      StepCopies(s, l, e);
      StepCopies(s1, l, e);
    }
  }

  lemma OtherStepCopies(s: State, l: Label, a: int)
    requires Enabled(s, l) && l.account != a && IdsBelow(s.emails, s.nextId)
    ensures SameCopies(Apply(s, l).emails, s.emails, a)
  {
    forall e: Email | e.account == a ensures Copies(Apply(s, l).emails, e) == Copies(s.emails, e) {
      match l.action
      case Move(t, step) => CopiesMoved(s, s.tasks[t], step, e);
      case DeleteAccount => DropAccountCopies(s.emails, l.account, e);
      case _ =>
    }
  }

  /** Nor does any row come or go as a duplicate: the rows are the same as a multiset. */
  lemma {:induction false} AloneHasSameCopies(s: State, s1: State, ls: seq<Label>, a: int)
    requires Legal(s, ls) && Solo(s, s1, a) && SameCopies(s.emails, s1.emails, a) && Legal(s1, Only(ls, a))
    ensures SameCopies(Exec(s, ls).emails, Exec(s1, Only(ls, a)).emails, a)
    decreases |ls|
  {
    if ls != [] {
      var l := ls[0];
      if l.account == a {
        OwnKeepsSolo(s, s1, l);
        OwnStepCopies(s, s1, l);
        assert Only(ls, a)[0] == l && Only(ls, a)[1..] == Only(ls[1..], a);
        AloneHasSameCopies(Apply(s, l), Apply(s1, l), ls[1..], a);
      } else {
        OtherKeepsSolo(s, s1, l, a);
        OtherStepCopies(s, l, a);
        AloneHasSameCopies(Apply(s, l), s1, ls[1..], a);
      }
    }
  }

  /** From a fresh start: each account's rows, counted with their duplicates, are those of running
      its own steps alone. */
  lemma AccountsIndependent(s: State, max: nat, ls: seq<Label>, a: int)
    requires Initial(s, max) && Legal(s, ls)
    ensures Legal(s, Only(ls, a))
    ensures AccountRows(Exec(s, Only(ls, a)).emails, a) == AccountRows(Exec(s, ls).emails, a)
    ensures SameCopies(Exec(s, ls).emails, Exec(s, Only(ls, a)).emails, a)
    ensures View(Exec(s, Only(ls, a)), a) == View(Exec(s, ls), a)
  {
    assert TasksOf(s.tasks, a) == s.tasks;
    AloneIsTheSame(s, s, ls, a);
    AloneHasSameCopies(s, s, ls, a);
  }
}
