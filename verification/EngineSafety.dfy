/** Permits, and when a message can be stored twice. */
module EngineSafety {
  import opened Common
  import opened EmailTable
  import opened FolderPass
  import opened Engine

  // ----- permits ------------------------------------------------------------------------

  lemma MovedIsRunning(s: State, task: Task, step: Step)
    requires CanMove(s, task, step)
    ensures !task.pc.Waiting? && !MovedTask(s, task, step).pc.Waiting?
  {}

  lemma HoldersAfter(tasks: map<int, Task>, t: int, task: Task)
    ensures Holders(tasks[t := task]) == if task.pc.Waiting? then Holders(tasks) - {t} else Holders(tasks) + {t}
    ensures Holders(tasks - {t}) == Holders(tasks) - {t}
  {}

  lemma StepKeepsPermits(s: State, l: Label)
    requires Enabled(s, l) && s.permits >= 0
    ensures var s' := Apply(s, l); |Running(s')| + s'.permits == |Running(s)| + s.permits && s'.permits >= 0
  {
    var s' := Apply(s, l);
    match l.action
    case Spawn(t) => HoldersAfter(s.tasks, t, s'.tasks[t]); assert t !in Holders(s.tasks);
    case Acquire(t) => HoldersAfter(s.tasks, t, s'.tasks[t]); assert t !in Holders(s.tasks);
    case Move(t, step) =>
      MovedIsRunning(s, s.tasks[t], step);
      HoldersAfter(s.tasks, t, MovedTask(s, s.tasks[t], step));
      assert t in Holders(s.tasks);
      assert Holders(s.tasks) + {t} == Holders(s.tasks);
    case Finish(t) => HoldersAfter(s.tasks, t, s.tasks[t]); assert t in Holders(s.tasks);
    case Crash(t) => HoldersAfter(s.tasks, t, s.tasks[t]); assert t in Holders(s.tasks);
    case _ => assert s'.tasks == s.tasks;
  }

  /** Running tasks and free permits always add up to max_parallelism. */
  lemma {:induction false} PermitsConserved(s: State, ls: seq<Label>)
    requires Legal(s, ls) && s.permits >= 0
    ensures var s' := Exec(s, ls); |Running(s')| + s'.permits == |Running(s)| + s.permits && s'.permits >= 0
    decreases |ls|
  {
    if ls != [] {
      StepKeepsPermits(s, ls[0]);
      PermitsConserved(Apply(s, ls[0]), ls[1..]);
    }
  }

  lemma AtMostOneElement(x: set<int>, t: int, u: int)
    requires |x| <= 1 && t in x && u in x
    ensures t == u
  {
    var rest := x - {t};
    assert u in rest ==> |rest| > 0;
  }

  /** With one permit no two running tasks share an account, whatever the backlog. */
  lemma {:induction false} OnePermitExcludes(s: State, ls: seq<Label>, a: int)
    requires Legal(s, ls) && s.permits >= 0 && |Running(s)| + s.permits <= 1
    ensures ExclusiveAlong(s, ls, a)
    decreases |ls|
  {
    forall t, u | t in Running(s) && u in Running(s) ensures t == u { AtMostOneElement(Running(s), t, u); }
    if ls != [] {
      StepKeepsPermits(s, ls[0]);
      OnePermitExcludes(Apply(s, ls[0]), ls[1..], a);
    }
  }

  // ----- uniqueness ---------------------------------------------------------------------

  /** No UID the task still means to fetch is archived already. */
  ghost predicate TodoFresh(emails: Table, task: Task) {
    task.pc.Fetching? ==> task.pc.todo !! Uids(Rows(emails, task.account, task.pc.folder))
  }

  ghost predicate UniqueInv(s: State, a: int) {
    && UniqueFor(s.emails, a)
    && IdsBelow(s.emails, s.nextId)
    && forall t :: Owns(s, a, t) ==> TodoFresh(s.emails, s.tasks[t])
  }

  predicate Stores(step: Step) { step.Fetch? && step.outcome.Stored? }

  lemma MovedEmailsShrink(s: State, task: Task, step: Step)
    requires CanMove(s, task, step) && !Stores(step)
    ensures SubTable(MovedEmails(s, task, step), s.emails)
  {}

  lemma MovedTaskFresh(s: State, task: Task, step: Step)
    requires CanMove(s, task, step) && IdsBelow(s.emails, s.nextId) && TodoFresh(s.emails, task)
    ensures TodoFresh(MovedEmails(s, task, step), MovedTask(s, task, step))
  {}

  lemma OtherTaskFresh(s: State, task: Task, step: Step, other: Task)
    requires CanMove(s, task, step) && IdsBelow(s.emails, s.nextId) && TodoFresh(s.emails, other)
    requires task.account == other.account ==> other.pc.Waiting?
    ensures TodoFresh(MovedEmails(s, task, step), other)
  {}

  lemma MovedEmailsUnique(s: State, task: Task, step: Step, a: int)
    requires CanMove(s, task, step) && UniqueFor(s.emails, a) && IdsBelow(s.emails, s.nextId)
    requires task.account == a ==> TodoFresh(s.emails, task)
    ensures UniqueFor(MovedEmails(s, task, step), a)
    ensures IdsBelow(MovedEmails(s, task, step), s.nextId + 1)
  {}

  lemma MoveKeepsUnique(s: State, l: Label, a: int)
    requires l.action.Move? && Enabled(s, l) && UniqueInv(s, a) && Exclusive(s, a)
    ensures UniqueInv(Apply(s, l), a)
  {
    var t, step := l.action.t, l.action.step;
    var task := s.tasks[t];
    var s' := Apply(s, l);
    MovedEmailsUnique(s, task, step, a);
    MovedIsRunning(s, task, step);
    forall u | Owns(s', a, u) ensures TodoFresh(s'.emails, s'.tasks[u]) {
      if u == t {
        MovedTaskFresh(s, task, step);
      } else {
        assert task.account == a && u in Running(s) ==> t in Running(s);
        OtherTaskFresh(s, task, step, s.tasks[u]);
      }
    }
  }

  lemma StepKeepsUnique(s: State, l: Label, a: int)
    requires Enabled(s, l) && UniqueInv(s, a) && Exclusive(s, a)
    ensures UniqueInv(Apply(s, l), a)
  {
    var s' := Apply(s, l);
    match l.action
    case Move(t, step) => MoveKeepsUnique(s, l, a);
    case DeleteAccount =>
      SubTableUnique(s.emails, s'.emails, a);
      forall u | Owns(s', a, u) ensures TodoFresh(s'.emails, s'.tasks[u]) {
        if s.tasks[u].pc.Fetching? { SubTableUids(s.emails, s'.emails, a, s.tasks[u].pc.folder); }
      }
    case _ =>
  }

  /** In every interleaving in which no two running tasks share account `a`, no message of `a`
      is ever stored twice, whatever fails. */
  lemma {:induction false} NeverStoredTwice(s: State, ls: seq<Label>, a: int)
    requires Legal(s, ls) && ExclusiveAlong(s, ls, a) && UniqueInv(s, a)
    ensures UniqueInv(Exec(s, ls), a)
    decreases |ls|
  {
    if ls != [] {
      StepKeepsUnique(s, ls[0], a);
      NeverStoredTwice(Apply(s, ls[0]), ls[1..], a);
    }
  }

  lemma InitialUnique(s: State, max: nat, a: int)
    requires Initial(s, max)
    ensures UniqueInv(s, a) && Exclusive(s, a) && |Running(s)| == 0
  {}
}
