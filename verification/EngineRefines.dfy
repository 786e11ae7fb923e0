/** The procedures of the program are runs of the machine: whatever a pass leaves, as sync_folder
    promises it, some run of the task's own steps leaves. */
module EngineRefines {
  import opened Common
  import opened EmailTable
  import opened FolderPass
  import opened Engine
  import opened EngineExamples
  import opened EngineRuns
  import P = Storage
  import L = Pipeline
  import S = SyncEngine
  import T = Text

  /** Only steps of task `t`. */
  ghost predicate OfTask(ls: seq<Label>, a: int, t: int) {
    forall i :: 0 <= i < |ls| ==>
      ls[i].account == a && (ls[i].action == Crash(t) || (ls[i].action.Move? && ls[i].action.t == t))
  }

  /** The task of `s` has gone through folder `f` with that status: the folder has the rows of
      `after`, and the rest of the world is as it was. */
  ghost predicate Went(s: State, ls: seq<Label>, s': State, a: int, t: int, f: string, after: set<Email>,
                       accounts: map<int, Validity>, status: S.Status)
    requires t in s.tasks
  {
    && Legal(s, ls) && Exec(s, ls) == s' && OfTask(ls, a, t)
    && Rows(s'.emails, a, f) == after && OthersSame(s.emails, s'.emails, a, f) && IdsBelow(s'.emails, s'.nextId)
    && s'.accounts == accounts && s'.servers == s.servers && s'.perFolderWrite == s.perFolderWrite
    && if status.Panicked? then s'.tasks == s.tasks - {t} && s'.permits == s.permits + 1
       else s'.tasks == s.tasks[t := s.tasks[t].(done := s.tasks[t].done + {f})] && s'.permits == s.permits
  }

  /** The run `l1` inside the folder, then a statement that fails or the end. */
  lemma EndsWith(s: State, l1: seq<Label>, s1: State, step: Step, s': State, a: int, t: int, f: string,
                 status: S.Status)
      returns (ls: seq<Label>)
    requires Owns(s, a, t) && s.tasks[t].pc.Between? && Runs(s, l1, s1, a, t)
    requires t in s1.tasks && Got(s, s1, a, t, f, s1.tasks[t].pc)
    requires Runs(s1, [Label(a, Move(t, step))], s', a, t)
    requires s' == s1.(nextId := s1.nextId + 1, tasks := s1.tasks[t := s1.tasks[t].(
               pc := Between, done := s1.tasks[t].done + {f})])
    requires !status.Panicked?
    ensures Went(s, ls, s', a, t, f, Rows(s1.emails, a, f), s1.accounts, status)
  {
    ls := l1 + [Label(a, Move(t, step))];
    RunsOn(s, l1, s1, [Label(a, Move(t, step))], s', a, t);
    assert s'.tasks[t] == s.tasks[t].(done := s.tasks[t].done + {f});
  }

  ghost predicate CanBegin(s: State, a: int, t: int, f: string) {
    && Owns(s, a, t) && s.tasks[t].pc.Between? && f !in s.tasks[t].done && (a, f) in s.servers
    && IdsBelow(s.emails, s.nextId) && !s.perFolderWrite
  }

  /** The stored maps after the task's map write for `f`. */
  function Written(s: State, task: Task, f: string): map<int, Validity>
    requires (task.account, f) in s.servers
  {
    if task.account !in s.accounts then s.accounts
    else s.accounts[task.account := task.snapshot[f := s.servers[(task.account, f)].validity]]
  }

  /** One of the statements before the fetch loop fails. */
  lemma FailsEarly(s: State, a: int, t: int, f: string, n: nat) returns (ls: seq<Label>, s': State)
    requires CanBegin(s, a, t, f) && 1 <= n <= 4
    ensures Went(s, ls, s', a, t, f, if n == 4 then Rows(s.emails, a, f) else StartRows(s, s.tasks[t], f),
                 if n >= 3 then s.accounts else Written(s, s.tasks[t], f), S.Failed)
  {
    var l1, s1 := Begins(s, a, t, f, n);
    s' := StatementCanFail(s1, a, t);
    ls := EndsWith(s, l1, s1, Abort, s', a, t, f, S.Failed);
  }

  /** The fetch loop has gone through the UIDs of `seen`. */
  lemma Fetched(s: State, a: int, t: int, f: string, seen: set<int>, stored: map<int, Option<int>>)
      returns (ls: seq<Label>, s1: State)
    requires CanBegin(s, a, t, f) && stored.Keys <= seen && (stored != map[] ==> a in s.accounts)
    requires seen <= Attempted(StartRows(s, s.tasks[t], f), s.servers[(a, f)].uids)
    ensures var start, box := StartRows(s, s.tasks[t], f), s.servers[(a, f)];
      && Runs(s, ls, s1, a, t) && s1.accounts == Written(s, s.tasks[t], f)
      && Got(s, s1, a, t, f, Fetching(f, box.validity, box.uids, Attempted(start, box.uids) - seen, start, stored))
      && Rows(s1.emails, a, f) == start + Inserted(a, f, box.validity, stored)
  {
    var l1, m := Begins(s, a, t, f, 0);
    var l2;
    l2, s1 := Fetches(m, a, t, seen, stored);
    assert map[] + stored == stored;
    ls := GotFurther(s, l1, m, l2, s1, a, t, f, m.tasks[t].pc, s1.tasks[t].pc);
  }

  /** The fetch loop panics after the UIDs of `seen`. */
  lemma DiesFetching(s: State, a: int, t: int, f: string, seen: set<int>, stored: map<int, Option<int>>)
      returns (ls: seq<Label>, s': State)
    requires CanBegin(s, a, t, f) && stored.Keys <= seen && (stored != map[] ==> a in s.accounts)
    requires seen <= Attempted(StartRows(s, s.tasks[t], f), s.servers[(a, f)].uids)
    ensures Went(s, ls, s', a, t, f,
                 StartRows(s, s.tasks[t], f) + Inserted(a, f, s.servers[(a, f)].validity, stored),
                 Written(s, s.tasks[t], f), S.Panicked)
  {
    var l1, s1 := Fetched(s, a, t, f, seen, stored);
    s' := TaskCanDie(s1, a, t);
    ExecConcat(s, l1, [Label(a, Crash(t))]);
    ls := l1 + [Label(a, Crash(t))];
    assert s'.tasks == s.tasks - {t};
  }

  /** The grace deletion fails after the UIDs of `gone`. */
  lemma FailsLate(s: State, a: int, t: int, f: string, stored: map<int, Option<int>>, cutoff: Option<int>,
                  gone: set<int>)
      returns (ls: seq<Label>, s': State)
    requires CanBegin(s, a, t, f) && (stored != map[] ==> a in s.accounts)
    requires stored.Keys <= Attempted(StartRows(s, s.tasks[t], f), s.servers[(a, f)].uids)
    requires gone <= ExpiredUids(
      StartRows(s, s.tasks[t], f) + Inserted(a, f, s.servers[(a, f)].validity, stored), cutoff)
    ensures Went(s, ls, s', a, t, f,
      Less(StartRows(s, s.tasks[t], f) + Inserted(a, f, s.servers[(a, f)].validity, stored), gone,
           s.servers[(a, f)].uids),
      Written(s, s.tasks[t], f), S.Failed)
  {
    var tried := Attempted(StartRows(s, s.tasks[t], f), s.servers[(a, f)].uids);
    var l1, s1 := Fetched(s, a, t, f, tried, stored);
    assert tried - tried == {};
    var l2, s2 := QueryOne(s1, a, t, cutoff);
    var l3, s3 := Deletes(s2, a, t, gone);
    var l12 := GotFurther(s, l1, s1, l2, s2, a, t, f, s1.tasks[t].pc, s2.tasks[t].pc);
    var l123 := GotFurther(s, l12, s2, l3, s3, a, t, f, s2.tasks[t].pc, s3.tasks[t].pc);
    s' := StatementCanFail(s3, a, t);
    ls := EndsWith(s, l123, s3, Abort, s', a, t, f, S.Failed);
  }

  lemma GoesThrough(s: State, a: int, t: int, f: string, stored: map<int, Option<int>>, cutoff: Option<int>)
      returns (ls: seq<Label>, s': State)
    requires CanBegin(s, a, t, f) && (stored != map[] ==> a in s.accounts)
    requires stored.Keys <= Attempted(StartRows(s, s.tasks[t], f), s.servers[(a, f)].uids)
    ensures var all := StartRows(s, s.tasks[t], f) + Inserted(a, f, s.servers[(a, f)].validity, stored);
      Went(s, ls, s', a, t, f, Less(all, ExpiredUids(all, cutoff), s.servers[(a, f)].uids),
           Written(s, s.tasks[t], f), S.Done)
  {
    var l1, s1, s2 := EveryPassIsARun(s, a, t, f, stored, cutoff);
    s' := EndOne(s1, a, t);
    ls := EndsWith(s, l1, s1, EndFolder, s', a, t, f, S.Done);
  }

  /** What the world answers the pass, where it does, is what the machine's mailbox has. */
  ghost predicate Answers(box: Server, io: S.FolderIo) {
    (io.select.Some? ==> io.select.value == box.validity) && (io.search.Some? ==> io.search.value == box.uids)
  }

  lemma LateIsARun(s: State, a: int, t: int, f: string, io: S.FolderIo, after: Table, unique: bool, status: S.Status)
      returns (ls: seq<Label>, s': State)
    requires CanBegin(s, a, t, f) && Answers(s.servers[(a, f)], io) && io.search.Some? && io.maxOk
    requires S.PassLeft(after, unique, a in s.accounts, a, f, s.servers[(a, f)].validity, io,
                        StartRows(s, s.tasks[t], f), status)
    ensures Went(s, ls, s', a, t, f, Rows(after, a, f), Written(s, s.tasks[t], f), status)
  {
    var box, start, known := s.servers[(a, f)], StartRows(s, s.tasks[t], f), a in s.accounts;
    var stored := S.Got(io, known, Attempted(start, box.uids));
    var all := start + Inserted(a, f, box.validity, stored);
    match status
    case Panicked =>
      var seen :| S.Interrupted(after, a, f, box.validity, io, known, start, seen);
      ls, s' := DiesFetching(s, a, t, f, seen, S.Got(io, known, seen));
    case Failed =>
      var gone :| S.HalfExpired(after, a, f, box.validity, io, known, start, gone);
      ls, s' := FailsLate(s, a, t, f, stored, io.cutoff, gone);
      assert Less(all, gone, box.uids) == Rows(after, a, f);
    case Done =>
      ls, s' := GoesThrough(s, a, t, f, stored, io.cutoff);
      assert Less(all, ExpiredUids(all, io.cutoff), box.uids) == Rows(after, a, f);
  }

  /** Whatever sync_folder can leave of a folder, under whatever failures, a run of the task's own
      steps leaves: the same rows and maps, and a task that has the folder done, or is dead. */
  lemma PassIsARun(s: State, a: int, t: int, f: string, io: S.FolderIo, after: Table, unique: bool, status: S.Status)
      returns (ls: seq<Label>, s': State)
    requires CanBegin(s, a, t, f) && Answers(s.servers[(a, f)], io)
    requires S.FolderLeft(Rows(s.emails, a, f), after, unique, a in s.accounts, a, f, s.tasks[t].snapshot, io, status)
    ensures Went(s, ls, s', a, t, f, Rows(after, a, f),
                 S.OneWritten(s.accounts, a, s.tasks[t].snapshot, f, {}, io), status)
  {
    var changed := S.Changed(s.tasks[t].snapshot, f, s.servers[(a, f)].validity);
    if io.select.None? || (changed && !io.wipeOk) {
      ls, s' := FailsEarly(s, a, t, f, 4);
    } else if !io.mapOk {
      ls, s' := FailsEarly(s, a, t, f, 3);
    } else if io.search.None? {
      ls, s' := FailsEarly(s, a, t, f, 2);
    } else if !io.maxOk {
      ls, s' := FailsEarly(s, a, t, f, 1);
    } else {
      ls, s' := LateIsARun(s, a, t, f, io, after, unique, status);
    }
  }

  // ----- a whole account ----------------------------------------------------------------

  /** The folders among the first `n` that are not excluded. */
  function Synced(folders: seq<string>, excluded: set<string>, n: nat): set<string>
    requires n <= |folders|
  {
    if n == 0 then {}
    else Synced(folders, excluded, n - 1) + if T.Lower(folders[n - 1]) in excluded then {} else {folders[n - 1]}
  }

  lemma {:induction false} SyncedAreFolders(folders: seq<string>, excluded: set<string>, n: nat, f: string)
    requires n <= |folders|
    ensures f in Synced(folders, excluded, n) <==>
      exists j :: 0 <= j < n && folders[j] == f && T.Lower(folders[j]) !in excluded
  {
    if n > 0 { SyncedAreFolders(folders, excluded, n - 1, f); }
  }

  predicate Skipped(folders: seq<string>, excluded: set<string>, j: nat)
    requires j < |folders|
  {
    T.Lower(folders[j]) in excluded
  }

  /** The rows of the folders once the first `n` are through. */
  ghost predicate RowsUpTo(before: Table, t: Table, a: int, folders: seq<string>, excluded: set<string>, n: nat,
                           after: Table)
  {
    && (forall j :: 0 <= j < |folders| ==>
          Rows(t, a, folders[j])
            == Rows(if j < n && !Skipped(folders, excluded, j) then after else before, a, folders[j]))
    && (forall b, g :: b != a || g !in folders ==> Rows(t, b, g) == Rows(before, b, g))
  }

  /** The task has been through the first `n` folders. */
  ghost predicate AccountWent(s: State, ls: seq<Label>, s': State, a: int, t: int, folders: seq<string>,
                              excluded: set<string>, ios: seq<S.FolderIo>, n: nat, after: Table, dead: bool)
    requires t in s.tasks && n <= |folders| == |ios|
  {
    var snapshot := s.tasks[t].snapshot;
    && Legal(s, ls) && Exec(s, ls) == s' && OfTask(ls, a, t)
    && RowsUpTo(s.emails, s'.emails, a, folders, excluded, n, after) && IdsBelow(s'.emails, s'.nextId)
    && s'.accounts == S.StoredAfter(s.accounts, a, snapshot, S.MapWrites(snapshot, folders, excluded, ios, n))
    && s'.servers == s.servers && s'.perFolderWrite == s.perFolderWrite
    && if dead then s'.tasks == s.tasks - {t} && s'.permits == s.permits + 1
       else s'.permits == s.permits && s'.tasks
              == s.tasks[t := s.tasks[t].(done := s.tasks[t].done + Synced(folders, excluded, n))]
  }

  lemma RowsOneMore(before: Table, t: Table, t': Table, a: int, folders: seq<string>, excluded: set<string>, n: nat,
                    after: Table)
    requires RowsUpTo(before, t, a, folders, excluded, n, after) && n < |folders| && S.NoneTwice(folders)
    requires if Skipped(folders, excluded, n) then t' == t
      else OthersSame(t, t', a, folders[n]) && Rows(t', a, folders[n]) == Rows(after, a, folders[n])
    ensures RowsUpTo(before, t', a, folders, excluded, n + 1, after)
  {}

  lemma OfTaskConcat(l1: seq<Label>, l2: seq<Label>, a: int, t: int)
    requires OfTask(l1, a, t) && OfTask(l2, a, t)
    ensures OfTask(l1 + l2, a, t)
  {}

  lemma SkipsOne(s: State, ls: seq<Label>, s1: State, a: int, t: int, folders: seq<string>, excluded: set<string>,
                 ios: seq<S.FolderIo>, n: nat, after: Table)
    requires t in s.tasks && n < |folders| == |ios| && S.NoneTwice(folders) && Skipped(folders, excluded, n)
    requires AccountWent(s, ls, s1, a, t, folders, excluded, ios, n, after, false)
    ensures AccountWent(s, ls, s1, a, t, folders, excluded, ios, n + 1, after, false)
  {
    RowsOneMore(s.emails, s1.emails, s1.emails, a, folders, excluded, n, after);
    assert Synced(folders, excluded, n + 1) == Synced(folders, excluded, n);
  }

  lemma GoesOnToOne(s: State, l1: seq<Label>, s1: State, l2: seq<Label>, s2: State, a: int, t: int,
                    folders: seq<string>, excluded: set<string>, ios: seq<S.FolderIo>, n: nat, after: Table,
                    status: S.Status)
      returns (ls: seq<Label>)
    requires t in s.tasks && n < |folders| == |ios| && S.NoneTwice(folders) && !Skipped(folders, excluded, n)
    requires AccountWent(s, l1, s1, a, t, folders, excluded, ios, n, after, false)
    requires Went(s1, l2, s2, a, t, folders[n], Rows(after, a, folders[n]),
                  S.OneWritten(s1.accounts, a, s.tasks[t].snapshot, folders[n], {}, ios[n]), status)
    ensures AccountWent(s, ls, s2, a, t, folders, excluded, ios, n + 1, after, status.Panicked?)
  {
    ls := l1 + l2;
    ExecConcat(s, l1, l2);
    OfTaskConcat(l1, l2, a, t);
    RowsOneMore(s.emails, s1.emails, s2.emails, a, folders, excluded, n, after);
    S.MapWritten(s.accounts, a, s.tasks[t].snapshot, folders, excluded, ios, n);
    assert s.tasks[t].done + Synced(folders, excluded, n) + {folders[n]}
      == s.tasks[t].done + Synced(folders, excluded, n + 1);
    if status.Panicked? { assert s2.tasks == s.tasks - {t}; }
  }

  /** Every folder that is not excluded has a mailbox, and what the world answers is what it has. */
  ghost predicate AllAnswer(s: State, a: int, folders: seq<string>, excluded: set<string>, ios: seq<S.FolderIo>) {
    |folders| == |ios| && forall j :: 0 <= j < |folders| && !Skipped(folders, excluded, j) ==>
      (a, folders[j]) in s.servers && Answers(s.servers[(a, folders[j])], ios[j])
  }

  /** A task that has just got its permit. */
  ghost predicate Fresh(s: State, a: int, t: int) {
    && Owns(s, a, t) && s.tasks[t].pc.Between? && s.tasks[t].done == {}
    && IdsBelow(s.emails, s.nextId) && !s.perFolderWrite
  }

  lemma CanGoOn(s: State, ls: seq<Label>, s1: State, a: int, t: int, folders: seq<string>, excluded: set<string>,
                ios: seq<S.FolderIo>, n: nat, after: Table)
    requires Fresh(s, a, t) && AllAnswer(s, a, folders, excluded, ios) && S.NoneTwice(folders) && n < |folders|
    requires AccountWent(s, ls, s1, a, t, folders, excluded, ios, n, after, false) && !Skipped(folders, excluded, n)
    ensures CanBegin(s1, a, t, folders[n]) && Answers(s1.servers[(a, folders[n])], ios[n])
    ensures s1.tasks[t].snapshot == s.tasks[t].snapshot && (a in s1.accounts <==> a in s.accounts)
    ensures Rows(s1.emails, a, folders[n]) == Rows(s.emails, a, folders[n])
  {
    SyncedAreFolders(folders, excluded, n, folders[n]);
    assert {} + Synced(folders, excluded, n) == Synced(folders, excluded, n);
  }

  lemma NextFolder(s: State, l1: seq<Label>, s1: State, a: int, t: int, folders: seq<string>, excluded: set<string>,
                   ios: seq<S.FolderIo>, n: nat, after: Table, unique: bool, status: S.Status)
      returns (ls: seq<Label>, s': State)
    requires Fresh(s, a, t) && AllAnswer(s, a, folders, excluded, ios) && S.NoneTwice(folders) && n < |folders|
    requires AccountWent(s, l1, s1, a, t, folders, excluded, ios, n, after, false) && !Skipped(folders, excluded, n)
    requires S.FolderLeft(Rows(s.emails, a, folders[n]), after, unique, a in s.accounts, a, folders[n],
                          s.tasks[t].snapshot, ios[n], status)
    ensures AccountWent(s, ls, s', a, t, folders, excluded, ios, n + 1, after, status.Panicked?)
  {
    CanGoOn(s, l1, s1, a, t, folders, excluded, ios, n, after);
    var l2;
    l2, s' := PassIsARun(s1, a, t, folders[n], ios[n], after, unique, status);
    ls := GoesOnToOne(s, l1, s1, l2, s', a, t, folders, excluded, ios, n, after, status);
  }

  lemma WentNowhere(s: State, a: int, t: int, folders: seq<string>, excluded: set<string>, ios: seq<S.FolderIo>,
                    after: Table)
    requires Fresh(s, a, t) && |folders| == |ios|
    ensures AccountWent(s, [], s, a, t, folders, excluded, ios, 0, after, false)
  {
    assert s.tasks[t].done + {} == s.tasks[t].done;
    assert s.tasks[t := s.tasks[t].(done := s.tasks[t].done + {})] == s.tasks;
    if a in s.accounts { assert s.accounts[a := s.accounts[a]] == s.accounts; }
  }

  lemma LeftOf(s: State, a: int, t: int, folders: seq<string>, excluded: set<string>, ios: seq<S.FolderIo>,
               statuses: seq<S.Status>, j: nat, after: Table, unique: bool)
    requires t in s.tasks && j < |statuses| && S.NoneTwice(folders)
    requires S.Passed(s.emails, after, unique, a in s.accounts, a, s.tasks[t].snapshot, folders, excluded, ios,
                      statuses)
    requires !Skipped(folders, excluded, j)
    ensures S.FolderLeft(Rows(s.emails, a, folders[j]), after, unique, a in s.accounts, a, folders[j],
                         s.tasks[t].snapshot, ios[j], statuses[j])
  {}

  lemma NextOfAccount(
    s: State, l1: seq<Label>, s1: State, a: int, t: int, folders: seq<string>, excluded: set<string>,
    ios: seq<S.FolderIo>, statuses: seq<S.Status>, n: nat, after: Table, unique: bool)
      returns (ls: seq<Label>, s': State)
    requires Fresh(s, a, t) && AllAnswer(s, a, folders, excluded, ios) && S.NoneTwice(folders)
    requires S.Passed(s.emails, after, unique, a in s.accounts, a, s.tasks[t].snapshot, folders, excluded, ios,
                      statuses)
    requires n < |statuses| && (Skipped(folders, excluded, n) ==> !statuses[n].Panicked?)
    requires AccountWent(s, l1, s1, a, t, folders, excluded, ios, n, after, false)
    ensures AccountWent(s, ls, s', a, t, folders, excluded, ios, n + 1, after, statuses[n].Panicked?)
  {
    if Skipped(folders, excluded, n) {
      ls, s' := l1, s1;
      SkipsOne(s, l1, s1, a, t, folders, excluded, ios, n, after);
    } else {
      LeftOf(s, a, t, folders, excluded, ios, statuses, n, after, unique);
      ls, s' := NextFolder(s, l1, s1, a, t, folders, excluded, ios, n, after, unique, statuses[n]);
    }
  }

  /** Whatever the folder loop of sync_account can leave, under whatever failures, a run of the task's
      own steps leaves: the same rows in every folder, the same stored map, and a task that has all of
      its folders done, or is dead. */
  lemma {:induction false} AccountIsARun(
    s: State, a: int, t: int, folders: seq<string>, excluded: set<string>, ios: seq<S.FolderIo>,
    statuses: seq<S.Status>, n: nat, after: Table, unique: bool)
      returns (ls: seq<Label>, s': State)
    requires Fresh(s, a, t) && AllAnswer(s, a, folders, excluded, ios) && S.NoneTwice(folders)
    requires S.Passed(s.emails, after, unique, a in s.accounts, a, s.tasks[t].snapshot, folders, excluded, ios,
                      statuses)
    requires n <= |statuses| && forall j :: 0 <= j < |statuses| - 1 ==> !statuses[j].Panicked?
    requires forall j :: 0 <= j < |statuses| && Skipped(folders, excluded, j) ==> !statuses[j].Panicked?
    ensures AccountWent(s, ls, s', a, t, folders, excluded, ios, n, after, n > 0 && statuses[n - 1].Panicked?)
    decreases n
  {
    if n == 0 {
      ls, s' := [], s;
      WentNowhere(s, a, t, folders, excluded, ios, after);
    } else {
      var l1, s1 := AccountIsARun(s, a, t, folders, excluded, ios, statuses, n - 1, after, unique);
      assert !(n > 1 && statuses[n - 2].Panicked?);
      ls, s' := NextOfAccount(s, l1, s1, a, t, folders, excluded, ios, statuses, n - 1, after, unique);
    }
  }

  lemma WholeRows(db: P.Db, db': P.Db, a: int, folders: set<string>, b: int, g: string)
    requires P.WholeEmails(db, db', a, folders) && (b != a || g !in folders)
    ensures Rows(db'.emails, b, g) == Rows(db.emails, b, g)
  {
    forall id | id in db.emails && InFolder(db.emails[id], b, g)
      ensures id in db'.emails && db'.emails[id] == db.emails[id]
    {
      assert P.IsOutside(db, id, a, folders);
    }
    forall id | id in db'.emails && InFolder(db'.emails[id], b, g) ensures id in db.emails {
      assert P.IsOutside(db', id, a, folders);
    }
  }

  /** The rows agree in every folder of every account. */
  lemma SameRows(before: P.Db, after: P.Db, t: Table, a: int, folders: seq<string>, excluded: set<string>, n: nat)
    requires P.WholeEmails(before, after, a, S.Synced(folders, excluded)) && n <= |folders|
    requires RowsUpTo(before.emails, t, a, folders, excluded, n, after.emails)
    requires forall j :: n <= j < |folders| ==> Rows(after.emails, a, folders[j]) == Rows(before.emails, a, folders[j])
    ensures forall b, g :: Rows(t, b, g) == Rows(after.emails, b, g)
  {
    forall b, g ensures Rows(t, b, g) == Rows(after.emails, b, g) {
      if b != a || g !in S.Synced(folders, excluded) { WholeRows(before, after, a, S.Synced(folders, excluded), b, g); }
      if b == a && g in folders {
        var j :| 0 <= j < |folders| && folders[j] == g;
        assert Skipped(folders, excluded, j) <==> g !in S.Synced(folders, excluded);
      }
    }
  }

  /** sync_account on the database is a run of the machine: some run of the task's own steps ends
      with the same rows everywhere and the same stored maps, and with the task dead if the program
      panics. */
  method SyncAccountIsARun(archive: S.Archive, a: int, folders: seq<string>, excluded: set<string>,
                           ios: seq<S.FolderIo>, snapshot: Validity, ghost s: State, ghost t: int,
                           ghost hash: Bytes -> P.Hash)
      returns (panicked: bool, ghost ls: seq<Label>, ghost s': State)
    requires Fresh(s, a, t) && s.tasks[t].snapshot == snapshot
    requires s.emails == archive.db.emails && s.accounts == archive.db.accounts
    requires AllAnswer(s, a, folders, excluded, ios) && S.NoneTwice(folders)
    requires L.Sound(archive.db, hash) && forall i :: 0 <= i < |ios| ==> S.IoOk(ios[i], hash)
    modifies archive
    ensures Legal(s, ls) && Exec(s, ls) == s' && OfTask(ls, a, t)
    ensures forall b, g :: Rows(s'.emails, b, g) == Rows(archive.db.emails, b, g)
    ensures s'.accounts == archive.db.accounts && s'.servers == s.servers
    ensures s'.tasks == if panicked then s.tasks - {t}
      else s.tasks[t := s.tasks[t].(done := Synced(folders, excluded, |folders|))]
  {
    ghost var before := archive.db;
    ghost var statuses;
    panicked, statuses := archive.SyncAccount(a, snapshot, folders, excluded, ios, hash);
    ls, s' := AccountIsARun(s, a, t, folders, excluded, ios, statuses, |statuses|, archive.db.emails,
                            UniqueKeys(before.emails));
    SameRows(before, archive.db, s'.emails, a, folders, excluded, |statuses|);
    assert {} + Synced(folders, excluded, |statuses|) == Synced(folders, excluded, |statuses|);
  }
}
