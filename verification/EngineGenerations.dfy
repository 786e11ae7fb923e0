/** UIDVALIDITY generations (section 2.3.1.1 of RFC 3501): which rows a stored UIDVALIDITY
    vouches for, under the repaired per-folder write and under the program's whole-map write. */
module EngineGenerations {
  import opened Common
  import opened EmailTable
  import opened FolderPass
  import opened Engine
  import opened EngineSafety
  import opened EngineIsolation
  import opened EngineExamples

  /** No two live tasks, waiting ones included, are for account `a`. */
  ghost predicate LiveExclusive(s: State, a: int) {
    forall t, u :: Owns(s, a, t) && Owns(s, a, u) ==> t == u
  }

  ghost predicate LiveExclusiveAlong(s: State, ls: seq<Label>, a: int)
    requires Legal(s, ls)
    decreases |ls|
  {
    LiveExclusive(s, a) && (ls != [] ==> LiveExclusiveAlong(Apply(s, ls[0]), ls[1..], a))
  }

  // ----- the invariant ------------------------------------------------------------------

  /** Every row was fetched under the UIDVALIDITY stored for its folder. */
  ghost predicate RowsMatch(stored: Option<Validity>, rows: set<Email>) {
    forall e :: e in rows ==>
      stored.Some? && e.folder in stored.value && stored.value[e.folder] == e.generation
  }

  predicate SameEntry(m: Validity, n: Validity, f: string) {
    (f in m <==> f in n) && (f in m && f in n ==> m[f] == n[f])
  }

  predicate PastWrite(pc: Pc) { pc.Mapped? || pc.Searched? || pc.Fetching? || pc.Deleting? }

  predicate AlreadyWritten(pc: Pc, f: string) { PastWrite(pc) && pc.folder == f }

  /** The snapshot is current for every folder the task has still to write. */
  ghost predicate TaskCurrent(stored: Option<Validity>, rows: set<Email>, task: Task) {
    && (stored.Some? ==>
          forall f :: f !in task.done && !AlreadyWritten(task.pc, f) ==> SameEntry(task.snapshot, stored.value, f))
    && (task.pc.Selected? || task.pc.Cleared? ==> task.pc.folder !in task.done)
    && (task.pc.Cleared? ==> forall e :: e in rows && e.folder == task.pc.folder ==> e.generation == task.pc.validity)
    && (PastWrite(task.pc) && stored.Some?
        ==> task.pc.folder in stored.value && stored.value[task.pc.folder] == task.pc.validity)
  }

  ghost predicate GenInv(s: State, a: int) {
    && IdsBelow(s.emails, s.nextId)
    && RowsMatch(StoredOf(s, a), AccountRows(s.emails, a))
    && forall t :: Owns(s, a, t) ==> TaskCurrent(StoredOf(s, a), AccountRows(s.emails, a), s.tasks[t])
  }

  lemma AccountRowsOwned(t: Table, a: int)
    ensures forall e :: e in AccountRows(t, a) ==> e.account == a
  {}

  ghost predicate MovedMatch(s: State, task: Task, step: Step)
    requires CanMove(s, task, step)
  {
    var a := task.account;
    var stored' := StoredOf(s.(accounts := MovedAccounts(s, task, step)), a);
    var rows' := AccountRows(MovedEmails(s, task, step), a);
    RowsMatch(stored', rows') && TaskCurrent(stored', rows', MovedTask(s, task, step))
  }

  lemma WipeCurrent(s: State, task: Task)
    requires CanMove(s, task, Wipe) && IdsBelow(s.emails, s.nextId)
    requires RowsMatch(StoredOf(s, task.account), AccountRows(s.emails, task.account))
    requires TaskCurrent(StoredOf(s, task.account), AccountRows(s.emails, task.account), task)
    ensures MovedMatch(s, task, Wipe)
  {
    var a, f := task.account, task.pc.folder;
    MovedAccountRows(s, task, Wipe, a);
    AccountRowsOwned(s.emails, a);
    assert StoredOf(s, a).Some? ==> SameEntry(task.snapshot, StoredOf(s, a).value, f);
  }

  lemma WriteMapCurrent(s: State, task: Task)
    requires s.perFolderWrite && CanMove(s, task, WriteMap) && IdsBelow(s.emails, s.nextId)
    requires RowsMatch(StoredOf(s, task.account), AccountRows(s.emails, task.account))
    requires TaskCurrent(StoredOf(s, task.account), AccountRows(s.emails, task.account), task)
    ensures MovedMatch(s, task, WriteMap)
  {}

  lemma FetchCurrent(s: State, task: Task, step: Step)
    requires step.Fetch? && CanMove(s, task, step) && IdsBelow(s.emails, s.nextId)
    requires RowsMatch(StoredOf(s, task.account), AccountRows(s.emails, task.account))
    requires TaskCurrent(StoredOf(s, task.account), AccountRows(s.emails, task.account), task)
    ensures MovedMatch(s, task, step)
  {
    MovedAccountRows(s, task, step, task.account);
  }

  lemma MovedCurrent(s: State, task: Task, step: Step)
    requires s.perFolderWrite && CanMove(s, task, step) && IdsBelow(s.emails, s.nextId)
    requires RowsMatch(StoredOf(s, task.account), AccountRows(s.emails, task.account))
    requires TaskCurrent(StoredOf(s, task.account), AccountRows(s.emails, task.account), task)
    ensures MovedMatch(s, task, step)
  {
    match step
    case Wipe => WipeCurrent(s, task);
    case WriteMap => WriteMapCurrent(s, task);
    case Fetch(_, _) => FetchCurrent(s, task, step);
    case Delete(_) => MovedAccountRows(s, task, step, task.account);
    case _ =>
  }

  lemma MoveKeepsGenerations(s: State, l: Label, a: int)
    requires l.action.Move? && s.perFolderWrite && Enabled(s, l) && GenInv(s, a) && LiveExclusive(s, a)
    ensures GenInv(Apply(s, l), a)
  {
    var t, step := l.action.t, l.action.step;
    var s' := Apply(s, l);
    StepKeepsIds(s, l);
    if l.account == a {
      MovedCurrent(s, s.tasks[t], step);
      assert StoredOf(s', a) == StoredOf(s.(accounts := MovedAccounts(s, s.tasks[t], step)), a);
      assert forall u :: Owns(s', a, u) ==> Owns(s, a, u) && u == t;
    } else {
      OtherStep(s, l, a);
      assert StoredOf(s', a) == StoredOf(s, a) && AccountRows(s'.emails, a) == AccountRows(s.emails, a);
      assert forall u :: Owns(s', a, u) ==> Owns(s, a, u) && s'.tasks[u] == s.tasks[u];
    }
  }

  lemma StepKeepsGenerations(s: State, l: Label, a: int)
    requires s.perFolderWrite && Enabled(s, l) && GenInv(s, a) && LiveExclusive(s, a)
    ensures GenInv(Apply(s, l), a)
  {
    var s' := Apply(s, l);
    match l.action
    case Move(_, _) => MoveKeepsGenerations(s, l, a);
    case DeleteAccount => DropAccountViews(s.emails, l.account, a, "");
    case _ => assert s'.emails == s.emails && StoredOf(s', a) == StoredOf(s, a);
  }

  /** With the per-folder write, in every run in which an account never has two live tasks, all
      its archived rows are from the generation stored for their folder. */
  lemma {:induction false} GenerationsKept(s: State, ls: seq<Label>, a: int)
    requires s.perFolderWrite && Legal(s, ls) && LiveExclusiveAlong(s, ls, a) && GenInv(s, a)
    ensures GenInv(Exec(s, ls), a)
    decreases |ls|
  {
    if ls != [] {
      StepKeepsGenerations(s, ls[0], a);
      GenerationsKept(Apply(s, ls[0]), ls[1..], a);
    }
  }

  lemma ReachableGenerations(s: State, max: nat, ls: seq<Label>, a: int)
    requires Initial(s, max) && s.perFolderWrite && Legal(s, ls) && LiveExclusiveAlong(s, ls, a)
    ensures var s' := Exec(s, ls); RowsMatch(StoredOf(s', a), AccountRows(s'.emails, a))
  {
    assert AccountRows(s.emails, a) == {};
    GenerationsKept(s, ls, a);
  }

  // ----- the whole-map write ------------------------------------------------------------

  type Writes = seq<(string, int)>

  /** The stored map after a pass that writes the whole map from its snapshot each time. */
  function WholeMapWrites(current: Validity, snapshot: Validity, writes: Writes): Validity
    decreases |writes|
  {
    if writes == [] then current
    else WholeMapWrites(snapshot[writes[0].0 := writes[0].1], snapshot, writes[1..])
  }

  /** The stored map after a pass that writes one entry each time. */
  function EntryWrites(current: Validity, writes: Writes): Validity
    decreases |writes|
  {
    if writes == [] then current else EntryWrites(current[writes[0].0 := writes[0].1], writes[1..])
  }

  ghost predicate DistinctFolders(writes: Writes) {
    forall i, j :: 0 <= i < j < |writes| ==> writes[i].0 != writes[j].0
  }

  lemma {:induction false} WholeMapSnoc(current: Validity, snapshot: Validity, writes: Writes, w: (string, int))
    ensures WholeMapWrites(current, snapshot, writes + [w]) == snapshot[w.0 := w.1]
    decreases |writes|
  {
    if writes != [] {
      assert (writes + [w])[0] == writes[0] && (writes + [w])[1..] == writes[1..] + [w];
      WholeMapSnoc(snapshot[writes[0].0 := writes[0].1], snapshot, writes[1..], w);
    }
  }

  lemma {:induction false} WholeMapKeepsLast(current: Validity, snapshot: Validity, writes: Writes)
    requires writes != []
    ensures var last := writes[|writes| - 1];
      WholeMapWrites(current, snapshot, writes) == snapshot[last.0 := last.1]
    decreases |writes|
  {
    if |writes| > 1 {
      WholeMapKeepsLast(snapshot[writes[0].0 := writes[0].1], snapshot, writes[1..]);
    }
  }

  lemma {:induction false} EntryWritesLookup(current: Validity, writes: Writes, f: string)
    requires DistinctFolders(writes)
    ensures forall i :: 0 <= i < |writes| && writes[i].0 == f
              ==> f in EntryWrites(current, writes) && EntryWrites(current, writes)[f] == writes[i].1
    ensures (forall i :: 0 <= i < |writes| ==> writes[i].0 != f) ==> SameEntry(EntryWrites(current, writes), current, f)
    decreases |writes|
  {
    if writes != [] {
      var rest := writes[1..];
      assert forall i :: 0 <= i < |rest| ==> rest[i] == writes[i + 1];
      EntryWritesLookup(current[writes[0].0 := writes[0].1], rest, f);
      forall i | 0 <= i < |writes| && writes[i].0 == f
        ensures f in EntryWrites(current, writes) && EntryWrites(current, writes)[f] == writes[i].1
      {
        if i > 0 { assert rest[i - 1] == writes[i]; }
      }
    }
  }

  /** A pass that starts from a current snapshot ends with the right map exactly when every
      folder it selected but the last already had its current value in the snapshot. */
  lemma WholeMapRightExactlyWhen(snapshot: Validity, writes: Writes)
    requires writes != [] && DistinctFolders(writes)
    ensures WholeMapWrites(snapshot, snapshot, writes) == EntryWrites(snapshot, writes)
      <==> forall i :: 0 <= i < |writes| - 1 ==> writes[i].0 in snapshot && snapshot[writes[i].0] == writes[i].1
  {
    var n := |writes| - 1;
    var whole, entry := WholeMapWrites(snapshot, snapshot, writes), EntryWrites(snapshot, writes);
    WholeMapKeepsLast(snapshot, snapshot, writes);
    if whole == entry {
      forall i | 0 <= i < n ensures writes[i].0 in snapshot && snapshot[writes[i].0] == writes[i].1 {
        EntryWritesLookup(snapshot, writes, writes[i].0);
      }
    }
    if forall i :: 0 <= i < n ==> writes[i].0 in snapshot && snapshot[writes[i].0] == writes[i].1 {
      forall f ensures f in whole <==> f in entry
               ensures f in whole && f in entry ==> whole[f] == entry[f]
      {
        EntryWritesLookup(snapshot, writes, f);
        if exists i :: 0 <= i < |writes| && writes[i].0 == f {
          var i :| 0 <= i < |writes| && writes[i].0 == f;
          assert i < n || i == n;
        }
      }
      assert whole.Keys == entry.Keys;
    }
  }

  // ----- when the program, as written, keeps the invariant --------------------------------

  /** The step stores a map for account `a`. */
  predicate WritesMapOf(s: State, l: Label, a: int) {
    l.account == a && l.action.Move? && l.action.step.WriteMap? && a in s.accounts
  }

  /** Such a step does no harm: in the folders that have rows, but for the one it writes, the task's
      snapshot is still what is stored. */
  ghost predicate Covers(s: State, l: Label, a: int)
    requires Enabled(s, l)
  {
    WritesMapOf(s, l, a) ==>
      var task := s.tasks[l.action.t];
      forall e :: e in AccountRows(s.emails, a) && e.folder != task.pc.folder
        ==> SameEntry(task.snapshot, s.accounts[a], e.folder)
  }

  ghost predicate CoversAlong(s: State, ls: seq<Label>, a: int)
    requires Legal(s, ls)
    decreases |ls|
  {
    ls != [] ==> Covers(s, ls[0], a) && CoversAlong(Apply(s, ls[0]), ls[1..], a)
  }

  ghost predicate MatchAlong(s: State, ls: seq<Label>, a: int)
    requires Legal(s, ls)
    decreases |ls|
  {
    && RowsMatch(StoredOf(s, a), AccountRows(s.emails, a))
    && (ls != [] ==> MatchAlong(Apply(s, ls[0]), ls[1..], a))
  }

  /** A map write keeps the rows of the account in the stored generations exactly when it covers
      them; and then the whole invariant. */
  lemma WholeMapStepExactlyWhen(s: State, l: Label, a: int)
    requires !s.perFolderWrite && Enabled(s, l) && WritesMapOf(s, l, a) && GenInv(s, a) && LiveExclusive(s, a)
    ensures RowsMatch(StoredOf(Apply(s, l), a), AccountRows(Apply(s, l).emails, a)) <==> Covers(s, l, a)
    ensures Covers(s, l, a) ==> GenInv(Apply(s, l), a)
  {
    var t, rows, s' := l.action.t, AccountRows(s.emails, a), Apply(s, l);
    var task := s.tasks[t];
    var stored := task.snapshot[task.pc.folder := task.pc.validity];
    assert s'.emails == s.emails && StoredOf(s', a) == Some(stored);
    assert TaskCurrent(StoredOf(s, a), rows, task);
    forall e | e in rows && e.folder != task.pc.folder
      ensures SameEntry(task.snapshot, s.accounts[a], e.folder)
              <==> e.folder in stored && stored[e.folder] == e.generation
    {
      assert e.folder in s.accounts[a] && s.accounts[a][e.folder] == e.generation;
    }
    forall u | Owns(s', a, u) ensures TaskCurrent(StoredOf(s', a), rows, s'.tasks[u]) {
      assert Owns(s, a, u) && u == t;
    }
  }

  function Repaired(s: State): State { s.(perFolderWrite := true) }

  /** Which write is chosen shows in nothing but the stored map of a map write. */
  lemma RepairedAlike(s: State, l: Label, a: int)
    requires Enabled(s, l) && GenInv(s, a) && LiveExclusive(s, a)
    ensures Enabled(Repaired(s), l) && GenInv(Repaired(s), a) && LiveExclusive(Repaired(s), a)
    ensures !WritesMapOf(s, l, l.account) ==> Apply(Repaired(s), l).accounts == Apply(s, l).accounts
    ensures var r := Apply(Repaired(s), l); r.emails == Apply(s, l).emails && r.nextId == Apply(s, l).nextId
                                            && r.tasks == Apply(s, l).tasks
  {
    assert forall t :: Owns(Repaired(s), a, t) <==> Owns(s, a, t);
  }

  lemma GenInvLooksAt(s: State, r: State, a: int)
    requires GenInv(r, a) && r.emails == s.emails && r.nextId == s.nextId
    requires r.tasks == s.tasks && r.accounts == s.accounts
    ensures GenInv(s, a)
  {
    assert forall t :: Owns(s, a, t) <==> Owns(r, a, t);
  }

  lemma StepAsRepaired(s: State, l: Label, a: int)
    requires Enabled(s, l) && GenInv(s, a) && LiveExclusive(s, a) && !WritesMapOf(s, l, a)
    ensures GenInv(Apply(s, l), a)
  {
    if l.account == a {
      RepairedAlike(s, l, a);
      StepKeepsGenerations(Repaired(s), l, a);
      GenInvLooksAt(Apply(s, l), Apply(Repaired(s), l), a);
    } else {
      OtherKeepsGenerations(s, l, a);
    }
  }

  lemma OtherKeepsGenerations(s: State, l: Label, a: int)
    requires Enabled(s, l) && GenInv(s, a) && l.account != a
    ensures GenInv(Apply(s, l), a)
  {
    var s' := Apply(s, l);
    StepKeepsIds(s, l);
    OtherStep(s, l, a);
    forall t | Owns(s', a, t) ensures TaskCurrent(StoredOf(s', a), AccountRows(s'.emails, a), s'.tasks[t]) {
      assert t in TasksOf(s'.tasks, a) && TasksOf(s'.tasks, a)[t] == s'.tasks[t];
      assert t in TasksOf(s.tasks, a);
      assert Owns(s, a, t) && s.tasks[t] == s'.tasks[t];
    }
  }

  lemma StaysAsWritten(s: State, l: Label)
    requires Enabled(s, l)
    ensures Apply(s, l).perFolderWrite == s.perFolderWrite
  {}

  /** Over any run of the program as written without two live tasks of the account: in every state
      all its rows are from the generation stored for their folder, exactly when each of its map
      writes covers the rows of the other folders. */
  lemma {:induction false} GenerationsKeptExactlyWhen(s: State, ls: seq<Label>, a: int)
    requires !s.perFolderWrite && Legal(s, ls) && LiveExclusiveAlong(s, ls, a) && GenInv(s, a)
    ensures MatchAlong(s, ls, a) <==> CoversAlong(s, ls, a)
    decreases |ls|
  {
    if ls != [] {
      var l := ls[0];
      StaysAsWritten(s, l);
      if WritesMapOf(s, l, a) { WholeMapStepExactlyWhen(s, l, a); } else { StepAsRepaired(s, l, a); }
      if Covers(s, l, a) {
        GenerationsKeptExactlyWhen(Apply(s, l), ls[1..], a);
      } else {
        assert !MatchAlong(Apply(s, l), ls[1..], a);
      }
    }
  }

  /** In particular from a fresh start. */
  lemma ReachableAsWritten(s: State, max: nat, ls: seq<Label>, a: int)
    requires Initial(s, max) && !s.perFolderWrite && Legal(s, ls) && LiveExclusiveAlong(s, ls, a)
    ensures MatchAlong(s, ls, a) <==> CoversAlong(s, ls, a)
  {
    assert AccountRows(s.emails, a) == {};
    GenerationsKeptExactlyWhen(s, ls, a);
  }

  // ----- what the whole-map write leads to ----------------------------------------------

  lemma {:induction false} NoSpawnStaysLive(s: State, ls: seq<Label>, a: int)
    requires Legal(s, ls) && LiveExclusive(s, a) && forall l :: l in ls ==> !l.action.Spawn?
    ensures LiveExclusiveAlong(s, ls, a)
    decreases |ls|
  {
    if ls != [] {
      var s' := Apply(s, ls[0]);
      assert forall t :: Owns(s', a, t) ==> Owns(s, a, t) by {
        match ls[0].action
        case Move(t, step) => assert MovedTask(s, s.tasks[t], step).account == ls[0].account;
        case _ =>
      }
      NoSpawnStaysLive(s', ls[1..], a);
    }
  }

  lemma {:induction false} LiveConcat(s: State, l1: seq<Label>, l2: seq<Label>, a: int)
    requires Legal(s, l1) && LiveExclusiveAlong(s, l1, a)
    requires Legal(Exec(s, l1), l2) && LiveExclusiveAlong(Exec(s, l1), l2, a)
    ensures Legal(s, l1 + l2) && Exec(s, l1 + l2) == Exec(Exec(s, l1), l2) && LiveExclusiveAlong(s, l1 + l2, a)
    decreases |l1|
  {
    if l1 == [] {
      assert l1 + l2 == l2;
    } else {
      assert (l1 + l2)[0] == l1[0] && (l1 + l2)[1..] == l1[1..] + l2;
      LiveConcat(Apply(s, l1[0]), l1[1..], l2, a);
    }
  }

  /** Spawning for an account without a live task and getting a permit keeps it exclusive. */
  lemma StartLive(s: State, a: int, t: int)
    requires a in s.accounts && t !in s.tasks && s.permits > 0 && forall u :: !Owns(s, a, u)
    ensures var ls := [Label(a, Spawn(t)), Label(a, Acquire(t))];
      && Legal(s, ls) && LiveExclusiveAlong(s, ls, a)
      && Exec(s, ls) == s.(tasks := s.tasks[t := Task(a, s.accounts[a], {}, Between)], permits := s.permits - 1)
  {
    Start(s, a, t);
    ExecOne(s, Label(a, Spawn(t)));
    var s1 := Apply(s, Label(a, Spawn(t)));
    forall u | Owns(s1, a, u) ensures u == t { assert Owns(s, a, u) || u == t; }
    assert LiveExclusiveAlong(s1, [Label(a, Acquire(t))], a) by {
      ExecOne(s1, Label(a, Acquire(t)));
      NoSpawnStaysLive(s1, [Label(a, Acquire(t))], a);
    }
    assert [Label(a, Spawn(t)), Label(a, Acquire(t))][1..] == [Label(a, Acquire(t))];
  }

  /** Folder `f` is taken up, its only new message stored, and left without grace deletion. */
  lemma StoreOne(s: State, a: int, t: int, f: string, u: int) returns (ls: seq<Label>)
    requires Owns(s, a, t) && s.tasks[t].pc.Between? && f !in s.tasks[t].done && (a, f) in s.servers
    requires f !in s.tasks[t].snapshot && a in s.accounts && !s.perFolderWrite && LiveExclusive(s, a)
    requires Attempted(Rows(s.emails, a, f), s.servers[(a, f)].uids) == {u}
    ensures Legal(s, ls) && LiveExclusiveAlong(s, ls, a)
    ensures var v := s.servers[(a, f)].validity; var task := s.tasks[t];
      Exec(s, ls) == s.(nextId := s.nextId + 7,
        accounts := s.accounts[a := task.snapshot[f := v]],
        emails := s.emails[s.nextId + 5 := Email(a, f, u, None, v)],
        tasks := s.tasks[t := task.(done := task.done + {f})])
  {
    ls := Prelude(s, a, t, f);
    var more := [Label(a, Move(t, Fetch(u, Stored(None))))];
    ExecSnoc(s, ls, more[0]);
    ls := ls + more;
    ExecSnoc(s, ls, Label(a, Move(t, Abort)));
    ls := ls + [Label(a, Move(t, Abort))];
    NoSpawnStaysLive(s, ls, a);
  }

  /** Two mailboxes, one message each. */
  function TwoMailboxes(): State {
    State(false, map[0 := map[]], map[], 0, map[], 1,
          map[(0, "A") := Server({1}, 2, 1), (0, "B") := Server({1}, 2, 1)])
  }

  /** After a first pass over both: the stored map has lost folder A. */
  function AfterFirstPass(): State {
    State(false, map[0 := map["B" := 1]],
          map[5 := Email(0, "A", 1, None, 1), 12 := Email(0, "B", 1, None, 1)], 14, map[], 1,
          map[(0, "A") := Server({5}, 6, 2), (0, "B") := Server({1}, 2, 1)])
  }

  /** In the middle of the first pass, with mailbox A done. */
  function Halfway(): State {
    State(false, map[0 := map["A" := 1]], map[5 := Email(0, "A", 1, None, 1)], 7,
          map[1 := Task(0, map[], {"A"}, Between)], 0, TwoMailboxes().servers)
  }

  lemma FirstHalf() returns (ls: seq<Label>)
    ensures Legal(TwoMailboxes(), ls) && LiveExclusiveAlong(TwoMailboxes(), ls, 0)
    ensures Exec(TwoMailboxes(), ls) == Halfway()
  {
    var s := TwoMailboxes();
    assert Rows(map[], 0, "A") == {} && Attempted({}, {1}) == {1};
    ls := [Label(0, Spawn(1)), Label(0, Acquire(1))];
    StartLive(s, 0, 1);
    var s1 := Exec(s, ls);
    var more := StoreOne(s1, 0, 1, "A", 1);
    LiveConcat(s, ls, more, 0);
    ls := ls + more;
    assert {} + {"A"} == {"A"};
    assert Exec(s, ls).tasks == map[1 := Task(0, map[], {"A"}, Between)];
  }

  lemma SecondHalf() returns (ls: seq<Label>)
    ensures Legal(Halfway(), ls) && LiveExclusiveAlong(Halfway(), ls, 0)
    ensures Exec(Halfway(), ls) == AfterFirstPass()
  {
    var s := Halfway();
    assert Rows(s.emails, 0, "B") == {} && Attempted({}, {1}) == {1};
    ls := StoreOne(s, 0, 1, "B", 1);
    var more := FinishAndReset(Exec(s, ls));
    LiveConcat(s, ls, more, 0);
    ls := ls + more;
  }

  lemma FirstPass() returns (ls: seq<Label>)
    ensures Legal(TwoMailboxes(), ls) && LiveExclusiveAlong(TwoMailboxes(), ls, 0)
    ensures Exec(TwoMailboxes(), ls) == AfterFirstPass()
  {
    ls := FirstHalf();
    var more := SecondHalf();
    LiveConcat(TwoMailboxes(), ls, more, 0);
    ls := ls + more;
  }

  lemma FinishAndReset(s: State) returns (ls: seq<Label>)
    requires Owns(s, 0, 1) && s.tasks[1].pc.Between? && LiveExclusive(s, 0)
    requires (0, "A") in s.servers && s.servers[(0, "A")].validity == 1
    ensures Legal(s, ls) && LiveExclusiveAlong(s, ls, 0)
    ensures Exec(s, ls) == s.(tasks := s.tasks - {1}, permits := s.permits + 1,
                              servers := s.servers[(0, "A") := Server({5}, 6, 2)])
  {
    var reset := Label(0, Reset("A", Server({5}, 6, 2)));
    ls := [Label(0, Finish(1))];
    ExecOne(s, ls[0]);
    ExecSnoc(s, ls, reset);
    ls := ls + [reset];
    NoSpawnStaysLive(s, ls, 0);
  }

  /** The second pass finds no stored value for A, so wipes nothing. */
  lemma SecondPass() returns (ls: seq<Label>)
    ensures Legal(AfterFirstPass(), ls) && LiveExclusiveAlong(AfterFirstPass(), ls, 0)
    ensures var rows := Rows(Exec(AfterFirstPass(), ls).emails, 0, "A");
      Email(0, "A", 1, None, 1) in rows && Email(0, "A", 5, None, 2) in rows
  {
    var s := AfterFirstPass();
    var first := Email(0, "A", 1, None, 1);
    ls := [Label(0, Spawn(2)), Label(0, Acquire(2))];
    StartLive(s, 0, 2);
    assert s.emails[5] == first;
    assert Rows(s.emails, 0, "A") == {first} && Uids({first}) == {1};
    assert Attempted({first}, {5}) == {5};
    var more := StoreOne(Exec(s, ls), 0, 2, "A", 5);
    LiveConcat(s, ls, more, 0);
    ls := ls + more;
    var t := Exec(s, ls).emails;
    assert t[5] == first && t[19] == Email(0, "A", 5, None, 2);
  }

  /** As written, a serial run that syncs two folders forgets the first one's UIDVALIDITY: when
      that mailbox is reset before the next pass, rows of both generations end up side by side. */
  lemma WholeMapMixesGenerations() returns (ls: seq<Label>)
    ensures var s := TwoMailboxes(); Initial(s, 1) && Legal(s, ls) && LiveExclusiveAlong(s, ls, 0)
    ensures var rows := Rows(Exec(TwoMailboxes(), ls).emails, 0, "A");
      Email(0, "A", 1, None, 1) in rows && Email(0, "A", 5, None, 2) in rows
  {
    ls := FirstPass();
    var more := SecondPass();
    LiveConcat(TwoMailboxes(), ls, more, 0);
    ls := ls + more;
  }
}
