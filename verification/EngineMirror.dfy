/** While a mailbox keeps its UIDVALIDITY and its account's tasks do not overlap, the archive
    mirrors it: the `UID > MAX` shortcut is the true set difference, in every interleaving with
    deliveries, expunges and other accounts. */
module EngineMirror {
  import opened Common
  import opened EmailTable
  import opened FolderPass
  import opened Engine
  import opened EngineSafety

  /** What this module asks of a step that concerns account `a`: the mailbox is not reset, the
      account not deleted, its task does not die, and a message of the folder fails to be stored only if it is gone. */
  predicate Faithful(s: State, l: Label, a: int, f: string)
    requires Enabled(s, l)
  {
    l.account == a ==>
      match l.action
      case Reset(g, _) => g != f
      case DeleteAccount => false
      case Crash(_) => false
      case Move(t, Fetch(u, NotStored)) =>
        s.tasks[t].pc.folder == f && (a, f) in s.servers ==> u !in s.servers[(a, f)].uids
      case _ => true
  }

  predicate FaithfulAlong(s: State, ls: seq<Label>, a: int, f: string)
    requires Legal(s, ls)
    decreases |ls|
  {
    ls != [] ==> Faithful(s, ls[0], a, f) && FaithfulAlong(Apply(s, ls[0]), ls[1..], a, f)
  }

  // ----- the invariant of one folder ----------------------------------------------------

  ghost predicate Tops(u: int, x: set<int>) { forall y :: y in x ==> y < u }

  /** Every UID of `listed` is archived or above everything archived. */
  ghost predicate Settled(archived: set<int>, listed: set<int>) {
    forall u :: u in listed ==> u in archived || Tops(u, archived)
  }

  predicate BusyOn(pc: Pc, f: string) {
    (pc.Searched? || pc.Fetching? || pc.Deleting?) && pc.folder == f
  }

  /** Messages that arrived after the search are above everything listed or archived. */
  ghost predicate LateTops(rows: set<Email>, server: set<int>, box: Server) {
    && (forall u :: u in server ==> u < box.next)
    && forall u :: u in box.uids - server ==> Tops(u, Uids(rows) + server)
  }

  ghost predicate Phase(pc: Pc, rows: set<Email>, box: Server, a: int)
    requires pc.Searched? || pc.Fetching? || pc.Deleting?
  {
    LateTops(rows, pc.server, box) &&
    match pc
    case Searched(_, _, server) => Settled(Uids(rows), server)
    case Fetching(f, v, server, todo, before, got) =>
      && rows == before + Inserted(a, f, v, got)
      && Attempted(before, server) == server - Uids(before)
      && todo !! got.Keys && todo + got.Keys <= server - Uids(before)
      && (server - Uids(before)) - todo - got.Keys !! box.uids
    case Deleting(f, v, server, todo, before, got, cutoff) =>
      var all := before + Inserted(a, f, v, got);
      && rows == (set e | e in all && !(Expired(e, cutoff) && e.uid !in server && e.uid !in todo))
      && todo <= ExpiredUids(all, cutoff)
      && got.Keys <= server - Uids(before)
      && (server - Uids(before)) - got.Keys !! box.uids
  }

  ghost predicate Good(pc: Pc, rows: set<Email>, box: Server, a: int, f: string) {
    if BusyOn(pc, f) then Phase(pc, rows, box, a) else Settled(Uids(rows), box.uids)
  }

  ghost predicate BoxInv(rows: set<Email>, box: Server) {
    (forall u :: u in box.uids ==> u < box.next) && (forall u :: u in Uids(rows) ==> u < box.next)
  }

  /** Rows of one folder are determined by their UID. */
  ghost predicate ByUid(rows: set<Email>) {
    forall d, e :: d in rows && e in rows && d.uid == e.uid ==> d == e
  }

  // ----- one step of the pass, on the folder alone --------------------------------------

  /** The fast form refines the simple one: with a settled archive the UIDs above MAX are the
      listed UIDs that are not archived. */
  lemma AboveMaxIsDifference(rows: set<Email>, server: set<int>)
    ensures Settled(Uids(rows), server) <==> Attempted(rows, server) == server - Uids(rows)
  {
    var archived := Uids(rows);
    var max := Max(archived);
    if Attempted(rows, server) == server - archived {
      forall u | u in server && u !in archived ensures Tops(u, archived) {
        assert u in Attempted(rows, server);
      }
    }
    if Settled(archived, server) && max.Some? { assert max.value in archived; }
  }

  lemma PhaseEnds(pc: Pc, rows: set<Email>, box: Server, a: int)
    requires pc.Searched? || (pc.Fetching? && pc.todo == {}) || pc.Deleting?
    requires Phase(pc, rows, box, a)
    ensures Settled(Uids(rows), box.uids)
  {
    if !pc.Searched? {
      InsertedUids(a, pc.folder, pc.validity, pc.got);
      UidsUnion(pc.before, Inserted(a, pc.folder, pc.validity, pc.got));
      forall u | u in box.uids && u in pc.server ensures u in Uids(rows) {
        assert u in Uids(pc.before) + pc.got.Keys;
        var e :| e in pc.before + Inserted(a, pc.folder, pc.validity, pc.got) && e.uid == u;
        assert e in rows;
      }
    }
    forall u | u in box.uids && u !in pc.server ensures Tops(u, Uids(rows)) {
      assert u in box.uids - pc.server;
    }
  }

  lemma SearchPhase(f: string, v: int, rows: set<Email>, box: Server, a: int)
    requires Settled(Uids(rows), box.uids) && BoxInv(rows, box)
    ensures Phase(Searched(f, v, box.uids), rows, box, a)
  {}

  lemma ReadMaxPhase(pc: Pc, rows: set<Email>, box: Server, a: int)
    requires pc.Searched? && Phase(pc, rows, box, a)
    ensures Phase(Fetching(pc.folder, pc.validity, pc.server, Attempted(rows, pc.server), rows, map[]), rows, box, a)
  {}

  lemma FetchPhase(pc: Pc, rows: set<Email>, box: Server, a: int, u: int, o: Outcome)
    requires pc.Fetching? && Phase(pc, rows, box, a) && u in pc.todo
    requires o.NotStored? ==> u !in box.uids
    ensures var got' := if o.Stored? then pc.got[u := o.received] else pc.got;
      var rows' := if o.Stored? then rows + {Email(a, pc.folder, u, o.received, pc.validity)} else rows;
      Phase(Fetching(pc.folder, pc.validity, pc.server, pc.todo - {u}, pc.before, got'), rows', box, a)
      && Uids(rows') <= Uids(rows) + {u}
  {
    if o.Stored? {
      var e := Email(a, pc.folder, u, o.received, pc.validity);
      var got' := pc.got[u := o.received];
      assert Inserted(a, pc.folder, pc.validity, got') == Inserted(a, pc.folder, pc.validity, pc.got) + {e} by {
        forall x | x in Inserted(a, pc.folder, pc.validity, pc.got)
          ensures x in Inserted(a, pc.folder, pc.validity, got')
        {
          assert x.uid in pc.got && got'[x.uid] == pc.got[x.uid];
        }
        assert got'[u] == o.received;
      }
      UidsUnion(rows, {e});
      assert Uids({e}) == {u};
    }
  }

  lemma QueryPhase(pc: Pc, rows: set<Email>, box: Server, a: int, cutoff: Option<int>)
    requires pc.Fetching? && pc.todo == {} && Phase(pc, rows, box, a)
    ensures Phase(Deleting(pc.folder, pc.validity, pc.server, ExpiredUids(rows, cutoff), pc.before, pc.got, cutoff),
                  rows, box, a)
  {}

  lemma DeletePhase(pc: Pc, rows: set<Email>, box: Server, a: int, u: int)
    requires pc.Deleting? && Phase(pc, rows, box, a) && u in pc.todo && ByUid(rows)
    ensures var rows' := if u in pc.server then rows else set e | e in rows && e.uid != u;
      Phase(Deleting(pc.folder, pc.validity, pc.server, pc.todo - {u}, pc.before, pc.got, pc.cutoff), rows', box, a)
      && Uids(rows') <= Uids(rows)
  {}

  /** The same, for whichever step the task takes on the folder. */
  lemma MovedGood(s: State, task: Task, step: Step, f: string)
    requires CanMove(s, task, step) && (task.account, f) in s.servers && IdsBelow(s.emails, s.nextId)
    requires var box := s.servers[(task.account, f)]; var rows := Rows(s.emails, task.account, f);
      && Good(task.pc, rows, box, task.account, f) && BoxInv(rows, box) && ByUid(rows)
      && (step.Fetch? && step.outcome.NotStored? && task.pc.folder == f ==> step.uid !in box.uids)
      && (step.Wipe? && task.pc.folder == f ==> !MustWipe(task))
    ensures var box := s.servers[(task.account, f)];
      var rows' := Rows(MovedEmails(s, task, step), task.account, f);
      Good(MovedPc(s, task, step), rows', box, task.account, f) && BoxInv(rows', box)
  {
    var a, pc := task.account, task.pc;
    var box, rows := s.servers[(a, f)], Rows(s.emails, a, f);
    match step
    case Select(g) =>
    case Wipe => DropFolderViews(s.emails, a, pc.folder, a, f);
    case WriteMap =>
    case Search => if pc.folder == f { SearchPhase(f, pc.validity, rows, box, a); }
    case ReadMax => if pc.folder == f { ReadMaxPhase(pc, rows, box, a); }
    case Fetch(u, o) =>
      if o.Stored? { InsertViews(s.emails, s.nextId, Email(a, pc.folder, u, o.received, pc.validity), a, f); }
      if pc.folder == f {
        FetchPhase(pc, rows, box, a, u, o);
      } else {
        assert Rows(MovedEmails(s, task, step), a, f) == rows;
      }
    case Query(cutoff) => if pc.folder == f { QueryPhase(pc, rows, box, a, cutoff); }
    case Delete(u) =>
      DropUidViews(s.emails, a, pc.folder, u, a, f);
      if pc.folder == f {
        DeletePhase(pc, rows, box, a, u);
        assert (set e | e in rows && !HasKey(e, a, f, u)) == (set e | e in rows && e.uid != u);
      } else {
        assert (set e | e in rows && !HasKey(e, a, pc.folder, u)) == rows;
      }
    case EndFolder => if pc.folder == f { PhaseEnds(pc, rows, box, a); }
    case Abort => if BusyOn(pc, f) { PhaseEnds(pc, rows, box, a); }
  }

  // ----- the whole machine --------------------------------------------------------------

  predicate Agrees(stored: Validity, f: string, v: int) { f in stored ==> stored[f] == v }

  predicate TaskKeeps(task: Task, f: string, v: int) {
    && Agrees(task.snapshot, f, v)
    && (!task.pc.Waiting? && !task.pc.Between? && task.pc.folder == f ==> task.pc.validity == v)
  }

  /** Everywhere the folder's UIDVALIDITY is recorded, it is the mailbox's. */
  ghost predicate Constant(s: State, a: int, f: string)
    requires (a, f) in s.servers
  {
    var v := s.servers[(a, f)].validity;
    && (a in s.accounts ==> Agrees(s.accounts[a], f, v))
    && forall t :: Owns(s, a, t) ==> TaskKeeps(s.tasks[t], f, v)
  }

  ghost predicate RunningOf(s: State, a: int, t: int) { Owns(s, a, t) && !s.tasks[t].pc.Waiting? }

  ghost predicate MirrorInv(s: State, a: int, f: string) {
    && (a, f) in s.servers && UniqueInv(s, a) && Constant(s, a, f)
    && var rows, box := Rows(s.emails, a, f), s.servers[(a, f)];
    && BoxInv(rows, box)
    && (forall t :: RunningOf(s, a, t) ==> Good(s.tasks[t].pc, rows, box, a, f))
    && ((forall t :: !RunningOf(s, a, t)) ==> Settled(Uids(rows), box.uids))
  }

  lemma UniqueRows(t: Table, a: int, f: string)
    requires UniqueFor(t, a)
    ensures ByUid(Rows(t, a, f))
  {}

  lemma MoveKeepsConstant(s: State, l: Label, a: int, f: string)
    requires l.action.Move? && Enabled(s, l) && (a, f) in s.servers && Constant(s, a, f)
    ensures Constant(Apply(s, l), a, f)
  {}

  lemma OtherMoveKeepsRows(s: State, task: Task, step: Step, a: int, f: string)
    requires CanMove(s, task, step) && task.account != a && IdsBelow(s.emails, s.nextId)
    ensures Rows(MovedEmails(s, task, step), a, f) == Rows(s.emails, a, f)
  {
    match step
    case Wipe => DropFolderViews(s.emails, task.account, task.pc.folder, a, f);
    case Fetch(u, o) =>
      if o.Stored? {
        InsertViews(s.emails, s.nextId, Email(task.account, task.pc.folder, u, o.received, task.pc.validity), a, f);
      }
    case Delete(u) =>
      DropUidViews(s.emails, task.account, task.pc.folder, u, a, f);
      assert forall e :: e in Rows(s.emails, a, f) ==> !HasKey(e, task.account, task.pc.folder, u);
    case _ =>
  }

  lemma MoveKeepsMirror(s: State, l: Label, a: int, f: string)
    requires l.action.Move? && Enabled(s, l) && Faithful(s, l, a, f) && MirrorInv(s, a, f) && Exclusive(s, a)
    ensures MirrorInv(Apply(s, l), a, f)
  {
    var t, step := l.action.t, l.action.step;
    var task, s' := s.tasks[t], Apply(s, l);
    StepKeepsUnique(s, l, a);
    MoveKeepsConstant(s, l, a, f);
    MovedIsRunning(s, task, step);
    if l.account == a {
      assert RunningOf(s, a, t) && t in Running(s);
      UniqueRows(s.emails, a, f);
      MovedGood(s, task, step, f);
      assert RunningOf(s', a, t);
      forall u | RunningOf(s', a, u) ensures u == t { assert u == t || u in Running(s); }
    } else {
      OtherMoveKeepsRows(s, task, step, a, f);
      assert forall u :: RunningOf(s', a, u) <==> RunningOf(s, a, u);
      assert forall u :: RunningOf(s', a, u) ==> s'.tasks[u] == s.tasks[u];
    }
  }

  lemma ServerMoves(rows: set<Email>, box: Server, box': Server, pc: Pc, a: int, f: string)
    requires BoxInv(rows, box) && box'.validity == box.validity
    requires (exists u :: u >= box.next && box'.uids == box.uids + {u} && box'.next == u + 1)
             || (box'.uids <= box.uids && box'.next == box.next)
    ensures BoxInv(rows, box')
    ensures Settled(Uids(rows), box.uids) ==> Settled(Uids(rows), box'.uids)
    ensures Good(pc, rows, box, a, f) ==> Good(pc, rows, box', a, f)
  {}

  lemma ServerKeepsMirror(s: State, l: Label, a: int, f: string)
    requires (l.action.Deliver? || l.action.Expunge?) && Enabled(s, l) && MirrorInv(s, a, f)
    ensures MirrorInv(Apply(s, l), a, f)
  {
    var s' := Apply(s, l);
    var rows := Rows(s.emails, a, f);
    var box, box' := s.servers[(a, f)], s'.servers[(a, f)];
    if l.account == a && l.action.folder == f {
      if l.action.Deliver? {
        var u := l.action.uid;
        assert u >= box.next && box'.uids == box.uids + {u} && box'.next == u + 1;
      }
      forall pc { ServerMoves(rows, box, box', pc, a, f); }
    } else {
      assert box' == box;
    }
    assert forall u :: RunningOf(s', a, u) <==> RunningOf(s, a, u);
  }

  lemma PermitKeepsMirror(s: State, l: Label, a: int, f: string)
    requires (l.action.Acquire? || l.action.Finish?) && Enabled(s, l) && MirrorInv(s, a, f)
    requires Exclusive(s, a) && Exclusive(Apply(s, l), a)
    ensures MirrorInv(Apply(s, l), a, f)
  {
    var s', t := Apply(s, l), l.action.t;
    if l.account != a {
      assert forall u :: RunningOf(s', a, u) <==> RunningOf(s, a, u);
    } else if l.action.Acquire? {
      assert t in Running(s') && RunningOf(s', a, t);
      forall u ensures !RunningOf(s, a, u) {
        assert RunningOf(s, a, u) ==> u in Running(s');
      }
    } else {
      assert t in Running(s) && RunningOf(s, a, t);
      forall u ensures !RunningOf(s', a, u) {
        assert RunningOf(s', a, u) ==> u in Running(s);
      }
    }
  }

  lemma StepKeepsMirror(s: State, l: Label, a: int, f: string)
    requires Enabled(s, l) && Faithful(s, l, a, f) && MirrorInv(s, a, f)
    requires Exclusive(s, a) && Exclusive(Apply(s, l), a)
    ensures MirrorInv(Apply(s, l), a, f)
  {
    var s' := Apply(s, l);
    StepKeepsUnique(s, l, a);
    match l.action
    case Move(t, step) => MoveKeepsMirror(s, l, a, f);
    case Deliver(_, _) => ServerKeepsMirror(s, l, a, f);
    case Expunge(_, _) => ServerKeepsMirror(s, l, a, f);
    case Spawn(t) =>
      assert forall u :: RunningOf(s', a, u) <==> RunningOf(s, a, u);
    case Acquire(_) => PermitKeepsMirror(s, l, a, f);
    case Finish(_) => PermitKeepsMirror(s, l, a, f);
    case Crash(t) =>
      assert forall u :: RunningOf(s', a, u) <==> RunningOf(s, a, u);
    case Reset(_, _) =>
      assert forall u :: RunningOf(s', a, u) <==> RunningOf(s, a, u);
    case DeleteAccount =>
      DropAccountViews(s.emails, l.account, a, f);
      assert forall u :: RunningOf(s', a, u) <==> RunningOf(s, a, u);
  }

  lemma {:induction false} MirrorAlong(s: State, ls: seq<Label>, a: int, f: string)
    requires Legal(s, ls) && ExclusiveAlong(s, ls, a) && FaithfulAlong(s, ls, a, f) && MirrorInv(s, a, f)
    ensures MirrorInv(Exec(s, ls), a, f)
    decreases |ls|
  {
    if ls != [] {
      StepKeepsMirror(s, ls[0], a, f);
      MirrorAlong(Apply(s, ls[0]), ls[1..], a, f);
    }
  }

  lemma InitialMirror(s: State, max: nat, a: int, f: string)
    requires Initial(s, max) && (a, f) in s.servers
    ensures MirrorInv(s, a, f)
  {}

  // ----- main results -------------------------------------------------------------------

  /** In every such run, when a task has searched the folder, what it will download is exactly
      what is listed and not archived. */
  lemma DownloadsTheDifference(s: State, ls: seq<Label>, max: nat, a: int, f: string, t: int)
    requires Initial(s, max) && (a, f) in s.servers
    requires Legal(s, ls) && ExclusiveAlong(s, ls, a) && FaithfulAlong(s, ls, a, f)
    requires var s' := Exec(s, ls); Owns(s', a, t) && s'.tasks[t].pc.Searched? && s'.tasks[t].pc.folder == f
    ensures var s' := Exec(s, ls); var rows := Rows(s'.emails, a, f);
      Attempted(rows, s'.tasks[t].pc.server) == s'.tasks[t].pc.server - Uids(rows)
  {
    InitialMirror(s, max, a, f);
    MirrorAlong(s, ls, a, f);
    var s' := Exec(s, ls);
    assert RunningOf(s', a, t);
    AboveMaxIsDifference(Rows(s'.emails, a, f), s'.tasks[t].pc.server);
  }

  /** In every such run, when a task has finished a folder the archive holds exactly: the UIDs
      its search listed, less those expunged before they could be fetched, and the earlier rows
      the server no longer lists whose date is NULL or not before the cutoff. The rows are those
      of the atomic pass. */
  lemma PassMirrors(s: State, ls: seq<Label>, max: nat, a: int, f: string, t: int)
    requires Initial(s, max) && (a, f) in s.servers
    requires Legal(s, ls) && ExclusiveAlong(s, ls, a) && FaithfulAlong(s, ls, a, f)
    requires var s' := Exec(s, ls);
      Owns(s', a, t) && s'.tasks[t].pc.Deleting? && s'.tasks[t].pc.todo == {} && s'.tasks[t].pc.folder == f
    ensures var s' := Exec(s, ls); var pc := s'.tasks[t].pc; var rows := Rows(s'.emails, a, f);
      var missed := pc.server - Uids(pc.before) - pc.got.Keys;
      && (a, f) in s'.servers && missed !! s'.servers[(a, f)].uids
      && Uids(rows) == (pc.server - missed) + Protected(pc.before, pc.server, pc.cutoff)
      && rows == AfterPass(pc.before, Inserted(a, f, pc.validity, pc.got), pc.server, pc.cutoff)
  {
    InitialMirror(s, max, a, f);
    MirrorAlong(s, ls, a, f);
    var s' := Exec(s, ls);
    var pc := s'.tasks[t].pc;
    assert RunningOf(s', a, t);
    var added := Inserted(a, f, pc.validity, pc.got);
    InsertedUids(a, f, pc.validity, pc.got);
    assert Rows(s'.emails, a, f) == AfterPass(pc.before, added, pc.server, pc.cutoff);
    UidsAfterPass(pc.before, added, pc.server, pc.cutoff);
  }

  /** With max_parallelism 1 no assumption on the interleaving is left. */
  lemma OnePermitMirrors(s: State, ls: seq<Label>, a: int, f: string, t: int)
    requires Initial(s, 1) && (a, f) in s.servers && Legal(s, ls) && FaithfulAlong(s, ls, a, f)
    requires var s' := Exec(s, ls);
      Owns(s', a, t) && s'.tasks[t].pc.Deleting? && s'.tasks[t].pc.todo == {} && s'.tasks[t].pc.folder == f
    ensures var s' := Exec(s, ls); var pc := s'.tasks[t].pc; var rows := Rows(s'.emails, a, f);
      var missed := pc.server - Uids(pc.before) - pc.got.Keys;
      && (a, f) in s'.servers && missed !! s'.servers[(a, f)].uids
      && Uids(rows) == (pc.server - missed) + Protected(pc.before, pc.server, pc.cutoff)
      && rows == AfterPass(pc.before, Inserted(a, f, pc.validity, pc.got), pc.server, pc.cutoff)
  {
    InitialUnique(s, 1, a);
    OnePermitExcludes(s, ls, a);
    PassMirrors(s, ls, 1, a, f, t);
  }
}
