/** The sync engine as a state machine. Every step is one atomic statement between two awaits
    of some task, or a step of a mail server or of the web interface. Steps carry all
    nondeterminism: which task moves, what the server or the database answers, and in which
    order a set is iterated. */
module Engine {
  import opened Common
  import opened EmailTable
  import opened FolderPass

  /** A mailbox on an IMAP server (section 2.3.1.1 of RFC 3501). */
  datatype Server = Server(uids: set<int>, next: int, validity: int)

  /** Where a task is inside sync_account. `before` (the folder's rows when MAX was read) and
      `got` (the received date of each UID inserted since) are history variables. */
  datatype Pc =
    | Waiting
    | Between
    | Selected(folder: string, validity: int)
    | Cleared(folder: string, validity: int)
    | Mapped(folder: string, validity: int)
    | Searched(folder: string, validity: int, server: set<int>)
    | Fetching(folder: string, validity: int, server: set<int>, todo: set<int>,
               before: set<Email>, got: map<int, Option<int>>)
    | Deleting(folder: string, validity: int, server: set<int>, todo: set<int>,
               before: set<Email>, got: map<int, Option<int>>, cutoff: Option<int>)

  /** A spawned sync task: the account row it cloned, and the folders it has been through. */
  datatype Task = Task(account: int, snapshot: Validity, done: set<string>, pc: Pc)

  /** `perFolderWrite` selects how the UIDVALIDITY map is stored: false is the program (the whole
      map, from the task's snapshot), true is the repair (only the folder's own entry). */
  datatype State = State(
    perFolderWrite: bool,
    accounts: map<int, Validity>,
    emails: Table,
    nextId: int,
    tasks: map<int, Task>,
    permits: int,
    servers: map<(int, string), Server>)

  /** What came of one UID: a row with that received date, or none (fetch, parse or insert
      failed). Failures after the insert leave the row and are the same step. */
  datatype Outcome = NotStored | Stored(received: Option<int>)

  datatype Step =
    | Select(folder: string)
    | Wipe
    | WriteMap
    | Search
    | ReadMax
    | Fetch(uid: int, outcome: Outcome)
    | Query(cutoff: Option<int>)
    | Delete(uid: int)
    | EndFolder
    | Abort

  /** A tick spawns tasks, a task waits for a permit, moves and finishes; it can also die at any
      await (a panic), which frees its permit. The rest are steps of mail servers and users. */
  datatype Action =
    | Spawn(t: int)
    | Acquire(t: int)
    | Move(t: int, step: Step)
    | Finish(t: int)
    | Crash(t: int)
    | Deliver(folder: string, uid: int)
    | Expunge(folder: string, uid: int)
    | Reset(folder: string, box: Server)
    | DeleteAccount

  /** Every step concerns one account: the task's, the mailbox's or the deleted one. */
  datatype Label = Label(account: int, action: Action)

  // ----- one statement of a task --------------------------------------------------------

  predicate CanMove(s: State, task: Task, step: Step) {
    var pc := task.pc;
    match step
    case Select(f) => pc.Between? && f !in task.done && (task.account, f) in s.servers
    case Wipe => pc.Selected?
    case WriteMap => pc.Cleared?
    case Search => pc.Mapped? && (task.account, pc.folder) in s.servers
    case ReadMax => pc.Searched?
    case Fetch(u, o) => pc.Fetching? && u in pc.todo && (o.Stored? ==> task.account in s.accounts)
    case Query(_) => pc.Fetching? && pc.todo == {}
    case Delete(u) => pc.Deleting? && u in pc.todo
    case EndFolder => pc.Deleting? && pc.todo == {}
    case Abort => !pc.Waiting? && !pc.Between? && (pc.Fetching? ==> pc.todo == {})
  }

  predicate MustWipe(task: Task)
    requires task.pc.Selected?
  {
    task.pc.folder in task.snapshot && task.snapshot[task.pc.folder] != task.pc.validity
  }

  function MovedEmails(s: State, task: Task, step: Step): Table
    requires CanMove(s, task, step)
  {
    var a, pc := task.account, task.pc;
    match step
    case Wipe => if MustWipe(task) then DropFolder(s.emails, a, pc.folder) else s.emails
    case Fetch(u, Stored(r)) => s.emails[s.nextId := Email(a, pc.folder, u, r, pc.validity)]
    case Delete(u) => if u in pc.server then s.emails else DropUid(s.emails, a, pc.folder, u)
    case _ => s.emails
  }

  function MovedAccounts(s: State, task: Task, step: Step): map<int, Validity>
    requires CanMove(s, task, step)
  {
    if step.WriteMap? && task.account in s.accounts then
      var base := if s.perFolderWrite then s.accounts[task.account] else task.snapshot;
      s.accounts[task.account := base[task.pc.folder := task.pc.validity]]
    else s.accounts
  }

  function MovedPc(s: State, task: Task, step: Step): Pc
    requires CanMove(s, task, step)
  {
    var a, pc := task.account, task.pc;
    match step
    case Select(f) => Selected(f, s.servers[(a, f)].validity)
    case Wipe => Cleared(pc.folder, pc.validity)
    case WriteMap => Mapped(pc.folder, pc.validity)
    case Search => Searched(pc.folder, pc.validity, s.servers[(a, pc.folder)].uids)
    case ReadMax =>
      var rows := Rows(s.emails, a, pc.folder);
      Fetching(pc.folder, pc.validity, pc.server, Attempted(rows, pc.server), rows, map[])
    case Fetch(u, o) =>
      Fetching(pc.folder, pc.validity, pc.server, pc.todo - {u}, pc.before,
               if o.Stored? then pc.got[u := o.received] else pc.got)
    case Query(cutoff) =>
      Deleting(pc.folder, pc.validity, pc.server, ExpiredUids(Rows(s.emails, a, pc.folder), cutoff),
               pc.before, pc.got, cutoff)
    case Delete(u) =>
      Deleting(pc.folder, pc.validity, pc.server, pc.todo - {u}, pc.before, pc.got, pc.cutoff)
    case EndFolder => Between
    case Abort => Between
  }

  function MovedTask(s: State, task: Task, step: Step): Task
    requires CanMove(s, task, step)
  {
    task.(pc := MovedPc(s, task, step),
          done := if step.EndFolder? || step.Abort? then task.done + {task.pc.folder} else task.done)
  }

  // ----- the machine --------------------------------------------------------------------

  predicate Owns(s: State, a: int, t: int) { t in s.tasks && s.tasks[t].account == a }

  predicate Enabled(s: State, l: Label) {
    var a := l.account;
    match l.action
    case Spawn(t) => a in s.accounts && t !in s.tasks
    case Acquire(t) => Owns(s, a, t) && s.tasks[t].pc.Waiting? && s.permits > 0
    case Move(t, step) => Owns(s, a, t) && CanMove(s, s.tasks[t], step)
    case Finish(t) => Owns(s, a, t) && s.tasks[t].pc.Between?
    case Crash(t) => Owns(s, a, t) && !s.tasks[t].pc.Waiting?
    case Deliver(f, u) => (a, f) in s.servers && u >= s.servers[(a, f)].next
    case Expunge(f, u) => (a, f) in s.servers
    case Reset(f, n) => (a, f) in s.servers && n.validity > s.servers[(a, f)].validity
                        && forall u :: u in n.uids ==> u < n.next
    case DeleteAccount => a in s.accounts
  }

  function Apply(s: State, l: Label): State
    requires Enabled(s, l)
  {
    var a := l.account;
    match l.action
    case Spawn(t) => s.(tasks := s.tasks[t := Task(a, s.accounts[a], {}, Waiting)])
    case Acquire(t) => s.(tasks := s.tasks[t := s.tasks[t].(pc := Between)], permits := s.permits - 1)
    case Move(t, step) =>
      s.(tasks := s.tasks[t := MovedTask(s, s.tasks[t], step)],
         emails := MovedEmails(s, s.tasks[t], step),
         nextId := s.nextId + 1,
         accounts := MovedAccounts(s, s.tasks[t], step))
    case Finish(t) => s.(tasks := s.tasks - {t}, permits := s.permits + 1)
    case Crash(t) => s.(tasks := s.tasks - {t}, permits := s.permits + 1)
    case Deliver(f, u) =>
      var box := s.servers[(a, f)];
      s.(servers := s.servers[(a, f) := box.(uids := box.uids + {u}, next := u + 1)])
    case Expunge(f, u) =>
      var box := s.servers[(a, f)];
      s.(servers := s.servers[(a, f) := box.(uids := box.uids - {u})])
    case Reset(f, n) => s.(servers := s.servers[(a, f) := n])
    case DeleteAccount => s.(accounts := s.accounts - {a}, emails := DropAccount(s.emails, a))
  }

  /** The steps of `ls` can be taken one after the other from `s`. */
  predicate Legal(s: State, ls: seq<Label>)
    decreases |ls|
  {
    ls != [] ==> Enabled(s, ls[0]) && Legal(Apply(s, ls[0]), ls[1..])
  }

  function Exec(s: State, ls: seq<Label>): State
    requires Legal(s, ls)
    decreases |ls|
  {
    if ls == [] then s else Exec(Apply(s, ls[0]), ls[1..])
  }

  /** A freshly started engine: no row, no task, all permits free. The accounts are those that
      will ever exist; one that is added later is an account not spawned for until then. */
  predicate Initial(s: State, maxParallelism: nat) {
    && s.emails == map[] && s.tasks == map[] && s.permits == maxParallelism
    && (forall a :: a in s.accounts ==> s.accounts[a] == map[])
    && (forall k :: k in s.servers ==> forall u :: u in s.servers[k].uids ==> u < s.servers[k].next)
  }

  /** Tasks holding a permit. */
  function Holders(tasks: map<int, Task>): set<int> { set t | t in tasks && !tasks[t].pc.Waiting? }

  function Running(s: State): set<int> { Holders(s.tasks) }

  /** No two running tasks are for account `a`. */
  ghost predicate Exclusive(s: State, a: int) {
    forall t, u :: t in Running(s) && u in Running(s) && s.tasks[t].account == a && s.tasks[u].account == a
      ==> t == u
  }

  ghost predicate ExclusiveAlong(s: State, ls: seq<Label>, a: int)
    requires Legal(s, ls)
    decreases |ls|
  {
    Exclusive(s, a) && (ls != [] ==> ExclusiveAlong(Apply(s, ls[0]), ls[1..], a))
  }
}
