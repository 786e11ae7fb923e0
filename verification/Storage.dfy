/** The database tables and the attachment files, every statement the program runs on them, and
    what all interleavings of those statements keep. */
module Storage {
  import opened Common
  import opened EmailTable

  /** A content hash: long enough for the two-character directory prefix. */
  type Hash = h: string | |h| >= 2 witness "00"

  /** An attachment as the mail parser returns it. */
  datatype Info = Info(filename: string, mime: string, data: Bytes, inlined: bool, fileHash: Hash)

  datatype AttachmentRow = AttachmentRow(
    email: int, filename: string, mime: string, size: int, hash: Hash, inlined: bool)

  type Path = seq<string>

  function AttachmentPath(dir: string, h: Hash): Path { [dir, "attachments", h[..2], h] }

  /** Tables by serial id, and the files below `dir`. `saved` is a history variable: the bytes
      each attachment row was saved with. */
  datatype Db = Db(
    dir: string,
    accounts: map<int, Validity>,
    emails: Table, nextEmail: int,
    attachments: map<int, AttachmentRow>, nextAttachment: int,
    tags: map<int, string>, nextTag: int,
    links: set<(int, int)>,
    files: map<Path, Bytes>,
    saved: map<int, Bytes>)

  datatype Stmt =
    | InsertEmail(row: Email)
    | SeeFile(info: Info)
    | WriteFile(info: Info)
    | InsertAttachment(email: int, info: Info)
    | InsertTag(name: string)
    | LinkTag(email: int, tag: int)
    | DeleteFolder(account: int, folder: string)
    | DeleteUid(account: int, folder: string, uid: int)
    | DeleteAccount(account: int)
    | SetValidity(account: int, stored: Validity)
    | CleanUp

  /** Deleting email rows, with ON DELETE CASCADE. */
  function Cascade(db: Db, emails: Table): Db {
    db.(emails := emails,
        attachments := map x | x in db.attachments && db.attachments[x].email in emails :: db.attachments[x],
        links := set l | l in db.links && l.0 in emails)
  }

  function PathOf(db: Db, info: Info): Path { AttachmentPath(db.dir, info.fileHash) }

  function RowFor(email: int, info: Info): AttachmentRow {
    AttachmentRow(email, info.filename, info.mime, |info.data|, info.fileHash, info.inlined)
  }

  /** Hashes of attachment rows whose email is gone. */
  function Orphans(db: Db): set<Hash> {
    set x | x in db.attachments && db.attachments[x].email !in db.emails :: db.attachments[x].hash
  }

  function PathsOf(dir: string, hashes: set<Hash>): set<Path> { set h | h in hashes :: AttachmentPath(dir, h) }

  function OrphanPaths(db: Db): set<Path> { PathsOf(db.dir, Orphans(db)) }

  predicate HasTag(tags: map<int, string>, name: string) { exists t :: t in tags && tags[t] == name }

  /** One atomic statement. One that violates a constraint changes nothing. */
  function Exec(db: Db, stmt: Stmt): Db {
    match stmt
    case InsertEmail(e) =>
      if e.account in db.accounts then db.(emails := db.emails[db.nextEmail := e], nextEmail := db.nextEmail + 1)
      else db
    case SeeFile(_) => db
    case WriteFile(info) => db.(files := db.files[PathOf(db, info) := info.data])
    case InsertAttachment(e, info) =>
      if e in db.emails then
        db.(attachments := db.attachments[db.nextAttachment := RowFor(e, info)],
            saved := db.saved[db.nextAttachment := info.data],
            nextAttachment := db.nextAttachment + 1)
      else db
    case InsertTag(name) =>
      if HasTag(db.tags, name) then db
      else db.(tags := db.tags[db.nextTag := name], nextTag := db.nextTag + 1)
    case LinkTag(e, t) => if e in db.emails && t in db.tags then db.(links := db.links + {(e, t)}) else db
    case DeleteFolder(a, f) => Cascade(db, DropFolder(db.emails, a, f))
    case DeleteUid(a, f, u) => Cascade(db, DropUid(db.emails, a, f, u))
    case DeleteAccount(a) => Cascade(db, DropAccount(db.emails, a)).(accounts := db.accounts - {a})
    case SetValidity(a, m) => if a in db.accounts then db.(accounts := db.accounts[a := m]) else db
    case CleanUp =>
      db.(files := db.files - OrphanPaths(db),
          attachments := map x | x in db.attachments && db.attachments[x].hash !in Orphans(db) :: db.attachments[x])
  }

  // ----- what the database enforces -----------------------------------------------------

  ghost predicate ForeignKeys(db: Db) {
    && (forall id :: id in db.emails ==> db.emails[id].account in db.accounts)
    && (forall x :: x in db.attachments ==> db.attachments[x].email in db.emails)
    && (forall l :: l in db.links ==> l.0 in db.emails && l.1 in db.tags)
  }

  ghost predicate Serials(db: Db) {
    && IdsBelow(db.emails, db.nextEmail)
    && (forall x :: x in db.attachments ==> x < db.nextAttachment)
    && (forall t :: t in db.tags ==> t < db.nextTag)
  }

  ghost predicate UniqueNames(tags: map<int, string>) {
    forall t, u :: t in tags && u in tags && tags[t] == tags[u] ==> t == u
  }

  ghost predicate Integrity(db: Db) { ForeignKeys(db) && Serials(db) && UniqueNames(db.tags) }

  ghost predicate CollisionFree(hash: Bytes -> Hash) { forall x, y :: hash(x) == hash(y) ==> x == y }

  /** Every file's name is the hash of its content. */
  ghost predicate FilesNamed(dir: string, files: map<Path, Bytes>, hash: Bytes -> Hash) {
    forall p :: p in files ==> p == AttachmentPath(dir, hash(files[p]))
  }

  /** The file of attachment `x` exists and holds the bytes that were saved. */
  ghost predicate FileHolds(db: Db, hash: Bytes -> Hash, x: int)
    requires x in db.attachments
  {
    && x in db.saved && hash(db.saved[x]) == db.attachments[x].hash
    && var p := AttachmentPath(db.dir, db.attachments[x].hash);
    p in db.files && db.files[p] == db.saved[x]
  }

  ghost predicate FilesHold(db: Db, hash: Bytes -> Hash) {
    FilesNamed(db.dir, db.files, hash) && forall x :: x in db.attachments ==> FileHolds(db, hash, x)
  }

  lemma PathInjective(dir: string, g: Hash, h: Hash)
    requires AttachmentPath(dir, g) == AttachmentPath(dir, h)
    ensures g == h
  {}

  /** A deletion of email rows takes with them exactly their own attachments and links. */
  lemma CascadeIsLocal(db: Db, emails: Table)
    requires SubTable(emails, db.emails)
    ensures var db' := Cascade(db, emails);
      && (forall x :: x in db.attachments ==>
            (x in db'.attachments <==> db.attachments[x].email in emails)
            && (x in db'.attachments ==> db'.attachments[x] == db.attachments[x]))
      && (forall l :: l in db.links ==> (l in db'.links <==> l.0 in emails))
      && db'.attachments.Keys <= db.attachments.Keys && db'.links <= db.links
      && db'.tags == db.tags && db'.files == db.files && db'.accounts == db.accounts
      && (ForeignKeys(db) ==> ForeignKeys(db'))
  {}

  // ----- what a statement leaves alone --------------------------------------------------

  /** Email `id` is of another account, or in a folder that is not one of `folders`. */
  predicate IsOutside(db: Db, id: int, a: int, folders: set<string>) {
    id in db.emails && (db.emails[id].account != a || db.emails[id].folder !in folders)
  }

  /** Rows outside `folders` stay, no row changes, and new ones have new ids. */
  ghost predicate RowsWhole(db: Db, db': Db, a: int, folders: set<string>) {
    && (forall id :: IsOutside(db, id, a, folders) ==> id in db'.emails)
    && (forall id :: id in db.emails && id in db'.emails ==> db'.emails[id] == db.emails[id])
    && (forall id :: id in db'.emails && id !in db.emails ==> id >= db.nextEmail && !IsOutside(db', id, a, folders))
    && db.nextEmail <= db'.nextEmail && db.nextAttachment <= db'.nextAttachment
  }

  /** Attachment rows stay exactly with their email, unchanged; new ones are for new emails. */
  ghost predicate AttachmentsWhole(db: Db, db': Db) {
    && (forall x :: x in db.attachments ==> (x in db'.attachments <==> db.attachments[x].email in db'.emails))
    && (forall x :: x in db.attachments && x in db'.attachments ==> db'.attachments[x] == db.attachments[x])
    && (forall x :: x in db'.attachments && x !in db.attachments ==>
          x >= db.nextAttachment && db'.attachments[x].email !in db.emails)
  }

  /** Tag links likewise. */
  ghost predicate LinksWhole(db: Db, db': Db) {
    && (forall e, t :: (e, t) in db.links ==> ((e, t) in db'.links <==> e in db'.emails))
    && (forall e, t :: (e, t) in db'.links && (e, t) !in db.links ==> e !in db.emails)
  }

  /** Emails come and go as wholes, in `folders` of account `a` only: what stays keeps its row, its
      attachment rows and its tag links and gets no new ones, and what goes takes them with it. No
      tag and no file is lost. */
  ghost predicate WholeEmails(db: Db, db': Db, a: int, folders: set<string>) {
    && RowsWhole(db, db', a, folders) && AttachmentsWhole(db, db') && LinksWhole(db, db')
    && (forall t :: t in db.tags ==> t in db'.tags && db'.tags[t] == db.tags[t])
    && db.files.Keys <= db'.files.Keys && db'.dir == db.dir
  }

  /** Ids are not used again: what is there before and after was there all the time. */
  lemma NoComeback(db: Db, db1: Db, db2: Db, a: int, folders: set<string>)
    requires Serials(db) && RowsWhole(db, db1, a, folders) && RowsWhole(db1, db2, a, folders)
    ensures forall id :: id in db.emails && id in db2.emails ==> id in db1.emails
    ensures RowsWhole(db, db2, a, folders)
  {}

  lemma AttachmentsOn(db: Db, db1: Db, db2: Db)
    requires Integrity(db) && ForeignKeys(db2) && AttachmentsWhole(db, db1) && AttachmentsWhole(db1, db2)
    requires db.nextAttachment <= db1.nextAttachment
    requires forall id :: id in db.emails && id in db2.emails ==> id in db1.emails
    ensures AttachmentsWhole(db, db2)
  {}

  lemma LinksOn(db: Db, db1: Db, db2: Db)
    requires Integrity(db) && ForeignKeys(db2) && LinksWhole(db, db1) && LinksWhole(db1, db2)
    requires forall id :: id in db.emails && id in db2.emails ==> id in db1.emails
    ensures LinksWhole(db, db2)
  {
    forall e, t | (e, t) in db2.links ensures e in db2.emails { var l := (e, t); assert l in db2.links; }
    forall e, t | (e, t) in db.links ensures e in db.emails { var l := (e, t); assert l in db.links; }
  }

  lemma WholeOn(db: Db, db1: Db, db2: Db, a: int, folders: set<string>)
    requires Integrity(db) && Integrity(db1) && Integrity(db2)
    requires WholeEmails(db, db1, a, folders) && WholeEmails(db1, db2, a, folders)
    ensures WholeEmails(db, db2, a, folders)
  {
    NoComeback(db, db1, db2, a, folders);
    AttachmentsOn(db, db1, db2);
    LinksOn(db, db1, db2);
  }

  lemma WholeWider(db: Db, db': Db, a: int, folders: set<string>, more: set<string>)
    requires WholeEmails(db, db', a, folders) && folders <= more
    ensures WholeEmails(db, db', a, more)
  {}

  lemma WholeNone(db: Db, a: int, folders: set<string>)
    requires ForeignKeys(db)
    ensures WholeEmails(db, db, a, folders)
  {}

  /** Deleting rows of one folder. */
  lemma CascadeWhole(db: Db, emails: Table, a: int, f: string)
    requires ForeignKeys(db) && SubTable(emails, db.emails)
    requires forall id :: id in db.emails && !InFolder(db.emails[id], a, f) ==> id in emails
    ensures WholeEmails(db, Cascade(db, emails), a, {f})
  {}

  predicate OfOther(db: Db, id: int, a: int) { id in db.emails && db.emails[id].account != a }

  /** Account `a` is gone, and with it exactly its own emails and what is theirs. */
  ghost predicate AccountGone(db: Db, db': Db, a: int) {
    && (forall b :: b in db'.accounts <==> b in db.accounts && b != a)
    && (forall b :: b in db'.accounts ==> db'.accounts[b] == db.accounts[b])
    && (forall id :: id in db'.emails <==> OfOther(db, id, a))
    && (forall id :: id in db'.emails ==> db'.emails[id] == db.emails[id])
    && (forall x :: x in db'.attachments <==> x in db.attachments && OfOther(db, db.attachments[x].email, a))
    && (forall x :: x in db'.attachments ==> db'.attachments[x] == db.attachments[x])
    && (forall l :: l in db'.links <==> l in db.links && OfOther(db, l.0, a))
    && db'.files == db.files && db'.saved == db.saved && db'.tags == db.tags && db'.dir == db.dir
    && (db'.nextEmail, db'.nextAttachment, db'.nextTag) == (db.nextEmail, db.nextAttachment, db.nextTag)
  }

  /** Attachment rows cascade with their email, so cleaning up finds nothing. */
  lemma CleanUpIsNoOp(db: Db)
    requires ForeignKeys(db)
    ensures Orphans(db) == {} && Exec(db, CleanUp) == db
  {}

  lemma ExecKeepsForeignKeys(db: Db, stmt: Stmt)
    requires ForeignKeys(db) && !stmt.CleanUp?
    ensures ForeignKeys(Exec(db, stmt))
  {}

  lemma ExecKeepsSerials(db: Db, stmt: Stmt)
    requires Serials(db)
    ensures Serials(Exec(db, stmt))
  {}

  lemma ExecKeepsNames(db: Db, stmt: Stmt)
    requires UniqueNames(db.tags)
    ensures UniqueNames(Exec(db, stmt).tags)
  {}

  lemma ExecKeepsIntegrity(db: Db, stmt: Stmt)
    requires Integrity(db)
    ensures Integrity(Exec(db, stmt))
  {
    if stmt.CleanUp? {
      CleanUpIsNoOp(db);
    } else {
      ExecKeepsForeignKeys(db, stmt);
      ExecKeepsSerials(db, stmt);
      ExecKeepsNames(db, stmt);
    }
  }

  lemma WriteKeepsFiles(db: Db, info: Info, hash: Bytes -> Hash)
    requires FilesHold(db, hash) && CollisionFree(hash) && info.fileHash == hash(info.data)
    ensures FilesHold(Exec(db, WriteFile(info)), hash)
    ensures db.files.Keys <= Exec(db, WriteFile(info)).files.Keys
  {}

  lemma InsertKeepsFiles(db: Db, e: int, info: Info, hash: Bytes -> Hash)
    requires Serials(db) && FilesHold(db, hash) && CollisionFree(hash)
    requires info.fileHash == hash(info.data) && PathOf(db, info) in db.files
    ensures FilesHold(Exec(db, InsertAttachment(e, info)), hash)
  {}

  lemma FewerRowsKeepFiles(db: Db, db': Db, hash: Bytes -> Hash)
    requires FilesHold(db, hash) && db'.files == db.files && db'.saved == db.saved && db'.dir == db.dir
    requires forall x :: x in db'.attachments ==> x in db.attachments && db'.attachments[x] == db.attachments[x]
    ensures FilesHold(db', hash)
  {}

  lemma OthersOnlyDrop(db: Db, stmt: Stmt)
    requires !stmt.WriteFile? && !stmt.InsertAttachment? && !stmt.CleanUp?
    ensures var db' := Exec(db, stmt);
      && db'.files == db.files && db'.saved == db.saved && db'.dir == db.dir
      && forall x :: x in db'.attachments ==> x in db.attachments && db'.attachments[x] == db.attachments[x]
  {}

  lemma ExecKeepsFiles(db: Db, stmt: Stmt, hash: Bytes -> Hash)
    requires Integrity(db) && FilesHold(db, hash) && CollisionFree(hash)
    requires stmt.WriteFile? || stmt.InsertAttachment? ==> stmt.info.fileHash == hash(stmt.info.data)
    requires stmt.InsertAttachment? ==> PathOf(db, stmt.info) in db.files
    ensures FilesHold(Exec(db, stmt), hash) && db.files.Keys <= Exec(db, stmt).files.Keys
    ensures Exec(db, stmt).dir == db.dir
  {
    match stmt
    case WriteFile(info) => WriteKeepsFiles(db, info, hash);
    case InsertAttachment(e, info) => InsertKeepsFiles(db, e, info, hash);
    case CleanUp => CleanUpIsNoOp(db);
    case _ =>
      OthersOnlyDrop(db, stmt);
      FewerRowsKeepFiles(db, Exec(db, stmt), hash);
  }

  // ----- every interleaving -------------------------------------------------------------

  /** A run of statements from any number of tasks. Whoever inserts an attachment row has
      before that written its file or seen it there; `ensured` collects those paths. */
  ghost predicate LegalRun(db: Db, ensured: set<Path>, run: seq<Stmt>, hash: Bytes -> Hash)
    decreases |run|
  {
    run != [] ==>
      var stmt := run[0];
      var step := if stmt.SeeFile? || stmt.WriteFile? then {PathOf(db, stmt.info)} else {};
      && (stmt.SeeFile? ==> PathOf(db, stmt.info) in db.files)
      && (stmt.WriteFile? || stmt.InsertAttachment? ==> stmt.info.fileHash == hash(stmt.info.data))
      && (stmt.InsertAttachment? ==> PathOf(db, stmt.info) in ensured)
      && LegalRun(Exec(db, stmt), ensured + step, run[1..], hash)
  }

  function ExecAll(db: Db, run: seq<Stmt>): Db
    decreases |run|
  {
    if run == [] then db else ExecAll(Exec(db, run[0]), run[1..])
  }

  /** Over every interleaving of saves, grace deletions, wipes, account deletions, taggings and
      cleanups: keys stay referential, tag names unique, and every live attachment has its file
      with the bytes that were saved. */
  lemma {:induction false} EveryInterleaving(db: Db, ensured: set<Path>, run: seq<Stmt>, hash: Bytes -> Hash)
    requires LegalRun(db, ensured, run, hash) && CollisionFree(hash)
    requires Integrity(db) && FilesHold(db, hash) && ensured <= db.files.Keys
    ensures Integrity(ExecAll(db, run)) && FilesHold(ExecAll(db, run), hash)
    ensures Orphans(ExecAll(db, run)) == {}
    decreases |run|
  {
    if run == [] {
      CleanUpIsNoOp(db);
    } else {
      var stmt := run[0];
      ExecKeepsIntegrity(db, stmt);
      ExecKeepsFiles(db, stmt, hash);
      var step := if stmt.SeeFile? || stmt.WriteFile? then {PathOf(db, stmt.info)} else {};
      EveryInterleaving(Exec(db, stmt), ensured + step, run[1..], hash);
    }
  }
}
