/** The sync engine's procedures over the database, as the program runs them: loops over sets in
    any order, with every statement allowed to fail. */
module SyncEngine {
  import opened Common
  import opened EmailTable
  import opened FolderPass
  import opened Storage
  import opened Pipeline
  import opened Text
  import G = EngineGenerations
  import M = EngineMirror

  /** What delete_account_handler answers. */
  datatype Removal = Removed | NotFound | InternalError

  datatype Status = Done | Failed | Panicked

  /** What the world answers while one folder is synced. */
  datatype FolderIo = FolderIo(
    select: Option<int>, wipeOk: bool, mapOk: bool, search: Option<set<int>>, maxOk: bool,
    replies: map<int, Reply>, cutoff: Option<int>, queryOk: bool, deleteFailsAt: Option<nat>)

  function ReplyFor(io: FolderIo, u: int): Reply { if u in io.replies then io.replies[u] else NoBody }

  ghost predicate IoOk(io: FolderIo, hash: Bytes -> Hash) {
    forall u :: u in io.replies ==> ReplyOk(io.replies[u], hash)
  }

  /** The received dates of the UIDs of `tried` that get a row. */
  ghost function Got(io: FolderIo, known: bool, tried: set<int>): map<int, Option<int>> {
    map u | u in tried && known && ReplyFor(io, u).Mail? && ReplyFor(io, u).parsed.Some? && ReplyFor(io, u).insertOk
      :: ReplyFor(io, u).parsed.value.received
  }

  function DropUids(t: Table, a: int, f: string, gone: set<int>): Table {
    map id | id in t && !(InFolder(t[id], a, f) && t[id].uid in gone) :: t[id]
  }

  lemma SaveAllUnfolds(db: Db, e: int, infos: seq<Info>, faults: seq<SaveFault>, i: nat)
    requires i < |infos| == |faults|
    ensures SaveAll(db, e, infos[i..], faults[i..])
         == SaveAll(Save(db, e, infos[i], faults[i]), e, infos[i + 1..], faults[i + 1..])
  {}

  /** The tag loop before name `i`, in state `db`, will end in `end`. */
  ghost predicate Tagging(end: Db, db: Db, e: int, names: seq<string>, fault: TagFault, i: nat)
    requires i <= |names|
  {
    (fault.NoTagFault? || i <= fault.index) && TagAll(db, e, names[i..], FaultAfter(fault, i)) == end
  }

  lemma TaggingStarts(db: Db, e: int, names: seq<string>, fault: TagFault)
    ensures Tagging(TagAll(db, e, names, fault), db, e, names, fault, 0)
  {
    assert names[0..] == names;
  }

  lemma TaggingGoesOn(end: Db, db: Db, e: int, names: seq<string>, fault: TagFault, i: nat)
    requires i < |names| && Tagging(end, db, e, names, fault, i)
    ensures fault == TagFails(i) ==> end == db
    ensures fault == LinkFails(i) ==> end == Exec(db, InsertTag(names[i]))
    ensures fault != TagFails(i) && fault != LinkFails(i) ==>
      Tagging(end, TagOne(db, e, names[i]), e, names, fault, i + 1)
  {
    assert names[i..][1..] == names[i + 1..];
    TagAllUnfolds(db, e, names[i..], FaultAfter(fault, i), names[i], names[i + 1..]);
  }

  lemma TagAllUnfolds(db: Db, e: int, names: seq<string>, fault: TagFault, name: string, tail: seq<string>)
    requires names != [] && names[0] == name && names[1..] == tail
    ensures TagAll(db, e, names, fault)
         == if fault == TagFails(0) then db
            else if fault == LinkFails(0) then Exec(db, InsertTag(name))
            else TagAll(TagOne(db, e, name), e, tail, FaultAfter(fault, 1))
  {}

  lemma TaggingEnds(end: Db, db: Db, e: int, names: seq<string>, fault: TagFault)
    requires Tagging(end, db, e, names, fault, |names|)
    ensures end == db && (fault.NoTagFault? || fault.index >= |names|)
  {}

  // ----- deletions ----------------------------------------------------------------------

  lemma CascadeTwice(db: Db, t1: Table, t2: Table)
    requires SubTable(t2, t1)
    ensures Cascade(Cascade(db, t1), t2) == Cascade(db, t2)
  {
    assert Cascade(Cascade(db, t1), t2).attachments == Cascade(db, t2).attachments;
    var one, two := Cascade(db, t2).links, Cascade(Cascade(db, t1), t2).links;
    forall l | l in one ensures l in two {
      var id := l.0;
      assert id in t2;
      assert id in t1;
      assert l in db.links;
      assert l in Cascade(db, t1).links;
    }
    assert forall l :: l in two ==> l in one;
  }

  lemma CascadeNothing(db: Db)
    requires ForeignKeys(db)
    ensures Cascade(db, db.emails) == db
  {
    var db' := Cascade(db, db.emails);
    assert forall x :: x in db.attachments <==> x in db'.attachments;
    assert db'.attachments.Keys == db.attachments.Keys;
    assert forall l :: l in db.links <==> l in db'.links;
  }

  lemma DropUidsStep(t: Table, a: int, f: string, gone: set<int>, u: int)
    ensures DropUid(DropUids(t, a, f, gone), a, f, u) == DropUids(t, a, f, gone + {u})
  {
    var x, y := DropUid(DropUids(t, a, f, gone), a, f, u), DropUids(t, a, f, gone + {u});
    assert forall id :: id in x <==> id in y;
    assert x.Keys == y.Keys;
  }

  lemma DropUidsRows(t: Table, a: int, f: string, gone: set<int>, b: int, g: string)
    ensures Rows(DropUids(t, a, f, gone), b, g)
         == if a == b && f == g then set e | e in Rows(t, a, f) && e.uid !in gone else Rows(t, b, g)
  {
    var t' := DropUids(t, a, f, gone);
    forall x | x in Rows(t, b, g) && !(a == b && f == g && x.uid in gone) ensures x in Rows(t', b, g) {
      var id :| id in t && InFolder(t[id], b, g) && t[id] == x;
      assert t'[id] == x;
    }
  }

  /** With unique keys, dropping an archived UID drops one row. */
  lemma DropOne(t: Table, id: int)
    requires UniqueKeys(t) && id in t
    ensures DropUid(t, t[id].account, t[id].folder, t[id].uid) == t - {id}
    ensures |t - {id}| == |t| - 1
  {
    assert UniqueFor(t, t[id].account);
    forall i | i in t && HasKey(t[i], t[id].account, t[id].folder, t[id].uid) ensures i == id {
      assert SameKey(t[i], t[id]);
    }
    assert DropUid(t, t[id].account, t[id].folder, t[id].uid).Keys == t.Keys - {id};
    assert t == (t - {id})[id := t[id]];
  }

  /** The first `n` UIDs, without those the server lists. */
  function AbsentUids(uids: seq<int>, n: nat, server: set<int>): set<int>
    requires n <= |uids|
  {
    if n == 0 then {} else AbsentUids(uids, n - 1, server) + if uids[n - 1] in server then {} else {uids[n - 1]}
  }

  lemma {:induction false} AbsentUidsAre(uids: seq<int>, n: nat, server: set<int>)
    requires n <= |uids|
    ensures forall v :: v in AbsentUids(uids, n, server) <==> v !in server && exists j :: 0 <= j < n && uids[j] == v
  {
    if n > 0 { AbsentUidsAre(uids, n - 1, server); }
  }

  lemma AbsentQueried(uids: seq<int>, n: nat, server: set<int>, expired: set<int>)
    requires n <= |uids| && forall u :: u in uids <==> u in expired
    ensures AbsentUids(uids, n, server) <= expired - server
    ensures n == |uids| ==> AbsentUids(uids, n, server) == expired - server
  {
    AbsentUidsAre(uids, n, server);
    forall u | u in AbsentUids(uids, n, server) ensures u in expired - server {
      var j :| 0 <= j < n && uids[j] == u;
      assert u in uids;
    }
    if n == |uids| {
      forall u | u in expired - server ensures u in AbsentUids(uids, n, server) { assert u in uids; }
    }
  }

  /** How many of the first `n` UIDs the server does not list: one DELETE each. */
  function CountAbsent(uids: seq<int>, n: nat, server: set<int>): nat
    requires n <= |uids|
  {
    if n == 0 then 0 else CountAbsent(uids, n - 1, server) + if uids[n - 1] in server then 0 else 1
  }

  lemma {:induction false} CountFirst(uids: seq<int>, i: nat, server: set<int>)
    requires i <= |uids|
    ensures CountAbsent(uids, i, server) <= CountAbsent(uids, |uids|, server)
    decreases |uids| - i
  {
    if i < |uids| { CountFirst(uids, i + 1, server); }
  }

  /** The expired rows of the folder that the server does not list. */
  function AbsentIds(t: Table, a: int, f: string, cutoff: Option<int>, server: set<int>): set<int> {
    set id | id in t && InFolder(t[id], a, f) && Expired(t[id], cutoff) && t[id].uid !in server
  }

  /** The ids of those UIDs. */
  function AbsentAmong(uids: seq<int>, ids: seq<int>, n: nat, server: set<int>): set<int>
    requires n <= |ids| == |uids|
  {
    if n == 0 then {}
    else AbsentAmong(uids, ids, n - 1, server) + if uids[n - 1] in server then {} else {ids[n - 1]}
  }

  lemma {:induction false} AbsentAmongIs(uids: seq<int>, ids: seq<int>, n: nat, server: set<int>)
    requires n <= |ids| == |uids|
    ensures forall id :: id in AbsentAmong(uids, ids, n, server) <==>
      exists i :: 0 <= i < n && ids[i] == id && uids[i] !in server
  {
    if n > 0 { AbsentAmongIs(uids, ids, n - 1, server); }
  }

  lemma {:induction false} CountIsCard(uids: seq<int>, ids: seq<int>, n: nat, server: set<int>)
    requires n <= |ids| == |uids| && Distinct(ids)
    ensures |AbsentAmong(uids, ids, n, server)| == CountAbsent(uids, n, server)
  {
    if n > 0 {
      CountIsCard(uids, ids, n - 1, server);
      AbsentAmongIs(uids, ids, n - 1, server);
      assert ids[n - 1] !in AbsentAmong(uids, ids, n - 1, server);
    }
  }

  lemma OtherUid(t: Table, a: int, f: string, i: int, j: int)
    requires UniqueFor(t, a) && i in t && j in t && InFolder(t[i], a, f) && InFolder(t[j], a, f)
    ensures t[i].uid == t[j].uid ==> i == j
  {
    assert t[i].uid == t[j].uid ==> SameKey(t[i], t[j]);
  }

  /** With unique keys there are as many as UIDs. */
  lemma {:induction false} OneEach(t: Table, a: int, f: string, ids: set<int>, uids: set<int>)
    requires UniqueKeys(t) && forall id :: id in ids ==> id in t && InFolder(t[id], a, f)
    requires uids == set id | id in ids :: t[id].uid
    ensures |uids| == |ids|
    decreases ids
  {
    if ids == {} {
      assert uids == {};
    } else {
      var id := Element(ids);
      assert UniqueFor(t, a);
      forall other | other in ids && other != id ensures t[other].uid != t[id].uid {
        OtherUid(t, a, f, id, other);
      }
      assert uids - {t[id].uid} == set other | other in ids - {id} :: t[other].uid;
      OneEach(t, a, f, ids - {id}, uids - {t[id].uid});
    }
  }

  ghost predicate Distinct(xs: seq<int>) { forall i, j :: 0 <= i < j < |xs| ==> xs[i] != xs[j] }

  function WithoutFiles(files: map<Path, Bytes>, dir: string, hashes: seq<Hash>): map<Path, Bytes>
    decreases |hashes|
  {
    if hashes == [] then files
    else WithoutFiles(files - {AttachmentPath(dir, hashes[0])}, dir, hashes[1..])
  }

  lemma {:induction false} WithoutFilesSet(files: map<Path, Bytes>, dir: string, hashes: seq<Hash>, all: set<Hash>)
    requires forall h :: h in hashes <==> h in all
    ensures WithoutFiles(files, dir, hashes) == files - PathsOf(dir, all)
    decreases |hashes|
  {
    if hashes == [] {
      assert PathsOf(dir, all) == {};
    } else {
      var rest := set h | h in hashes[1..];
      WithoutFilesSet(files - {AttachmentPath(dir, hashes[0])}, dir, hashes[1..], rest);
      assert forall h :: h in all <==> h == hashes[0] || h in rest;
      assert PathsOf(dir, all) == PathsOf(dir, rest) + {AttachmentPath(dir, hashes[0])};
    }
  }

  /** `DELETE FROM attachments WHERE file_hash = ANY(hashes)`. */
  function WithoutRows(rows: map<int, AttachmentRow>, hashes: seq<Hash>): map<int, AttachmentRow> {
    map x | x in rows && rows[x].hash !in hashes :: rows[x]
  }

  lemma CleanedUp(db: Db, hashes: seq<Hash>)
    requires forall h :: h in hashes <==> h in Orphans(db)
    ensures Exec(db, CleanUp)
         == db.(files := WithoutFiles(db.files, db.dir, hashes), attachments := WithoutRows(db.attachments, hashes))
  {
    WithoutFilesSet(db.files, db.dir, hashes, Orphans(db));
    assert forall x :: x in Exec(db, CleanUp).attachments <==> x in WithoutRows(db.attachments, hashes);
    assert Exec(db, CleanUp).attachments.Keys == WithoutRows(db.attachments, hashes).Keys;
  }

  lemma RemoveFile(files: map<Path, Bytes>, p: Path)
    ensures |files - {p}| == if p in files then |files| - 1 else |files|
  {}

  /** The loop of cleanup_orphaned_attachments: `cleaned` counts the files that were there. */
  method RemoveFiles(files: map<Path, Bytes>, dir: string, hashes: seq<Hash>)
      returns (left: map<Path, Bytes>, cleaned: nat)
    ensures left == WithoutFiles(files, dir, hashes)
    ensures |left| + cleaned == |files|
  {
    var i := 0;
    left, cleaned := files, 0;
    while i < |hashes|
      invariant 0 <= i <= |hashes|
      invariant WithoutFiles(left, dir, hashes[i..]) == WithoutFiles(files, dir, hashes)
      invariant |left| + cleaned == |files|
    {
      var path := AttachmentPath(dir, hashes[i]);
      assert hashes[i..][0] == hashes[i] && hashes[i..][1..] == hashes[i + 1..];
      RemoveFile(left, path);
      if path in left { cleaned := cleaned + 1; }
      left := left - {path};
      i := i + 1;
    }
  }

  /** The database and the disk, as the pool and the data directory give access to them. */
  class Archive {
    var db: Db

    method Execute(stmt: Stmt)
      modifies this
      ensures db == Exec(old(db), stmt)
    {
      db := Exec(db, stmt);
    }

    // ----- src/storage ------------------------------------------------------------------

    method SaveAttachment(e: int, info: Info, fault: SaveFault) returns (ok: bool)
      modifies this
      ensures db == Save(old(db), e, info, fault)
      ensures ok <==> !FileFails(old(db), info, fault) && !fault.RowFails? && e in old(db).emails
    {
      if PathOf(db, info) !in db.files {
        if fault.DirFails? || fault.WriteFails? { return false; }
        Execute(WriteFile(info));
      }
      if fault.RowFails? { return false; }
      ok := e in db.emails;
      Execute(InsertAttachment(e, info));
    }

    method EnsureTag(name: string) returns (id: int)
      requires Integrity(db)
      modifies this
      ensures db == Exec(old(db), InsertTag(name))
      ensures HasTag(db.tags, name) && id == TagId(db.tags, name)
    {
      InsertedTagExists(db, name);
      if t :| t in db.tags && db.tags[t] == name {
        id := t;
      } else {
        id := db.nextTag;
        Execute(InsertTag(name));
        assert Integrity(db) by { ExecKeepsIntegrity(old(db), InsertTag(name)); }
      }
    }

    method AutoTag(e: int, names: seq<string>, fault: TagFault) returns (ok: bool)
      requires Integrity(db)
      modifies this
      ensures db == TagAll(old(db), e, names, fault)
      ensures ok <==> fault.NoTagFault? || fault.index >= |names|
    {
      ghost var end := TagAll(db, e, names, fault);
      TaggingStarts(db, e, names, fault);
      var i := 0;
      while i < |names|
        invariant 0 <= i <= |names| && Integrity(db) && Tagging(end, db, e, names, fault, i)
      {
        TaggingGoesOn(end, db, e, names, fault, i);
        if fault == TagFails(i) { return false; }
        TagOneKeepsIntegrity(db, e, names[i]);
        var t := EnsureTag(names[i]);
        if fault == LinkFails(i) { return false; }
        Execute(LinkTag(e, t));
        i := i + 1;
      }
      TaggingEnds(end, db, e, names, fault);
      ok := true;
    }

    /** process_and_store_email. */
    method StoreEmail(a: int, f: string, u: int, gen: int, r: Reply, ghost hash: Bytes -> Hash)
        returns (status: Status)
      requires Sound(db, hash) && ReplyOk(r, hash)
      modifies this
      ensures db == StoreMail(old(db), a, f, u, gen, r, hash) && Sound(db, hash)
      ensures status.Panicked? <==> Panics(old(db), a, r)
      ensures status.Done? <==> Stores(old(db), a, r) && r.updateOk && !Panics(old(db), a, r)
    {
      StoreMailSound(db, a, f, u, gen, r, hash);
      if r.NoBody? || r.parsed.None? || !r.insertOk || a !in db.accounts { return Failed; }
      var p, id, row := r.parsed.value, db.nextEmail, NewRow(a, f, u, gen, r);
      ExecSound(db, InsertEmail(row), hash);
      Execute(InsertEmail(row));
      ghost var db1 := db;
      var i := 0;
      while i < |p.attachments|
        invariant 0 <= i <= |p.attachments| && Sound(db, hash)
        invariant SaveAll(db, id, p.attachments[i..], r.saves[i..]) == SaveAll(db1, id, p.attachments, r.saves)
      {
        assert p.attachments[i] in p.attachments;
        SaveAllUnfolds(db, id, p.attachments, r.saves, i);
        SaveSound(db, id, p.attachments[i], r.saves[i], hash);
        var ok := SaveAttachment(id, p.attachments[i], r.saves[i]);
        i := i + 1;
      }
      if !r.updateOk { return Failed; }
      var sender := ExtractAddress(p.sender);
      if sender.None? { return Panicked; }
      var tagged := AutoTag(id, TagNames(f, sender.value, p.attachments != []), r.tagging);
      status := Done;
    }

    /** The hashes of attachment rows without an email, one per row, in any order. */
    method QueryOrphans() returns (hashes: seq<Hash>)
      ensures forall h :: h in hashes <==> h in Orphans(db)
    {
      hashes := [];
      var todo := set x | x in db.attachments && db.attachments[x].email !in db.emails;
      while todo != {}
        invariant forall x :: x in todo ==> x in db.attachments && db.attachments[x].email !in db.emails
        invariant forall h :: h in hashes ==> h in Orphans(db)
        invariant forall x :: x in db.attachments && db.attachments[x].email !in db.emails
                    ==> x in todo || db.attachments[x].hash in hashes
        decreases |todo|
      {
        ghost var _ := Element(todo);
        var x :| x in todo;
        hashes := hashes + [db.attachments[x].hash];
        todo := todo - {x};
      }
    }

    /** cleanup_orphaned_attachments: the files of orphaned rows, then the rows. In every state
        the database allows there are none. */
    method CleanupOrphans() returns (cleaned: nat)
      modifies this
      ensures db == Exec(old(db), CleanUp)
      ensures |db.files| + cleaned == |old(db).files|
      ensures ForeignKeys(old(db)) ==> db == old(db) && cleaned == 0
    {
      if ForeignKeys(db) { CleanUpIsNoOp(db); }
      var hashes := QueryOrphans();
      CleanedUp(db, hashes);
      var files, n := RemoveFiles(db.files, db.dir, hashes);
      cleaned := n;
      db := db.(files := files, attachments := WithoutRows(db.attachments, hashes));
    }

    /** delete_account_handler. */
    method RemoveAccount(a: int, deleteOk: bool) returns (removal: Removal)
      modifies this
      ensures removal.Removed? <==> deleteOk && a in old(db).accounts
      ensures removal.NotFound? <==> deleteOk && a !in old(db).accounts
      ensures if removal.Removed? then AccountGone(old(db), db, a) else db == old(db)
    {
      if !deleteOk { return InternalError; }
      if a !in db.accounts { return NotFound; }
      Execute(DeleteAccount(a));
      removal := Removed;
    }

    // ----- src/imap/sync_engine.rs ------------------------------------------------------

    /** The UIDs of the expired rows, one per row, in any order. */
    method QueryExpired(a: int, f: string, cutoff: Option<int>) returns (uids: seq<int>, ghost ids: seq<int>)
      ensures AreExpired(db.emails, a, f, cutoff, uids, ids)
    {
      uids, ids := [], [];
      var todo := set id | id in db.emails && InFolder(db.emails[id], a, f) && Expired(db.emails[id], cutoff);
      ghost var all := todo;
      while todo != {}
        invariant todo <= all && (forall id :: id in ids <==> id in all - todo)
        invariant |ids| == |uids| && Distinct(ids)
        invariant forall i :: 0 <= i < |ids| ==> ids[i] in db.emails && db.emails[ids[i]].uid == uids[i]
        decreases |todo|
      {
        ghost var _ := Element(todo);
        var id :| id in todo;
        assert forall i :: 0 <= i < |ids| ==> ids[i] in ids;
        todo := todo - {id};
        uids, ids := uids + [db.emails[id].uid], ids + [id];
      }
    }

    /** One DELETE of the grace loop. */
    method DeleteNext(a: int, f: string, ghost start: Db, server: set<int>, uids: seq<int>, i: nat)
      requires i < |uids| && uids[i] !in server
      requires db == Cascade(start, DropUids(start.emails, a, f, AbsentUids(uids, i, server)))
      modifies this
      ensures db == Cascade(start, DropUids(start.emails, a, f, AbsentUids(uids, i + 1, server)))
    {
      ghost var gone := AbsentUids(uids, i, server);
      DropUidsStep(start.emails, a, f, gone, uids[i]);
      CascadeTwice(start, DropUids(start.emails, a, f, gone), DropUids(start.emails, a, f, gone + {uids[i]}));
      Execute(DeleteUid(a, f, uids[i]));
    }

    /** The loop of grace_period_delete over the queried UIDs: it goes through the first `n` of them. */
    method DeleteAbsent(a: int, f: string, server: set<int>, failAt: Option<nat>, uids: seq<int>)
        returns (ok: bool, deleted: nat, ghost n: nat)
      requires ForeignKeys(db)
      modifies this
      ensures n <= |uids| && deleted == CountAbsent(uids, n, server)
      ensures db == Cascade(old(db), DropUids(old(db).emails, a, f, AbsentUids(uids, n, server)))
      ensures ok ==> n == |uids| && (failAt.None? || failAt.value >= deleted)
      ensures !ok ==> n < |uids| && uids[n] !in server && failAt.Some? && failAt.value == deleted
    {
      CascadeNothing(db);
      DropNothing(db.emails, a, f);
      deleted, n := 0, 0;
      var i := 0;
      while i < |uids|
        invariant 0 <= i == n <= |uids| && deleted == CountAbsent(uids, i, server)
        invariant db == Cascade(old(db), DropUids(old(db).emails, a, f, AbsentUids(uids, i, server)))
        invariant failAt.None? || failAt.value >= deleted
      {
        if uids[i] !in server {
          if failAt.Some? && failAt.value == deleted { return false, deleted, n; }
          DeleteNext(a, f, old(db), server, uids, i);
          deleted := deleted + 1;
        }
        i, n := i + 1, n + 1;
      }
      ok := true;
    }

    /** grace_period_delete. Without a failure exactly the rows of this folder go that share their
        UID with an expired row and are absent from the server, with what cascades from them; a
        failing delete stops half-way. With unique keys each deleted row counts once. */
    method GracePeriodDelete(a: int, f: string, server: set<int>, cutoff: Option<int>,
                             queryOk: bool, failAt: Option<nat>)
        returns (ok: bool, deleted: nat, ghost gone: set<int>)
      requires Integrity(db)
      modifies this
      ensures ok <==>
        queryOk && (failAt.None? || failAt.value >= |AbsentIds(old(db).emails, a, f, cutoff, server)|)
      ensures !queryOk ==> gone == {}
      ensures queryOk && !ok ==> deleted == failAt.value
      ensures db == Cascade(old(db), DropUids(old(db).emails, a, f, gone))
      ensures var absent := ExpiredUids(Rows(old(db).emails, a, f), cutoff) - server;
        gone <= absent && (ok ==> gone == absent)
      ensures UniqueKeys(old(db).emails) ==> |db.emails| + deleted == |old(db).emails| && |gone| == deleted
    {
      if !queryOk {
        CascadeNothing(db);
        DropNothing(db.emails, a, f);
        return false, 0, {};
      }
      var uids, ids := QueryExpired(a, f, cutoff);
      ghost var start, n := db, 0;
      ok, deleted, n := DeleteAbsent(a, f, server, failAt, uids);
      gone := AbsentUids(uids, n, server);
      CountFirst(uids, if ok then n else n + 1, server);
      QueriedAre(start.emails, a, f, cutoff, server, uids, ids, n);
    }

    /** One round of the fetch loop. */
    method FetchOne(a: int, f: string, gen: int, u: int, io: FolderIo, ghost start: Db, ghost seen: set<int>,
                    ghost hash: Bytes -> Hash)
        returns (panicked: bool)
      requires Sound(start, hash) && Fetched(start, db, a, f, gen, io, seen, hash) && IoOk(io, hash)
      requires u !in seen && u !in Uids(Rows(db.emails, a, f))
      modifies this
      ensures Fetched(start, db, a, f, gen, io, seen + {u}, hash)
      ensures Uids(Rows(db.emails, a, f)) <= Uids(Rows(old(db).emails, a, f)) + {u}
      ensures panicked <==> Panics(start, a, ReplyFor(io, u))
    {
      FetchedNext(start, db, a, f, gen, io, seen, u, hash);
      var status := StoreEmail(a, f, u, gen, ReplyFor(io, u), hash);
      panicked := status.Panicked?;
    }

    /** The fetch loop of sync_folder: the UIDs of `todo` in any order, each stored or not. A
        panic ends it half-way. */
    method FetchAll(a: int, f: string, gen: int, tried: set<int>, io: FolderIo, ghost hash: Bytes -> Hash)
        returns (panicked: bool, ghost seen: set<int>)
      requires Sound(db, hash) && IoOk(io, hash)
      requires tried !! Uids(Rows(db.emails, a, f))
      modifies this
      ensures seen <= tried && (!panicked ==> seen == tried)
      ensures panicked <==> exists u :: u in seen && Panics(old(db), a, ReplyFor(io, u))
      ensures Fetched(old(db), db, a, f, gen, io, seen, hash)
    {
      ghost var start := db;
      var todo := tried;
      seen, panicked := {}, false;
      FetchedNone(db, a, f, gen, io, hash);
      while todo != {}
        invariant todo <= tried && seen <= tried && todo !! seen && !panicked
        invariant forall u :: u in tried ==> u in todo || u in seen
        invariant todo !! Uids(Rows(db.emails, a, f))
        invariant forall u :: u in seen ==> !Panics(start, a, ReplyFor(io, u))
        invariant Fetched(start, db, a, f, gen, io, seen, hash)
        decreases |todo|
      {
        ghost var _ := Element(todo);
        var u :| u in todo;
        panicked := FetchOne(a, f, gen, u, io, start, seen, hash);
        todo := todo - {u};
        seen := seen + {u};
        if panicked { return; }
      }
      assert forall u :: u in tried ==> u in seen;
    }

    /** The first half of sync_folder: compare the UIDVALIDITY, wipe if it changed, and store the
        whole map from the snapshot. */
    method WipeAndMap(a: int, snapshot: Validity, f: string, server: int, wipeOk: bool, mapOk: bool,
                      ghost hash: Bytes -> Hash)
        returns (written: bool)
      requires Sound(db, hash)
      modifies this
      ensures Kept(old(db), db, a, f, hash)
      ensures written <==> (Changed(snapshot, f, server) ==> wipeOk) && mapOk
      ensures db.accounts == (if written && a in old(db).accounts
        then old(db).accounts[a := snapshot[f := server]] else old(db).accounts)
      ensures Rows(db.emails, a, f)
           == if Changed(snapshot, f, server) && wipeOk then {} else Rows(old(db).emails, a, f)
    {
      KeptNone(db, a, f, hash);
      if f in snapshot && snapshot[f] != server {
        if !wipeOk { return false; }
        WipeSound(db, a, f, hash);
        Execute(DeleteFolder(a, f));
      }
      if !mapOk { return false; }
      MapSound(db, a, f, snapshot[f := server], hash);
      KeptOn(old(db), db, Exec(db, SetValidity(a, snapshot[f := server])), a, f, hash);
      Execute(SetValidity(a, snapshot[f := server]));
      written := true;
    }

    /** The second half: search, fetch what is above MAX, and grace-delete. */
    method FetchAndExpire(a: int, f: string, gen: int, io: FolderIo, ghost hash: Bytes -> Hash)
        returns (status: Status)
      requires Sound(db, hash) && IoOk(io, hash)
      modifies this
      ensures Kept(old(db), db, a, f, hash) && db.accounts == old(db).accounts
      ensures PassLeft(db.emails, UniqueKeys(old(db).emails), a in old(db).accounts, a, f, gen, io,
                       Rows(old(db).emails, a, f), status)
    {
      KeptNone(db, a, f, hash);
      if io.search.None? || !io.maxOk { return Failed; }
      ghost var start := db;
      ghost var rows, known := Rows(db.emails, a, f), a in db.accounts;
      var tried := Above(io.search.value, Max(Uids(Rows(db.emails, a, f))));
      var panicked, seen := FetchAll(a, f, gen, tried, io, hash);
      if panicked {
        PassPanicked(db.emails, UniqueKeys(start.emails), known, a, f, gen, io, rows, seen);
        return Panicked;
      }
      ghost var mid := db;
      var ok, deleted, gone := GracePeriodDelete(a, f, io.search.value, io.cutoff, io.queryOk, io.deleteFailsAt);
      DroppedSound(mid, a, f, gone, hash);
      KeptOn(start, mid, db, a, f, hash);
      PassEnded(mid, db, UniqueKeys(start.emails), known, a, f, gen, io, rows, gone, deleted, ok);
      status := if ok then Done else Failed;
    }

    /** sync_folder, given that no other task works on this folder. When it succeeds it leaves
        the wiped or untouched folder, plus a row for every attempted UID that is stored, less the
        grace-deleted rows; if no key was stored twice before, that is exactly the atomic pass and
        still none is. It succeeds unless a statement fails or a message panics. Emails of every
        other folder stay as they are, with their attachments and tags. */
    method SyncFolder(a: int, snapshot: Validity, f: string, io: FolderIo, ghost hash: Bytes -> Hash)
        returns (status: Status, written: bool)
      requires Sound(db, hash) && IoOk(io, hash)
      modifies this
      ensures Kept(old(db), db, a, f, hash)
      ensures written <==> io.select.Some? && (Changed(snapshot, f, io.select.value) ==> io.wipeOk) && io.mapOk
      ensures db.accounts == (if written && a in old(db).accounts
        then old(db).accounts[a := snapshot[f := io.select.value]] else old(db).accounts)
      ensures io.select.None? ==> db == old(db)
      ensures FolderLeft(Rows(old(db).emails, a, f), db.emails, UniqueKeys(old(db).emails), a in old(db).accounts,
                         a, f, snapshot, io, status)
    {
      KeptNone(db, a, f, hash);
      if io.select.None? { return Failed, false; }
      written := WipeAndMap(a, snapshot, f, io.select.value, io.wipeOk, io.mapOk, hash);
      if !written { return Failed, false; }
      ghost var mid := db;
      status := FetchAndExpire(a, f, io.select.value, io, hash);
      KeptOn(old(db), mid, db, a, f, hash);
      PassLeftUnique(db.emails, UniqueKeys(old(db).emails), UniqueKeys(mid.emails), a in mid.accounts, a, f,
                     io.select.value, io, Rows(mid.emails, a, f), status);
    }

    /** One round of the folder loop. */
    method SyncUnlessExcluded(a: int, snapshot: Validity, f: string, excluded: set<string>, io: FolderIo,
                              ghost hash: Bytes -> Hash)
        returns (status: Status)
      requires Sound(db, hash) && IoOk(io, hash)
      modifies this
      ensures OneKept(old(db), db, a, f, excluded, hash) && Sound(db, hash)
      ensures db.accounts == OneWritten(old(db).accounts, a, snapshot, f, excluded, io)
      ensures OneLeft(old(db).emails, db.emails, UniqueKeys(old(db).emails), a in old(db).accounts, a, snapshot, f,
                      excluded, io, status)
    {
      if Lower(f) in excluded { return Done; }
      var written;
      status, written := SyncFolder(a, snapshot, f, io, hash);
    }

    /** Folder `i` within the loop over the folders. */
    method SyncNext(a: int, snapshot: Validity, folders: seq<string>, excluded: set<string>, ios: seq<FolderIo>,
                    i: nat, ghost start: Db, ghost done: seq<Status>, ghost hash: Bytes -> Hash)
        returns (status: Status)
      requires Sound(start, hash) && i == |done| < |folders| == |ios| && IoOk(ios[i], hash)
      requires AccountKept(start, db, a, folders, excluded, hash)
      requires AccountSynced(start, db, a, snapshot, folders, excluded, ios, done)
      modifies this
      ensures AccountKept(start, db, a, folders, excluded, hash)
      ensures AccountSynced(start, db, a, snapshot, folders, excluded, ios, done + [status])
    {
      ghost var before := db;
      status := SyncUnlessExcluded(a, snapshot, folders[i], excluded, ios[i], hash);
      KeptOne(start, before, db, a, folders[i], folders, excluded, hash);
      SyncedMore(start, before, db, a, snapshot, folders, excluded, ios, done, status);
    }

    /** The folder loop of sync_account: excluded folders are skipped, a folder that fails is
        logged and passed over. The stored map ends as the whole-map writes leave it, only rows of
        synced folders change, and if no folder is listed twice each of them ends as its own pass
        leaves it. */
    method SyncAccount(a: int, snapshot: Validity, folders: seq<string>, excluded: set<string>,
                       ios: seq<FolderIo>, ghost hash: Bytes -> Hash)
        returns (panicked: bool, ghost statuses: seq<Status>)
      requires Sound(db, hash)
      requires |ios| == |folders| && forall i :: 0 <= i < |ios| ==> IoOk(ios[i], hash)
      modifies this
      ensures |statuses| <= |folders| && (!panicked ==> |statuses| == |folders|)
      ensures panicked ==> statuses != []
      ensures forall j :: 0 <= j < |statuses| ==> (statuses[j].Panicked? <==> panicked && j == |statuses| - 1)
      ensures AccountKept(old(db), db, a, folders, excluded, hash)
      ensures AccountSynced(old(db), db, a, snapshot, folders, excluded, ios, statuses)
    {
      ghost var start := db;
      statuses := [];
      var i := 0;
      NothingSynced(db, a, folders, excluded, hash);
      while i < |folders|
        invariant 0 <= i <= |folders| && |statuses| == i
        invariant forall j :: 0 <= j < i ==> !statuses[j].Panicked?
        invariant AccountKept(start, db, a, folders, excluded, hash)
        invariant AccountSynced(start, db, a, snapshot, folders, excluded, ios, statuses)
      {
        var status := SyncNext(a, snapshot, folders, excluded, ios, i, start, statuses, hash);
        statuses := statuses + [status];
        i := i + 1;
        if status.Panicked? { return true, statuses; }
      }
      panicked := false;
    }
  }

  /** What the second half of sync_folder leaves of a folder whose rows were `start`. `known`: the
      account exists; `unique`: no key was stored twice. */
  ghost predicate PassLeft(t: Table, unique: bool, known: bool, a: int, f: string, gen: int, io: FolderIo,
                           start: set<Email>, status: Status)
  {
    if io.search.None? || !io.maxOk then status.Failed? && Rows(t, a, f) == start
    else
      var stored := StoredRows(a, f, gen, io, known, start);
      && (status.Panicked? <==> !NonePanics(io, known, Attempted(start, io.search.value)))
      && (status.Panicked? ==> exists seen :: Interrupted(t, a, f, gen, io, known, start, seen))
      && (status.Done? ==> Completed(t, a, f, gen, io, known, start))
      && (status.Done? && unique ==> Rows(t, a, f) == AfterPass(start, stored, io.search.value, io.cutoff))
      && (status.Failed? ==> exists gone :: HalfExpired(t, a, f, gen, io, known, start, gone))
      && (!status.Panicked? ==>
            GraceStatus(io, unique, ExpiredUids(start + stored, io.cutoff) - io.search.value, status))
  }

  /** When the grace deletion fails; with unique keys there is one DELETE for each absent UID. */
  predicate GraceStatus(io: FolderIo, unique: bool, absent: set<int>, status: Status) {
    && (!io.queryOk ==> status.Failed?)
    && (io.queryOk && io.deleteFailsAt.None? ==> status.Done?)
    && (unique && io.queryOk && io.deleteFailsAt.Some? ==>
          (status.Done? <==> io.deleteFailsAt.value >= |absent|))
  }

  lemma PassPanicked(t: Table, unique: bool, known: bool, a: int, f: string, gen: int, io: FolderIo,
                     start: set<Email>, seen: set<int>)
    requires io.search.Some? && io.maxOk && Interrupted(t, a, f, gen, io, known, start, seen)
    ensures PassLeft(t, unique, known, a, f, gen, io, start, Panicked)
  {}

  /** The grace loop ends a pass whose fetch loop left the rows of `mid`. */
  lemma PassEnded(mid: Db, db: Db, unique: bool, known: bool, a: int, f: string, gen: int, io: FolderIo,
                  start: set<Email>, gone: set<int>, deleted: nat, ok: bool)
    requires io.search.Some? && io.maxOk && NonePanics(io, known, Attempted(start, io.search.value))
    requires Rows(mid.emails, a, f) == start + StoredRows(a, f, gen, io, known, start)
    requires unique ==> UniqueKeys(mid.emails)
    requires db.emails == DropUids(mid.emails, a, f, gone)
    requires var absent := ExpiredUids(Rows(mid.emails, a, f), io.cutoff) - io.search.value;
      gone <= absent && (ok ==> gone == absent)
    requires var n := |AbsentIds(mid.emails, a, f, io.cutoff, io.search.value)|;
      ok <==> io.queryOk && (io.deleteFailsAt.None? || io.deleteFailsAt.value >= n)
    requires !io.queryOk ==> gone == {}
    requires unique ==> |gone| == deleted
    requires io.queryOk && !ok ==> deleted == io.deleteFailsAt.value
    ensures PassLeft(db.emails, unique, known, a, f, gen, io, start, if ok then Done else Failed)
  {
    var server, stored := io.search.value, StoredRows(a, f, gen, io, known, start);
    var absent := ExpiredUids(start + stored, io.cutoff) - server;
    DropUidsRows(mid.emails, a, f, gone, a, f);
    if ok { GraceIsDeleted(mid.emails, a, f, server, io.cutoff); }
    if unique {
      GraceIsAfterPass(mid.emails, a, f, start, stored, server, io.cutoff);
      AbsentByUid(mid.emails, a, f, io.cutoff, server);
    }
    if !ok { assert HalfExpired(db.emails, a, f, gen, io, known, start, gone); }
  }

  lemma AbsentByUid(t: Table, a: int, f: string, cutoff: Option<int>, server: set<int>)
    requires UniqueKeys(t)
    ensures |AbsentIds(t, a, f, cutoff, server)| == |ExpiredUids(Rows(t, a, f), cutoff) - server|
  {
    var ids := AbsentIds(t, a, f, cutoff, server);
    assert ExpiredUids(Rows(t, a, f), cutoff) - server == set id | id in ids :: t[id].uid;
    OneEach(t, a, f, ids, ExpiredUids(Rows(t, a, f), cutoff) - server);
  }

  lemma PassLeftUnique(t: Table, unique: bool, unique1: bool, known: bool, a: int, f: string, gen: int, io: FolderIo,
                       start: set<Email>, status: Status)
    requires PassLeft(t, unique1, known, a, f, gen, io, start, status) && (unique ==> unique1)
    ensures PassLeft(t, unique, known, a, f, gen, io, start, status)
  {}

  /** What sync_folder leaves of a folder whose rows were `before`. */
  ghost predicate FolderLeft(before: set<Email>, t: Table, unique: bool, known: bool,
                             a: int, f: string, snapshot: Validity, io: FolderIo, status: Status)
  {
    if io.select.None? then status.Failed? && Rows(t, a, f) == before
    else
      var gen := io.select.value;
      var start := if Changed(snapshot, f, gen) && io.wipeOk then {} else before;
      if (Changed(snapshot, f, gen) ==> io.wipeOk) && io.mapOk
      then PassLeft(t, unique, known, a, f, gen, io, start, status)
      else status.Failed? && Rows(t, a, f) == start
  }

  /** No statement fails. */
  predicate AllWell(io: FolderIo) {
    && io.select.Some? && io.wipeOk && io.mapOk && io.search.Some? && io.maxOk
    && io.queryOk && io.deleteFailsAt.None?
  }

  /** The folders that are not excluded. */
  function Synced(folders: seq<string>, excluded: set<string>): set<string> {
    set f | f in folders && Lower(f) !in excluded
  }

  /** What the folder loop of sync_account leaves after the first folders: the map as the whole-map
      writes leave it, a status for each folder, and what each pass left of its folder. */
  ghost predicate AccountSynced(
    start: Db, db: Db, a: int, snapshot: Validity, folders: seq<string>, excluded: set<string>,
    ios: seq<FolderIo>, statuses: seq<Status>)
  {
    && |statuses| <= |folders| == |ios|
    && db.accounts == StoredAfter(start.accounts, a, snapshot, MapWrites(snapshot, folders, excluded, ios, |statuses|))
    && Succeeded(folders, excluded, ios, statuses)
    && Passed(start.emails, db.emails, UniqueKeys(start.emails), a in start.accounts,
              a, snapshot, folders, excluded, ios, statuses)
  }

  /** Emails change only as wholes, and in synced folders. */
  ghost predicate AccountKept(start: Db, db: Db, a: int, folders: seq<string>, excluded: set<string>,
                              hash: Bytes -> Hash)
  {
    && Sound(db, hash) && (UniqueKeys(start.emails) ==> UniqueKeys(db.emails))
    && WholeEmails(start, db, a, Synced(folders, excluded))
  }

  lemma NothingSynced(db: Db, a: int, folders: seq<string>, excluded: set<string>, hash: Bytes -> Hash)
    requires Sound(db, hash)
    ensures AccountKept(db, db, a, folders, excluded, hash)
  {
    WholeNone(db, a, Synced(folders, excluded));
  }

  lemma KeptMore(start: Db, before: Db, after: Db, a: int, f: string, folders: seq<string>, excluded: set<string>,
                 hash: Bytes -> Hash)
    requires Sound(start, hash) && AccountKept(start, before, a, folders, excluded, hash)
    requires Kept(before, after, a, f, hash) && f in folders && Lower(f) !in excluded
    ensures AccountKept(start, after, a, folders, excluded, hash)
  {
    assert f in Synced(folders, excluded);
    WholeWider(before, after, a, {f}, Synced(folders, excluded));
    WholeOn(start, before, after, a, Synced(folders, excluded));
  }

  lemma SucceededMore(folders: seq<string>, excluded: set<string>, ios: seq<FolderIo>, statuses: seq<Status>,
                      status: Status)
    requires Succeeded(folders, excluded, ios, statuses) && |statuses| < |folders|
    requires Lower(folders[|statuses|]) in excluded ==> status.Done?
    requires AllWell(ios[|statuses|]) ==> !status.Failed?
    ensures Succeeded(folders, excluded, ios, statuses + [status])
  {}

  /** Excluded folders are done, and no folder fails unless a statement does. */
  ghost predicate Succeeded(folders: seq<string>, excluded: set<string>, ios: seq<FolderIo>, statuses: seq<Status>) {
    && |statuses| <= |folders| == |ios|
    && forall j :: 0 <= j < |statuses| ==>
         (Lower(folders[j]) in excluded ==> statuses[j].Done?) && (AllWell(ios[j]) ==> !statuses[j].Failed?)
  }

  /** One round of the loop: a folder that is not excluded is left as sync_folder leaves it. */
  ghost predicate OneLeft(t: Table, t': Table, unique: bool, known: bool, a: int, snapshot: Validity, f: string,
                          excluded: set<string>, io: FolderIo, status: Status)
  {
    if Lower(f) in excluded then t' == t && status.Done?
    else OthersSame(t, t', a, f) && FolderLeft(Rows(t, a, f), t', unique, known, a, f, snapshot, io, status)
  }

  /** Its emails change as wholes. */
  ghost predicate OneKept(before: Db, after: Db, a: int, f: string, excluded: set<string>, hash: Bytes -> Hash) {
    if Lower(f) in excluded then after == before else Kept(before, after, a, f, hash)
  }

  function OneWritten(accounts: map<int, Validity>, a: int, snapshot: Validity, f: string, excluded: set<string>,
                      io: FolderIo): map<int, Validity>
  {
    if Writes(snapshot, f, excluded, io) && a in accounts then accounts[a := snapshot[f := io.select.value]]
    else accounts
  }

  lemma KeptOne(start: Db, before: Db, after: Db, a: int, f: string, folders: seq<string>, excluded: set<string>,
                hash: Bytes -> Hash)
    requires Sound(start, hash) && AccountKept(start, before, a, folders, excluded, hash) && f in folders
    requires OneKept(before, after, a, f, excluded, hash)
    ensures AccountKept(start, after, a, folders, excluded, hash)
  {
    if Lower(f) !in excluded { KeptMore(start, before, after, a, f, folders, excluded, hash); }
  }

  lemma OneSucceeds(t: Table, t': Table, unique: bool, known: bool, a: int, snapshot: Validity, f: string,
                    excluded: set<string>, io: FolderIo, status: Status)
    requires OneLeft(t, t', unique, known, a, snapshot, f, excluded, io, status)
    ensures (Lower(f) in excluded ==> status.Done?) && (AllWell(io) ==> !status.Failed?)
  {}

  lemma SyncedMore(
    start: Db, before: Db, after: Db, a: int, snapshot: Validity, folders: seq<string>,
    excluded: set<string>, ios: seq<FolderIo>, statuses: seq<Status>, status: Status)
    requires AccountSynced(start, before, a, snapshot, folders, excluded, ios, statuses)
    requires |statuses| < |folders| && (UniqueKeys(start.emails) ==> UniqueKeys(before.emails))
    requires after.accounts
      == OneWritten(before.accounts, a, snapshot, folders[|statuses|], excluded, ios[|statuses|])
    requires OneLeft(before.emails, after.emails, UniqueKeys(before.emails), a in before.accounts, a, snapshot,
                     folders[|statuses|], excluded, ios[|statuses|], status)
    ensures AccountSynced(start, after, a, snapshot, folders, excluded, ios, statuses + [status])
  {
    var n := |statuses|;
    MapWritten(start.accounts, a, snapshot, folders, excluded, ios, n);
    OneSucceeds(before.emails, after.emails, UniqueKeys(before.emails), a in before.accounts, a, snapshot,
                folders[n], excluded, ios[n], status);
    SucceededMore(folders, excluded, ios, statuses, status);
    PassedMore(start.emails, before.emails, after.emails, UniqueKeys(start.emails), UniqueKeys(before.emails),
               a in start.accounts, a, snapshot, folders, excluded, ios, statuses, status);
  }

  ghost predicate NoneTwice(folders: seq<string>) { forall i, j :: 0 <= i < j < |folders| ==> folders[i] != folders[j] }

  /** Each of the first folders was left as its pass leaves it, and the others are still as they were. */
  ghost predicate Passed(t0: Table, t: Table, unique: bool, known: bool, a: int, snapshot: Validity,
                         folders: seq<string>, excluded: set<string>, ios: seq<FolderIo>, statuses: seq<Status>)
  {
    && |statuses| <= |folders| == |ios|
    && (NoneTwice(folders) ==>
         && (forall j :: 0 <= j < |statuses| && Lower(folders[j]) !in excluded ==>
               FolderLeft(Rows(t0, a, folders[j]), t, unique, known, a, folders[j], snapshot, ios[j], statuses[j]))
         && (forall j :: |statuses| <= j < |folders| ==> Rows(t, a, folders[j]) == Rows(t0, a, folders[j])))
  }

  lemma FolderStaysLeft(before: set<Email>, t: Table, t': Table, unique: bool, known: bool,
                        a: int, f: string, snapshot: Validity, io: FolderIo, status: Status)
    requires FolderLeft(before, t, unique, known, a, f, snapshot, io, status) && Rows(t', a, f) == Rows(t, a, f)
    ensures FolderLeft(before, t', unique, known, a, f, snapshot, io, status)
  {
    if io.select.Some? {
      var gen := io.select.value;
      var start := if Changed(snapshot, f, gen) && io.wipeOk then {} else before;
      forall seen | Interrupted(t, a, f, gen, io, known, start, seen)
        ensures Interrupted(t', a, f, gen, io, known, start, seen) {}
      forall gone | HalfExpired(t, a, f, gen, io, known, start, gone)
        ensures HalfExpired(t', a, f, gen, io, known, start, gone) {}
    }
  }

  lemma FolderLeftUnique(before: set<Email>, t: Table, unique: bool, unique1: bool, known: bool,
                         a: int, f: string, snapshot: Validity, io: FolderIo, status: Status)
    requires FolderLeft(before, t, unique1, known, a, f, snapshot, io, status) && (unique ==> unique1)
    ensures FolderLeft(before, t, unique, known, a, f, snapshot, io, status)
  {}

  /** A later pass over another folder leaves folder `j` as it was left. */
  lemma EarlierFolder(t0: Table, t1: Table, t2: Table, unique: bool, known: bool, a: int, snapshot: Validity,
                      folders: seq<string>, excluded: set<string>, ios: seq<FolderIo>, statuses: seq<Status>, j: nat)
    requires Passed(t0, t1, unique, known, a, snapshot, folders, excluded, ios, statuses) && NoneTwice(folders)
    requires j < |statuses| < |folders| && Lower(folders[j]) !in excluded && OthersSame(t1, t2, a, folders[|statuses|])
    ensures FolderLeft(Rows(t0, a, folders[j]), t2, unique, known, a, folders[j], snapshot, ios[j], statuses[j])
  {
    var f := folders[j];
    assert f != folders[|statuses|];
    FolderStaysLeft(Rows(t0, a, f), t1, t2, unique, known, a, f, snapshot, ios[j], statuses[j]);
  }

  lemma PassedMore(
    t0: Table, t1: Table, t2: Table, unique: bool, unique1: bool, known: bool, a: int, snapshot: Validity,
    folders: seq<string>, excluded: set<string>, ios: seq<FolderIo>, statuses: seq<Status>, status: Status)
    requires Passed(t0, t1, unique, known, a, snapshot, folders, excluded, ios, statuses)
    requires |statuses| < |folders| && (unique ==> unique1)
    requires OneLeft(t1, t2, unique1, known, a, snapshot, folders[|statuses|], excluded, ios[|statuses|], status)
    ensures Passed(t0, t2, unique, known, a, snapshot, folders, excluded, ios, statuses + [status])
  {
    var n, all := |statuses|, statuses + [status];
    if NoneTwice(folders) {
      forall j | 0 <= j < |all| && Lower(folders[j]) !in excluded
        ensures FolderLeft(Rows(t0, a, folders[j]), t2, unique, known, a, folders[j], snapshot, ios[j], all[j])
      {
        if j < n {
          if t2 != t1 { EarlierFolder(t0, t1, t2, unique, known, a, snapshot, folders, excluded, ios, statuses, j); }
        } else {
          FolderLeftUnique(
            Rows(t1, a, folders[n]), t2, unique, unique1, known, a, folders[n], snapshot, ios[n], status);
        }
      }
      forall j | n < j < |folders| ensures Rows(t2, a, folders[j]) == Rows(t0, a, folders[j]) {
        assert folders[j] != folders[n];
      }
    }
  }

  /** Folder `i` is not excluded, and its map write is reached and succeeds. */
  predicate Writes(snapshot: Validity, f: string, excluded: set<string>, io: FolderIo) {
    Lower(f) !in excluded && io.select.Some? && (Changed(snapshot, f, io.select.value) ==> io.wipeOk) && io.mapOk
  }

  /** The map writes of a pass over the first `n` folders. */
  function MapWrites(
    snapshot: Validity, folders: seq<string>, excluded: set<string>, ios: seq<FolderIo>, n: nat): G.Writes
    requires n <= |ios| == |folders|
  {
    if n == 0 then []
    else if Writes(snapshot, folders[n - 1], excluded, ios[n - 1]) then
      MapWrites(snapshot, folders, excluded, ios, n - 1) + [(folders[n - 1], ios[n - 1].select.value)]
    else MapWrites(snapshot, folders, excluded, ios, n - 1)
  }

  /** The uid_validity columns after those writes. */
  function StoredAfter(accounts: map<int, Validity>, a: int, snapshot: Validity, writes: G.Writes): map<int, Validity> {
    if a in accounts then accounts[a := G.WholeMapWrites(accounts[a], snapshot, writes)] else accounts
  }

  lemma MapWritten(accounts: map<int, Validity>, a: int, snapshot: Validity, folders: seq<string>,
                   excluded: set<string>, ios: seq<FolderIo>, i: nat)
    requires i < |ios| == |folders|
    ensures var f, io := folders[i], ios[i];
      var now := StoredAfter(accounts, a, snapshot, MapWrites(snapshot, folders, excluded, ios, i));
      StoredAfter(accounts, a, snapshot, MapWrites(snapshot, folders, excluded, ios, i + 1))
        == OneWritten(now, a, snapshot, f, excluded, io)
  {
    var f, io := folders[i], ios[i];
    if a in accounts && Writes(snapshot, f, excluded, io) {
      G.WholeMapSnoc(accounts[a], snapshot, MapWrites(snapshot, folders, excluded, ios, i), (f, io.select.value));
    }
  }

  predicate Changed(snapshot: Validity, f: string, server: int) { f in snapshot && snapshot[f] != server }

  /** The rows stored for the UIDs the pass attempts from `start`. */
  ghost function StoredRows(a: int, f: string, gen: int, io: FolderIo, known: bool, start: set<Email>): set<Email>
    requires io.search.Some?
  {
    Inserted(a, f, gen, Got(io, known, Attempted(start, io.search.value)))
  }

  ghost predicate NonePanics(io: FolderIo, known: bool, uids: set<int>) {
    forall u :: u in uids ==> !MailPanics(ReplyFor(io, u), known)
  }

  /** The pass from `start` went through. */
  ghost predicate Completed(t: Table, a: int, f: string, gen: int, io: FolderIo, known: bool, start: set<Email>) {
    && io.search.Some? && NonePanics(io, known, Attempted(start, io.search.value))
    && Rows(t, a, f) == GraceDeleted(start + StoredRows(a, f, gen, io, known, start), io.search.value, io.cutoff)
  }

  /** A failing delete stopped the grace loop after the UIDs of `gone`. */
  ghost predicate HalfExpired(t: Table, a: int, f: string, gen: int, io: FolderIo, known: bool,
                              start: set<Email>, gone: set<int>)
  {
    && io.search.Some? && NonePanics(io, known, Attempted(start, io.search.value))
    && var all := start + StoredRows(a, f, gen, io, known, start);
    && gone <= ExpiredUids(all, io.cutoff) - io.search.value && (!io.queryOk ==> gone == {})
    && Rows(t, a, f) == set e | e in all && e.uid !in gone
  }

  /** A panic stopped the fetch loop after the UIDs of `seen`, one of which panicked. */
  ghost predicate Interrupted(t: Table, a: int, f: string, gen: int, io: FolderIo, known: bool,
                              start: set<Email>, seen: set<int>)
  {
    && io.search.Some? && seen <= Attempted(start, io.search.value)
    && (exists u :: u in seen && MailPanics(ReplyFor(io, u), known))
    && Rows(t, a, f) == start + Inserted(a, f, gen, Got(io, known, seen))
  }

  lemma WipeSound(db: Db, a: int, f: string, hash: Bytes -> Hash)
    requires Sound(db, hash)
    ensures var db' := Exec(db, DeleteFolder(a, f));
      && Kept(db, db', a, f, hash)
      && Rows(db'.emails, a, f) == {} && db'.accounts == db.accounts
  {
    ExecSound(db, DeleteFolder(a, f), hash);
    CascadeWhole(db, DropFolder(db.emails, a, f), a, f);
    WipedRows(db.emails, a, f);
  }

  lemma MapSound(db: Db, a: int, f: string, m: Validity, hash: Bytes -> Hash)
    requires Sound(db, hash)
    ensures var db' := Exec(db, SetValidity(a, m));
      && Kept(db, db', a, f, hash) && db'.emails == db.emails
      && db'.accounts == if a in db.accounts then db.accounts[a := m] else db.accounts
  {
    ExecSound(db, SetValidity(a, m), hash);
    WholeBut(db, Exec(db, SetValidity(a, m)).accounts, a, f);
  }

  lemma WholeBut(db: Db, accounts: map<int, Validity>, a: int, f: string)
    requires ForeignKeys(db)
    ensures WholeEmails(db, db.(accounts := accounts), a, {f})
  {
    WholeNone(db, a, {f});
  }

  lemma WipedRows(t: Table, a: int, f: string)
    ensures var t' := DropFolder(t, a, f); OthersSame(t, t', a, f) && Rows(t', a, f) == {}
    ensures UniqueKeys(t) ==> UniqueKeys(DropFolder(t, a, f))
  {
    FewerUnique(t, DropFolder(t, a, f));
    forall b, g { DropFolderViews(t, a, f, b, g); }
  }

  lemma FewerUnique(t: Table, t': Table)
    requires SubTable(t', t)
    ensures UniqueKeys(t) ==> UniqueKeys(t')
  {
    if UniqueKeys(t) {
      forall b ensures UniqueFor(t', b) { assert UniqueFor(t, b); SubTableUnique(t, t', b); }
    }
  }

  /** What each part of a pass over a folder keeps, whatever fails. */
  ghost predicate Kept(start: Db, db: Db, a: int, f: string, hash: Bytes -> Hash) {
    && Sound(db, hash) && (UniqueKeys(start.emails) ==> UniqueKeys(db.emails))
    && OthersSame(start.emails, db.emails, a, f) && WholeEmails(start, db, a, {f})
  }

  lemma KeptNone(db: Db, a: int, f: string, hash: Bytes -> Hash)
    requires Sound(db, hash)
    ensures Kept(db, db, a, f, hash)
  {
    WholeNone(db, a, {f});
  }

  lemma KeptOn(db: Db, db1: Db, db2: Db, a: int, f: string, hash: Bytes -> Hash)
    requires Sound(db, hash) && Kept(db, db1, a, f, hash) && Kept(db1, db2, a, f, hash)
    ensures Kept(db, db2, a, f, hash)
  {
    WholeOn(db, db1, db2, a, {f});
  }

  /** The state of the fetch loop once the UIDs of `seen` have been tried. */
  ghost predicate Fetched(start: Db, db: Db, a: int, f: string, gen: int, io: FolderIo, seen: set<int>,
                          hash: Bytes -> Hash)
  {
    && Kept(start, db, a, f, hash) && db.accounts == start.accounts
    && Rows(db.emails, a, f)
       == Rows(start.emails, a, f) + Inserted(a, f, gen, Got(io, a in start.accounts, seen))
  }

  lemma FetchedNone(db: Db, a: int, f: string, gen: int, io: FolderIo, hash: Bytes -> Hash)
    requires Sound(db, hash)
    ensures Fetched(db, db, a, f, gen, io, {}, hash)
  {
    KeptNone(db, a, f, hash);
  }

  lemma InsertedOne(a: int, f: string, gen: int, got: map<int, Option<int>>, u: int, received: Option<int>)
    requires u !in got
    ensures Inserted(a, f, gen, got[u := received]) == Inserted(a, f, gen, got) + {Email(a, f, u, received, gen)}
  {
    var got' := got[u := received];
    assert forall v :: v in got ==> got'[v] == got[v];
    assert got'[u] == received;
    forall e | e in Inserted(a, f, gen, got) ensures e in Inserted(a, f, gen, got') {
      var v :| v in got && e == Email(a, f, v, got[v], gen);
      assert e == Email(a, f, v, got'[v], gen);
    }
  }

  lemma InsertedRow(t: Table, next: int, e: Email)
    requires IdsBelow(t, next) && e.uid !in Uids(Rows(t, e.account, e.folder))
    ensures var t' := t[next := e];
      && (UniqueKeys(t) ==> UniqueKeys(t')) && OthersSame(t, t', e.account, e.folder)
      && Rows(t', e.account, e.folder) == Rows(t, e.account, e.folder) + {e}
  {
    var t' := t[next := e];
    if UniqueKeys(t) {
      forall b ensures UniqueFor(t', b) {
        assert UniqueFor(t, b);
        InsertUnique(t, next, e, b);
      }
    }
    forall b, g { InsertViews(t, next, e, b, g); }
  }

  lemma FetchedNext(start: Db, db: Db, a: int, f: string, gen: int, io: FolderIo, seen: set<int>, u: int,
                    hash: Bytes -> Hash)
    requires Sound(start, hash) && Fetched(start, db, a, f, gen, io, seen, hash) && IoOk(io, hash)
    requires u !in seen && u !in Uids(Rows(db.emails, a, f))
    ensures var db' := StoreMail(db, a, f, u, gen, ReplyFor(io, u), hash);
      && Fetched(start, db', a, f, gen, io, seen + {u}, hash)
      && Uids(Rows(db'.emails, a, f)) <= Uids(Rows(db.emails, a, f)) + {u}
    ensures Panics(db, a, ReplyFor(io, u)) <==> Panics(start, a, ReplyFor(io, u))
  {
    var r, known := ReplyFor(io, u), a in start.accounts;
    var db', got := StoreMail(db, a, f, u, gen, r, hash), Got(io, known, seen);
    MailKept(db, a, f, u, gen, r, hash);
    KeptOn(start, db, db', a, f, hash);
    GotOne(io, known, seen, u);
    if Stores(db, a, r) { InsertedOne(a, f, gen, got, u, NewRow(a, f, u, gen, r).received); }
  }

  lemma MailKept(db: Db, a: int, f: string, u: int, gen: int, r: Reply, hash: Bytes -> Hash)
    requires Sound(db, hash) && ReplyOk(r, hash) && u !in Uids(Rows(db.emails, a, f))
    ensures var db' := StoreMail(db, a, f, u, gen, r, hash);
      && Kept(db, db', a, f, hash) && db'.accounts == db.accounts
      && Rows(db'.emails, a, f)
         == Rows(db.emails, a, f) + (if Stores(db, a, r) then {NewRow(a, f, u, gen, r)} else {})
      && Uids(Rows(db'.emails, a, f)) <= Uids(Rows(db.emails, a, f)) + {u}
  {
    StoreMailSound(db, a, f, u, gen, r, hash);
    if Stores(db, a, r) {
      var e := NewRow(a, f, u, gen, r);
      InsertedRow(db.emails, db.nextEmail, e);
      UidsUnion(Rows(db.emails, a, f), {e});
    }
  }

  lemma GotOne(io: FolderIo, known: bool, seen: set<int>, u: int)
    ensures var r, got := ReplyFor(io, u), Got(io, known, seen);
      Got(io, known, seen + {u}) ==
        (if known && r.Mail? && r.parsed.Some? && r.insertOk then got[u := r.parsed.value.received] else got)
  {}

  lemma DroppedSound(db: Db, a: int, f: string, gone: set<int>, hash: Bytes -> Hash)
    requires Sound(db, hash)
    ensures var t := DropUids(db.emails, a, f, gone); var db' := Cascade(db, t);
      && Kept(db, db', a, f, hash) && db'.accounts == db.accounts
      && Rows(t, a, f) == set e | e in Rows(db.emails, a, f) && e.uid !in gone
  {
    var t := DropUids(db.emails, a, f, gone);
    CascadeWhole(db, t, a, f);
    FewerRowsKeepFiles(db, Cascade(db, t), hash);
    FewerUnique(db.emails, t);
    forall b, g { DropUidsRows(db.emails, a, f, gone, b, g); }
  }

  lemma GraceIsDeleted(t: Table, a: int, f: string, server: set<int>, cutoff: Option<int>)
    ensures var rows := Rows(t, a, f);
      Rows(DropUids(t, a, f, ExpiredUids(rows, cutoff) - server), a, f) == GraceDeleted(rows, server, cutoff)
  {
    DropUidsRows(t, a, f, ExpiredUids(Rows(t, a, f), cutoff) - server, a, f);
  }

  /** With unique keys the grace loop computes the atomic pass. */
  lemma GraceIsAfterPass(t: Table, a: int, f: string, start: set<Email>, stored: set<Email>,
                         server: set<int>, cutoff: Option<int>)
    requires UniqueKeys(t) && Rows(t, a, f) == start + stored
    ensures GraceDeleted(start + stored, server, cutoff) == AfterPass(start, stored, server, cutoff)
  {
    assert UniqueFor(t, a);
    M.UniqueRows(t, a, f);
    GraceExactlyWhen(Rows(t, a, f), server, cutoff);
  }

  lemma DropNothing(t: Table, a: int, f: string)
    ensures DropUids(t, a, f, {}) == t
  {}

  ghost predicate ArchivedAs(t: Table, a: int, f: string, id: int, u: int) {
    id in t && InFolder(t[id], a, f) && t[id].uid == u
  }

  /** `ids` are the expired rows of the folder, each once, and `uids` their UIDs. */
  ghost predicate AreExpired(t: Table, a: int, f: string, cutoff: Option<int>, uids: seq<int>, ids: seq<int>) {
    && |ids| == |uids| && Distinct(ids)
    && (forall id :: id in ids <==> id in t && InFolder(t[id], a, f) && Expired(t[id], cutoff))
    && (forall i :: 0 <= i < |ids| ==> ArchivedAs(t, a, f, ids[i], uids[i]))
  }

  lemma ExpiredQueried(t: Table, a: int, f: string, cutoff: Option<int>, uids: seq<int>, ids: seq<int>)
    requires AreExpired(t, a, f, cutoff, uids, ids)
    ensures forall u :: u in uids <==> u in ExpiredUids(Rows(t, a, f), cutoff)
  {}

  lemma AbsentCounted(t: Table, a: int, f: string, cutoff: Option<int>, server: set<int>, uids: seq<int>, ids: seq<int>)
    requires AreExpired(t, a, f, cutoff, uids, ids)
    ensures CountAbsent(uids, |uids|, server) == |AbsentIds(t, a, f, cutoff, server)|
  {
    AbsentAmongIs(uids, ids, |ids|, server);
    var among, absent := AbsentAmong(uids, ids, |ids|, server), AbsentIds(t, a, f, cutoff, server);
    forall id | id in among ensures id in absent {
      var i :| 0 <= i < |ids| && ids[i] == id && uids[i] !in server;
      assert ids[i] in ids && ArchivedAs(t, a, f, ids[i], uids[i]);
    }
    forall id | id in absent ensures id in among {
      assert id in ids;
      var i :| 0 <= i < |ids| && ids[i] == id;
      assert ArchivedAs(t, a, f, ids[i], uids[i]);
    }
    assert among == absent;
    CountIsCard(uids, ids, |ids|, server);
  }

  /** What going through the first `n` of the queried UIDs means for the rows. */
  lemma QueriedAre(t: Table, a: int, f: string, cutoff: Option<int>, server: set<int>, uids: seq<int>, ids: seq<int>,
                   n: nat)
    requires AreExpired(t, a, f, cutoff, uids, ids) && n <= |uids|
    ensures CountAbsent(uids, |uids|, server) == |AbsentIds(t, a, f, cutoff, server)|
    ensures var gone, absent := AbsentUids(uids, n, server), ExpiredUids(Rows(t, a, f), cutoff) - server;
      && gone <= absent && (n == |uids| ==> gone == absent)
      && (UniqueKeys(t) ==> |gone| == CountAbsent(uids, n, server)
                            && |DropUids(t, a, f, gone)| + CountAbsent(uids, n, server) == |t|)
  {
    ExpiredQueried(t, a, f, cutoff, uids, ids);
    AbsentCounted(t, a, f, cutoff, server, uids, ids);
    AbsentQueried(uids, n, server, ExpiredUids(Rows(t, a, f), cutoff));
    if UniqueKeys(t) { UniqueDeletes(t, a, f, uids, ids, n, server); }
  }

  /** With unique keys each DELETE takes one row. */
  lemma {:induction false} UniqueDeletes(t: Table, a: int, f: string, uids: seq<int>, ids: seq<int>, n: nat,
                                         server: set<int>)
    requires UniqueKeys(t) && n <= |ids| == |uids| && Distinct(ids)
    requires forall j :: 0 <= j < |ids| ==> ArchivedAs(t, a, f, ids[j], uids[j])
    ensures var gone, count := AbsentUids(uids, n, server), CountAbsent(uids, n, server);
      |gone| == count && |DropUids(t, a, f, gone)| + count == |t|
  {
    if n == 0 {
      DropNothing(t, a, f);
    } else {
      UniqueDeletes(t, a, f, uids, ids, n - 1, server);
      if uids[n - 1] !in server { DropNext(t, a, f, uids, ids, n - 1, server); }
    }
  }

  /** The next delete of the loop removes one more row. */
  lemma DropNext(t: Table, a: int, f: string, uids: seq<int>, ids: seq<int>, i: nat, server: set<int>)
    requires UniqueKeys(t) && |ids| == |uids| && Distinct(ids) && i < |ids|
    requires forall j :: 0 <= j < |ids| ==> ArchivedAs(t, a, f, ids[j], uids[j])
    ensures var gone := AbsentUids(uids, i, server);
      |DropUids(t, a, f, gone + {uids[i]})| == |DropUids(t, a, f, gone)| - 1 && uids[i] !in gone
  {
    var gone := AbsentUids(uids, i, server);
    AbsentUidsAre(uids, i, server);
    forall j | 0 <= j < i ensures uids[j] != uids[i] {
      assert ArchivedAs(t, a, f, ids[j], uids[j]) && ArchivedAs(t, a, f, ids[i], uids[i]) && UniqueFor(t, a);
      OtherUid(t, a, f, ids[j], ids[i]);
    }
    DropOneUid(t, a, f, gone, ids[i], uids[i]);
  }

  lemma DropOneUid(t: Table, a: int, f: string, gone: set<int>, id: int, u: int)
    requires UniqueKeys(t) && ArchivedAs(t, a, f, id, u) && u !in gone
    ensures |DropUids(t, a, f, gone + {u})| == |DropUids(t, a, f, gone)| - 1
  {
    var t1 := DropUids(t, a, f, gone);
    FewerUnique(t, t1);
    DropOne(t1, id);
    DropUidsStep(t, a, f, gone, u);
  }
}
