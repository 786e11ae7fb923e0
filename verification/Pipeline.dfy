/** Storing one message: the attachment files and rows, the tags, and the partial states that
    failures leave behind. */
module Pipeline {
  import opened Common
  import opened EmailTable
  import opened Storage
  import opened Text

  // ----- attachments --------------------------------------------------------------------

  /** Where saving an attachment fails, if anywhere. */
  datatype SaveFault = NoFault | DirFails | WriteFails | RowFails

  function EnsureFile(db: Db, info: Info): Db {
    if PathOf(db, info) in db.files then Exec(db, SeeFile(info)) else Exec(db, WriteFile(info))
  }

  predicate FileFails(db: Db, info: Info, fault: SaveFault) {
    PathOf(db, info) !in db.files && (fault.DirFails? || fault.WriteFails?)
  }

  function Save(db: Db, e: int, info: Info, fault: SaveFault): Db {
    if FileFails(db, info, fault) then db
    else if fault.RowFails? then EnsureFile(db, info)
    else Exec(EnsureFile(db, info), InsertAttachment(e, info))
  }

  function SaveAll(db: Db, e: int, infos: seq<Info>, faults: seq<SaveFault>): Db
    requires |infos| == |faults|
    decreases |infos|
  {
    if infos == [] then db else SaveAll(Save(db, e, infos[0], faults[0]), e, infos[1..], faults[1..])
  }

  // ----- tags ---------------------------------------------------------------------------

  /** The address part of a From header, before trimming. None is the slice panic: the first `>`
      comes before the first `<`. */
  function RawAddress(from: string): Option<string> {
    match (Find(from, '<'), Find(from, '>'))
    case (Some(start), Some(end)) => if start + 1 <= end then Some(from[start + 1..end]) else None
    case _ => if '@' in from then Some(from) else Some("")
  }

  /** extract_email_address. */
  function ExtractAddress(from: string): Option<string> {
    match RawAddress(from)
    case None => None
    case Some(raw) => Some(Trim(raw))
  }

  lemma RawBracketed(name: string, address: string, rest: string)
    requires '<' !in name && '>' !in name && '>' !in address
    ensures RawAddress(name + (['<'] + (address + (['>'] + rest)))) == Some(address)
  {
    var from := name + (['<'] + (address + (['>'] + rest)));
    FirstAfter(name, '<', address + (['>'] + rest));
    FirstBeyond(name, '<', address, '>', rest);
    FindAt(from, '<', |name|);
    FindAt(from, '>', |name| + 1 + |address|);
    Between(name, '<', address, ['>'] + rest);
  }

  /** A header of the usual form gives what stands between the brackets, trimmed. */
  lemma BracketedAddress(name: string, address: string, rest: string)
    requires '<' !in name && '>' !in name && '>' !in address
    ensures ExtractAddress(name + (['<'] + (address + (['>'] + rest)))) == Some(Trim(address))
  {
    RawBracketed(name, address, rest);
  }

  /** The slice panics exactly when a `>` comes before every `<` and a `<` follows it. */
  lemma AddressPanicsExactlyWhen(from: string)
    ensures ExtractAddress(from).None?
      <==> exists i: nat, j: nat :: i < j && FirstAt(from, '>', i) && FirstAt(from, '<', j)
  {}

  /** A header without both brackets is an address as a whole if it has an `@`; else there is none. */
  lemma UnbracketedAddress(from: string)
    requires '<' !in from || '>' !in from
    ensures ExtractAddress(from) == Some(if '@' in from then Trim(from) else "")
  {}

  ghost predicate Bracketed(from: string, name: string, inner: string, rest: string) {
    from == name + (['<'] + (inner + (['>'] + rest))) && '<' !in name && '>' !in name && '>' !in inner
  }

  /** `address` is what a From header means: what its first brackets enclose, or the header itself. */
  ghost predicate IsSender(from: string, address: string) {
    if '<' in from && '>' in from
    then exists name, inner, rest :: Bracketed(from, name, inner, rest) && address == Trim(inner)
    else address == if '@' in from then Trim(from) else ""
  }

  lemma InThree(from: string, start: nat, end: nat)
    requires start < end < |from| && from[start] == '<' && from[end] == '>'
    ensures from == from[..start] + (['<'] + (from[start + 1..end] + (['>'] + from[end + 1..])))
  {}

  lemma NoneBefore(from: string, c: char, k: nat, start: nat, end: nat)
    requires FirstAt(from, c, k) && start <= end <= k
    ensures c !in from[start..end] && c !in from[..end]
  {}

  /** The first `<` comes before the first `>`. */
  lemma BracketsEnclose(from: string, start: nat, end: nat)
    requires FirstAt(from, '<', start) && FirstAt(from, '>', end) && start < end
    ensures Bracketed(from, from[..start], from[start + 1..end], from[end + 1..])
  {
    InThree(from, start, end);
    NoneBefore(from, '<', start, 0, start);
    NoneBefore(from, '>', end, 0, start);
    NoneBefore(from, '>', end, start + 1, end);
  }

  lemma EnclosedIsSender(from: string, name: string, inner: string, rest: string)
    requires Bracketed(from, name, inner, rest)
    ensures IsSender(from, Trim(inner)) && ExtractAddress(from) == Some(Trim(inner))
  {
    BracketedAddress(name, inner, rest);
  }

  lemma FoundIsSender(from: string, address: string)
    requires ExtractAddress(from) == Some(address)
    ensures IsSender(from, address)
  {
    if '<' in from && '>' in from {
      var start, end := Find(from, '<').value, Find(from, '>').value;
      BracketsEnclose(from, start, end);
      EnclosedIsSender(from, from[..start], from[start + 1..end], from[end + 1..]);
    } else {
      UnbracketedAddress(from);
    }
  }

  lemma SenderIsFound(from: string, address: string)
    requires IsSender(from, address)
    ensures ExtractAddress(from) == Some(address)
  {
    if '<' in from && '>' in from {
      var name, inner, rest :| Bracketed(from, name, inner, rest) && address == Trim(inner);
      EnclosedIsSender(from, name, inner, rest);
    } else {
      UnbracketedAddress(from);
    }
  }

  /** extract_email_address finds it, and panics exactly where there is none. */
  lemma AddressExactlyWhen(from: string, address: string)
    ensures ExtractAddress(from) == Some(address) <==> IsSender(from, address)
  {
    if ExtractAddress(from) == Some(address) { FoundIsSender(from, address); }
    if IsSender(from, address) { SenderIsFound(from, address); }
  }

  const HAS_ATTACHMENT := "has:attachment"

  function TagNames(folder: string, address: string, hasAttachment: bool): seq<string> {
    ["folder:" + folder]
    + (if address != "" then ["from:" + address] else [])
    + (if hasAttachment then [HAS_ATTACHMENT] else [])
  }

  ghost function TagId(tags: map<int, string>, name: string): (t: int)
    requires HasTag(tags, name)
    ensures t in tags && tags[t] == name
  {
    var t :| t in tags && tags[t] == name;
    t
  }

  lemma InsertedTagExists(db: Db, name: string)
    ensures HasTag(Exec(db, InsertTag(name)).tags, name)
  {
    if !HasTag(db.tags, name) {
      var tags := Exec(db, InsertTag(name)).tags;
      assert db.nextTag in tags && tags[db.nextTag] == name;
    }
  }

  /** SELECT or INSERT the tag, then link it. */
  ghost function TagOne(db: Db, e: int, name: string): Db {
    InsertedTagExists(db, name);
    var db' := Exec(db, InsertTag(name));
    Exec(db', LinkTag(e, TagId(db'.tags, name)))
  }

  /** Where tagging fails, if anywhere: before the tag of that index exists, or before its link. */
  datatype TagFault = NoTagFault | TagFails(index: nat) | LinkFails(index: nat)

  /** The fault that is left once `i` tags have been dealt with. */
  function FaultAfter(fault: TagFault, i: nat): TagFault
    requires fault.NoTagFault? || i <= fault.index
  {
    match fault
    case NoTagFault => NoTagFault
    case TagFails(k) => TagFails(k - i)
    case LinkFails(k) => LinkFails(k - i)
  }

  ghost function TagAll(db: Db, e: int, names: seq<string>, fault: TagFault): Db
    decreases |names|
  {
    if names == [] || fault == TagFails(0) then db
    else if fault == LinkFails(0) then Exec(db, InsertTag(names[0]))
    else TagAll(TagOne(db, e, names[0]), e, names[1..], FaultAfter(fault, 1))
  }

  function SetOf(names: seq<string>): set<string> { set n | n in names }

  /** The names of the tags linked to an email. */
  function TagsOf(db: Db, e: int): set<string> {
    set l | l in db.links && l.0 == e && l.1 in db.tags :: db.tags[l.1]
  }

  // ----- the pipeline -------------------------------------------------------------------

  datatype Parsed = Parsed(received: Option<int>, sender: string, attachments: seq<Info>)

  /** What the world answers while one UID is processed: whether the fetch gives a body, whether
      it parses, and which statement fails. */
  datatype Reply =
    | NoBody
    | Mail(parsed: Option<Parsed>, insertOk: bool, saves: seq<SaveFault>, updateOk: bool, tagging: TagFault)

  predicate ReplyOk(r: Reply, hash: Bytes -> Hash) {
    r.Mail? && r.parsed.Some? ==>
      && |r.saves| == |r.parsed.value.attachments|
      && forall i :: i in r.parsed.value.attachments ==> i.fileHash == hash(i.data)
  }

  predicate Stores(db: Db, a: int, r: Reply) {
    r.Mail? && r.parsed.Some? && r.insertOk && a in db.accounts
  }

  /** The From header makes extract_email_address panic. */
  predicate Panics(db: Db, a: int, r: Reply) { MailPanics(r, a in db.accounts) }

  /** The same, given only whether the account exists. */
  predicate MailPanics(r: Reply, known: bool) {
    known && r.Mail? && r.parsed.Some? && r.insertOk && r.updateOk && ExtractAddress(r.parsed.value.sender).None?
  }

  function NewRow(a: int, f: string, u: int, gen: int, r: Reply): Email
    requires r.Mail? && r.parsed.Some?
  {
    Email(a, f, u, r.parsed.value.received, gen)
  }

  ghost function StoreMail(db: Db, a: int, f: string, u: int, gen: int, r: Reply, hash: Bytes -> Hash): Db
    requires ReplyOk(r, hash)
  {
    if !Stores(db, a, r) then db
    else
      var p, id := r.parsed.value, db.nextEmail;
      var db1 := Exec(db, InsertEmail(NewRow(a, f, u, gen, r)));
      var db2 := SaveAll(db1, id, p.attachments, r.saves);
      if !r.updateOk || Panics(db, a, r) then db2
      else TagAll(db2, id, TagNames(f, ExtractAddress(p.sender).value, p.attachments != []), r.tagging)
  }

  // ----- every step keeps the invariants ------------------------------------------------

  ghost predicate Sound(db: Db, hash: Bytes -> Hash) { Integrity(db) && FilesHold(db, hash) && CollisionFree(hash) }

  /** What the steps after the insert of email `e` leave alone: the email rows, the accounts, all
      tags and files, and everything that attachments and links of other emails say. */
  ghost predicate OnlyAdds(db: Db, db': Db, e: int) {
    && db'.emails == db.emails && db'.accounts == db.accounts && db'.dir == db.dir
    && db'.nextEmail == db.nextEmail
    && db.links <= db'.links && (forall l :: l in db'.links && l !in db.links ==> l.0 == e)
    && (forall t :: t in db.tags ==> t in db'.tags && db'.tags[t] == db.tags[t])
    && (forall x :: x in db.attachments ==> x in db'.attachments && db'.attachments[x] == db.attachments[x])
    && (forall x :: x in db'.attachments && x !in db.attachments ==> db'.attachments[x].email == e)
    && (forall x :: x in db'.attachments && x !in db.attachments ==> x >= db.nextAttachment)
    && db.nextAttachment <= db'.nextAttachment && db.files.Keys <= db'.files.Keys
  }

  predicate Adds(stmt: Stmt, e: int) {
    match stmt
    case InsertAttachment(id, _) => id == e
    case LinkTag(id, _) => id == e
    case _ => stmt.SeeFile? || stmt.WriteFile? || stmt.InsertTag?
  }

  lemma ExecSound(db: Db, stmt: Stmt, hash: Bytes -> Hash)
    requires Sound(db, hash)
    requires stmt.WriteFile? || stmt.InsertAttachment? ==> stmt.info.fileHash == hash(stmt.info.data)
    requires stmt.InsertAttachment? ==> PathOf(db, stmt.info) in db.files
    ensures Sound(Exec(db, stmt), hash)
  {
    ExecKeepsFiles(db, stmt, hash);
    ExecKeepsIntegrity(db, stmt);
  }

  lemma ExecOnlyAdds(db: Db, stmt: Stmt, e: int)
    requires Serials(db) && Adds(stmt, e)
    ensures OnlyAdds(db, Exec(db, stmt), e)
  {}

  lemma EnsureFileSound(db: Db, e: int, info: Info, hash: Bytes -> Hash)
    requires Sound(db, hash) && info.fileHash == hash(info.data)
    ensures Sound(EnsureFile(db, info), hash) && PathOf(db, info) in EnsureFile(db, info).files
    ensures OnlyAdds(db, EnsureFile(db, info), e)
  {
    ExecSound(db, WriteFile(info), hash);
  }

  lemma SaveSound(db: Db, e: int, info: Info, fault: SaveFault, hash: Bytes -> Hash)
    requires Sound(db, hash) && info.fileHash == hash(info.data)
    ensures Sound(Save(db, e, info, fault), hash) && OnlyAdds(db, Save(db, e, info, fault), e)
  {
    EnsureFileSound(db, e, info, hash);
    if !FileFails(db, info, fault) && !fault.RowFails? {
      var db1 := EnsureFile(db, info);
      ExecSound(db1, InsertAttachment(e, info), hash);
      ExecOnlyAdds(db1, InsertAttachment(e, info), e);
      AddsMore(db, db1, Exec(db1, InsertAttachment(e, info)), e);
    } else {
      AddsNothing(db, e);
    }
  }

  lemma AddsNothing(db: Db, e: int)
    ensures OnlyAdds(db, db, e)
  {}

  lemma {:induction false} SaveAllSound(db: Db, e: int, infos: seq<Info>, faults: seq<SaveFault>, hash: Bytes -> Hash)
    requires Sound(db, hash) && |infos| == |faults| && forall i :: i in infos ==> i.fileHash == hash(i.data)
    ensures Sound(SaveAll(db, e, infos, faults), hash) && OnlyAdds(db, SaveAll(db, e, infos, faults), e)
    decreases |infos|
  {
    if infos != [] {
      SaveSound(db, e, infos[0], faults[0], hash);
      SaveAllSound(Save(db, e, infos[0], faults[0]), e, infos[1..], faults[1..], hash);
    }
  }

  lemma TagOneSound(db: Db, e: int, name: string, hash: Bytes -> Hash)
    requires Sound(db, hash)
    ensures Sound(TagOne(db, e, name), hash) && OnlyAdds(db, TagOne(db, e, name), e)
  {
    InsertedTagExists(db, name);
    var db1 := Exec(db, InsertTag(name));
    ExecSound(db, InsertTag(name), hash);
    ExecOnlyAdds(db, InsertTag(name), e);
    var t := TagId(db1.tags, name);
    ExecSound(db1, LinkTag(e, t), hash);
    ExecOnlyAdds(db1, LinkTag(e, t), e);
  }

  lemma TagOneKeepsIntegrity(db: Db, e: int, name: string)
    requires Integrity(db)
    ensures Integrity(TagOne(db, e, name))
  {
    InsertedTagExists(db, name);
    var db1 := Exec(db, InsertTag(name));
    ExecKeepsIntegrity(db, InsertTag(name));
    ExecKeepsIntegrity(db1, LinkTag(e, TagId(db1.tags, name)));
  }

  lemma TagOneAddsName(db: Db, e: int, name: string)
    requires Integrity(db) && e in db.emails
    ensures TagsOf(TagOne(db, e, name), e) == TagsOf(db, e) + {name}
  {}

  lemma AddsMore(db: Db, db1: Db, db2: Db, e: int)
    requires OnlyAdds(db, db1, e) && OnlyAdds(db1, db2, e)
    ensures OnlyAdds(db, db2, e)
  {}

  lemma {:induction false} TagAllSound(db: Db, e: int, names: seq<string>, fault: TagFault, hash: Bytes -> Hash)
    requires Sound(db, hash)
    ensures Sound(TagAll(db, e, names, fault), hash) && OnlyAdds(db, TagAll(db, e, names, fault), e)
    decreases |names|
  {
    if names == [] || fault == TagFails(0) {
    } else if fault == LinkFails(0) {
      ExecSound(db, InsertTag(names[0]), hash);
      ExecOnlyAdds(db, InsertTag(names[0]), e);
    } else {
      var db1 := TagOne(db, e, names[0]);
      TagOneSound(db, e, names[0], hash);
      TagAllSound(db1, e, names[1..], FaultAfter(fault, 1), hash);
      AddsMore(db, db1, TagAll(db, e, names, fault), e);
    }
  }

  lemma MailIsWhole(db: Db, row: Email, db': Db)
    requires Integrity(db) && row.account in db.accounts
    requires OnlyAdds(Exec(db, InsertEmail(row)), db', db.nextEmail)
    ensures WholeEmails(db, db', row.account, {row.folder})
  {}

  /** Whatever fails, storing a message keeps every invariant, touches the email table only by at
      most the one new row, and leaves alone what belongs to other emails. */
  lemma StoreMailSound(db: Db, a: int, f: string, u: int, gen: int, r: Reply, hash: Bytes -> Hash)
    requires Sound(db, hash) && ReplyOk(r, hash)
    ensures var db' := StoreMail(db, a, f, u, gen, r, hash);
      && Sound(db', hash) && db'.accounts == db.accounts && db'.dir == db.dir
      && db'.emails == (if Stores(db, a, r) then db.emails[db.nextEmail := NewRow(a, f, u, gen, r)] else db.emails)
      && db'.nextEmail == (if Stores(db, a, r) then db.nextEmail + 1 else db.nextEmail)
      && WholeEmails(db, db', a, {f})
  {
    if Stores(db, a, r) {
      var p, id, ins := r.parsed.value, db.nextEmail, InsertEmail(NewRow(a, f, u, gen, r));
      StoreMailAdds(db, a, f, u, gen, r, hash);
      MailIsWhole(db, NewRow(a, f, u, gen, r), StoreMail(db, a, f, u, gen, r, hash));
    } else {
      WholeNone(db, a, {f});
    }
  }

  /** What follows the insert only adds to the new email. */
  lemma StoreMailAdds(db: Db, a: int, f: string, u: int, gen: int, r: Reply, hash: Bytes -> Hash)
    requires Sound(db, hash) && ReplyOk(r, hash) && Stores(db, a, r)
    ensures var db', ins := StoreMail(db, a, f, u, gen, r, hash), InsertEmail(NewRow(a, f, u, gen, r));
      OnlyAdds(Exec(db, ins), db', db.nextEmail) && Sound(db', hash)
  {
    var p, id, ins := r.parsed.value, db.nextEmail, InsertEmail(NewRow(a, f, u, gen, r));
    ExecSound(db, ins, hash);
    var db1 := Exec(db, ins);
    SaveAllSound(db1, id, p.attachments, r.saves, hash);
    var db2 := SaveAll(db1, id, p.attachments, r.saves);
    if r.updateOk && !Panics(db, a, r) {
      TagAllSound(db2, id, TagNames(f, ExtractAddress(p.sender).value, p.attachments != []), r.tagging, hash);
      AddsMore(db1, db2, StoreMail(db, a, f, u, gen, r, hash), id);
    }
  }

  // ----- tags ---------------------------------------------------------------------------

  /** The names before the one that fails. */
  function UpTo(names: seq<string>, fault: TagFault): seq<string> {
    if fault.NoTagFault? || fault.index >= |names| then names else names[..fault.index]
  }

  lemma UpToCons(names: seq<string>, fault: TagFault)
    requires names != [] && fault != TagFails(0) && fault != LinkFails(0)
    ensures SetOf(UpTo(names, fault)) == {names[0]} + SetOf(UpTo(names[1..], FaultAfter(fault, 1)))
  {
    assert UpTo(names, fault)[1..] == UpTo(names[1..], FaultAfter(fault, 1));
    SetOfCons(UpTo(names, fault));
  }

  /** auto_tag_email adds exactly the given names, up to the one that fails. */
  lemma {:induction false} TagAllTags(db: Db, e: int, names: seq<string>, fault: TagFault, hash: Bytes -> Hash,
                                      db': Db)
    requires Sound(db, hash) && e in db.emails && db' == TagAll(db, e, names, fault)
    ensures TagsOf(db', e) == TagsOf(db, e) + SetOf(UpTo(names, fault))
    decreases |names|
  {
    if names == [] || fault == TagFails(0) || fault == LinkFails(0) {
      TagsStay(db, e, names, fault);
    } else {
      TagOneSound(db, e, names[0], hash);
      TagOneAddsName(db, e, names[0]);
      UpToCons(names, fault);
      TagAllTags(TagOne(db, e, names[0]), e, names[1..], FaultAfter(fault, 1), hash, db');
    }
  }

  lemma TagsStay(db: Db, e: int, names: seq<string>, fault: TagFault)
    requires Integrity(db) && (names == [] || fault == TagFails(0) || fault == LinkFails(0))
    ensures TagsOf(TagAll(db, e, names, fault), e) == TagsOf(db, e) && UpTo(names, fault) == []
  {}

  lemma SetOfCons(names: seq<string>)
    requires names != []
    ensures SetOf(names) == {names[0]} + SetOf(names[1..])
  {}

  /** Tagging again changes nothing. */
  lemma {:induction false} TagAllIdempotent(db: Db, e: int, names: seq<string>)
    requires Integrity(db) && forall n :: n in names ==> n in TagsOf(db, e)
    ensures TagAll(db, e, names, NoTagFault) == db
    decreases |names|
  {
    if names != [] {
      var name := names[0];
      assert name in names;
      InsertedTagExists(db, name);
      var l :| l in db.links && l.0 == e && l.1 in db.tags && db.tags[l.1] == name;
      var t := l.1;
      assert t in db.tags && db.tags[t] == name;
      assert TagId(db.tags, name) == l.1 && (e, l.1) == l;
      assert db.links + {l} == db.links;
      assert TagOne(db, e, name) == db;
      TagAllIdempotent(db, e, names[1..]);
    }
  }

  lemma AutoTagTwice(db: Db, e: int, names: seq<string>, hash: Bytes -> Hash)
    requires Sound(db, hash) && e in db.emails
    ensures var once := TagAll(db, e, names, NoTagFault); TagAll(once, e, names, NoTagFault) == once
  {
    TagAllTags(db, e, names, NoTagFault, hash, TagAll(db, e, names, NoTagFault));
    TagAllSound(db, e, names, NoTagFault, hash);
    TagAllIdempotent(TagAll(db, e, names, NoTagFault), e, names);
  }

  ghost predicate HasAttachmentRow(db: Db, e: int) { exists x :: x in db.attachments && db.attachments[x].email == e }

  /** `rows` holds `infos` under consecutive ids from `first`. */
  ghost predicate RowsFrom(rows: map<int, AttachmentRow>, first: int, e: int, infos: seq<Info>) {
    forall i :: 0 <= i < |infos| ==> IsRow(rows, first + i, e, infos[i])
  }

  predicate IsRow(rows: map<int, AttachmentRow>, x: int, e: int, info: Info) {
    && x in rows && rows[x].email == e && rows[x].filename == info.filename && rows[x].mime == info.mime
    && rows[x].size == |info.data| && rows[x].hash == info.fileHash && rows[x].inlined == info.inlined
  }

  /** The file is there, or can be written. */
  predicate FileThere(dir: string, files: set<Path>, info: Info, fault: SaveFault) {
    AttachmentPath(dir, info.fileHash) in files || !(fault.DirFails? || fault.WriteFails?)
  }

  /** The attachments that get a row: those whose file is there and whose insert succeeds. */
  function Recorded(dir: string, files: set<Path>, infos: seq<Info>, faults: seq<SaveFault>): seq<Info>
    requires |infos| == |faults|
    decreases |infos|
  {
    if infos == [] then []
    else
      var there := FileThere(dir, files, infos[0], faults[0]);
      var files' := if there then files + {AttachmentPath(dir, infos[0].fileHash)} else files;
      (if there && !faults[0].RowFails? then [infos[0]] else [])
      + Recorded(dir, files', infos[1..], faults[1..])
  }

  lemma {:induction false} AllRecorded(dir: string, files: set<Path>, infos: seq<Info>, faults: seq<SaveFault>)
    requires |infos| == |faults| && forall i :: 0 <= i < |faults| ==> faults[i] == NoFault
    ensures Recorded(dir, files, infos, faults) == infos
    decreases |infos|
  {
    if infos != [] { AllRecorded(dir, files + {AttachmentPath(dir, infos[0].fileHash)}, infos[1..], faults[1..]); }
  }

  lemma SavedFields(db: Db, e: int, info: Info, fault: SaveFault)
    requires e in db.emails
    ensures var db', there := Save(db, e, info, fault), FileThere(db.dir, db.files.Keys, info, fault);
      && db'.dir == db.dir && db'.emails == db.emails && db'.links == db.links && db'.tags == db.tags
      && db'.files.Keys == (if there then db.files.Keys + {PathOf(db, info)} else db.files.Keys)
      && if there && !fault.RowFails?
         then db'.nextAttachment == db.nextAttachment + 1 && IsRow(db'.attachments, db.nextAttachment, e, info)
              && db'.attachments == db.attachments[db.nextAttachment := db'.attachments[db.nextAttachment]]
         else db'.nextAttachment == db.nextAttachment && db'.attachments == db.attachments
  {}

  lemma SavedFully(db: Db, e: int, info: Info)
    requires e in db.emails
    ensures var db' := Save(db, e, info, NoFault); var p := PathOf(db, info);
      && db'.dir == db.dir && db'.nextAttachment == db.nextAttachment + 1
      && db'.attachments == db.attachments[db.nextAttachment := RowFor(e, info)]
      && db'.files == (if p in db.files then db.files else db.files[p := info.data])
  {}

  lemma {:induction false} SavedRows(db: Db, e: int, infos: seq<Info>, faults: seq<SaveFault>)
    requires |infos| == |faults| && e in db.emails && Serials(db)
    ensures var db' := SaveAll(db, e, infos, faults);
      && (HasAttachmentRow(db', e) <==>
            HasAttachmentRow(db, e) || Recorded(db.dir, db.files.Keys, infos, faults) != [])
      && db'.links == db.links && db'.tags == db.tags && db'.emails == db.emails
    decreases |infos|
  {
    if infos != [] {
      var db1 := Save(db, e, infos[0], faults[0]);
      SavedFields(db, e, infos[0], faults[0]);
      SavedOne(db, db1, e, infos[0], db1.attachments != db.attachments);
      SavedRows(db1, e, infos[1..], faults[1..]);
    }
  }

  lemma SavedOne(db: Db, db1: Db, e: int, info: Info, added: bool)
    requires Serials(db)
    requires if added then IsRow(db1.attachments, db.nextAttachment, e, info)
                && db1.attachments == db.attachments[db.nextAttachment := db1.attachments[db.nextAttachment]]
             else db1.attachments == db.attachments
    ensures HasAttachmentRow(db1, e) <==> HasAttachmentRow(db, e) || added
  {}

  /** `rows'` is `rows` with those of `infos`, in order, under the ids from `first` to before `next`. */
  ghost predicate InOrder(rows: map<int, AttachmentRow>, rows': map<int, AttachmentRow>, first: int, next: int,
                          e: int, infos: seq<Info>)
  {
    && RowsFrom(rows', first, e, infos) && next == first + |infos|
    && (forall x :: x in rows ==> x in rows' && rows'[x] == rows[x])
    && (forall x :: x in rows' && x !in rows ==> first <= x < next)
  }

  lemma InOrderNone(rows: map<int, AttachmentRow>, first: int, e: int)
    ensures InOrder(rows, rows, first, first, e, [])
  {}

  lemma InOrderCons(rows: map<int, AttachmentRow>, rows1: map<int, AttachmentRow>, rows2: map<int, AttachmentRow>,
                    first: int, next: int, e: int, info: Info, more: seq<Info>)
    requires IsRow(rows1, first, e, info) && first !in rows && rows1 == rows[first := rows1[first]]
    requires InOrder(rows1, rows2, first + 1, next, e, more)
    ensures InOrder(rows, rows2, first, next, e, [info] + more)
  {
    assert rows2[first] == rows1[first];
    assert forall x :: x in rows ==> x in rows1 && rows1[x] == rows[x];
    RowsCons(rows2, first, e, info, more);
  }

  /** Each attachment that can gets one row, in order, and earlier rows stay. */
  lemma {:induction false} SavedInOrder(db: Db, e: int, infos: seq<Info>, faults: seq<SaveFault>, db': Db)
    requires |infos| == |faults| && e in db.emails && Serials(db) && db' == SaveAll(db, e, infos, faults)
    ensures InOrder(db.attachments, db'.attachments, db.nextAttachment, db'.nextAttachment, e,
                    Recorded(db.dir, db.files.Keys, infos, faults))
    decreases |infos|
  {
    if infos == [] {
      InOrderNone(db.attachments, db.nextAttachment, e);
    } else {
      var db1 := Save(db, e, infos[0], faults[0]);
      SavedFields(db, e, infos[0], faults[0]);
      SavedInOrder(db1, e, infos[1..], faults[1..], db');
      var more := Recorded(db1.dir, db1.files.Keys, infos[1..], faults[1..]);
      RecordedFirst(db.dir, db.files.Keys, db1.files.Keys, infos, faults);
      if db1.nextAttachment > db.nextAttachment {
        InOrderCons(db.attachments, db1.attachments, db'.attachments, db.nextAttachment, db'.nextAttachment, e,
                    infos[0], more);
      }
    }
  }

  lemma RecordedFirst(dir: string, files: set<Path>, files1: set<Path>, infos: seq<Info>, faults: seq<SaveFault>)
    requires |infos| == |faults| && infos != []
    requires files1 == if FileThere(dir, files, infos[0], faults[0])
      then files + {AttachmentPath(dir, infos[0].fileHash)} else files
    ensures var more := Recorded(dir, files1, infos[1..], faults[1..]);
      Recorded(dir, files, infos, faults)
        == if FileThere(dir, files, infos[0], faults[0]) && !faults[0].RowFails? then [infos[0]] + more else more
  {}

  lemma RowsCons(rows: map<int, AttachmentRow>, first: int, e: int, info: Info, more: seq<Info>)
    requires RowsFrom(rows, first + 1, e, more) && IsRow(rows, first, e, info)
    ensures RowsFrom(rows, first, e, [info] + more)
  {
    forall i | 0 <= i < |more| + 1 ensures IsRow(rows, first + i, e, ([info] + more)[i]) {
      if i > 0 { assert IsRow(rows, first + 1 + (i - 1), e, more[i - 1]); }
    }
  }

  lemma NamesWithAttachment(f: string, address: string, has: bool)
    ensures HAS_ATTACHMENT in TagNames(f, address, has) <==> has
  {
    assert ("folder:" + f)[0] == 'f' && ("from:" + address)[0] == 'f' && HAS_ATTACHMENT[0] == 'h';
  }

  /** A folder tag always, a sender tag when there is an address, the attachment tag on request. */
  lemma NamesExactly(f: string, address: string, has: bool, n: string)
    ensures n in TagNames(f, address, has) <==>
      n == "folder:" + f || (n == "from:" + address && address != "") || (n == HAS_ATTACHMENT && has)
  {}

  /** Whatever fails after the insert, the new email's attachment rows are those of the attachments
      that could be recorded, in order and with their fields; no other row is new. */
  lemma StoredAttachments(db: Db, a: int, f: string, u: int, gen: int, r: Reply, hash: Bytes -> Hash)
    requires Sound(db, hash) && ReplyOk(r, hash) && Stores(db, a, r)
    ensures var db', p := StoreMail(db, a, f, u, gen, r, hash), r.parsed.value;
      var recorded := Recorded(db.dir, db.files.Keys, p.attachments, r.saves);
      && InOrder(db.attachments, db'.attachments, db.nextAttachment, db.nextAttachment + |recorded|,
                 db.nextEmail, recorded)
      && ((forall i :: 0 <= i < |r.saves| ==> r.saves[i] == NoFault) ==> recorded == p.attachments)
  {
    var p, id, ins := r.parsed.value, db.nextEmail, InsertEmail(NewRow(a, f, u, gen, r));
    ExecKeepsSerials(db, ins);
    SavedInOrder(Exec(db, ins), id, p.attachments, r.saves, SaveAll(Exec(db, ins), id, p.attachments, r.saves));
    if forall i :: 0 <= i < |r.saves| ==> r.saves[i] == NoFault {
      AllRecorded(db.dir, db.files.Keys, p.attachments, r.saves);
    }
    if r.updateOk && !Panics(db, a, r) {
      TagAllKeepsAttachments(SaveAll(Exec(db, ins), id, p.attachments, r.saves), id,
                             TagNames(f, ExtractAddress(p.sender).value, p.attachments != []), r.tagging);
    }
  }

  /** A message is its row, then its attachments, then its tags; before those the new email has none. */
  lemma StoreMailIs(db: Db, a: int, f: string, u: int, gen: int, r: Reply, hash: Bytes -> Hash)
    requires Sound(db, hash) && ReplyOk(r, hash) && Stores(db, a, r)
    ensures var p, id := r.parsed.value, db.nextEmail;
      var db2 := SaveAll(Exec(db, InsertEmail(NewRow(a, f, u, gen, r))), id, p.attachments, r.saves);
      && StoreMail(db, a, f, u, gen, r, hash)
         == (if r.updateOk && !Panics(db, a, r)
             then TagAll(db2, id, TagNames(f, ExtractAddress(p.sender).value, p.attachments != []), r.tagging)
             else db2)
      && Sound(db2, hash) && id in db2.emails && TagsOf(db2, id) == {}
      && (HasAttachmentRow(db2, id) <==> Recorded(db.dir, db.files.Keys, p.attachments, r.saves) != [])
  {
    var p, id, ins := r.parsed.value, db.nextEmail, InsertEmail(NewRow(a, f, u, gen, r));
    var db1 := Exec(db, ins);
    ExecSound(db, ins, hash);
    InsertedIsBare(db, ins.row);
    SaveAllSound(db1, id, p.attachments, r.saves, hash);
    SavedRows(db1, id, p.attachments, r.saves);
  }

  /** Nothing refers to a row that was just inserted. */
  lemma InsertedIsBare(db: Db, row: Email)
    requires Integrity(db) && row.account in db.accounts
    ensures var db1 := Exec(db, InsertEmail(row));
      && db.nextEmail in db1.emails && TagsOf(db1, db.nextEmail) == {}
      && !HasAttachmentRow(db1, db.nextEmail)
  {}

  lemma NoSender(from: string)
    ensures ExtractAddress(from).None? <==> forall address :: !IsSender(from, address)
  {
    forall address ensures ExtractAddress(from) == Some(address) <==> IsSender(from, address) {
      AddressExactlyWhen(from, address);
    }
    if ExtractAddress(from).Some? { assert IsSender(from, ExtractAddress(from).value); }
  }

  /** Whatever fails after the insert: the new email carries the first of its names, in this order,
      up to the one that cannot be made or linked... */
  lemma StoredTags(db: Db, a: int, f: string, u: int, gen: int, r: Reply, hash: Bytes -> Hash,
                   address: string, names: seq<string>)
    requires Sound(db, hash) && ReplyOk(r, hash) && Stores(db, a, r) && r.updateOk
    requires IsSender(r.parsed.value.sender, address)
    requires names == ["folder:" + f] + (if address != "" then ["from:" + address] else [])
                      + (if r.parsed.value.attachments != [] then ["has:attachment"] else [])
    ensures TagsOf(StoreMail(db, a, f, u, gen, r, hash), db.nextEmail) == SetOf(UpTo(names, r.tagging))
  {
    SenderIsFound(r.parsed.value.sender, address);
    NamesInOrder(f, address, r.parsed.value.attachments != [], names);
    TagsStored(db, a, f, u, gen, r, hash, names, StoreMail(db, a, f, u, gen, r, hash));
  }

  lemma NamesInOrder(f: string, address: string, has: bool, names: seq<string>)
    requires names == ["folder:" + f] + (if address != "" then ["from:" + address] else [])
                      + (if has then ["has:attachment"] else [])
    ensures names == TagNames(f, address, has)
  {}

  lemma TagsStored(db: Db, a: int, f: string, u: int, gen: int, r: Reply, hash: Bytes -> Hash, names: seq<string>,
                   db': Db)
    requires Sound(db, hash) && ReplyOk(r, hash) && Stores(db, a, r) && r.updateOk && !Panics(db, a, r)
    requires names == TagNames(f, ExtractAddress(r.parsed.value.sender).value, r.parsed.value.attachments != [])
    requires db' == StoreMail(db, a, f, u, gen, r, hash)
    ensures TagsOf(db', db.nextEmail) == SetOf(UpTo(names, r.tagging))
  {
    var db2 := StoreMailTags(db, a, f, u, gen, r, hash, names);
    TagAllTags(db2, db.nextEmail, names, r.tagging, hash, db');
    assert {} + SetOf(UpTo(names, r.tagging)) == SetOf(UpTo(names, r.tagging));
  }

  /** Its last part is the tagging of an email without tags. */
  lemma StoreMailTags(db: Db, a: int, f: string, u: int, gen: int, r: Reply, hash: Bytes -> Hash, names: seq<string>)
      returns (db2: Db)
    requires Sound(db, hash) && ReplyOk(r, hash) && Stores(db, a, r) && r.updateOk && !Panics(db, a, r)
    requires names == TagNames(f, ExtractAddress(r.parsed.value.sender).value, r.parsed.value.attachments != [])
    ensures StoreMail(db, a, f, u, gen, r, hash) == TagAll(db2, db.nextEmail, names, r.tagging)
    ensures Sound(db2, hash) && db.nextEmail in db2.emails && TagsOf(db2, db.nextEmail) == {}
  {
    db2 := SaveAll(Exec(db, InsertEmail(NewRow(a, f, u, gen, r))), db.nextEmail, r.parsed.value.attachments, r.saves);
    StoreMailIs(db, a, f, u, gen, r, hash);
  }

  /** ...and none if its update fails or its sender has no reading. */
  lemma StoredUntagged(db: Db, a: int, f: string, u: int, gen: int, r: Reply, hash: Bytes -> Hash)
    requires Sound(db, hash) && ReplyOk(r, hash) && Stores(db, a, r)
    requires !r.updateOk || forall address :: !IsSender(r.parsed.value.sender, address)
    ensures TagsOf(StoreMail(db, a, f, u, gen, r, hash), db.nextEmail) == {}
  {
    StoreMailIs(db, a, f, u, gen, r, hash);
    NoSender(r.parsed.value.sender);
  }

  /** When everything succeeds the new email carries the tag of its folder, that of its sender's
      address if there is one, `has:attachment` exactly when it has attachment rows, and no other. */
  lemma FullStore(db: Db, a: int, f: string, u: int, gen: int, r: Reply, hash: Bytes -> Hash, address: string)
    requires Sound(db, hash) && ReplyOk(r, hash) && Stores(db, a, r) && r.updateOk
    requires IsSender(r.parsed.value.sender, address)
    requires r.tagging == NoTagFault && forall i :: 0 <= i < |r.saves| ==> r.saves[i] == NoFault
    ensures var db', id := StoreMail(db, a, f, u, gen, r, hash), db.nextEmail;
      && (forall n :: n in TagsOf(db', id) <==>
            n == "folder:" + f || (n == "from:" + address && address != "")
            || (n == "has:attachment" && r.parsed.value.attachments != []))
      && ("has:attachment" in TagsOf(db', id) <==> HasAttachmentRow(db', id))
  {
    var has := r.parsed.value.attachments != [];
    StoredTags(db, a, f, u, gen, r, hash, address, TagNames(f, address, has));
    AttachmentRowsThere(db, a, f, u, gen, r, hash);
    AllRecorded(db.dir, db.files.Keys, r.parsed.value.attachments, r.saves);
    NamesWithAttachment(f, address, has);
    forall n ensures n in SetOf(TagNames(f, address, has))
      <==> n == "folder:" + f || (n == "from:" + address && address != "") || (n == HAS_ATTACHMENT && has)
    {
      NamesExactly(f, address, has, n);
    }
  }

  lemma AttachmentRowsThere(db: Db, a: int, f: string, u: int, gen: int, r: Reply, hash: Bytes -> Hash)
    requires Sound(db, hash) && ReplyOk(r, hash) && Stores(db, a, r)
    ensures HasAttachmentRow(StoreMail(db, a, f, u, gen, r, hash), db.nextEmail)
      <==> Recorded(db.dir, db.files.Keys, r.parsed.value.attachments, r.saves) != []
  {
    var p, id := r.parsed.value, db.nextEmail;
    StoreMailIs(db, a, f, u, gen, r, hash);
    if r.updateOk && !Panics(db, a, r) {
      var db2 := SaveAll(Exec(db, InsertEmail(NewRow(a, f, u, gen, r))), id, p.attachments, r.saves);
      TagAllKeepsAttachments(db2, id, TagNames(f, ExtractAddress(p.sender).value, p.attachments != []), r.tagging);
    }
  }

  lemma {:induction false} TagAllKeepsAttachments(db: Db, e: int, names: seq<string>, fault: TagFault)
    ensures TagAll(db, e, names, fault).attachments == db.attachments
    decreases |names|
  {
    if names != [] && fault != TagFails(0) && fault != LinkFails(0) {
      assert TagOne(db, e, names[0]).attachments == db.attachments;
      TagAllKeepsAttachments(TagOne(db, e, names[0]), e, names[1..], FaultAfter(fault, 1));
    }
  }
}
