/** The `emails` table: rows under their serial id, and the SQL the sync engine runs on it. */
module EmailTable {
  import opened Common

  /** One row. `generation` is a history variable: the UIDVALIDITY under which the UID was
      fetched. The program does not store it and no operation reads it. */
  datatype Email = Email(account: int, folder: string, uid: int, received: Option<int>, generation: int)

  type Table = map<int, Email>

  predicate InFolder(e: Email, a: int, f: string) { e.account == a && e.folder == f }

  predicate HasKey(e: Email, a: int, f: string, u: int) { InFolder(e, a, f) && e.uid == u }

  predicate SameKey(d: Email, e: Email) { HasKey(d, e.account, e.folder, e.uid) }

  /** The rows of one folder, up to row ids. */
  function Rows(t: Table, a: int, f: string): set<Email> {
    set id | id in t && InFolder(t[id], a, f) :: t[id]
  }

  /** The rows of one account, up to row ids. */
  function AccountRows(t: Table, a: int): set<Email> {
    set id | id in t && t[id].account == a :: t[id]
  }

  function Uids(rows: set<Email>): set<int> { set e | e in rows :: e.uid }

  /** No two rows of account `a` share (folder, uid). */
  ghost predicate UniqueFor(t: Table, a: int) {
    forall i, j | i in t && j in t && t[i].account == a && SameKey(t[i], t[j]) :: i == j
  }

  /** No two rows share (account, folder, uid). */
  ghost predicate UniqueKeys(t: Table) { forall a :: UniqueFor(t, a) }

  ghost predicate IdsBelow(t: Table, next: int) { forall id :: id in t ==> id < next }

  // ----- SELECT MAX(imap_uid) and the high-water filter ---------------------------------

  lemma MaxExists(s: set<int>)
    requires s != {}
    ensures exists m :: m in s && forall x :: x in s ==> x <= m
  {
    var x := Element(s);
    if s != {x} {
      var rest := s - {x};
      assert s == rest + {x};
      MaxExists(rest);
      var m :| m in rest && forall y :: y in rest ==> y <= m;
      var top := if m < x then x else m;
      assert top in s && forall y :: y in s ==> y <= top;
    } else {
      assert x in s && forall y :: y in s ==> y <= x;
    }
  }

  /** `MAX(imap_uid)`; over no rows it is NULL. */
  function Max(uids: set<int>): (m: Option<int>)
    ensures m.None? <==> uids == {}
    ensures m.Some? ==> m.value in uids && forall x :: x in uids ==> x <= m.value
  {
    if uids == {} then None
    else
      MaxExists(uids);
      var m :| m in uids && forall x :: x in uids ==> x <= m;
      Some(m)
  }

  /** The server UIDs the engine downloads: those above the stored maximum. */
  function Above(server: set<int>, max: Option<int>): set<int> {
    set u | u in server && (max.None? || u > max.value)
  }

  // ----- DELETE -------------------------------------------------------------------------

  function DropFolder(t: Table, a: int, f: string): Table {
    map id | id in t && !InFolder(t[id], a, f) :: t[id]
  }

  function DropUid(t: Table, a: int, f: string, u: int): Table {
    map id | id in t && !HasKey(t[id], a, f, u) :: t[id]
  }

  function DropAccount(t: Table, a: int): Table {
    map id | id in t && t[id].account != a :: t[id]
  }

  // ----- what each statement does to the views ------------------------------------------

  lemma InsertViews(t: Table, next: int, e: Email, a: int, f: string)
    requires IdsBelow(t, next)
    ensures Rows(t[next := e], a, f) == Rows(t, a, f) + (if InFolder(e, a, f) then {e} else {})
    ensures AccountRows(t[next := e], a) == AccountRows(t, a) + (if e.account == a then {e} else {})
  {
    var t' := t[next := e];
    assert forall id :: id in t ==> t'[id] == t[id];
    assert t'[next] == e;
    forall x | x in Rows(t, a, f) ensures x in Rows(t', a, f) {
      var id :| id in t && InFolder(t[id], a, f) && t[id] == x;
      assert t'[id] == x;
    }
    forall x | x in AccountRows(t, a) ensures x in AccountRows(t', a) {
      var id :| id in t && t[id].account == a && t[id] == x;
      assert t'[id] == x;
    }
  }

  lemma DropFolderViews(t: Table, b: int, g: string, a: int, f: string)
    ensures Rows(DropFolder(t, b, g), a, f) == if a == b && f == g then {} else Rows(t, a, f)
    ensures AccountRows(DropFolder(t, b, g), a) == set e | e in AccountRows(t, a) && !InFolder(e, b, g)
  {
    var t' := DropFolder(t, b, g);
    forall x | x in Rows(t, a, f) && !InFolder(x, b, g) ensures x in Rows(t', a, f) {
      var id :| id in t && InFolder(t[id], a, f) && t[id] == x;
      assert t'[id] == x;
    }
    forall x | x in AccountRows(t, a) && !InFolder(x, b, g) ensures x in AccountRows(t', a) {
      var id :| id in t && t[id].account == a && t[id] == x;
      assert t'[id] == x;
    }
  }

  lemma DropUidViews(t: Table, b: int, g: string, u: int, a: int, f: string)
    ensures Rows(DropUid(t, b, g, u), a, f) == set e | e in Rows(t, a, f) && !HasKey(e, b, g, u)
    ensures AccountRows(DropUid(t, b, g, u), a) == set e | e in AccountRows(t, a) && !HasKey(e, b, g, u)
  {
    var t' := DropUid(t, b, g, u);
    forall x | x in Rows(t, a, f) && !HasKey(x, b, g, u) ensures x in Rows(t', a, f) {
      var id :| id in t && InFolder(t[id], a, f) && t[id] == x;
      assert t'[id] == x;
    }
    forall x | x in AccountRows(t, a) && !HasKey(x, b, g, u) ensures x in AccountRows(t', a) {
      var id :| id in t && t[id].account == a && t[id] == x;
      assert t'[id] == x;
    }
  }

  lemma DropAccountViews(t: Table, b: int, a: int, f: string)
    ensures Rows(DropAccount(t, b), a, f) == if a == b then {} else Rows(t, a, f)
    ensures AccountRows(DropAccount(t, b), a) == if a == b then {} else AccountRows(t, a)
  {
    var t' := DropAccount(t, b);
    forall x | x in Rows(t, a, f) && a != b ensures x in Rows(t', a, f) {
      var id :| id in t && InFolder(t[id], a, f) && t[id] == x;
      assert t'[id] == x;
    }
    forall x | x in AccountRows(t, a) && a != b ensures x in AccountRows(t', a) {
      var id :| id in t && t[id].account == a && t[id] == x;
      assert t'[id] == x;
    }
  }

  lemma RowsFromAccount(t: Table, a: int, f: string)
    ensures Rows(t, a, f) == set e | e in AccountRows(t, a) && e.folder == f
  {}

  /** Every folder but one has the same rows. */
  ghost predicate OthersSame(t0: Table, t: Table, a: int, f: string) {
    forall b, g :: b != a || g != f ==> Rows(t, b, g) == Rows(t0, b, g)
  }

  ghost predicate SubTable(t': Table, t: Table) {
    forall id :: id in t' ==> id in t && t'[id] == t[id]
  }

  /** Deleting rows never breaks uniqueness. */
  lemma SubTableUnique(t: Table, t': Table, a: int)
    requires UniqueFor(t, a) && SubTable(t', t)
    ensures UniqueFor(t', a)
  {}

  lemma SubTableUids(t: Table, t': Table, a: int, f: string)
    requires SubTable(t', t)
    ensures Rows(t', a, f) <= Rows(t, a, f) && Uids(Rows(t', a, f)) <= Uids(Rows(t, a, f))
  {}

  /** Inserting a row whose key is free keeps keys unique. */
  lemma InsertUnique(t: Table, next: int, e: Email, a: int)
    requires UniqueFor(t, a)
    requires e.account == a ==> e.uid !in Uids(Rows(t, a, e.folder))
    ensures UniqueFor(t[next := e], a)
  {}
}
