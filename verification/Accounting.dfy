/** Deduplication: what the files on disk take against the sizes the statistics report. */
module Accounting {
  import opened Common
  import opened EmailTable
  import opened Storage
  import opened Pipeline

  /** `SUM(size_bytes)` over the rows with ids below `n`. */
  function SumSizes(rows: map<int, AttachmentRow>, n: nat): int {
    if n == 0 then 0 else SumSizes(rows, n - 1) + (if n - 1 in rows then rows[n - 1].size else 0)
  }

  /** Bytes on disk. */
  ghost function DiskBytes(files: map<Path, Bytes>): nat
    decreases |files|
  {
    if files == map[] then 0
    else
      var p :| p in files;
      assert |files - {p}| < |files| by { assert files == (files - {p})[p := files[p]]; }
      |files[p]| + DiskBytes(files - {p})
  }

  lemma {:induction false} DiskBytesRemove(files: map<Path, Bytes>, p: Path)
    requires p in files
    ensures DiskBytes(files) == |files[p]| + DiskBytes(files - {p})
    decreases |files|
  {
    var q :| q in files && DiskBytes(files) == |files[q]| + DiskBytes(files - {q});
    if p != q {
      assert files == (files - {q})[q := files[q]];
      DiskBytesRemove(files - {q}, p);
      assert files - {q} - {p} == files - {p} - {q};
      assert files == (files - {p})[p := files[p]];
      DiskBytesRemove(files - {p}, q);
    }
  }

  lemma SumSizesAppend(rows: map<int, AttachmentRow>, n: nat, m: nat, row: AttachmentRow)
    requires m <= n && forall x :: x in rows ==> x < n
    ensures SumSizes(rows[n := row], m) == SumSizes(rows, m)
  {
    if m > 0 { SumSizesAppend(rows, n, m - 1, row); }
  }

  /** The attachments of a whole run, with the email each belongs to. */
  type Saves = seq<(int, Info)>

  function SaveEach(db: Db, saves: Saves): Db
    decreases |saves|
  {
    if saves == [] then db else SaveEach(Save(db, saves[0].0, saves[0].1, NoFault), saves[1..])
  }

  /** Parsed attachments, all non-empty, of emails that exist. */
  ghost predicate AllParsed(db: Db, saves: Saves, hash: Bytes -> Hash) {
    forall s :: s in saves ==> s.0 in db.emails && s.1.data != "" && s.1.fileHash == hash(s.1.data)
  }

  ghost predicate DistinctHashes(rows: map<int, AttachmentRow>) {
    forall x, y :: x in rows && y in rows && rows[x].hash == rows[y].hash ==> x == y
  }

  function Hashes(rows: map<int, AttachmentRow>): set<Hash> { set x | x in rows :: rows[x].hash }

  /** A file for each hash and no other. */
  ghost predicate FilesMatch(dir: string, hashes: set<Hash>, files: map<Path, Bytes>) {
    && (forall p :: p in files ==> exists h :: h in hashes && p == AttachmentPath(dir, h))
    && (forall h :: h in hashes ==> AttachmentPath(dir, h) in files)
    && |files| == |hashes|
  }

  ghost predicate IdsUpTo(rows: map<int, AttachmentRow>, n: int) {
    n >= 0 && forall x :: x in rows <==> 0 <= x < n
  }

  /** Files and rows correspond, and the disk takes what the rows say less the duplicates. */
  ghost predicate Balanced(dir: string, rows: map<int, AttachmentRow>, n: int, files: map<Path, Bytes>) {
    && IdsUpTo(rows, n)
    && FilesMatch(dir, Hashes(rows), files)
    && DiskBytes(files) <= SumSizes(rows, n)
    && (DiskBytes(files) == SumSizes(rows, n) <==> DistinctHashes(rows))
  }

  ghost predicate Accounted(db: Db) { Balanced(db.dir, db.attachments, db.nextAttachment, db.files) }

  lemma AppendRow(rows: map<int, AttachmentRow>, n: nat, row: AttachmentRow)
    requires IdsUpTo(rows, n)
    ensures var rows' := rows[n := row];
      && IdsUpTo(rows', n + 1)
      && SumSizes(rows', n + 1) == SumSizes(rows, n) + row.size
      && Hashes(rows') == Hashes(rows) + {row.hash}
      && (DistinctHashes(rows') <==> DistinctHashes(rows) && row.hash !in Hashes(rows))
  {
    var rows' := rows[n := row];
    SumSizesAppend(rows, n, n, row);
    assert rows'[n] == row && forall x :: x in rows ==> rows'[x] == rows[x];
    forall h | h in Hashes(rows) ensures h in Hashes(rows') {
      var x :| x in rows && rows[x].hash == h;
      assert rows'[x].hash == h;
    }
    if row.hash in Hashes(rows) {
      var x :| x in rows && rows[x].hash == row.hash;
      assert rows'[x].hash == rows'[n].hash && x != n;
    }
    if DistinctHashes(rows') {
      forall x, y | x in rows && y in rows && rows[x].hash == rows[y].hash ensures x == y {
        assert rows'[x].hash == rows'[y].hash;
      }
    }
  }

  lemma AddFile(dir: string, hashes: set<Hash>, files: map<Path, Bytes>, h: Hash, data: Bytes)
    requires FilesMatch(dir, hashes, files)
    ensures h in hashes <==> AttachmentPath(dir, h) in files
    ensures h !in hashes ==> var files' := files[AttachmentPath(dir, h) := data];
      FilesMatch(dir, hashes + {h}, files') && DiskBytes(files') == DiskBytes(files) + |data|
  {
    var p := AttachmentPath(dir, h);
    if p in files {
      var g :| g in hashes && p == AttachmentPath(dir, g);
      PathInjective(dir, g, h);
    } else {
      NewFileMatches(dir, hashes, files, h, data);
      DiskBytesRemove(files[p := data], p);
      assert files[p := data] - {p} == files;
    }
  }

  lemma NewFileMatches(dir: string, hashes: set<Hash>, files: map<Path, Bytes>, h: Hash, data: Bytes)
    requires FilesMatch(dir, hashes, files) && AttachmentPath(dir, h) !in files
    ensures FilesMatch(dir, hashes + {h}, files[AttachmentPath(dir, h) := data])
  {}

  lemma GrowBalanced(dir: string, rows: map<int, AttachmentRow>, n: int, files: map<Path, Bytes>,
                     row: AttachmentRow, data: Bytes)
    requires Balanced(dir, rows, n, files) && data != "" && row.size == |data|
    ensures var p := AttachmentPath(dir, row.hash);
      Balanced(dir, rows[n := row], n + 1, if p in files then files else files[p := data])
  {
    var hashes := Hashes(rows);
    AppendRow(rows, n, row);
    AddFile(dir, hashes, files, row.hash, data);
    if row.hash in hashes { assert hashes + {row.hash} == hashes; }
  }

  lemma SaveAccounted(db: Db, e: int, info: Info)
    requires Accounted(db) && e in db.emails && info.data != ""
    ensures Accounted(Save(db, e, info, NoFault))
  {
    SavedFully(db, e, info);
    GrowBalanced(db.dir, db.attachments, db.nextAttachment, db.files, RowFor(e, info), info.data);
  }

  /** In a run of saves without deletions or failures there is one file per distinct hash, and
      the bytes on disk are at most the reported sum: equal exactly when nothing was saved twice. */
  lemma {:induction false} DedupAccounting(db: Db, saves: Saves, hash: Bytes -> Hash)
    requires Sound(db, hash) && Accounted(db) && AllParsed(db, saves, hash)
    ensures Accounted(SaveEach(db, saves))
    decreases |saves|
  {
    if saves != [] {
      var s := saves[0];
      assert s in saves;
      SaveAccounted(db, s.0, s.1);
      SaveSound(db, s.0, s.1, NoFault, hash);
      DedupAccounting(Save(db, s.0, s.1, NoFault), saves[1..], hash);
    }
  }

  lemma EmptyAccounted(db: Db)
    requires db.attachments == map[] && db.files == map[] && db.nextAttachment == 0
    ensures Accounted(db)
  {}

  /** From an empty archive: a file for each hash, and no byte saved by anything but repetition. */
  lemma DedupFromEmpty(db: Db, saves: Saves, hash: Bytes -> Hash)
    requires Sound(db, hash) && AllParsed(db, saves, hash)
    requires db.attachments == map[] && db.files == map[] && db.nextAttachment == 0
    ensures var db' := SaveEach(db, saves);
      && db'.nextAttachment >= 0 && |db'.files| == |Hashes(db'.attachments)|
      && DiskBytes(db'.files) <= SumSizes(db'.attachments, db'.nextAttachment)
      && (DiskBytes(db'.files) == SumSizes(db'.attachments, db'.nextAttachment) <==> DistinctHashes(db'.attachments))
  {
    EmptyAccounted(db);
    DedupAccounting(db, saves, hash);
  }
}
