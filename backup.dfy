/** Backup export and import reconciliation: the snapshot document, the acceptance test on a
    parsed import file, and the overwrite and merge modes of finishing an import. */
module Backup {
  import opened Types
  import opened Seqs

  /** The format tag written into every backup. */
  const BackupVersion: string := "1.1"

  /** The exported document: its version, both collections in full (trashed prompts included)
      and the export time as an ISO-8601 string. */
  datatype Snapshot = Snapshot(version: string, categories: seq<Category>, prompts: seq<PromptEntry>, exportedAt: string)

  /** The pair of collections held while the user chooses how to import them. */
  datatype ImportData = ImportData(categories: seq<Category>, prompts: seq<PromptEntry>)

  datatype ImportMode = Merge | Overwrite

  /** A parsed backup file, reduced to the two fields the import looks at; an absent field
      stands for a missing or falsy value. */
  datatype BackupDocument = BackupDocument(categories: Option<seq<Category>>, prompts: Option<seq<PromptEntry>>)

  /** The snapshot `handleExportBackup` downloads. */
  function ExportSnapshot(cats: seq<Category>, prompts: seq<PromptEntry>, exportedAt: string): (s: Snapshot)
    ensures s.version == BackupVersion && s.exportedAt == exportedAt
    ensures s.categories == cats && s.prompts == prompts
  {
    Snapshot(BackupVersion, cats, prompts, exportedAt)
  }

  /** The document a snapshot is read back as. */
  function AsDocument(s: Snapshot): BackupDocument {
    BackupDocument(Some(s.categories), Some(s.prompts))
  }

  /** The import candidate of a file: `None` for text that is not JSON, and for a document
      lacking either collection. */
  function ParseImport(doc: Option<BackupDocument>): (r: Option<ImportData>)
    ensures r.Some? <==> doc.Some? && doc.value.categories.Some? && doc.value.prompts.Some?
    ensures r.Some? ==> r.value == ImportData(doc.value.categories.value, doc.value.prompts.value)
  {
    if doc.Some? && doc.value.categories.Some? && doc.value.prompts.Some?
    then Some(ImportData(doc.value.categories.value, doc.value.prompts.value))
    else None
  }

  /** The identifiers used by `s`. */
  function Keys<T(==)>(s: seq<T>, key: T -> string): set<string> {
    set x | x in s :: key(x)
  }

  predicate IsNewKey<T>(used: set<string>, key: T -> string, x: T) {
    key(x) !in used
  }

  function NewKey<T>(used: set<string>, key: T -> string): T -> bool {
    x => IsNewKey(used, key, x)
  }

  /** A merge: `existing` unchanged, then, in imported order, each imported record whose
      identifier `existing` does not use yet. Records within `imported` are not checked
      against each other. */
  function MergeById<T(==,!new)>(existing: seq<T>, imported: seq<T>, key: T -> string): (r: seq<T>)
    ensures |existing| <= |r| <= |existing| + |imported|
    ensures r[..|existing|] == existing
    ensures forall x :: x in r[|existing|..] <==> x in imported && key(x) !in Keys(existing, key)
  {
    var added := Filter(imported, NewKey(Keys(existing, key), key));
    assert (existing + added)[|existing|..] == added;
    existing + added
  }

  /** The appended part is the imported list filtered: its records keep their imported order. */
  lemma MergeKeepsImportedOrder<T(!new)>(existing: seq<T>, a: seq<T>, b: seq<T>, key: T -> string)
    ensures MergeById(existing, a + b, key)[|existing|..] ==
      MergeById(existing, a, key)[|existing|..] + MergeById(existing, b, key)[|existing|..]
  {
    var used := NewKey(Keys(existing, key), key);
    FilterAppend(a, b, used);
    assert MergeById(existing, a + b, key)[|existing|..] == Filter(a + b, used);
    assert MergeById(existing, a, key)[|existing|..] == Filter(a, used);
    assert MergeById(existing, b, key)[|existing|..] == Filter(b, used);
  }

  /** The existing record wins: every merged record whose identifier was already in use is
      one of the existing records. */
  lemma MergeExistingWins<T(!new)>(existing: seq<T>, imported: seq<T>, key: T -> string)
    ensures forall x :: x in MergeById(existing, imported, key) && key(x) in Keys(existing, key) ==> x in existing
  {
    var r := MergeById(existing, imported, key);
    forall x | x in r && key(x) in Keys(existing, key) ensures x in existing {
      var i :| 0 <= i < |r| && r[i] == x;
      if i < |existing| {
        assert r[..|existing|][i] == x;
      }
    }
  }

  /** Merging the same import a second time adds nothing. */
  lemma MergeIdempotent<T(!new)>(existing: seq<T>, imported: seq<T>, key: T -> string)
    ensures MergeById(MergeById(existing, imported, key), imported, key) == MergeById(existing, imported, key)
  {
    var once := MergeById(existing, imported, key);
    var added := once[|existing|..];
    assert once == existing + added;
    forall x | x in imported ensures key(x) in Keys(once, key) {
      if key(x) in Keys(existing, key) {
        var y :| y in existing && key(y) == key(x);
        assert y == once[..|existing|][IndexOf(existing, y)];
      } else {
        assert x in added;
      }
    }
    FilterKeepsNone(imported, NewKey(Keys(once, key), key));
  }

  /** No two records of `s` share an identifier. */
  ghost predicate UniqueKeys<T>(s: seq<T>, key: T -> string) {
    forall i, j :: 0 <= i < j < |s| ==> key(s[i]) != key(s[j])
  }

  /** When neither side repeats an identifier, neither does the merge. */
  lemma MergeKeepsUniqueKeys<T(!new)>(existing: seq<T>, imported: seq<T>, key: T -> string)
    requires UniqueKeys(existing, key) && UniqueKeys(imported, key)
    ensures UniqueKeys(MergeById(existing, imported, key), key)
  {
    var used := NewKey(Keys(existing, key), key);
    var added := Filter(imported, used);
    FilterUniqueKeys(imported, used, key);
    var r := existing + added;
    forall i, j | 0 <= i < j < |r| ensures key(r[i]) != key(r[j]) {
      if j >= |existing| && i < |existing| {
        assert r[j] in added;
        assert r[i] in existing;
      } else if i >= |existing| {
        assert r[i] == added[i - |existing|] && r[j] == added[j - |existing|];
      }
    }
  }

  lemma {:induction false} FilterUniqueKeys<T(!new)>(s: seq<T>, keep: T -> bool, key: T -> string)
    requires UniqueKeys(s, key)
    ensures UniqueKeys(Filter(s, keep), key)
  {
    if s != [] {
      FilterUniqueKeys(s[1..], keep, key);
      var rest := Filter(s[1..], keep);
      forall y | y in rest ensures key(y) != key(s[0]) {
        var j := IndexOf(s[1..], y);
        assert s[j + 1] == y;
      }
      if keep(s[0]) {
        var r := [s[0]] + rest;
        forall i, j | 0 <= i < j < |r| ensures key(r[i]) != key(r[j]) {
          if i == 0 {
            assert r[j] in rest;
          } else {
            assert r[i] == rest[i - 1] && r[j] == rest[j - 1];
          }
        }
      }
    }
  }

  /** A merge does not remove duplicates inside the imported batch: two imported records with
      the same new identifier are both appended. */
  lemma MergeKeepsBatchDuplicates()
    ensures var a := Category("x", "One", None, None);
      var b := Category("x", "Two", None, None);
      MergeById([], [a, b], CategoryKey) == [a, b] && !UniqueKeys([a, b], CategoryKey)
  {
    var a := Category("x", "One", None, None);
    var b := Category("x", "Two", None, None);
    var none: seq<Category> := [];
    FilterKeepsAll([a, b], NewKey(Keys(none, CategoryKey), CategoryKey));
    assert CategoryKey([a, b][0]) == CategoryKey([a, b][1]);
  }

  /** `finalizeImport` for one mode, given the current collections: an overwrite takes the
      import as it is; a merge keeps both current collections as they are and appends only the
      imported records whose id is new, categories and prompts alike. */
  function Reconcile(current: ImportData, incoming: ImportData, mode: ImportMode): (r: ImportData)
    ensures mode == Overwrite ==> r == incoming
    ensures mode == Merge ==>
      && |current.categories| <= |r.categories| && r.categories[..|current.categories|] == current.categories
      && (forall c :: c in r.categories[|current.categories|..] <==>
            c in incoming.categories && CategoryKey(c) !in Keys(current.categories, CategoryKey))
    ensures mode == Merge ==>
      && |current.prompts| <= |r.prompts| && r.prompts[..|current.prompts|] == current.prompts
      && (forall p :: p in r.prompts[|current.prompts|..] <==>
            p in incoming.prompts && PromptKey(p) !in Keys(current.prompts, PromptKey))
  {
    match mode
    case Overwrite => incoming
    case Merge => ImportData(
      MergeById(current.categories, incoming.categories, CategoryKey),
      MergeById(current.prompts, incoming.prompts, PromptKey))
  }

  /** Exporting a snapshot, reading it back and importing it with overwrite reproduces the
      exported collections, whatever the store held in between. */
  lemma ExportImportRoundTrip(cats: seq<Category>, prompts: seq<PromptEntry>, exportedAt: string, current: ImportData)
    ensures ParseImport(Some(AsDocument(ExportSnapshot(cats, prompts, exportedAt)))).Some?
    ensures Reconcile(current, ParseImport(Some(AsDocument(ExportSnapshot(cats, prompts, exportedAt)))).value, Overwrite)
      == ImportData(cats, prompts)
  {
  }

  /** Merging a backup of the store into the store itself changes nothing. */
  lemma MergeOwnBackupIsNoOp(cats: seq<Category>, prompts: seq<PromptEntry>, exportedAt: string)
    ensures Reconcile(ImportData(cats, prompts), ParseImport(Some(AsDocument(ExportSnapshot(cats, prompts, exportedAt)))).value, Merge)
      == ImportData(cats, prompts)
  {
    MergeSelf(cats, CategoryKey);
    MergeSelf(prompts, PromptKey);
  }

  lemma MergeSelf<T(!new)>(s: seq<T>, key: T -> string)
    ensures MergeById(s, s, key) == s
  {
    FilterKeepsNone(s, NewKey(Keys(s, key), key));
  }
}
