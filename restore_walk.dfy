/** What the import walk of restore.js (restore.js:38-73) does to the
    document store and the progress log, stated over the specification
    functions of module Restore. */
module RestoreWalk {
  import opened Model
  import opened Naming
  import opened LocalFs
  import opened Restore
  import opened RestoreProperties

  // ---------------------------------------------------------------------
  // Keys a walk writes

  /** Key `k` was added or given a new field map. */
  ghost predicate Changed(before: map<string, Fields>, after: map<string, Fields>, k: string)
  {
    k in after && (k !in before || after[k] != before[k])
  }

  /** No key is removed, every key written starts with `prefix`, and away
      from the root (`silent`) nothing is logged. */
  ghost predicate WalkEffect(before: ImportState, after: ImportState, prefix: string, silent: bool)
  {
    before.store.Keys <= after.store.Keys &&
    (forall k :: Changed(before.store, after.store, k) ==> StartsWith(k, prefix)) &&
    (silent ==> after.log == before.log)
  }

  /** Key `k` is the key `p` itself or lies under it. */
  predicate Within(k: string, p: string)
  {
    k == p || StartsWith(k, p + "/")
  }

  /** `name` is an entry of the directory at `folder`. */
  predicate Listed(t: FileTree, folder: Path, name: string)
  {
    ReadDir(t, folder).Some? && name in ReadDir(t, folder).value
  }

  lemma StartsWithTrans(s: string, p: string, q: string)
    requires StartsWith(s, p) && StartsWith(p, q)
    ensures StartsWith(s, q)
  {
    assert s[..|q|] == s[..|p|][..|q|];
  }

  lemma StartsWithJoin(p: string, q: string)
    ensures StartsWith(p + q, p)
  {
    assert (p + q)[..|p|] == p;
  }

  lemma WalkEffectTrans(a: ImportState, b: ImportState, c: ImportState, prefix: string, silent: bool)
    requires WalkEffect(a, b, prefix, silent) && WalkEffect(b, c, prefix, silent)
    ensures WalkEffect(a, c, prefix, silent)
  {
    forall k | Changed(a.store, c.store, k)
      ensures StartsWith(k, prefix)
    {
      if !Changed(b.store, c.store, k) {
        assert Changed(a.store, b.store, k);
      }
    }
  }

  /** A walk under a longer prefix is a walk under any prefix of it. */
  lemma WalkEffectWiden(a: ImportState, b: ImportState, prefix: string, longer: string,
                        silent: bool, quieter: bool)
    requires WalkEffect(a, b, longer, quieter) && StartsWith(longer, prefix) && (silent ==> quieter)
    ensures WalkEffect(a, b, prefix, silent)
  {
    forall k | Changed(a.store, b.store, k)
      ensures StartsWith(k, prefix)
    {
      StartsWithTrans(k, longer, prefix);
    }
  }

  // ---------------------------------------------------------------------
  // The field rewrite touches neither the store nor the log

  lemma UploadKeepsStore(env: Env, st: ImportState, filepath: Path)
    ensures var u := UploadRetry(env, st, filepath, DefaultMaxRetries);
            u.st.store == st.store && u.st.log == st.log
  {
    UploadRetryPlanned(env, st, filepath, DefaultMaxRetries);
    if PlanUpload(filepath).Some? {
      UploadPlannedOutcome(env, st, filepath, PlanUpload(filepath).value, DefaultMaxRetries);
    }
  }

  lemma {:induction false} RestoreFromKeeps(env: Env, st: ImportState, data: Fields, docFolder: Path, i: nat)
    ensures var r := RestoreFrom(env, st, data, docFolder, i);
            r.st.store == st.store && r.st.log == st.log
    decreases |data| - i, 1
  {
    if i < |data| {
      if IsSentinelName(data[i].value) {
        RestoreFieldKeeps(env, st, data, docFolder, i);
      } else {
        RestoreSkip(env, st, data, docFolder, i);
        RestoreFromKeeps(env, st, data, docFolder, i + 1);
      }
    }
  }

  /** RestoreFromKeeps at a sentinel field. */
  lemma {:induction false} RestoreFieldKeeps(env: Env, st: ImportState, data: Fields, docFolder: Path, i: nat)
    requires i < |data| && IsSentinelName(data[i].value)
    ensures var r := RestoreFrom(env, st, data, docFolder, i);
            r.st.store == st.store && r.st.log == st.log
    decreases |data| - i, 0
  {
    var filepath := BlobPath(docFolder, data[i].value.s);
    var u := UploadRetry(env, st, filepath, DefaultMaxRetries);
    UploadKeepsStore(env, st, filepath);
    if u.url.None? {
      RestoreRejected(env, st, data, docFolder, i);
    } else {
      RestoreResolved(env, st, data, docFolder, i);
      RestoreFromKeeps(env, u.st, data[i := Field(data[i].name, Str(u.url.value))], docFolder, i + 1);
    }
  }

  /** The bucket object at `key` is new or different. */
  ghost predicate ObjectChanged(before: map<string, Blob>, after: map<string, Blob>, key: string)
  {
    key in after && (key !in before || after[key] != before[key])
  }

  /** Field `f` of the document at `docFolder` is a sentinel whose sidecar
      name decodes, and its upload goes to `key` (restore.js:106). */
  ghost predicate UploadsTo(docFolder: Path, f: Field, key: string)
  {
    IsSentinelName(f.value) && PlanUpload(BlobPath(docFolder, f.value.s)).Some? &&
    key == UploadKeyAsWritten(PlanUpload(BlobPath(docFolder, f.value.s)).value)
  }

  /** Only sentinel fields are uploaded: when no field from `i` on is a
      sentinel, the rewrite attempts nothing and changes nothing. */
  lemma {:induction false} RestoreFromNoSentinels(env: Env, st: ImportState, data: Fields,
                                                  docFolder: Path, i: nat)
    requires forall k :: i <= k < |data| ==> !IsSentinelName(data[k].value)
    ensures RestoreFrom(env, st, data, docFolder, i) == FieldsStep(st, data, true)
    decreases |data| - i
  {
    if i < |data| {
      RestoreFromNoSentinels(env, st, data, docFolder, i + 1);
    }
  }

  /** Every bucket object the rewrite writes is the upload of a sentinel
      field from `i` on, under the key restore.js:106 builds for it. */
  lemma {:induction false} RestoreFromUploads(env: Env, st: ImportState, data: Fields, docFolder: Path, i: nat)
    ensures var r := RestoreFrom(env, st, data, docFolder, i);
            forall key :: ObjectChanged(st.blobs, r.st.blobs, key) ==>
              exists k :: i <= k < |data| && UploadsTo(docFolder, data[k], key)
    decreases |data| - i, 1
  {
    if i < |data| {
      if IsSentinelName(data[i].value) {
        RestoreFieldUploads(env, st, data, docFolder, i);
      } else {
        RestoreSkip(env, st, data, docFolder, i);
        RestoreFromUploads(env, st, data, docFolder, i + 1);
        var r := RestoreFrom(env, st, data, docFolder, i);
        forall key | ObjectChanged(st.blobs, r.st.blobs, key)
          ensures exists k :: i <= k < |data| && UploadsTo(docFolder, data[k], key)
        {
          var k :| i + 1 <= k < |data| && UploadsTo(docFolder, data[k], key);
        }
      }
    }
  }

  /** RestoreFromUploads at a sentinel field. */
  lemma {:induction false} RestoreFieldUploads(env: Env, st: ImportState, data: Fields, docFolder: Path, i: nat)
    requires i < |data| && IsSentinelName(data[i].value)
    ensures var r := RestoreFrom(env, st, data, docFolder, i);
            forall key :: ObjectChanged(st.blobs, r.st.blobs, key) ==>
              exists k :: i <= k < |data| && UploadsTo(docFolder, data[k], key)
    decreases |data| - i, 0
  {
    var filepath := BlobPath(docFolder, data[i].value.s);
    var u := UploadRetry(env, st, filepath, DefaultMaxRetries);
    UploadRetryPlanned(env, st, filepath, DefaultMaxRetries);
    if PlanUpload(filepath).Some? {
      UploadPlannedOutcome(env, st, filepath, PlanUpload(filepath).value, DefaultMaxRetries);
    }
    if u.url.None? {
      RestoreRejected(env, st, data, docFolder, i);
    } else {
      RestoreResolved(env, st, data, docFolder, i);
      var next := data[i := Field(data[i].name, Str(u.url.value))];
      RestoreFromUploads(env, u.st, next, docFolder, i + 1);
      var r := RestoreFrom(env, u.st, next, docFolder, i + 1);
      forall key | ObjectChanged(st.blobs, r.st.blobs, key)
        ensures exists k :: i <= k < |data| && UploadsTo(docFolder, data[k], key)
      {
        if ObjectChanged(u.st.blobs, r.st.blobs, key) {
          var k :| i + 1 <= k < |next| && UploadsTo(docFolder, next[k], key);
          assert next[k] == data[k];
        } else {
          assert UploadsTo(docFolder, data[i], key);
        }
      }
    }
  }

  // ---------------------------------------------------------------------
  // Where the walk writes (restore.js:40-43, 46, 69-70)

  /** Every key the walk of `folder` writes lies under `path` followed by
      a listed entry of `folder` that is not reserved: `__files` and
      `__data.json` are never walked as collections. Nothing is removed,
      and below the root nothing is logged. */
  lemma {:induction false} CollectionsEffect(env: Env, st: ImportState, folder: Path, path: string)
    ensures var r := ImportCollections(env, st, folder, path);
            WalkEffect(st, r.st, path, path != "") &&
            forall k :: Changed(st.store, r.st.store, k) ==>
              exists c :: Listed(env.tree, folder, c) && !Reserved(c) && StartsWith(k, path + c + "/")
    decreases |Subtree(env.tree, folder)|, 3, 0
  {
    match ReadDir(env.tree, folder)
    case None =>
    case Some(names) =>
      ListedNamesNonEmpty(env.tree, folder);
      EntriesEffect(env, st, folder, path, names, 0);
      var r := ImportCollections(env, st, folder, path);
      forall k | Changed(st.store, r.st.store, k)
        ensures exists c :: Listed(env.tree, folder, c) && !Reserved(c) && StartsWith(k, path + c + "/")
      {
        var m :| 0 <= m < |names| && !Reserved(names[m]) && StartsWith(k, path + names[m] + "/");
        assert Listed(env.tree, folder, names[m]);
      }
  }

  /** CollectionsEffect from entry `i` on. */
  lemma {:induction false} EntriesEffect(env: Env, st: ImportState, folder: Path, path: string,
                                         names: seq<string>, i: nat)
    requires folder in Paths(env.tree) && forall k :: 0 <= k < |names| ==> names[k] != []
    ensures var r := ImportEntries(env, st, folder, path, names, i);
            WalkEffect(st, r.st, path, path != "") &&
            forall k :: Changed(st.store, r.st.store, k) ==>
              exists m :: i <= m < |names| && !Reserved(names[m]) && StartsWith(k, path + names[m] + "/")
    decreases |Subtree(env.tree, folder)|, 2, |names| - i
  {
    if i < |names| {
      if Reserved(names[i]) {
        EntriesEffect(env, st, folder, path, names, i + 1);
      } else {
        var r := ImportCollection(env, st, folder, path, names[i]);
        CollectionEffect(env, st, folder, path, names[i]);
        StartsWithJoin(path, names[i] + "/");
        assert path + names[i] + "/" == path + (names[i] + "/");
        WalkEffectWiden(st, r.st, path, path + names[i] + "/", path != "", path != "");
        if r.ok {
          var last := ImportEntries(env, r.st, folder, path, names, i + 1);
          EntriesEffect(env, r.st, folder, path, names, i + 1);
          WalkEffectTrans(st, r.st, last.st, path, path != "");
          forall k | Changed(st.store, last.st.store, k)
            ensures exists m :: i <= m < |names| && !Reserved(names[m]) && StartsWith(k, path + names[m] + "/")
          {
            if !Changed(r.st.store, last.st.store, k) {
              assert Changed(st.store, r.st.store, k);
            }
          }
        }
      }
    }
  }

  /** Every key the walk of one collection writes lies under
      `path + collection + "/"` (restore.js:46). */
  lemma {:induction false} CollectionEffect(env: Env, st: ImportState, folder: Path, path: string,
                                            collection: string)
    requires folder in Paths(env.tree) && collection != []
    ensures WalkEffect(st, ImportCollection(env, st, folder, path, collection).st,
                       path + collection + "/", path != "")
    decreases |Subtree(env.tree, folder)|, 1, 0
  {
    var colFolder := folder + "/" + collection;
    match ReadDir(env.tree, colFolder)
    case None =>
    case Some(docs) =>
      ListedNamesNonEmpty(env.tree, colFolder);
      SubtreeShrinks(env.tree, folder, collection);
      DocumentsEffect(env, st, colFolder, path + collection, collection, path, docs, 0);
  }

  /** CollectionEffect from document `j` on. */
  lemma {:induction false} DocumentsEffect(env: Env, st: ImportState, colFolder: Path, colPath: string,
                                           collection: string, path: string, docs: seq<string>, j: nat)
    requires colFolder in Paths(env.tree) && forall k :: 0 <= k < |docs| ==> docs[k] != []
    ensures var r := ImportDocuments(env, st, colFolder, colPath, collection, path, docs, j);
            WalkEffect(st, r.st, colPath + "/", path != "") &&
            forall k :: Changed(st.store, r.st.store, k) ==>
              exists m :: j <= m < |docs| && Within(k, colPath + "/" + docs[m])
    decreases |Subtree(env.tree, colFolder)|, 1, |docs| - j
  {
    if j < |docs| {
      var r := ImportDocument(env, st, colFolder, colPath, collection, path, docs[j]);
      DocumentEffect(env, st, colFolder, colPath, collection, path, docs[j]);
      if r.ok {
        var last := ImportDocuments(env, r.st, colFolder, colPath, collection, path, docs, j + 1);
        DocumentsEffect(env, r.st, colFolder, colPath, collection, path, docs, j + 1);
        WalkEffectTrans(st, r.st, last.st, colPath + "/", path != "");
        forall k | Changed(st.store, last.st.store, k)
          ensures exists m :: j <= m < |docs| && Within(k, colPath + "/" + docs[m])
        {
          if !Changed(r.st.store, last.st.store, k) {
            assert Changed(st.store, r.st.store, k);
          }
        }
      }
    }
  }

  /** One document writes its own key `colPath/document` and, through the
      walk of its folder, keys under `colPath/document/` (restore.js:69-70). */
  lemma {:induction false} DocumentEffect(env: Env, st: ImportState, colFolder: Path, colPath: string,
                                          collection: string, path: string, document: string)
    requires colFolder in Paths(env.tree) && document != []
    ensures var r := ImportDocument(env, st, colFolder, colPath, collection, path, document);
            WalkEffect(st, r.st, colPath + "/", path != "") &&
            forall k :: Changed(st.store, r.st.store, k) ==> Within(k, colPath + "/" + document)
    decreases |Subtree(env.tree, colFolder)|, 0, 0
  {
    var st1 := if path == "" then st.(log := st.log + [ProgressLine(collection, document)]) else st;
    var docFolder := colFolder + "/" + document;
    assert WalkEffect(st, st1, colPath + "/", path != "");
    match ReadData(env.tree, DataPath(docFolder))
    case None =>
    case Some(data) =>
      var r := RestoreFrom(env, st1, data, docFolder, 0);
      RestoreFromKeeps(env, st1, data, docFolder, 0);
      if r.ok {
        var key := colPath + "/" + document;
        var st3 := r.st.(store := r.st.store[key := r.data]);
        StartsWithJoin(colPath + "/", document);
        assert WalkEffect(st, st3, colPath + "/", path != "");
        SubtreeShrinks(env.tree, colFolder, document);
        CollectionsEffect(env, st3, docFolder, key + "/");
        var last := ImportCollections(env, st3, docFolder, key + "/");
        StartsWithJoin(colPath + "/", document + "/");
        assert key + "/" == colPath + "/" + (document + "/");
        WalkEffectWiden(st3, last.st, colPath + "/", key + "/", path != "", true);
        WalkEffectTrans(st, st3, last.st, colPath + "/", path != "");
        forall k | Changed(st.store, last.st.store, k)
          ensures Within(k, key)
        {
          if !Changed(st3.store, last.st.store, k) {
            assert Changed(st.store, st3.store, k);
          }
        }
      }
  }

  // ---------------------------------------------------------------------
  // What the walk stores (restore.js:54-69)

  /** The store holds, at `key`, the fields of the data file of
      `docFolder` in their order, each sentinel field restored to a public
      URL for its sidecar and every other field as it was. */
  ghost predicate HoldsDocument(env: Env, store: map<string, Fields>, docFolder: Path, key: string)
  {
    ReadData(env.tree, DataPath(docFolder)).Some? && key in store &&
    FieldsRestored(env.bucketName, docFolder, ReadData(env.tree, DataPath(docFolder)).value, store[key], 0, true)
  }

  lemma HoldsDocumentKept(env: Env, before: ImportState, after: ImportState, docFolder: Path, key: string)
    requires HoldsDocument(env, before.store, docFolder, key)
    requires before.store.Keys <= after.store.Keys && !Changed(before.store, after.store, key)
    ensures HoldsDocument(env, after.store, docFolder, key)
  {
  }

  /** The names of a listing: non-empty, without a slash, each once. */
  predicate ProperNames(names: seq<string>)
  {
    (forall k :: 0 <= k < |names| ==> names[k] != [] && '/' !in names[k]) &&
    (forall a, b :: 0 <= a < b < |names| ==> names[a] != names[b])
  }

  lemma ListingProper(t: FileTree, folder: Path)
    requires folder in t.dirs
    ensures ReadDir(t, folder).Some? && ProperNames(ReadDir(t, folder).value)
  {
    var names := ReadDir(t, folder).value;
    ReadDirListsEntries(t, folder);
    assert forall k :: 0 <= k < |names| ==> names[k] in names;
    forall a, b | 0 <= a < b < |names|
      ensures names[a] != names[b]
    {
      StrLessIrreflexive(names[a]);
    }
  }

  /** Distinct names without a slash are keys apart. */
  lemma DistinctKeysApart(prefix: string, a: string, b: string)
    requires a != b && '/' !in a && '/' !in b
    ensures !Within(prefix + a, prefix + b)
  {
    var k := prefix + a;
    assert k[|prefix|..] == a && (prefix + b)[|prefix|..] == b;
    if |b| < |a| {
      assert k[|prefix| + |b|] == a[|b|] && (prefix + b + "/")[|prefix| + |b|] == '/';
      assert a[|b|] in a;
    }
  }

  /** Distinct names without a slash head disjoint key ranges. */
  lemma DistinctRangesApart(prefix: string, a: string, b: string, tail: string)
    requires a != b && '/' !in a && '/' !in b
    ensures !StartsWith(prefix + a + "/" + tail, prefix + b + "/")
  {
    var k, h := prefix + a + "/" + tail, prefix + b + "/";
    if |b| < |a| {
      assert k[|prefix| + |b|] == a[|b|] && h[|prefix| + |b|] == '/';
      assert a[|b|] in a;
    } else if |b| == |a| {
      var n := |prefix| + |a|;
      assert k[..n][|prefix|..] == a && h[..n][|prefix|..] == b;
    } else {
      assert k[|prefix| + |a|] == '/' && h[|prefix| + |a|] == b[|a|];
      assert b[|a|] in b;
    }
  }

  /** The path below `at` that the pairs of `rest` (a collection name,
      then a document name, and so on) lead to: a document folder of the
      local tree, or the document's key in the store. */
  function Descend(at: string, rest: seq<string>): string
    decreases |rest|
  {
    if |rest| < 2 then at else Descend(at + "/" + rest[0] + "/" + rest[1], rest[2..])
  }

  /** `rest` leads from the document folder `docFolder` to a document the
      walk reaches: each collection name is a listed entry that is not
      reserved, and each document name is listed in that collection. */
  ghost predicate Reaches(t: FileTree, docFolder: Path, rest: seq<string>)
    decreases |rest|
  {
    rest == [] ||
    (|rest| >= 2 && Listed(t, docFolder, rest[0]) && !Reserved(rest[0]) &&
     Listed(t, docFolder + "/" + rest[0], rest[1]) &&
     Reaches(t, docFolder + "/" + rest[0] + "/" + rest[1], rest[2..]))
  }

  /** A key reached from `at` is `at` or lies under it. */
  lemma {:induction false} DescendWithin(at: string, rest: seq<string>)
    ensures Within(Descend(at, rest), at)
    decreases |rest|
  {
    if |rest| >= 2 {
      var next := at + "/" + rest[0] + "/" + rest[1];
      DescendWithin(next, rest[2..]);
      var k := Descend(next, rest[2..]);
      assert next == (at + "/") + (rest[0] + "/" + rest[1]);
      StartsWithJoin(at + "/", rest[0] + "/" + rest[1]);
      if k != next {
        StartsWithJoin(next, "/");
        StartsWithTrans(k, next + "/", next);
        StartsWithTrans(k, next, at + "/");
      }
    }
  }

  /** A key within `prefix + a` is not within `prefix + b` for another
      name `b`. */
  lemma WithinApart(prefix: string, a: string, b: string, k: string)
    requires Within(k, prefix + a) && a != b && '/' !in a && '/' !in b
    ensures !Within(k, prefix + b)
  {
    if k == prefix + a {
      DistinctKeysApart(prefix, a, b);
    } else {
      var head := prefix + a + "/";
      var tail := k[|head|..];
      assert k == head + tail;
      DistinctRangesApart(prefix, a, b, tail);
      assert k[|prefix| + |a|] == '/';
      if |k| == |prefix| + |b| {
        assert k[|prefix|..] != b by {
          assert k[|prefix|..][|a|] == '/';
        }
      }
    }
  }

  /** A key under `prefix + a + "/"` is not under `prefix + b + "/"` for
      another name `b`. */
  lemma RangesApart(prefix: string, a: string, b: string, k: string)
    requires StartsWith(k, prefix + a + "/") && a != b && '/' !in a && '/' !in b
    ensures !StartsWith(k, prefix + b + "/")
  {
    var head := prefix + a + "/";
    assert k == head + k[|head|..];
    DistinctRangesApart(prefix, a, b, k[|head|..]);
  }

  /** restore.js:49-70: a document whose import completes is in the store
      at `colPath/document`, holding its data file's fields restored, and so
      is every document below it that its folder's walk reaches, at the key
      the nested prefixes give it; the walk of the document's own folder
      writes only under `colPath/document/` and so leaves the document's
      own key alone. */
  lemma {:induction false} DocumentStored(env: Env, st: ImportState, colFolder: Path, colPath: string,
                                          collection: string, path: string, document: string)
    requires colFolder in Paths(env.tree) && document != []
    requires ImportDocument(env, st, colFolder, colPath, collection, path, document).ok
    ensures var r := ImportDocument(env, st, colFolder, colPath, collection, path, document);
            forall rest :: Reaches(env.tree, colFolder + "/" + document, rest) ==>
              HoldsDocument(env, r.st.store, Descend(colFolder + "/" + document, rest),
                            Descend(colPath + "/" + document, rest))
    decreases |Subtree(env.tree, colFolder)|, 0, 0
  {
    var st1 := if path == "" then st.(log := st.log + [ProgressLine(collection, document)]) else st;
    var docFolder := colFolder + "/" + document;
    var data := ReadData(env.tree, DataPath(docFolder)).value;
    var r := RestoreFrom(env, st1, data, docFolder, 0);
    RestoreFromFields(env, st1, data, docFolder, 0);
    var key := colPath + "/" + document;
    var st3 := r.st.(store := r.st.store[key := r.data]);
    SubtreeShrinks(env.tree, colFolder, document);
    CollectionsEffect(env, st3, docFolder, key + "/");
    var last := ImportCollections(env, st3, docFolder, key + "/");
    assert !StartsWith(key, key + "/");
    HoldsDocumentKept(env, st3, last.st, docFolder, key);
    CollectionsStored(env, st3, docFolder, key + "/");
    forall rest | Reaches(env.tree, docFolder, rest)
      ensures HoldsDocument(env, last.st.store, Descend(docFolder, rest), Descend(key, rest))
    {
      if rest != [] {
        assert Descend(docFolder, rest) == Descend(docFolder + "/" + rest[0] + "/" + rest[1], rest[2..]);
        assert Descend(key, rest) == Descend(key + "/" + rest[0] + "/" + rest[1], rest[2..]);
      }
    }
  }

  /** DocumentStored for every document from `j` on: a later sibling
      writes only its own key and keys under it. */
  lemma {:induction false} DocumentsStored(env: Env, st: ImportState, colFolder: Path, colPath: string,
                                           collection: string, path: string, docs: seq<string>, j: nat)
    requires colFolder in Paths(env.tree) && ProperNames(docs)
    requires ImportDocuments(env, st, colFolder, colPath, collection, path, docs, j).ok
    ensures var r := ImportDocuments(env, st, colFolder, colPath, collection, path, docs, j);
            forall m, rest :: j <= m < |docs| && Reaches(env.tree, colFolder + "/" + docs[m], rest) ==>
              HoldsDocument(env, r.st.store, Descend(colFolder + "/" + docs[m], rest),
                            Descend(colPath + "/" + docs[m], rest))
    decreases |Subtree(env.tree, colFolder)|, 1, |docs| - j
  {
    if j < |docs| {
      var r := ImportDocument(env, st, colFolder, colPath, collection, path, docs[j]);
      DocumentStored(env, st, colFolder, colPath, collection, path, docs[j]);
      var last := ImportDocuments(env, r.st, colFolder, colPath, collection, path, docs, j + 1);
      DocumentsStored(env, r.st, colFolder, colPath, collection, path, docs, j + 1);
      DocumentsEffect(env, r.st, colFolder, colPath, collection, path, docs, j + 1);
      forall rest | Reaches(env.tree, colFolder + "/" + docs[j], rest)
        ensures HoldsDocument(env, last.st.store, Descend(colFolder + "/" + docs[j], rest),
                              Descend(colPath + "/" + docs[j], rest))
      {
        var k := Descend(colPath + "/" + docs[j], rest);
        DescendWithin(colPath + "/" + docs[j], rest);
        forall m | j + 1 <= m < |docs|
          ensures !Within(k, colPath + "/" + docs[m])
        {
          WithinApart(colPath + "/", docs[j], docs[m], k);
        }
        HoldsDocumentKept(env, r.st, last.st, Descend(colFolder + "/" + docs[j], rest), k);
      }
    }
  }

  /** restore.js:45-70: after a collection's import completes, every
      document its folder lists is stored at `path + collection + "/" +
      document`, and every document below those at its nested key. */
  lemma {:induction false} CollectionStored(env: Env, st: ImportState, folder: Path, path: string,
                                            collection: string)
    requires folder in Paths(env.tree) && collection != []
    requires ImportCollection(env, st, folder, path, collection).ok
    ensures var r := ImportCollection(env, st, folder, path, collection);
            forall d, rest :: Listed(env.tree, folder + "/" + collection, d) &&
                              Reaches(env.tree, folder + "/" + collection + "/" + d, rest) ==>
              HoldsDocument(env, r.st.store, Descend(folder + "/" + collection + "/" + d, rest),
                            Descend(path + collection + "/" + d, rest))
    decreases |Subtree(env.tree, folder)|, 1, 0
  {
    var colFolder := folder + "/" + collection;
    var docs := ReadDir(env.tree, colFolder).value;
    ListingProper(env.tree, colFolder);
    ListedNamesNonEmpty(env.tree, colFolder);
    SubtreeShrinks(env.tree, folder, collection);
    DocumentsStored(env, st, colFolder, path + collection, collection, path, docs, 0);
    forall d | Listed(env.tree, colFolder, d)
      ensures exists m :: 0 <= m < |docs| && docs[m] == d
    {
    }
  }

  /** CollectionsStored from entry `i` on: a later collection writes only
      under its own name. */
  lemma {:induction false} EntriesStored(env: Env, st: ImportState, folder: Path, path: string,
                                         names: seq<string>, i: nat)
    requires folder in Paths(env.tree) && ProperNames(names)
    requires ImportEntries(env, st, folder, path, names, i).ok
    ensures var r := ImportEntries(env, st, folder, path, names, i);
            forall m, d, rest :: i <= m < |names| && !Reserved(names[m]) &&
                                 Listed(env.tree, folder + "/" + names[m], d) &&
                                 Reaches(env.tree, folder + "/" + names[m] + "/" + d, rest) ==>
              HoldsDocument(env, r.st.store, Descend(folder + "/" + names[m] + "/" + d, rest),
                            Descend(path + names[m] + "/" + d, rest))
    decreases |Subtree(env.tree, folder)|, 2, |names| - i
  {
    if i < |names| {
      if Reserved(names[i]) {
        EntriesStored(env, st, folder, path, names, i + 1);
      } else {
        var r := ImportCollection(env, st, folder, path, names[i]);
        CollectionStored(env, st, folder, path, names[i]);
        var last := ImportEntries(env, r.st, folder, path, names, i + 1);
        EntriesStored(env, r.st, folder, path, names, i + 1);
        EntriesEffect(env, r.st, folder, path, names, i + 1);
        forall d, rest | Listed(env.tree, folder + "/" + names[i], d) &&
                         Reaches(env.tree, folder + "/" + names[i] + "/" + d, rest)
          ensures HoldsDocument(env, last.st.store, Descend(folder + "/" + names[i] + "/" + d, rest),
                                Descend(path + names[i] + "/" + d, rest))
        {
          var k := Descend(path + names[i] + "/" + d, rest);
          DescendWithin(path + names[i] + "/" + d, rest);
          StartsWithJoin(path + names[i] + "/", d);
          if k != path + names[i] + "/" + d {
            StartsWithJoin(path + names[i] + "/" + d, "/");
            StartsWithTrans(k, path + names[i] + "/" + d + "/", path + names[i] + "/" + d);
          }
          StartsWithTrans(k, path + names[i] + "/" + d, path + names[i] + "/");
          forall m | i + 1 <= m < |names|
            ensures !StartsWith(k, path + names[m] + "/")
          {
            RangesApart(path, names[i], names[m], k);
          }
          HoldsDocumentKept(env, r.st, last.st, Descend(folder + "/" + names[i] + "/" + d, rest), k);
        }
      }
    }
  }

  /** restore.js:38-73: after the walk of `folder` completes, every
      document of every listed collection that is not reserved is stored
      at `path + collection + "/" + document`, its fields restored, and so
      is every document the walk reaches below those, at its nested key. */
  lemma {:induction false} CollectionsStored(env: Env, st: ImportState, folder: Path, path: string)
    requires ImportCollections(env, st, folder, path).ok
    ensures var r := ImportCollections(env, st, folder, path);
            forall c, d, rest :: Listed(env.tree, folder, c) && !Reserved(c) &&
                                 Listed(env.tree, folder + "/" + c, d) &&
                                 Reaches(env.tree, folder + "/" + c + "/" + d, rest) ==>
              HoldsDocument(env, r.st.store, Descend(folder + "/" + c + "/" + d, rest),
                            Descend(path + c + "/" + d, rest))
    decreases |Subtree(env.tree, folder)|, 3, 0
  {
    var names := ReadDir(env.tree, folder).value;
    ListingProper(env.tree, folder);
    ListedNamesNonEmpty(env.tree, folder);
    EntriesStored(env, st, folder, path, names, 0);
    forall c | Listed(env.tree, folder, c)
      ensures exists m :: 0 <= m < |names| && names[m] == c
    {
    }
  }

  /** restore.js:33-46: every key an import writes, completed or not,
      lies under a collection folder listed in `backups` that is not one
      of the reserved names. */
  lemma ImportWritesUnderCollections(env: Env, st: ImportState)
    ensures var r := Import(env, st);
            forall k :: Changed(st.store, r.st.store, k) ==>
              exists c :: Listed(env.tree, BackupFolder, c) && !Reserved(c) && StartsWith(k, c + "/")
  {
    var r := Import(env, st);
    CollectionsEffect(env, st, BackupFolder, "");
    forall k | Changed(st.store, r.st.store, k)
      ensures exists c :: Listed(env.tree, BackupFolder, c) && !Reserved(c) && StartsWith(k, c + "/")
    {
      var c :| Listed(env.tree, BackupFolder, c) && !Reserved(c) && StartsWith(k, "" + c + "/");
      assert "" + c == c;
    }
  }

  /** restore.js:33-73: a completed import mirrors the extracted tree in
      the store at every depth: every document of every collection folder
      under `backups` other than the reserved names is stored at
      `collection/document` with its fields restored, and every document
      below it that the walk reaches is stored at its nested key
      `collection/document/collection/document/...`. */
  lemma ImportMirrorsTree(env: Env, st: ImportState)
    requires Import(env, st).ok
    ensures var r := Import(env, st);
            forall c, d, rest :: Listed(env.tree, BackupFolder, c) && !Reserved(c) &&
                                 Listed(env.tree, BackupFolder + "/" + c, d) &&
                                 Reaches(env.tree, BackupFolder + "/" + c + "/" + d, rest) ==>
              HoldsDocument(env, r.st.store, Descend(BackupFolder + "/" + c + "/" + d, rest),
                            Descend(c + "/" + d, rest))
  {
    var r := Import(env, st);
    CollectionsStored(env, st, BackupFolder, "");
    forall c, d, rest | Listed(env.tree, BackupFolder, c) && !Reserved(c) &&
                        Listed(env.tree, BackupFolder + "/" + c, d) &&
                        Reaches(env.tree, BackupFolder + "/" + c + "/" + d, rest)
      ensures HoldsDocument(env, r.st.store, Descend(BackupFolder + "/" + c + "/" + d, rest),
                            Descend(c + "/" + d, rest))
    {
      assert "" + c == c;
    }
  }
}
