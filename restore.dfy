/** The import tool (restore.js): it walks the directory tree an export
    left under `backups`, writes every document's field map back to the
    document store under its original path, and uploads every sidecar blob
    a field names to the storage bucket, replacing the field by the public
    download URL of the uploaded object.

    The local tree is only read. The walk is specified by the functions
    below; the `Importer` class carries the same walk as the source writes
    it, and each of its methods is proved to end in the state the functions
    give. */
module Restore {
  import opened Model
  import opened Naming
  import opened Retry
  import opened LocalFs

  /** An object of the bucket: the bytes uploaded and the download token
      recorded in its metadata. */
  datatype Blob = Blob(data: Content, token: string)

  /** What an import run changes: the document store (document path to
      field map), the bucket (object key to object), the progress log, and
      the number of upload attempts made so far. */
  datatype ImportState = ImportState(
    store: map<string, Fields>,
    blobs: map<string, Blob>,
    log: seq<string>,
    made: nat)

  /** What an import run reads: the extracted tree, the oracle of upload
      outcomes, the oracle of the tokens `v4()` returns (one per upload
      attempt), and the bucket's name. */
  datatype Env = Env(
    tree: FileTree,
    outcomes: seq<bool>,
    tokens: seq<string>,
    bucketName: string)

  /** The token upload attempt number `k` draws; an oracle that has run
      out draws the empty token. */
  function Token(tokens: seq<string>, k: int): string
  {
    if 0 <= k < |tokens| then tokens[k] else ""
  }

  datatype ImportStep = ImportStep(st: ImportState, ok: bool)
  datatype FieldsStep = FieldsStep(st: ImportState, data: Fields, ok: bool)

  /** The outcome of uploadObjectRetry: the public URL when it resolves,
      None when it rejects or never settles. */
  datatype UploadResult = UploadResult(st: ImportState, url: Option<string>)

  /** The outcome of one uploadObject call: the sidecar name did not
      decode and the call never settles, or it settled, with the public URL
      (resolved) or without (rejected). */
  datatype UploadOutcome = Undecodable | Settled(url: Option<string>)

  function ProgressLine(collection: string, document: string): string
  {
    "Restoring: " + collection + "/" + document
  }

  /** The two names the walk never takes for a collection (restore.js:41). */
  predicate Reserved(name: string)
  {
    name == FilesFolder || name == DataFilename
  }

  /** The attempts that can succeed: an upload of a path holding no file
      fails whatever the network does. */
  function Effective(env: Env, filepath: Path): seq<bool>
  {
    if filepath in env.tree.files then env.outcomes else []
  }

  /** No attempt can succeed on a path holding no file. */
  lemma ResolvesNeedsFile(env: Env, filepath: Path, start: nat, maxRetries: nat)
    ensures Resolves(Effective(env, filepath), start, maxRetries) ==> filepath in env.tree.files
  {
    if filepath !in env.tree.files {
      AllFail([], start, maxRetries);
    }
  }

  // ---------------------------------------------------------------------
  // Specification of the walk

  /** restore.js:75-93 with uploadObject (restore.js:95-119) inside it:
      when the sidecar name does not decode, the first attempt never
      settles and nothing is uploaded; otherwise the attempts go as
      `UploadPlanned` says. */
  function UploadRetry(env: Env, st: ImportState, filepath: Path, maxRetries: nat): UploadResult
  {
    match PlanUpload(filepath)
    case None => UploadResult(st, None)
    case Some(plan) => UploadPlanned(env, st, filepath, plan, maxRetries)
  }

  /** The attempts for a decoded sidecar name: up to `maxRetries`, each
      with a fresh token; the first one that succeeds stores the file under
      the key restore.js:106 builds (`UploadKeyAsWritten`, which is not
      always the object the URL names) with that token and resolves with the
      public URL. */
  function UploadPlanned(env: Env, st: ImportState, filepath: Path, plan: UploadPlan,
                         maxRetries: nat): UploadResult
  {
    var eff := Effective(env, filepath);
    var made := st.made + Attempts(eff, st.made, maxRetries);
    if Resolves(eff, st.made, maxRetries) then
      ResolvesNeedsFile(env, filepath, st.made, maxRetries);
      var token := Token(env.tokens, made - 1);
      UploadResult(st.(made := made,
                       blobs := st.blobs[UploadKeyAsWritten(plan) := Blob(env.tree.files[filepath], token)]),
                   Some(PublicUrl(env.bucketName, plan.rawFilename, token)))
    else UploadResult(st.(made := made), None)
  }

  /** restore.js:56-67, from field `i` on: every string field starting
      with the sentinel tag is restored as RestoreField says; the others
      are kept. */
  function RestoreFrom(env: Env, st: ImportState, data: Fields, docFolder: Path, i: nat): FieldsStep
    decreases |data| - i, 1
  {
    if i >= |data| then FieldsStep(st, data, true)
    else if IsSentinelName(data[i].value) then RestoreField(env, st, data, docFolder, i)
    else RestoreFrom(env, st, data, docFolder, i + 1)
  }

  /** restore.js:59-66, at a sentinel field: the sidecar file it names is
      uploaded; a non-empty URL replaces the field; a rejected upload
      aborts; the walk goes on with the next field. */
  function RestoreField(env: Env, st: ImportState, data: Fields, docFolder: Path, i: nat): FieldsStep
    requires i < |data| && IsSentinelName(data[i].value)
    decreases |data| - i, 0
  {
    var u := UploadRetry(env, st, BlobPath(docFolder, data[i].value.s), DefaultMaxRetries);
    if u.url.None? then FieldsStep(u.st, data, false)
    else if u.url.value != "" then
      RestoreFrom(env, u.st, data[i := Field(data[i].name, Str(u.url.value))], docFolder, i + 1)
    else RestoreFrom(env, u.st, data, docFolder, i + 1)
  }

  /** restore.js:38-39: list `folder`; a failed listing aborts. */
  function ImportCollections(env: Env, st: ImportState, folder: Path, path: string): ImportStep
    decreases |Subtree(env.tree, folder)|, 3, 0
  {
    match ReadDir(env.tree, folder)
    case None => ImportStep(st, false)
    case Some(names) =>
      ListedNamesNonEmpty(env.tree, folder);
      ImportEntries(env, st, folder, path, names, 0)
  }

  /** restore.js:40-43, from entry `i` on: the reserved names are
      skipped, every other entry is a collection. */
  function ImportEntries(env: Env, st: ImportState, folder: Path, path: string,
                        names: seq<string>, i: nat): ImportStep
    requires folder in Paths(env.tree) && forall k :: 0 <= k < |names| ==> names[k] != []
    decreases |Subtree(env.tree, folder)|, 2, |names| - i
  {
    if i >= |names| then ImportStep(st, true)
    else if Reserved(names[i]) then ImportEntries(env, st, folder, path, names, i + 1)
    else
      var r := ImportCollection(env, st, folder, path, names[i]);
      if !r.ok then r else ImportEntries(env, r.st, folder, path, names, i + 1)
  }

  /** restore.js:45-47: list the collection's folder; a failed listing
      (a file in the way) aborts. */
  function ImportCollection(env: Env, st: ImportState, folder: Path, path: string,
                           collection: string): ImportStep
    requires folder in Paths(env.tree) && collection != []
    decreases |Subtree(env.tree, folder)|, 1, 0
  {
    var colFolder := folder + "/" + collection;
    match ReadDir(env.tree, colFolder)
    case None => ImportStep(st, false)
    case Some(docs) =>
      ListedNamesNonEmpty(env.tree, colFolder);
      SubtreeShrinks(env.tree, folder, collection);
      ImportDocuments(env, st, colFolder, path + collection, collection, path, docs, 0)
  }

  /** restore.js:48, from document `j` on: every entry of the collection's
      folder is a document. */
  function ImportDocuments(env: Env, st: ImportState, colFolder: Path, colPath: string,
                          collection: string, path: string, docs: seq<string>, j: nat): ImportStep
    requires colFolder in Paths(env.tree) && forall k :: 0 <= k < |docs| ==> docs[k] != []
    decreases |Subtree(env.tree, colFolder)|, 1, |docs| - j
  {
    if j >= |docs| then ImportStep(st, true)
    else
      var r := ImportDocument(env, st, colFolder, colPath, collection, path, docs[j]);
      if !r.ok then r else ImportDocuments(env, r.st, colFolder, colPath, collection, path, docs, j + 1)
  }

  /** restore.js:49-70: log at the root level only; read `__data.json`
      (a missing or unreadable one aborts); restore the fields; set the
      document at `colPath/document`; recurse into the document's folder
      with `colPath/document/` as the new path prefix. */
  function ImportDocument(env: Env, st: ImportState, colFolder: Path, colPath: string,
                         collection: string, path: string, document: string): ImportStep
    requires colFolder in Paths(env.tree) && document != []
    decreases |Subtree(env.tree, colFolder)|, 0, 0
  {
    var st1 := if path == "" then st.(log := st.log + [ProgressLine(collection, document)]) else st;
    var docFolder := colFolder + "/" + document;
    match ReadData(env.tree, DataPath(docFolder))
    case None => ImportStep(st1, false)
    case Some(data) =>
      var r := RestoreFrom(env, st1, data, docFolder, 0);
      if !r.ok then ImportStep(r.st, false)
      else
        SubtreeShrinks(env.tree, colFolder, document);
        ImportCollections(env, r.st.(store := r.st.store[colPath + "/" + document := r.data]),
                         docFolder, colPath + "/" + document + "/")
  }

  /** restore.js:33: walk the extracted tree from `backups`. */
  function Import(env: Env, st: ImportState): ImportStep
  {
    ImportCollections(env, st, BackupFolder, "")
  }

  /** The outcome of a resolved upload, field by field, for the loop's
      proof. */
  lemma UploadPlannedResolves(env: Env, st: ImportState, filepath: Path, plan: UploadPlan, maxRetries: nat)
    requires Resolves(Effective(env, filepath), st.made, maxRetries)
    ensures var made := st.made + Attempts(Effective(env, filepath), st.made, maxRetries);
            var token := Token(env.tokens, made - 1);
            var u := UploadPlanned(env, st, filepath, plan, maxRetries);
            filepath in env.tree.files &&
            u.st.store == st.store && u.st.log == st.log && u.st.made == made &&
            u.st.blobs == st.blobs[UploadKeyAsWritten(plan) := Blob(env.tree.files[filepath], token)] &&
            u.url == Some(PublicUrl(env.bucketName, plan.rawFilename, token))
  {
    ResolvesNeedsFile(env, filepath, st.made, maxRetries);
  }

  /** The outcome of a rejected upload, field by field, for the loop's
      proof. */
  lemma UploadPlannedRejects(env: Env, st: ImportState, filepath: Path, plan: UploadPlan, maxRetries: nat)
    requires !Resolves(Effective(env, filepath), st.made, maxRetries)
    ensures var u := UploadPlanned(env, st, filepath, plan, maxRetries);
            u.st.store == st.store && u.st.blobs == st.blobs && u.st.log == st.log && u.url == None &&
            u.st.made == st.made + Attempts(Effective(env, filepath), st.made, maxRetries)
  {
  }

  // ---------------------------------------------------------------------
  // The walk as the source performs it

  class Importer {
    var store: map<string, Fields>
    var blobs: map<string, Blob>
    var log: seq<string>
    /** Upload attempts made so far. */
    var made: nat
    const tree: FileTree
    /** Oracle: whether upload attempt number k succeeds. */
    const outcomes: seq<bool>
    /** Oracle: the token `v4()` returns for upload attempt number k. */
    const tokens: seq<string>
    const bucketName: string

    function State(): ImportState
      reads this
    {
      ImportState(store, blobs, log, made)
    }

    function Environment(): Env
    {
      Env(tree, outcomes, tokens, bucketName)
    }

    constructor (store0: map<string, Fields>, blobs0: map<string, Blob>, tree0: FileTree,
                 outcomes0: seq<bool>, tokens0: seq<string>, bucketName0: string)
      ensures State() == ImportState(store0, blobs0, [], 0)
      ensures tree == tree0 && outcomes == outcomes0 && tokens == tokens0 && bucketName == bucketName0
    {
      store, blobs, log, made := store0, blobs0, [], 0;
      tree, outcomes, tokens, bucketName := tree0, outcomes0, tokens0, bucketName0;
    }

    /** One call of uploadObject (restore.js:95-119), as a reference for a
        single call: decode the sidecar name; when that throws, the call
        never settles. UploadObjectRetry does the decoding once and then
        calls UploadAttempt for each attempt. */
    method UploadObject(filepath: Path) returns (outcome: UploadOutcome)
      modifies this
      ensures PlanUpload(filepath).None? ==> outcome == Undecodable && State() == old(State())
      ensures PlanUpload(filepath).Some? ==>
                outcome.Settled? &&
                Attempted(old(State()), State(), outcome.url, filepath, PlanUpload(filepath).value)
    {
      var plan := PlanUpload(filepath);
      if plan.None? {
        return Undecodable;
      }
      var url := UploadAttempt(filepath, plan.value);
      outcome := Settled(url);
    }

    /** What one upload attempt for a decoded name does: it draws a token
        and uploads; the upload succeeds when a file is at `filepath` and the
        oracle allows it, and stores the file under the key restore.js:106
        builds. */
    ghost predicate Attempted(before: ImportState, after: ImportState, url: Option<string>,
                              filepath: Path, plan: UploadPlan)
    {
      var ok := Succeeds(Effective(Environment(), filepath), before.made);
      var token := Token(tokens, before.made);
      after.made == before.made + 1 && after.store == before.store && after.log == before.log &&
      (ok ==> filepath in tree.files &&
              url == Some(PublicUrl(bucketName, plan.rawFilename, token)) &&
              after.blobs == before.blobs[UploadKeyAsWritten(plan) := Blob(tree.files[filepath], token)]) &&
      (!ok ==> url.None? && after.blobs == before.blobs)
    }

    /** restore.js:101-117. */
    method UploadAttempt(filepath: Path, plan: UploadPlan) returns (url: Option<string>)
      modifies this
      ensures Attempted(old(State()), State(), url, filepath, plan)
    {
      var token := Token(tokens, made);
      if filepath in tree.files && made < |outcomes| && outcomes[made] {
        blobs := blobs[UploadKeyAsWritten(plan) := Blob(tree.files[filepath], token)];
        url := Some(PublicUrl(bucketName, plan.rawFilename, token));
      } else {
        url := None;
      }
      made := made + 1;
    }

    /** restore.js:75-93. Every attempt decodes the same name the same
        way, so the name is decoded once, before the first attempt; when it
        does not decode, the first attempt never settles. */
    method UploadObjectRetry(filepath: Path, maxRetries: nat) returns (url: Option<string>)
      modifies this
      ensures UploadResult(State(), url) == UploadRetry(Environment(), old(State()), filepath, maxRetries)
    {
      var decoded := PlanUpload(filepath);
      if decoded.None? {
        return None;
      }
      url := UploadAttempts(filepath, decoded.value, maxRetries);
    }

    /** restore.js:80-92: the attempts for a decoded name. */
    method UploadAttempts(filepath: Path, plan: UploadPlan, maxRetries: nat) returns (url: Option<string>)
      modifies this
      ensures UploadResult(State(), url) == UploadPlanned(Environment(), old(State()), filepath, plan, maxRetries)
    {
      ghost var eff := Effective(Environment(), filepath);
      ghost var st0 := State();
      var attempt := 0;
      while attempt < maxRetries
        invariant 0 <= attempt <= maxRetries
        invariant made == old(made) + attempt
        invariant forall k :: old(made) <= k < made ==> !Succeeds(eff, k)
        invariant store == old(store) && blobs == old(blobs) && log == old(log)
      {
        var got := UploadAttempt(filepath, plan);
        match got
        case Some(v) =>
          FirstSuccessAt(eff, old(made), maxRetries, attempt);
          UploadPlannedResolves(Environment(), st0, filepath, plan, maxRetries);
          ghost var u := UploadPlanned(Environment(), st0, filepath, plan, maxRetries);
          assert store == u.st.store && blobs == u.st.blobs && log == u.st.log && made == u.st.made;
          return Some(v);
        case None =>
          attempt := attempt + 1;
      }
      AllFail(eff, old(made), maxRetries);
      UploadPlannedRejects(Environment(), st0, filepath, plan, maxRetries);
      ghost var u := UploadPlanned(Environment(), st0, filepath, plan, maxRetries);
      assert store == u.st.store && blobs == u.st.blobs && log == u.st.log && made == u.st.made;
      url := None;
    }

    /** restore.js:56-67: the fields are restored in place, in order. */
    method RestoreFields(fields: Fields, documentFolder: Path) returns (data: Fields, ok: bool)
      modifies this
      ensures FieldsStep(State(), data, ok) ==
              RestoreFrom(Environment(), old(State()), fields, documentFolder, 0)
    {
      data := fields;
      ok := true;
      var i := 0;
      while i < |data| && ok
        invariant 0 <= i <= |data|
        invariant RestoreFrom(Environment(), old(State()), fields, documentFolder, 0) ==
                  if ok then RestoreFrom(Environment(), State(), data, documentFolder, i)
                  else FieldsStep(State(), data, false)
      {
        var datum := data[i].value;
        if datum.Str? && StartsWith(datum.s, SentinelTag) {
          var filepath := BlobPath(documentFolder, datum.s);
          var url := UploadObjectRetry(filepath, DefaultMaxRetries);
          if url.None? {
            ok := false;
          } else if url.value != "" {
            data := data[i := Field(data[i].name, Str(url.value))];
          }
        }
        i := i + 1;
      }
    }

    /** restore.js:38-73. */
    method WriteCollections(folder: Path, path: string) returns (ok: bool)
      modifies this
      ensures ImportStep(State(), ok) == ImportCollections(Environment(), old(State()), folder, path)
      decreases |Subtree(tree, folder)|, 2
    {
      var listing := ReadDir(tree, folder);
      if listing.None? {
        return false;
      }
      var collections := listing.value;
      ListedNamesNonEmpty(tree, folder);
      ok := true;
      var i := 0;
      while i < |collections| && ok
        invariant 0 <= i <= |collections|
        invariant ImportCollections(Environment(), old(State()), folder, path) ==
                  if ok then ImportEntries(Environment(), State(), folder, path, collections, i)
                  else ImportStep(State(), false)
      {
        var collection := collections[i];
        if !Reserved(collection) {
          ok := WriteCollection(folder, path, collection);
        }
        i := i + 1;
      }
    }

    /** restore.js:45-71, the body of the collection loop. */
    method WriteCollection(folder: Path, path: string, collection: string) returns (ok: bool)
      requires folder in Paths(tree) && collection != []
      modifies this
      ensures ImportStep(State(), ok) == ImportCollection(Environment(), old(State()), folder, path, collection)
      decreases |Subtree(tree, folder)|, 1
    {
      var collectionFolder := folder + "/" + collection;
      var collectionPath := path + collection;
      var documentListing := ReadDir(tree, collectionFolder);
      if documentListing.None? {
        return false;
      }
      var documents := documentListing.value;
      ListedNamesNonEmpty(tree, collectionFolder);
      SubtreeShrinks(tree, folder, collection);
      ok := true;
      var j := 0;
      while j < |documents| && ok
        invariant 0 <= j <= |documents|
        invariant ImportCollection(Environment(), old(State()), folder, path, collection) ==
                  if ok then ImportDocuments(Environment(), State(), collectionFolder, collectionPath,
                                             collection, path, documents, j)
                  else ImportStep(State(), false)
      {
        var document := documents[j];
        ok := WriteDocument(collectionFolder, collectionPath, collection, path, document);
        j := j + 1;
      }
    }

    /** restore.js:49-70, the body of the document loop. */
    method WriteDocument(collectionFolder: Path, collectionPath: string, collection: string,
                         path: string, document: string) returns (ok: bool)
      requires collectionFolder in Paths(tree) && document != []
      modifies this
      ensures ImportStep(State(), ok) ==
              ImportDocument(Environment(), old(State()), collectionFolder, collectionPath, collection, path, document)
      decreases |Subtree(tree, collectionFolder)|, 0
    {
      if path == "" {
        log := log + [ProgressLine(collection, document)];
      }
      ghost var st1 := State();
      assert st1.store == old(store) && st1.blobs == old(blobs) && st1.made == old(made);
      assert st1.log == if path == "" then old(log) + [ProgressLine(collection, document)] else old(log);
      assert st1 == if path == "" then old(State()).(log := old(log) + [ProgressLine(collection, document)])
                    else old(State());
      var documentFolder := collectionFolder + "/" + document;
      var data := ReadData(tree, DataPath(documentFolder));
      if data.None? {
        return false;
      }
      var restored, written := RestoreFields(data.value, documentFolder);
      ghost var r := RestoreFrom(Environment(), st1, data.value, documentFolder, 0);
      assert r.st == State() && r.data == restored && r.ok == written;
      if !written {
        return false;
      }
      store := store[collectionPath + "/" + document := restored];
      ghost var st3 := State();
      assert st3.blobs == r.st.blobs && st3.log == r.st.log && st3.made == r.st.made;
      assert st3.store == r.st.store[collectionPath + "/" + document := r.data];
      assert st3 == r.st.(store := r.st.store[collectionPath + "/" + document := r.data]);
      SubtreeShrinks(tree, collectionFolder, document);
      ok := WriteCollections(documentFolder, collectionPath + "/" + document + "/");
    }

    /** restore.js:33. */
    method Run() returns (ok: bool)
      modifies this
      ensures ImportStep(State(), ok) == Import(Environment(), old(State()))
    {
      ok := WriteCollections(BackupFolder, "");
    }
  }
}
