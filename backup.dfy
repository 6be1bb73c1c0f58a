/** The export tool (backup.js): it walks the document store's
    collection/document tree, mirrors it as directories under `backups`,
    downloads every blob a document field points to into the document's
    `__files` folder, and writes each document's rewritten field map to its
    `__data.json`.

    The walk is specified by the functions below, which return the state
    left behind and whether the walk completed; the `Exporter` class carries
    the same walk as the source writes it, with loops that update the state
    in place, and each of its methods is proved to end in the state the
    functions give. */
module Backup {
  import opened Model
  import opened Naming
  import opened Retry
  import opened LocalFs

  /** The document store's tree, as its listing calls return it. */
  datatype Collection = Collection(id: string, docs: seq<Document>)
  datatype Document = Document(id: string, data: Fields, children: seq<Collection>)

  /** What an export run changes: the local tree, the progress log, and
      the number of download attempts made so far (which fixes the oracle
      outcome the next attempt gets). */
  datatype ExportState = ExportState(
    dirs: set<Path>,
    files: map<Path, Content>,
    log: seq<string>,
    made: nat)

  /** The state after a step, and whether it completed (false: a rejected
      download aborted the walk). */
  datatype Step = Step(st: ExportState, ok: bool)

  /** The state after rewriting a document's fields, and the fields. */
  datatype DocStep = DocStep(st: ExportState, data: Fields, ok: bool)

  /** The outcome of downloadObjectRetry: Some(0) when it resolves, None
      when it rejects. */
  datatype Transfer = Transfer(st: ExportState, res: Option<int>)

  function ProgressLine(collectionId: string, documentId: string): string
  {
    "Backing Up: " + collectionId + "/" + documentId
  }

  // ---------------------------------------------------------------------
  // Specification of the walk

  /** The attempts that can succeed: the write stream a download opens
      (backup.js:112, 118-120) errors whatever the network does when the
      document's `__files` folder is missing or a folder sits at the file's
      path. */
  function Downloadable(st: ExportState, outcomes: seq<bool>, folder: Path, filename: string): seq<bool>
  {
    if folder + "/" + FilesFolder in st.dirs && BlobPath(folder, filename) !in st.dirs then outcomes
    else []
  }

  /** backup.js:89-107, for the file `filename` of the `__files` folder of
      document folder `folder`: up to `maxRetries` attempts; the first
      successful one writes the blob to that file and resolves with 0. */
  function DownloadRetry(st: ExportState, outcomes: seq<bool>, url: string,
                         folder: Path, filename: string, maxRetries: nat): Transfer
  {
    var eff := Downloadable(st, outcomes, folder, filename);
    var made := st.made + Attempts(eff, st.made, maxRetries);
    if Resolves(eff, st.made, maxRetries) then
      Transfer(st.(made := made, files := st.files[BlobPath(folder, filename) := BlobFile(url)]), Some(0))
    else
      Transfer(st.(made := made), None)
  }

  /** backup.js:74-84, from field `i` on: every string field starting with
      the blob prefix is downloaded into `__files` under its local name and,
      when the download resolves with 0, replaced by that name; a rejected
      download aborts. */
  function RehostFrom(st: ExportState, outcomes: seq<bool>, data: Fields,
                      folder: Path, i: nat): DocStep
    decreases |data| - i
  {
    if i >= |data| then DocStep(st, data, true)
    else
      var datum := data[i].value;
      if IsBlobUrl(datum) then
        var filename := LocalName(datum.s);
        var t := DownloadRetry(st, outcomes, datum.s, folder, filename, DefaultMaxRetries);
        if t.res.None? then DocStep(t.st, data, false)
        else if t.res.value == 0 then
          RehostFrom(t.st, outcomes, data[i := Field(data[i].name, Str(filename))], folder, i + 1)
        else RehostFrom(t.st, outcomes, data, folder, i + 1)
      else RehostFrom(st, outcomes, data, folder, i + 1)
  }

  /** backup.js:44-68, the remaining collections of one level. */
  function ExportCollections(st: ExportState, outcomes: seq<bool>,
                             cs: seq<Collection>, folder: Path): Step
    decreases cs
  {
    if cs == [] then Step(st, true)
    else
      var r := ExportCollection(st, outcomes, cs[0], folder);
      if !r.ok then r else ExportCollections(r.st, outcomes, cs[1..], folder)
  }

  /** backup.js:46-51: the collection's folder is created when absent. */
  function ExportCollection(st: ExportState, outcomes: seq<bool>,
                            c: Collection, folder: Path): Step
    decreases c
  {
    var colFolder := folder + "/" + c.id;
    var st1 := if Exists(st.dirs, st.files, colFolder) then st
               else st.(dirs := st.dirs + {colFolder});
    ExportDocuments(st1, outcomes, c.id, c.docs, folder)
  }

  /** backup.js:52-66, the remaining documents of one collection. */
  function ExportDocuments(st: ExportState, outcomes: seq<bool>, collectionId: string,
                           docs: seq<Document>, folder: Path): Step
    decreases docs
  {
    if docs == [] then Step(st, true)
    else
      var r := ExportDocument(st, outcomes, collectionId, docs[0], folder);
      if !r.ok then r else ExportDocuments(r.st, outcomes, collectionId, docs[1..], folder)
  }

  /** backup.js:53-65: log at the root level only; create the document
      folder and its `__files` folder together when the document folder is
      absent; rewrite the fields; overwrite `__data.json`; recurse into the
      child collections with the document folder as the new root. */
  function ExportDocument(st: ExportState, outcomes: seq<bool>, collectionId: string,
                          d: Document, folder: Path): Step
    decreases d
  {
    var st1 := if folder == BackupFolder
               then st.(log := st.log + [ProgressLine(collectionId, d.id)]) else st;
    var docFolder := folder + "/" + collectionId + "/" + d.id;
    var st2 := if Exists(st1.dirs, st1.files, docFolder) then st1
               else st1.(dirs := st1.dirs + {docFolder, docFolder + "/" + FilesFolder});
    var r := RehostFrom(st2, outcomes, d.data, docFolder, 0);
    if !r.ok then Step(r.st, false)
    else
      ExportCollections(r.st.(files := r.st.files[DataPath(docFolder) := DataFile(r.data)]),
                        outcomes, d.children, docFolder)
  }

  /** backup.js:17-25: create `backups` when absent, then walk the root
      collections into it. */
  function Export(st: ExportState, outcomes: seq<bool>, roots: seq<Collection>): Step
  {
    var st1 := if Exists(st.dirs, st.files, BackupFolder) then st
               else st.(dirs := st.dirs + {BackupFolder});
    ExportCollections(st1, outcomes, roots, BackupFolder)
  }

  // ---------------------------------------------------------------------
  // The walk as the source performs it

  class Exporter {
    var dirs: set<Path>
    var files: map<Path, Content>
    var log: seq<string>
    /** Download attempts made so far. */
    var made: nat
    /** Oracle: whether download attempt number k succeeds. */
    const outcomes: seq<bool>

    function State(): ExportState
      reads this
    {
      ExportState(dirs, files, log, made)
    }

    constructor (dirs0: set<Path>, files0: map<Path, Content>, outcomes0: seq<bool>)
      ensures State() == ExportState(dirs0, files0, [], 0) && outcomes == outcomes0
    {
      dirs, files, log, made := dirs0, files0, [], 0;
      outcomes := outcomes0;
    }

    /** One call of downloadObject (backup.js:109-124) into the file
        `filename` of the `__files` folder of `folder`: the write stream
        fails when that folder is missing or a folder is at the file's path;
        otherwise the oracle decides whether the body reaches the file, which
        then holds the bytes served at `url`. */
    method DownloadObject(url: string, folder: Path, filename: string) returns (ok: bool)
      modifies this
      ensures ok == Succeeds(Downloadable(old(State()), outcomes, folder, filename), old(made))
      ensures made == old(made) + 1
      ensures files == if ok then old(files)[BlobPath(folder, filename) := BlobFile(url)] else old(files)
      ensures dirs == old(dirs) && log == old(log)
    {
      var filepath := BlobPath(folder, filename);
      ok := folder + "/" + FilesFolder in dirs && filepath !in dirs && made < |outcomes| && outcomes[made];
      if ok {
        files := files[filepath := BlobFile(url)];
      }
      made := made + 1;
    }

    /** backup.js:89-107. */
    method DownloadObjectRetry(url: string, folder: Path, filename: string, maxRetries: nat)
      returns (res: Option<int>)
      modifies this
      ensures Transfer(State(), res) ==
              DownloadRetry(old(State()), outcomes, url, folder, filename, maxRetries)
    {
      ghost var eff := Downloadable(State(), outcomes, folder, filename);
      var attempt := 0;
      while attempt < maxRetries
        invariant 0 <= attempt <= maxRetries
        invariant made == old(made) + attempt
        invariant forall k :: old(made) <= k < made ==> !Succeeds(eff, k)
        invariant dirs == old(dirs) && files == old(files) && log == old(log)
      {
        var ok := DownloadObject(url, folder, filename);
        if ok {
          FirstSuccessAt(eff, old(made), maxRetries, attempt);
          return Some(0);
        }
        attempt := attempt + 1;
      }
      AllFail(eff, old(made), maxRetries);
      res := None;
    }

    /** backup.js:70-87: the fields are rewritten in place, in order. */
    method ReadDocument(document: Document, folder: Path) returns (data: Fields, ok: bool)
      modifies this
      ensures DocStep(State(), data, ok) == RehostFrom(old(State()), outcomes, document.data, folder, 0)
    {
      data := document.data;
      ok := true;
      var i := 0;
      while i < |data| && ok
        invariant 0 <= i <= |data|
        invariant RehostFrom(old(State()), outcomes, document.data, folder, 0) ==
                  if ok then RehostFrom(State(), outcomes, data, folder, i)
                  else DocStep(State(), data, false)
      {
        var datum := data[i].value;
        if datum.Str? && StartsWith(datum.s, BlobUrlPrefix) {
          var filename := LocalName(datum.s);
          var res := DownloadObjectRetry(datum.s, folder, filename, DefaultMaxRetries);
          if res.None? {
            ok := false;
          } else if res.value == 0 {
            data := data[i := Field(data[i].name, Str(filename))];
          }
        }
        i := i + 1;
      }
    }

    /** backup.js:44-68. */
    method ReadCollections(collections: seq<Collection>, folder: Path) returns (ok: bool)
      modifies this
      ensures Step(State(), ok) == ExportCollections(old(State()), outcomes, collections, folder)
      decreases collections, 1
    {
      ok := true;
      var i := 0;
      while i < |collections| && ok
        invariant 0 <= i <= |collections|
        invariant ExportCollections(old(State()), outcomes, collections, folder) ==
                  if ok then ExportCollections(State(), outcomes, collections[i..], folder)
                  else Step(State(), false)
      {
        assert collections[i..][0] == collections[i] && collections[i..][1..] == collections[i + 1..];
        ok := ReadCollection(collections[i], folder);
        i := i + 1;
      }
    }

    /** backup.js:46-66, the body of the collection loop. */
    method ReadCollection(collection: Collection, folder: Path) returns (ok: bool)
      modifies this
      ensures Step(State(), ok) == ExportCollection(old(State()), outcomes, collection, folder)
      decreases collection, 0
    {
      var collectionFolder := folder + "/" + collection.id;
      if !(collectionFolder in dirs || collectionFolder in files) {
        dirs := dirs + {collectionFolder};
      }
      ok := true;
      var j := 0;
      while j < |collection.docs| && ok
        invariant 0 <= j <= |collection.docs|
        invariant ExportCollection(old(State()), outcomes, collection, folder) ==
                  if ok then ExportDocuments(State(), outcomes, collection.id, collection.docs[j..], folder)
                  else Step(State(), false)
      {
        assert collection.docs[j..][0] == collection.docs[j]
            && collection.docs[j..][1..] == collection.docs[j + 1..];
        ok := BackupDocument(collection.id, collection.docs[j], folder);
        j := j + 1;
      }
    }

    /** backup.js:53-65, the body of the document loop. */
    method BackupDocument(collectionId: string, doc: Document, folder: Path) returns (ok: bool)
      modifies this
      ensures Step(State(), ok) == ExportDocument(old(State()), outcomes, collectionId, doc, folder)
      decreases doc, 0
    {
      if folder == BackupFolder {
        log := log + [ProgressLine(collectionId, doc.id)];
      }
      var docFolder := folder + "/" + collectionId + "/" + doc.id;
      ghost var st1 := State();
      if !(docFolder in dirs || docFolder in files) {
        dirs := dirs + {docFolder};
        dirs := dirs + {docFolder + "/" + FilesFolder};
      }
      assert State() == if Exists(st1.dirs, st1.files, docFolder) then st1
           else st1.(dirs := st1.dirs + {docFolder, docFolder + "/" + FilesFolder});
      var result, read := ReadDocument(doc, docFolder);
      if read {
        files := files[DataPath(docFolder) := DataFile(result)];
        ok := ReadCollections(doc.children, docFolder);
      } else {
        ok := false;
      }
    }

    /** backup.js:17-25. */
    method Run(roots: seq<Collection>) returns (ok: bool)
      modifies this
      ensures Step(State(), ok) == Export(old(State()), outcomes, roots)
    {
      if !(BackupFolder in dirs || BackupFolder in files) {
        dirs := dirs + {BackupFolder};
      }
      ok := ReadCollections(roots, BackupFolder);
    }
  }
}
