/** What the export walk of backup.js guarantees, stated over the
    specification functions of module Backup (and so, through their
    contracts, over the methods of Backup.Exporter). */
module BackupProperties {
  import opened Model
  import opened Naming
  import opened Retry
  import opened LocalFs
  import opened Backup

  // ---------------------------------------------------------------------
  // Fields (backup.js:70-87)

  /** The export form of one field: a blob URL becomes its local name,
      every other field stays as it is. */
  function Rehosted(f: Field): (g: Field)
    ensures g.name == f.name
    ensures !IsBlobUrl(f.value) ==> g == f
    ensures IsBlobUrl(f.value) ==> g.value.Str? && StartsWith(g.value.s, SentinelTag) &&
                                   g.value.s[|SentinelTag|..] == LastSegment(Pathname(f.value.s))
  {
    if IsBlobUrl(f.value) then Field(f.name, Str(LocalName(f.value.s))) else f
  }

  function RehostAll(data: Fields): (r: Fields)
    ensures |r| == |data| && forall k :: 0 <= k < |data| ==> r[k] == Rehosted(data[k])
  {
    seq(|data|, k requires 0 <= k < |data| => Rehosted(data[k]))
  }

  /** One step of the rewrite, at a blob field: the download and, when it
      resolves, the field's replacement by its local name. */
  lemma RehostStep(st: ExportState, outcomes: seq<bool>, data: Fields, folder: Path, i: nat)
    requires i < |data| && IsBlobUrl(data[i].value)
    ensures var t := DownloadRetry(st, outcomes, data[i].value.s, folder, LocalName(data[i].value.s),
                                   DefaultMaxRetries);
            RehostFrom(st, outcomes, data, folder, i) ==
            if t.res.None? then DocStep(t.st, data, false)
            else RehostFrom(t.st, outcomes, data[i := Rehosted(data[i])], folder, i + 1)
  {
  }

  /** The download of one blob keeps the folders and the log and writes
      only below the document folder. */
  lemma DownloadGrows(st: ExportState, outcomes: seq<bool>, url: string, folder: Path, name: string)
    ensures var t := DownloadRetry(st, outcomes, url, folder, name, DefaultMaxRetries);
            t.st.dirs == st.dirs && t.st.log == st.log && GrowsBelow(st, t.st, folder)
  {
    BlobPathBelow(folder, name);
  }

  /** The rewrite keeps the folders and the log, and writes files only
      below the document folder. */
  lemma {:induction false} RehostFromGrows(st: ExportState, outcomes: seq<bool>, data: Fields,
                                           folder: Path, i: nat)
    ensures var r := RehostFrom(st, outcomes, data, folder, i);
            r.st.dirs == st.dirs && r.st.log == st.log && GrowsBelow(st, r.st, folder)
    decreases |data| - i
  {
    if i < |data| {
      if IsBlobUrl(data[i].value) {
        var url := data[i].value.s;
        var t := DownloadRetry(st, outcomes, url, folder, LocalName(url), DefaultMaxRetries);
        RehostStep(st, outcomes, data, folder, i);
        DownloadGrows(st, outcomes, url, folder, LocalName(url));
        if t.res.Some? {
          var next := data[i := Rehosted(data[i])];
          RehostFromGrows(t.st, outcomes, next, folder, i + 1);
          GrowsBelowTrans(st, t.st, RehostFrom(t.st, outcomes, next, folder, i + 1).st, folder);
        }
      } else {
        RehostFromGrows(st, outcomes, data, folder, i + 1);
      }
    }
  }

  /** Only blob fields are downloaded: when no field from `i` on is a blob
      URL, the rewrite attempts nothing and changes nothing. */
  lemma {:induction false} RehostFromNoBlobs(st: ExportState, outcomes: seq<bool>, data: Fields,
                                             folder: Path, i: nat)
    requires forall k :: i <= k < |data| ==> !IsBlobUrl(data[k].value)
    ensures RehostFrom(st, outcomes, data, folder, i) == DocStep(st, data, true)
    decreases |data| - i
  {
    if i < |data| {
      RehostFromNoBlobs(st, outcomes, data, folder, i + 1);
    }
  }

  /** `p` is the sidecar file blob field `f` of the document at `folder`
      is downloaded into. */
  predicate SidecarOf(folder: Path, f: Field, p: Path)
  {
    IsBlobUrl(f.value) && p == BlobPath(folder, LocalName(f.value.s))
  }

  /** Every file the rewrite writes is the sidecar of a blob field from
      `i` on, named after that field's URL: neither `__data.json` nor a
      sidecar no field names is touched. */
  lemma {:induction false} RehostFromWritesSidecars(st: ExportState, outcomes: seq<bool>, data: Fields,
                                                    folder: Path, i: nat)
    ensures forall p :: FileChanged(st.files, RehostFrom(st, outcomes, data, folder, i).st.files, p) ==>
              exists k :: i <= k < |data| && SidecarOf(folder, data[k], p)
    decreases |data| - i
  {
    if i < |data| {
      if IsBlobUrl(data[i].value) {
        var url := data[i].value.s;
        var t := DownloadRetry(st, outcomes, url, folder, LocalName(url), DefaultMaxRetries);
        RehostStep(st, outcomes, data, folder, i);
        if t.res.Some? {
          var next := data[i := Rehosted(data[i])];
          RehostFromWritesSidecars(t.st, outcomes, next, folder, i + 1);
          var r := RehostFrom(t.st, outcomes, next, folder, i + 1);
          forall p | FileChanged(st.files, r.st.files, p)
            ensures exists k :: i <= k < |data| && SidecarOf(folder, data[k], p)
          {
            if FileChanged(t.st.files, r.st.files, p) {
              var k :| i + 1 <= k < |next| && SidecarOf(folder, next[k], p);
              assert next[k] == data[k];
            } else {
              assert SidecarOf(folder, data[i], p);
            }
          }
        }
      } else {
        var j := i + 1;
        RehostFromWritesSidecars(st, outcomes, data, folder, j);
        var r := RehostFrom(st, outcomes, data, folder, j);
        assert RehostFrom(st, outcomes, data, folder, i) == r;
        forall p | FileChanged(st.files, r.st.files, p)
          ensures exists k :: i <= k < |data| && SidecarOf(folder, data[k], p)
        {
          var k :| j <= k < |data| && SidecarOf(folder, data[k], p);
        }
      }
    }
  }

  /** The fields from `i` on are either kept or replaced by their export
      form, all of them when the rewrite completes; the earlier ones and the
      order are kept. */
  lemma {:induction false} RehostFromFields(st: ExportState, outcomes: seq<bool>, data: Fields,
                                            folder: Path, i: nat)
    requires i <= |data|
    ensures var r := RehostFrom(st, outcomes, data, folder, i);
            |r.data| == |data| &&
            (forall k :: 0 <= k < i ==> r.data[k] == data[k]) &&
            (forall k :: i <= k < |data| ==> r.data[k] == data[k] || r.data[k] == Rehosted(data[k])) &&
            (r.ok ==> forall k :: i <= k < |data| ==> r.data[k] == Rehosted(data[k]))
    decreases |data| - i
  {
    if i < |data| {
      if IsBlobUrl(data[i].value) {
        var url := data[i].value.s;
        var t := DownloadRetry(st, outcomes, url, folder, LocalName(url), DefaultMaxRetries);
        RehostStep(st, outcomes, data, folder, i);
        if t.res.Some? {
          var next := data[i := Rehosted(data[i])];
          RehostFromFields(t.st, outcomes, next, folder, i + 1);
        }
      } else {
        RehostFromFields(st, outcomes, data, folder, i + 1);
      }
    }
  }

  /** readDocument keeps the document's key set and order, changes no
      non-blob field, and when it returns, every blob field holds its local
      name (backup.js:71-86). */
  lemma ReadDocumentRehosts(st: ExportState, outcomes: seq<bool>, data: Fields, folder: Path)
    ensures var r := RehostFrom(st, outcomes, data, folder, 0);
            Names(r.data) == Names(data) &&
            (forall k :: 0 <= k < |data| && !IsBlobUrl(data[k].value) ==> r.data[k] == data[k]) &&
            (r.ok ==> r.data == RehostAll(data))
  {
    RehostFromFields(st, outcomes, data, folder, 0);
    var r := RehostFrom(st, outcomes, data, folder, 0);
    assert forall k :: 0 <= k < |data| ==> r.data[k].name == data[k].name;
  }

  /** The file at `BlobPath(folder, name)` holds a blob fetched from a URL
      whose local name is `name`. */
  predicate HoldsBlobNamed(files: map<Path, Content>, folder: Path, name: string)
  {
    BlobPath(folder, name) in files && files[BlobPath(folder, name)].BlobFile? &&
    StartsWith(files[BlobPath(folder, name)].url, BlobUrlPrefix) &&
    LocalName(files[BlobPath(folder, name)].url) == name
  }

  lemma BlobPathInjective(folder: Path, a: string, b: string)
    requires BlobPath(folder, a) == BlobPath(folder, b)
    ensures a == b
  {
    var head := folder + "/" + FilesFolder + "/";
    assert BlobPath(folder, a) == head + a && BlobPath(folder, b) == head + b;
    assert a == (head + a)[|head|..];
  }

  /** A download only adds or overwrites the file it fetches into. */
  lemma DownloadKeepsBlobs(st: ExportState, outcomes: seq<bool>, url: string, folder: Path,
                           filename: string, name: string)
    requires HoldsBlobNamed(st.files, folder, name)
    requires StartsWith(url, BlobUrlPrefix) && LocalName(url) == filename
    ensures var t := DownloadRetry(st, outcomes, url, folder, filename, DefaultMaxRetries);
            HoldsBlobNamed(t.st.files, folder, name) &&
            (t.res.Some? ==> HoldsBlobNamed(t.st.files, folder, filename))
  {
    if BlobPath(folder, filename) == BlobPath(folder, name) {
      BlobPathInjective(folder, filename, name);
    }
  }

  /** A resolved download leaves the blob under its local name. */
  lemma DownloadHoldsBlob(st: ExportState, outcomes: seq<bool>, url: string, folder: Path)
    requires StartsWith(url, BlobUrlPrefix)
    ensures var t := DownloadRetry(st, outcomes, url, folder, LocalName(url), DefaultMaxRetries);
            t.res.Some? ==> HoldsBlobNamed(t.st.files, folder, LocalName(url))
  {
  }

  lemma {:induction false} RehostFromKeepsBlobs(st: ExportState, outcomes: seq<bool>, data: Fields,
                                                folder: Path, i: nat, name: string)
    requires HoldsBlobNamed(st.files, folder, name)
    ensures HoldsBlobNamed(RehostFrom(st, outcomes, data, folder, i).st.files, folder, name)
    decreases |data| - i
  {
    if i < |data| {
      if IsBlobUrl(data[i].value) {
        var url := data[i].value.s;
        var t := DownloadRetry(st, outcomes, url, folder, LocalName(url), DefaultMaxRetries);
        RehostStep(st, outcomes, data, folder, i);
        DownloadKeepsBlobs(st, outcomes, url, folder, LocalName(url), name);
        if t.res.Some? {
          RehostFromKeepsBlobs(t.st, outcomes, data[i := Rehosted(data[i])], folder, i + 1, name);
        }
      } else {
        RehostFromKeepsBlobs(st, outcomes, data, folder, i + 1, name);
      }
    }
  }

  /** A blob field is rewritten only after its blob was downloaded: when
      readDocument returns, the sidecar folder holds, under every rewritten
      field's new value, a blob fetched from a URL with that local name
      (backup.js:77-82). */
  lemma {:induction false} RehostFromDownloads(st: ExportState, outcomes: seq<bool>, data: Fields,
                                               folder: Path, i: nat)
    requires i <= |data|
    ensures var r := RehostFrom(st, outcomes, data, folder, i);
            r.ok ==> forall k :: i <= k < |data| && IsBlobUrl(data[k].value) ==>
                       HoldsBlobNamed(r.st.files, folder, LocalName(data[k].value.s))
    decreases |data| - i
  {
    if i < |data| {
      if IsBlobUrl(data[i].value) {
        var url := data[i].value.s;
        var t := DownloadRetry(st, outcomes, url, folder, LocalName(url), DefaultMaxRetries);
        RehostStep(st, outcomes, data, folder, i);
        DownloadHoldsBlob(st, outcomes, url, folder);
        if t.res.Some? {
          var next := data[i := Rehosted(data[i])];
          RehostFromKeepsBlobs(t.st, outcomes, next, folder, i + 1, LocalName(url));
          RehostFromDownloads(t.st, outcomes, next, folder, i + 1);
          assert forall k :: i < k < |data| ==> next[k] == data[k];
        }
      } else {
        RehostFromDownloads(st, outcomes, data, folder, i + 1);
      }
    }
  }

  /** Field `k` is a blob field and no later blob field has its local
      name. */
  ghost predicate LastWithName(data: Fields, k: nat)
  {
    k < |data| && IsBlobUrl(data[k].value) &&
    forall j :: k < j < |data| && IsBlobUrl(data[j].value) ==>
      LocalName(data[j].value.s) != LocalName(data[k].value.s)
  }

  /** A sidecar that no remaining blob field is named after keeps its
      content through the rewrite. */
  lemma RehostFromKeepsUnnamed(st: ExportState, outcomes: seq<bool>, data: Fields,
                               folder: Path, i: nat, name: string)
    requires forall j :: i <= j < |data| && IsBlobUrl(data[j].value) ==> LocalName(data[j].value.s) != name
    requires BlobPath(folder, name) in st.files
    ensures var r := RehostFrom(st, outcomes, data, folder, i);
            BlobPath(folder, name) in r.st.files && r.st.files[BlobPath(folder, name)] == st.files[BlobPath(folder, name)]
  {
    var bp := BlobPath(folder, name);
    RehostFromWritesSidecars(st, outcomes, data, folder, i);
    RehostFromGrows(st, outcomes, data, folder, i);
    var r := RehostFrom(st, outcomes, data, folder, i);
    if FileChanged(st.files, r.st.files, bp) {
      var j :| i <= j < |data| && SidecarOf(folder, data[j], bp);
      BlobPathInjective(folder, LocalName(data[j].value.s), name);
    }
  }

  /** Every blob field from `i` on that is the last with its local name
      has its own blob in its sidecar. */
  ghost predicate LastDownloadsHeld(files: map<Path, Content>, data: Fields, folder: Path, i: nat)
  {
    forall k :: i <= k && LastWithName(data, k) ==>
      BlobPath(folder, LocalName(data[k].value.s)) in files &&
      files[BlobPath(folder, LocalName(data[k].value.s))] == BlobFile(data[k].value.s)
  }

  /** Blob fields whose URLs share a last segment share one sidecar, and
      each download opens a fresh write stream on it (backup.js:78, 112): after
      a completed rewrite the sidecar holds the blob of the last such field. */
  lemma {:induction false} RehostFromLastDownloadWins(st: ExportState, outcomes: seq<bool>, data: Fields,
                                                      folder: Path, i: nat)
    ensures RehostFrom(st, outcomes, data, folder, i).ok ==>
              LastDownloadsHeld(RehostFrom(st, outcomes, data, folder, i).st.files, data, folder, i)
    decreases |data| - i
  {
    if i < |data| {
      if IsBlobUrl(data[i].value) {
        var url := data[i].value.s;
        var t := DownloadRetry(st, outcomes, url, folder, LocalName(url), DefaultMaxRetries);
        RehostStep(st, outcomes, data, folder, i);
        if t.res.Some? {
          var next := data[i := Rehosted(data[i])];
          assert forall j :: i < j < |data| ==> next[j] == data[j];
          assert t.st.files[BlobPath(folder, LocalName(url))] == BlobFile(url);
          RehostFromLastDownloadWins(t.st, outcomes, next, folder, i + 1);
          LastDownloadAfter(t.st, outcomes, data, next, folder, i);
        }
      } else {
        var r := RehostFrom(st, outcomes, data, folder, i + 1);
        assert RehostFrom(st, outcomes, data, folder, i) == r;
        RehostFromLastDownloadWins(st, outcomes, data, folder, i + 1);
        if r.ok {
          LastDownloadSkip(r.st.files, data, folder, i);
        }
      }
    }
  }

  /** RehostFromLastDownloadWins past a field that is not a blob URL. */
  lemma LastDownloadSkip(files: map<Path, Content>, data: Fields, folder: Path, i: nat)
    requires i < |data| && !IsBlobUrl(data[i].value)
    requires LastDownloadsHeld(files, data, folder, i + 1)
    ensures LastDownloadsHeld(files, data, folder, i)
  {
  }

  /** The rest of the rewrite after a resolved download at field `i`
      keeps that download when no later blob field has its name. */
  lemma LastDownloadAfter(st: ExportState, outcomes: seq<bool>, data: Fields, next: Fields,
                          folder: Path, i: nat)
    requires i < |data| && IsBlobUrl(data[i].value)
    requires |next| == |data| && forall j :: i < j < |data| ==> next[j] == data[j]
    requires BlobPath(folder, LocalName(data[i].value.s)) in st.files &&
             st.files[BlobPath(folder, LocalName(data[i].value.s))] == BlobFile(data[i].value.s)
    requires RehostFrom(st, outcomes, next, folder, i + 1).ok ==>
               LastDownloadsHeld(RehostFrom(st, outcomes, next, folder, i + 1).st.files, next, folder, i + 1)
    ensures RehostFrom(st, outcomes, next, folder, i + 1).ok ==>
              LastDownloadsHeld(RehostFrom(st, outcomes, next, folder, i + 1).st.files, data, folder, i)
  {
    var r := RehostFrom(st, outcomes, next, folder, i + 1);
    if r.ok {
      if LastWithName(data, i) {
        RehostFromKeepsUnnamed(st, outcomes, next, folder, i + 1, LocalName(data[i].value.s));
      }
      LastDownloadStep(r.st.files, data, next, folder, i);
    }
  }

  /** RehostFromLastDownloadWins past a resolved download at field `i`:
      the later fields are unchanged in `next`, and field `i` is covered
      by its own download. */
  lemma LastDownloadStep(files: map<Path, Content>, data: Fields, next: Fields, folder: Path, i: nat)
    requires i < |data| && |next| == |data| && forall j :: i < j < |data| ==> next[j] == data[j]
    requires LastWithName(data, i) ==>
               BlobPath(folder, LocalName(data[i].value.s)) in files &&
               files[BlobPath(folder, LocalName(data[i].value.s))] == BlobFile(data[i].value.s)
    requires LastDownloadsHeld(files, next, folder, i + 1)
    ensures LastDownloadsHeld(files, data, folder, i)
  {
    forall k | i <= k && LastWithName(data, k)
      ensures BlobPath(folder, LocalName(data[k].value.s)) in files &&
              files[BlobPath(folder, LocalName(data[k].value.s))] == BlobFile(data[k].value.s)
    {
      if k > i {
        assert LastWithName(next, k);
      }
    }
  }

  /** A download into a document whose `__files` folder is missing
      rejects after all its attempts and writes nothing: the write stream
      fails on every attempt (backup.js:112, 118-120). */
  lemma DownloadNeedsFilesFolder(st: ExportState, outcomes: seq<bool>, url: string, folder: Path,
                                 filename: string)
    requires folder + "/" + FilesFolder !in st.dirs
    ensures var t := DownloadRetry(st, outcomes, url, folder, filename, DefaultMaxRetries);
            t.res.None? && t.st.files == st.files && t.st.made == st.made + DefaultMaxRetries
  {
    AllFail([], st.made, DefaultMaxRetries);
  }

  /** The rewrite of a document holding a blob field at or after `i`
      aborts when the document's `__files` folder is missing, so the export
      aborts with it (backup.js:79, 103-105). */
  lemma {:induction false} RehostNeedsFilesFolder(st: ExportState, outcomes: seq<bool>, data: Fields,
                                                  folder: Path, i: nat, j: nat)
    requires i <= j < |data| && IsBlobUrl(data[j].value)
    requires folder + "/" + FilesFolder !in st.dirs
    ensures !RehostFrom(st, outcomes, data, folder, i).ok
    decreases j - i
  {
    if IsBlobUrl(data[i].value) {
      DownloadNeedsFilesFolder(st, outcomes, data[i].value.s, folder, LocalName(data[i].value.s));
    } else {
      RehostNeedsFilesFolder(st, outcomes, data, folder, i + 1, j);
    }
  }

  // ---------------------------------------------------------------------
  // Where the walk writes

  /** `p` lies below `folder` by at least two names. */
  predicate DeepBelow(folder: Path, p: Path)
  {
    Below(folder, p) && '/' in p[|folder| + 1..]
  }

  predicate FileChanged(before: map<Path, Content>, after: map<Path, Content>, p: Path)
  {
    p in after && (p !in before || after[p] != before[p])
  }

  /** Nothing is removed, and every file written lies below `folder`. */
  ghost predicate GrowsBelow(before: ExportState, after: ExportState, folder: Path)
  {
    before.dirs <= after.dirs && before.files.Keys <= after.files.Keys &&
    forall p :: FileChanged(before.files, after.files, p) ==> Below(folder, p)
  }

  /** Nothing is removed, and every file written lies two names below
      `folder`. */
  ghost predicate GrowsDeepBelow(before: ExportState, after: ExportState, folder: Path)
  {
    before.dirs <= after.dirs && before.files.Keys <= after.files.Keys &&
    forall p :: FileChanged(before.files, after.files, p) ==> DeepBelow(folder, p)
  }

  lemma GrowsBelowTrans(a: ExportState, b: ExportState, c: ExportState, folder: Path)
    requires GrowsBelow(a, b, folder) && GrowsBelow(b, c, folder)
    ensures GrowsBelow(a, c, folder)
  {
    forall p | FileChanged(a.files, c.files, p)
      ensures Below(folder, p)
    {
      if !FileChanged(b.files, c.files, p) {
        assert FileChanged(a.files, b.files, p);
      }
    }
  }

  lemma GrowsDeepBelowTrans(a: ExportState, b: ExportState, c: ExportState, folder: Path)
    requires GrowsDeepBelow(a, b, folder) && GrowsDeepBelow(b, c, folder)
    ensures GrowsDeepBelow(a, c, folder)
  {
    forall p | FileChanged(a.files, c.files, p)
      ensures DeepBelow(folder, p)
    {
      if !FileChanged(b.files, c.files, p) {
        assert FileChanged(a.files, b.files, p);
      }
    }
  }

  lemma BlobPathBelow(folder: Path, name: string)
    ensures Below(folder, BlobPath(folder, name))
  {
    var p := BlobPath(folder, name);
    assert p == folder + "/" + (FilesFolder + "/" + name);
    assert p[..|folder| + 1] == folder + "/";
  }

  lemma DataPathBelow(folder: Path)
    ensures Below(folder, DataPath(folder)) && !DeepBelow(folder, DataPath(folder))
  {
    var p := DataPath(folder);
    assert p[..|folder| + 1] == folder + "/";
    assert p[|folder| + 1..] == DataFilename;
  }

  /** Below a named entry of `folder` is two names below `folder`. */
  lemma BelowEntryIsDeep(folder: Path, name: string, p: Path)
    requires Below(folder + "/" + name, p)
    ensures DeepBelow(folder, p)
  {
    BelowChild(folder, name, p);
    var child := folder + "/" + name;
    assert p[|child|] == (child + "/")[|child|] == '/';
    assert p[|folder| + 1..][|name|] == p[|child|];
  }

  lemma GrowsBelowEntry(a: ExportState, b: ExportState, folder: Path, name: string)
    requires GrowsBelow(a, b, folder + "/" + name)
    ensures GrowsBelow(a, b, folder) && GrowsDeepBelow(a, b, folder)
  {
    forall p | FileChanged(a.files, b.files, p)
      ensures DeepBelow(folder, p)
    {
      BelowEntryIsDeep(folder, name, p);
    }
  }

  lemma {:induction false} CollectionsGrow(st: ExportState, outcomes: seq<bool>,
                                           cs: seq<Collection>, folder: Path)
    ensures GrowsDeepBelow(st, ExportCollections(st, outcomes, cs, folder).st, folder)
    decreases cs
  {
    if cs != [] {
      var r := ExportCollection(st, outcomes, cs[0], folder);
      CollectionGrows(st, outcomes, cs[0], folder);
      if r.ok {
        CollectionsGrow(r.st, outcomes, cs[1..], folder);
        GrowsDeepBelowTrans(st, r.st, ExportCollections(r.st, outcomes, cs[1..], folder).st, folder);
      }
    }
  }

  /** One collection removes nothing and writes files only below its own
      folder (backup.js:46-66). */
  lemma {:induction false} CollectionGrows(st: ExportState, outcomes: seq<bool>,
                                          c: Collection, folder: Path)
    ensures var r := ExportCollection(st, outcomes, c, folder);
            GrowsBelow(st, r.st, folder + "/" + c.id) && GrowsDeepBelow(st, r.st, folder)
    decreases c
  {
    var colFolder := folder + "/" + c.id;
    var st1 := if Exists(st.dirs, st.files, colFolder) then st
               else st.(dirs := st.dirs + {colFolder});
    var r := ExportDocuments(st1, outcomes, c.id, c.docs, folder);
    DocumentsGrow(st1, outcomes, c.id, c.docs, folder);
    assert GrowsBelow(st, st1, colFolder);
    GrowsBelowTrans(st, st1, r.st, colFolder);
    GrowsBelowEntry(st, r.st, folder, c.id);
  }

  lemma {:induction false} DocumentsGrow(st: ExportState, outcomes: seq<bool>, collectionId: string,
                                         docs: seq<Document>, folder: Path)
    ensures GrowsBelow(st, ExportDocuments(st, outcomes, collectionId, docs, folder).st,
                       folder + "/" + collectionId)
    decreases docs
  {
    if docs != [] {
      var r := ExportDocument(st, outcomes, collectionId, docs[0], folder);
      DocumentGrows(st, outcomes, collectionId, docs[0], folder);
      if r.ok {
        DocumentsGrow(r.st, outcomes, collectionId, docs[1..], folder);
        GrowsBelowTrans(st, r.st, ExportDocuments(r.st, outcomes, collectionId, docs[1..], folder).st,
                        folder + "/" + collectionId);
      }
    }
  }

  lemma {:induction false} DocumentGrows(st: ExportState, outcomes: seq<bool>, collectionId: string,
                                         d: Document, folder: Path)
    ensures GrowsBelow(st, ExportDocument(st, outcomes, collectionId, d, folder).st,
                       folder + "/" + collectionId)
    decreases d
  {
    var colFolder := folder + "/" + collectionId;
    var docFolder := colFolder + "/" + d.id;
    var st1 := if folder == BackupFolder
               then st.(log := st.log + [ProgressLine(collectionId, d.id)]) else st;
    var st2 := if Exists(st1.dirs, st1.files, docFolder) then st1
               else st1.(dirs := st1.dirs + {docFolder, docFolder + "/" + FilesFolder});
    var r := RehostFrom(st2, outcomes, d.data, docFolder, 0);
    RehostFromGrows(st2, outcomes, d.data, docFolder, 0);
    assert GrowsBelow(st, st2, docFolder);
    GrowsBelowTrans(st, st2, r.st, docFolder);
    if r.ok {
      var st3 := r.st.(files := r.st.files[DataPath(docFolder) := DataFile(r.data)]);
      DataPathBelow(docFolder);
      assert GrowsBelow(r.st, st3, docFolder);
      GrowsBelowTrans(st, r.st, st3, docFolder);
      CollectionsGrow(st3, outcomes, d.children, docFolder);
      GrowsBelowTrans(st, st3, ExportCollections(st3, outcomes, d.children, docFolder).st, docFolder);
    }
    GrowsBelowEntry(st, ExportDocument(st, outcomes, collectionId, d, folder).st, colFolder, d.id);
  }

  /** Each document's processed field map ends up in its `__data.json`:
      the walk of its child collections never writes that file
      (backup.js:62-65). */
  lemma DataFileWritten(st: ExportState, outcomes: seq<bool>, collectionId: string,
                        d: Document, folder: Path)
    ensures var r := ExportDocument(st, outcomes, collectionId, d, folder);
            var docFolder := folder + "/" + collectionId + "/" + d.id;
            r.ok ==> DataPath(docFolder) in r.st.files &&
                     r.st.files[DataPath(docFolder)] == DataFile(RehostAll(d.data))
  {
    var docFolder := folder + "/" + collectionId + "/" + d.id;
    var st1 := if folder == BackupFolder
               then st.(log := st.log + [ProgressLine(collectionId, d.id)]) else st;
    var st2 := if Exists(st1.dirs, st1.files, docFolder) then st1
               else st1.(dirs := st1.dirs + {docFolder, docFolder + "/" + FilesFolder});
    var r := RehostFrom(st2, outcomes, d.data, docFolder, 0);
    ReadDocumentRehosts(st2, outcomes, d.data, docFolder);
    if r.ok {
      var st3 := r.st.(files := r.st.files[DataPath(docFolder) := DataFile(r.data)]);
      CollectionsGrow(st3, outcomes, d.children, docFolder);
      DataPathBelow(docFolder);
      assert !FileChanged(st3.files, ExportCollections(st3, outcomes, d.children, docFolder).st.files,
                          DataPath(docFolder));
    }
  }

  // ---------------------------------------------------------------------
  // The mirror tree

  /** The folders that mirror `cs` below `folder`: one per collection and
      one per document, nested as the store nests them. */
  function CollectionFolders(cs: seq<Collection>, folder: Path): set<Path>
    decreases cs
  {
    if cs == [] then {} else CollectionFolder(cs[0], folder) + CollectionFolders(cs[1..], folder)
  }

  function CollectionFolder(c: Collection, folder: Path): set<Path>
    decreases c
  {
    {folder + "/" + c.id} + DocumentFolders(c.id, c.docs, folder)
  }

  function DocumentFolders(collectionId: string, docs: seq<Document>, folder: Path): set<Path>
    decreases docs
  {
    if docs == [] then {}
    else DocumentFolder(collectionId, docs[0], folder) + DocumentFolders(collectionId, docs[1..], folder)
  }

  function DocumentFolder(collectionId: string, d: Document, folder: Path): set<Path>
    decreases d
  {
    var docFolder := folder + "/" + collectionId + "/" + d.id;
    {docFolder} + CollectionFolders(d.children, docFolder)
  }

  /** Every path of `ps` is taken by a directory or a file. */
  predicate AllExist(st: ExportState, ps: set<Path>)
  {
    ps <= st.dirs + st.files.Keys
  }

  lemma AllExistGrows(a: ExportState, b: ExportState, ps: set<Path>, folder: Path)
    requires AllExist(a, ps) && GrowsDeepBelow(a, b, folder)
    ensures AllExist(b, ps)
  {
  }

  /** A completed walk leaves a folder (or, where a file was already in
      the way, that file) at every path of the mirror tree
      (backup.js:46-49, 57-61). */
  lemma {:induction false} CollectionsMirrored(st: ExportState, outcomes: seq<bool>,
                                               cs: seq<Collection>, folder: Path)
    ensures var r := ExportCollections(st, outcomes, cs, folder);
            r.ok ==> AllExist(r.st, CollectionFolders(cs, folder))
    decreases cs
  {
    if cs != [] {
      var r := ExportCollection(st, outcomes, cs[0], folder);
      CollectionMirrored(st, outcomes, cs[0], folder);
      if r.ok {
        CollectionsMirrored(r.st, outcomes, cs[1..], folder);
        CollectionsGrow(r.st, outcomes, cs[1..], folder);
      }
    }
  }

  lemma {:induction false} CollectionMirrored(st: ExportState, outcomes: seq<bool>,
                                              c: Collection, folder: Path)
    ensures var r := ExportCollection(st, outcomes, c, folder);
            r.ok ==> AllExist(r.st, CollectionFolder(c, folder))
    decreases c
  {
    var colFolder := folder + "/" + c.id;
    var st1 := if Exists(st.dirs, st.files, colFolder) then st
               else st.(dirs := st.dirs + {colFolder});
    DocumentsMirrored(st1, outcomes, c.id, c.docs, folder);
    DocumentsGrow(st1, outcomes, c.id, c.docs, folder);
  }

  lemma {:induction false} DocumentsMirrored(st: ExportState, outcomes: seq<bool>, collectionId: string,
                                             docs: seq<Document>, folder: Path)
    ensures var r := ExportDocuments(st, outcomes, collectionId, docs, folder);
            r.ok ==> AllExist(r.st, DocumentFolders(collectionId, docs, folder))
    decreases docs
  {
    if docs != [] {
      var r := ExportDocument(st, outcomes, collectionId, docs[0], folder);
      DocumentMirrored(st, outcomes, collectionId, docs[0], folder);
      if r.ok {
        DocumentsMirrored(r.st, outcomes, collectionId, docs[1..], folder);
        DocumentsGrow(r.st, outcomes, collectionId, docs[1..], folder);
      }
    }
  }

  lemma {:induction false} DocumentMirrored(st: ExportState, outcomes: seq<bool>, collectionId: string,
                                            d: Document, folder: Path)
    ensures var r := ExportDocument(st, outcomes, collectionId, d, folder);
            r.ok ==> AllExist(r.st, DocumentFolder(collectionId, d, folder))
    decreases d
  {
    var docFolder := folder + "/" + collectionId + "/" + d.id;
    var st1 := if folder == BackupFolder
               then st.(log := st.log + [ProgressLine(collectionId, d.id)]) else st;
    var st2 := if Exists(st1.dirs, st1.files, docFolder) then st1
               else st1.(dirs := st1.dirs + {docFolder, docFolder + "/" + FilesFolder});
    var r := RehostFrom(st2, outcomes, d.data, docFolder, 0);
    RehostFromGrows(st2, outcomes, d.data, docFolder, 0);
    if r.ok {
      var st3 := r.st.(files := r.st.files[DataPath(docFolder) := DataFile(r.data)]);
      CollectionsMirrored(st3, outcomes, d.children, docFolder);
      CollectionsGrow(st3, outcomes, d.children, docFolder);
    }
  }

  /** A document folder that is absent when the walk reaches it is
      created together with its `__files` folder, and both are there when
      the document's walk ends, completed or not (backup.js:57-61). */
  lemma DocumentFoldersCreated(st: ExportState, outcomes: seq<bool>, collectionId: string,
                               d: Document, folder: Path)
    ensures var docFolder := folder + "/" + collectionId + "/" + d.id;
            var r := ExportDocument(st, outcomes, collectionId, d, folder);
            !Exists(st.dirs, st.files, docFolder) ==>
              docFolder in r.st.dirs && docFolder + "/" + FilesFolder in r.st.dirs
  {
    var docFolder := folder + "/" + collectionId + "/" + d.id;
    var st1 := if folder == BackupFolder
               then st.(log := st.log + [ProgressLine(collectionId, d.id)]) else st;
    var st2 := if Exists(st1.dirs, st1.files, docFolder) then st1
               else st1.(dirs := st1.dirs + {docFolder, docFolder + "/" + FilesFolder});
    var r := RehostFrom(st2, outcomes, d.data, docFolder, 0);
    RehostFromGrows(st2, outcomes, d.data, docFolder, 0);
    if r.ok {
      var st3 := r.st.(files := r.st.files[DataPath(docFolder) := DataFile(r.data)]);
      CollectionsGrow(st3, outcomes, d.children, docFolder);
    }
  }

  /** A document folder that already exists without its `__files` folder
      never gets one: the export of a document holding a blob field then
      aborts at its first download (backup.js:57-62, 112). */
  lemma ExistingFolderWithoutFilesAborts(st: ExportState, outcomes: seq<bool>, collectionId: string,
                                         d: Document, folder: Path, j: nat)
    requires j < |d.data| && IsBlobUrl(d.data[j].value)
    requires var docFolder := folder + "/" + collectionId + "/" + d.id;
             Exists(st.dirs, st.files, docFolder) && docFolder + "/" + FilesFolder !in st.dirs
    ensures !ExportDocument(st, outcomes, collectionId, d, folder).ok
  {
    var docFolder := folder + "/" + collectionId + "/" + d.id;
    var st1 := if folder == BackupFolder
               then st.(log := st.log + [ProgressLine(collectionId, d.id)]) else st;
    RehostNeedsFilesFolder(st1, outcomes, d.data, docFolder, 0, j);
  }

  /** A walk over a tree whose mirror folders all exist creates no folder:
      every folder is created only when nothing is at its path
      (backup.js:46-49, 57-61). */
  lemma {:induction false} CollectionsCreateNothing(st: ExportState, outcomes: seq<bool>,
                                                    cs: seq<Collection>, folder: Path)
    requires AllExist(st, CollectionFolders(cs, folder))
    ensures ExportCollections(st, outcomes, cs, folder).st.dirs == st.dirs
    decreases cs
  {
    if cs != [] {
      var r := ExportCollection(st, outcomes, cs[0], folder);
      CollectionCreatesNothing(st, outcomes, cs[0], folder);
      if r.ok {
        CollectionGrows(st, outcomes, cs[0], folder);
        CollectionsCreateNothing(r.st, outcomes, cs[1..], folder);
      }
    }
  }

  lemma {:induction false} CollectionCreatesNothing(st: ExportState, outcomes: seq<bool>,
                                                   c: Collection, folder: Path)
    requires AllExist(st, CollectionFolder(c, folder))
    ensures ExportCollection(st, outcomes, c, folder).st.dirs == st.dirs
    decreases c
  {
    DocumentsCreateNothing(st, outcomes, c.id, c.docs, folder);
  }

  lemma {:induction false} DocumentsCreateNothing(st: ExportState, outcomes: seq<bool>, collectionId: string,
                                                  docs: seq<Document>, folder: Path)
    requires AllExist(st, DocumentFolders(collectionId, docs, folder))
    ensures ExportDocuments(st, outcomes, collectionId, docs, folder).st.dirs == st.dirs
    decreases docs
  {
    if docs != [] {
      var r := ExportDocument(st, outcomes, collectionId, docs[0], folder);
      DocumentCreatesNothing(st, outcomes, collectionId, docs[0], folder);
      if r.ok {
        DocumentGrows(st, outcomes, collectionId, docs[0], folder);
        GrowsBelowEntry(st, r.st, folder, collectionId);
        DocumentsCreateNothing(r.st, outcomes, collectionId, docs[1..], folder);
      }
    }
  }

  lemma {:induction false} DocumentCreatesNothing(st: ExportState, outcomes: seq<bool>, collectionId: string,
                                                  d: Document, folder: Path)
    requires AllExist(st, DocumentFolder(collectionId, d, folder))
    ensures ExportDocument(st, outcomes, collectionId, d, folder).st.dirs == st.dirs
    decreases d
  {
    var docFolder := folder + "/" + collectionId + "/" + d.id;
    var st1 := if folder == BackupFolder
               then st.(log := st.log + [ProgressLine(collectionId, d.id)]) else st;
    var r := RehostFrom(st1, outcomes, d.data, docFolder, 0);
    RehostFromGrows(st1, outcomes, d.data, docFolder, 0);
    if r.ok {
      var st3 := r.st.(files := r.st.files[DataPath(docFolder) := DataFile(r.data)]);
      CollectionsCreateNothing(st3, outcomes, d.children, docFolder);
    }
  }

  // ---------------------------------------------------------------------
  // Progress log

  /** The progress lines of the root level, one per document in walk
      order. */
  function CollectionLines(cs: seq<Collection>): seq<string>
  {
    if cs == [] then [] else DocumentLines(cs[0].id, cs[0].docs) + CollectionLines(cs[1..])
  }

  function DocumentLines(collectionId: string, docs: seq<Document>): seq<string>
  {
    if docs == [] then [] else [ProgressLine(collectionId, docs[0].id)] + DocumentLines(collectionId, docs[1..])
  }

  /** A folder below `backups` is not `backups` itself. */
  lemma NestedNotRoot(folder: Path, name: string)
    ensures folder + "/" + name != BackupFolder
  {
    assert (folder + "/" + name)[|folder|] == '/';
    assert '/' !in BackupFolder;
  }

  /** Below the root level the walk logs nothing (backup.js:54). */
  lemma {:induction false} CollectionsSilent(st: ExportState, outcomes: seq<bool>,
                                             cs: seq<Collection>, folder: Path)
    requires folder != BackupFolder
    ensures ExportCollections(st, outcomes, cs, folder).st.log == st.log
    decreases cs
  {
    if cs != [] {
      var c := cs[0];
      var colFolder := folder + "/" + c.id;
      var st1 := if Exists(st.dirs, st.files, colFolder) then st
                 else st.(dirs := st.dirs + {colFolder});
      var r := ExportCollection(st, outcomes, c, folder);
      DocumentsSilent(st1, outcomes, c.id, c.docs, folder);
      if r.ok {
        CollectionsSilent(r.st, outcomes, cs[1..], folder);
      }
    }
  }

  lemma {:induction false} DocumentsSilent(st: ExportState, outcomes: seq<bool>, collectionId: string,
                                           docs: seq<Document>, folder: Path)
    requires folder != BackupFolder
    ensures ExportDocuments(st, outcomes, collectionId, docs, folder).st.log == st.log
    decreases docs
  {
    if docs != [] {
      var r := ExportDocument(st, outcomes, collectionId, docs[0], folder);
      DocumentSilent(st, outcomes, collectionId, docs[0], folder);
      if r.ok {
        DocumentsSilent(r.st, outcomes, collectionId, docs[1..], folder);
      }
    }
  }

  lemma {:induction false} DocumentSilent(st: ExportState, outcomes: seq<bool>, collectionId: string,
                                          d: Document, folder: Path)
    requires folder != BackupFolder
    ensures ExportDocument(st, outcomes, collectionId, d, folder).st.log == st.log
    decreases d
  {
    var docFolder := folder + "/" + collectionId + "/" + d.id;
    var st2 := if Exists(st.dirs, st.files, docFolder) then st
               else st.(dirs := st.dirs + {docFolder, docFolder + "/" + FilesFolder});
    var r := RehostFrom(st2, outcomes, d.data, docFolder, 0);
    RehostFromGrows(st2, outcomes, d.data, docFolder, 0);
    if r.ok {
      var st3 := r.st.(files := r.st.files[DataPath(docFolder) := DataFile(r.data)]);
      NestedNotRoot(folder + "/" + collectionId, d.id);
      CollectionsSilent(st3, outcomes, d.children, docFolder);
    }
  }

  /** At the root level one line is logged per document, before its
      fields are read, in walk order (backup.js:54): a completed walk logs
      them all, an aborted one a prefix of them. */
  lemma {:induction false} CollectionsLogRoot(st: ExportState, outcomes: seq<bool>, cs: seq<Collection>)
    ensures var r := ExportCollections(st, outcomes, cs, BackupFolder);
            st.log <= r.st.log <= st.log + CollectionLines(cs) &&
            (r.ok ==> r.st.log == st.log + CollectionLines(cs))
    decreases cs
  {
    if cs != [] {
      var c := cs[0];
      var colFolder := BackupFolder + "/" + c.id;
      var st1 := if Exists(st.dirs, st.files, colFolder) then st
                 else st.(dirs := st.dirs + {colFolder});
      var r1 := ExportCollection(st, outcomes, c, BackupFolder);
      DocumentsLogRoot(st1, outcomes, c.id, c.docs);
      var lines := DocumentLines(c.id, c.docs);
      assert st.log + CollectionLines(cs) == st.log + lines + CollectionLines(cs[1..]);
      if r1.ok {
        CollectionsLogRoot(r1.st, outcomes, cs[1..]);
      }
    }
  }

  lemma {:induction false} DocumentsLogRoot(st: ExportState, outcomes: seq<bool>, collectionId: string,
                                            docs: seq<Document>)
    ensures var r := ExportDocuments(st, outcomes, collectionId, docs, BackupFolder);
            st.log <= r.st.log <= st.log + DocumentLines(collectionId, docs) &&
            (r.ok ==> r.st.log == st.log + DocumentLines(collectionId, docs))
    decreases docs
  {
    if docs != [] {
      var r1 := ExportDocument(st, outcomes, collectionId, docs[0], BackupFolder);
      DocumentLogRoot(st, outcomes, collectionId, docs[0]);
      var line := ProgressLine(collectionId, docs[0].id);
      assert st.log + DocumentLines(collectionId, docs) ==
             st.log + [line] + DocumentLines(collectionId, docs[1..]);
      if r1.ok {
        DocumentsLogRoot(r1.st, outcomes, collectionId, docs[1..]);
      }
    }
  }

  /** A root-level document logs exactly its own line: everything below it
      is silent. */
  lemma DocumentLogRoot(st: ExportState, outcomes: seq<bool>, collectionId: string, d: Document)
    ensures ExportDocument(st, outcomes, collectionId, d, BackupFolder).st.log ==
            st.log + [ProgressLine(collectionId, d.id)]
  {
    var folder := BackupFolder;
    var docFolder := folder + "/" + collectionId + "/" + d.id;
    var st1 := st.(log := st.log + [ProgressLine(collectionId, d.id)]);
    var st2 := if Exists(st1.dirs, st1.files, docFolder) then st1
               else st1.(dirs := st1.dirs + {docFolder, docFolder + "/" + FilesFolder});
    var r := RehostFrom(st2, outcomes, d.data, docFolder, 0);
    RehostFromGrows(st2, outcomes, d.data, docFolder, 0);
    if r.ok {
      var st3 := r.st.(files := r.st.files[DataPath(docFolder) := DataFile(r.data)]);
      NestedNotRoot(folder + "/" + collectionId, d.id);
      CollectionsSilent(st3, outcomes, d.children, docFolder);
    }
  }

  // ---------------------------------------------------------------------
  // A whole export

  /** An export run leaves `backups` in place, removes nothing, writes only
      inside the collection folders below `backups`, and when it completes
      has a folder at every path of the mirror tree and one progress line
      per root document in the log (backup.js:17-25, 44-68). */
  lemma BackupMirrorsTree(st: ExportState, outcomes: seq<bool>, roots: seq<Collection>)
    ensures var r := Export(st, outcomes, roots);
            Exists(r.st.dirs, r.st.files, BackupFolder) &&
            st.dirs <= r.st.dirs && st.files.Keys <= r.st.files.Keys &&
            (forall p :: FileChanged(st.files, r.st.files, p) ==> DeepBelow(BackupFolder, p)) &&
            (r.ok ==> AllExist(r.st, CollectionFolders(roots, BackupFolder)) &&
                      r.st.log == st.log + CollectionLines(roots))
  {
    var st1 := if Exists(st.dirs, st.files, BackupFolder) then st
               else st.(dirs := st.dirs + {BackupFolder});
    CollectionsGrow(st1, outcomes, roots, BackupFolder);
    CollectionsMirrored(st1, outcomes, roots, BackupFolder);
    CollectionsLogRoot(st1, outcomes, roots);
  }

  /** Running the export again over the same tree creates no folder: all
      the folders the first run needed are there. */
  lemma BackupRerunCreatesNoFolder(st: ExportState, first: seq<bool>, second: seq<bool>,
                                   roots: seq<Collection>)
    requires Export(st, first, roots).ok
    ensures var again := Export(st, first, roots).st;
            Export(again, second, roots).st.dirs == again.dirs
  {
    var again := Export(st, first, roots).st;
    BackupMirrorsTree(st, first, roots);
    CollectionsCreateNothing(again, second, roots, BackupFolder);
  }
}
