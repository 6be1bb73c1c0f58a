/** What the import walk of restore.js guarantees, stated over the
    specification functions of module Restore (and so, through their
    contracts, over the methods of Restore.Importer). */
module RestoreProperties {
  import opened Model
  import opened Naming
  import opened Retry
  import opened LocalFs
  import opened Restore

  // ---------------------------------------------------------------------
  // One upload with retries (restore.js:75-119)

  /** The text of a public URL up to its token. */
  function UrlHead(bucketName: string, rawFilename: string): (h: string)
    ensures forall token :: PublicUrl(bucketName, rawFilename, token) == h + token
    ensures StartsWith(h, PublicUrlHead)
  {
    PublicUrlHead + bucketName + "/o/" + rawFilename + "?alt=media&token="
  }

  /** uploadObjectRetry goes as its plan says when the sidecar name
      decodes, and settles on nothing when it does not. */
  lemma UploadRetryPlanned(env: Env, st: ImportState, filepath: Path, maxRetries: nat)
    ensures PlanUpload(filepath).None? ==> UploadRetry(env, st, filepath, maxRetries) == UploadResult(st, None)
    ensures PlanUpload(filepath).Some? ==>
              UploadRetry(env, st, filepath, maxRetries) ==
              UploadPlanned(env, st, filepath, PlanUpload(filepath).value, maxRetries)
  {
  }

  /** The plan keeps the still-encoded name and its decoding. */
  lemma PlanUploadDecodes(filepath: Path)
    ensures PlanUpload(filepath).Some? <==> PercentDecode(RawFilename(filepath)).Some?
    ensures PlanUpload(filepath).Some? ==>
              PlanUpload(filepath).value.rawFilename == RawFilename(filepath) &&
              PercentDecode(RawFilename(filepath)) == Some(PlanUpload(filepath).value.rawPath)
  {
  }

  /** The attempts for a decoded name resolve exactly when one of them
      within the budget finds the file and succeeds; the loop then resolves
      with the public URL of the still-encoded name, carrying the token of
      its last attempt, which is the token stored with the object, and the
      object holds the file's contents under the key restore.js:106 builds. It
      never makes more than `maxRetries` attempts, and exactly `maxRetries`
      when it rejects. The store and the log are untouched. */
  lemma UploadPlannedOutcome(env: Env, st: ImportState, filepath: Path, plan: UploadPlan, maxRetries: nat)
    ensures var u := UploadPlanned(env, st, filepath, plan, maxRetries);
            u.st.store == st.store && u.st.log == st.log &&
            st.made <= u.st.made <= st.made + maxRetries &&
            (u.url.Some? <==> exists k :: st.made <= k < st.made + maxRetries &&
                                          Succeeds(Effective(env, filepath), k)) &&
            (u.url.Some? ==> st.made < u.st.made) &&
            (u.url.Some? ==>
               var token := Token(env.tokens, u.st.made - 1);
               filepath in env.tree.files && Succeeds(env.outcomes, u.st.made - 1) &&
               u.url.value == PublicUrl(env.bucketName, plan.rawFilename, token) &&
               u.st.blobs == st.blobs[UploadKeyAsWritten(plan) := Blob(env.tree.files[filepath], token)]) &&
            (u.url.None? ==> u.st.blobs == st.blobs && u.st.made == st.made + maxRetries)
  {
    var eff := Effective(env, filepath);
    ResolvesIff(eff, st.made, maxRetries);
    if Resolves(eff, st.made, maxRetries) {
      UploadPlannedResolves(env, st, filepath, plan, maxRetries);
      StopsAtFirstSuccess(eff, st.made, maxRetries);
    } else {
      UploadPlannedRejects(env, st, filepath, plan, maxRetries);
      RejectsAfterMax(eff, st.made, maxRetries);
    }
  }

  /** uploadObjectRetry, in terms of the sidecar path: it resolves exactly
      when the still-encoded name decodes and one attempt within the budget
      finds the file and succeeds; it then resolves with the public URL of
      that name, carrying the token of its last attempt, which is stored
      with the object holding the file's contents under the key restore.js:106
      builds. A name that does not decode changes nothing. */
  lemma UploadRetryOutcome(env: Env, st: ImportState, filepath: Path, maxRetries: nat)
    ensures var u := UploadRetry(env, st, filepath, maxRetries);
            var raw := RawFilename(filepath);
            u.st.store == st.store && u.st.log == st.log &&
            st.made <= u.st.made <= st.made + maxRetries &&
            (u.url.Some? <==> PercentDecode(raw).Some? &&
                              exists k :: st.made <= k < st.made + maxRetries &&
                                          Succeeds(Effective(env, filepath), k)) &&
            (u.url.Some? ==> st.made < u.st.made) &&
            (u.url.Some? ==>
               var token := Token(env.tokens, u.st.made - 1);
               filepath in env.tree.files && Succeeds(env.outcomes, u.st.made - 1) &&
               u.url.value == PublicUrl(env.bucketName, raw, token) &&
               u.st.blobs == st.blobs[UploadKeyAsWritten(PlanFromPath(raw, PercentDecode(raw).value)) := Blob(env.tree.files[filepath], token)]) &&
            (u.url.None? ==> u.st.blobs == st.blobs) &&
            (u.url.None? && PercentDecode(raw).Some? ==> u.st.made == st.made + maxRetries) &&
            (PercentDecode(raw).None? ==> u.st == st)
  {
    UploadRetryPlanned(env, st, filepath, maxRetries);
    PlanUploadDecodes(filepath);
    var u := UploadRetry(env, st, filepath, maxRetries);
    if PlanUpload(filepath).Some? {
      var plan := PlanUpload(filepath).value;
      var v := UploadPlanned(env, st, filepath, plan, maxRetries);
      UploadPlannedOutcome(env, st, filepath, plan, maxRetries);
      assert u.st == v.st && u.url == v.url;
      assert plan.rawFilename == RawFilename(filepath) && PercentDecode(RawFilename(filepath)).value == plan.rawPath;
    } else {
      assert u.st == st && u.url == None;
    }
  }

  /** An upload of a path holding no file never resolves: after all its
      attempts, or none when the name does not decode, it leaves the bucket
      as it was. */
  lemma MissingFileRejects(env: Env, st: ImportState, filepath: Path, maxRetries: nat)
    requires filepath !in env.tree.files
    ensures var u := UploadRetry(env, st, filepath, maxRetries);
            u.url.None? && u.st.blobs == st.blobs &&
            u.st.made == if PlanUpload(filepath).Some? then st.made + maxRetries else st.made
  {
    UploadRetryOutcome(env, st, filepath, maxRetries);
  }

  /** A resolved upload, in brief: its last attempt succeeded, and the
      URL it returns and the object it stores carry that attempt's token. */
  lemma UploadResolved(env: Env, st: ImportState, filepath: Path, maxRetries: nat)
    requires UploadRetry(env, st, filepath, maxRetries).url.Some?
    ensures var u := UploadRetry(env, st, filepath, maxRetries);
            var raw := RawFilename(filepath);
            var token := Token(env.tokens, u.st.made - 1);
            st.made < u.st.made && Succeeds(env.outcomes, u.st.made - 1) &&
            u.url.value == UrlHead(env.bucketName, raw) + token &&
            PercentDecode(raw).Some? && filepath in env.tree.files &&
            u.st.blobs == st.blobs[UploadKeyAsWritten(PlanFromPath(raw, PercentDecode(raw).value)) := Blob(env.tree.files[filepath], token)]
  {
    UploadRetryOutcome(env, st, filepath, maxRetries);
  }

  /** Where a resolved upload lands: under the key restore.js:106 builds,
      while the returned URL names the decoded object path. The two agree
      exactly when the path has a folder and its basename occurs nowhere
      before the basename itself (UploadKeyAsWrittenIff); a top-level object
      or a repeated name is stored under a key the URL does not name. */
  lemma UploadKeyMatchesUrl(env: Env, st: ImportState, filepath: Path, maxRetries: nat)
    requires UploadRetry(env, st, filepath, maxRetries).url.Some?
    ensures PlanUpload(filepath).Some?
    ensures var u := UploadRetry(env, st, filepath, maxRetries);
            var plan := PlanUpload(filepath).value;
            var key := UploadKeyAsWritten(plan);
            var token := Token(env.tokens, u.st.made - 1);
            var obj := plan.rawPath;
            filepath in env.tree.files &&
            u.url.value == PublicUrl(env.bucketName, plan.rawFilename, token) &&
            PercentDecode(plan.rawFilename) == Some(obj) &&
            u.st.blobs == st.blobs[key := Blob(env.tree.files[filepath], token)] &&
            (obj != [] && obj[|obj| - 1] != '/' ==>
              (key == obj <==> '/' in obj &&
                               forall j :: 0 <= j < |obj| - |Basename(obj)| ==> !OccursAt(obj, Basename(obj), j)))
  {
    UploadRetryOutcome(env, st, filepath, maxRetries);
    PlanUploadDecodes(filepath);
    var plan := PlanUpload(filepath).value;
    assert plan == PlanFromPath(plan.rawFilename, plan.rawPath);
    if plan.rawPath != [] && plan.rawPath[|plan.rawPath| - 1] != '/' {
      UploadKeyAsWrittenIff(plan.rawFilename, plan.rawPath);
    }
  }

  /** Uploading twice to the same object key keeps only the second token:
      when every attempt that can succeed draws a distinct token, the token
      the first upload's URL carries (UploadResolved) is no longer the one
      stored with the object. Stated for the plans both sidecar names
      decode to (UploadRetryPlanned). */
  lemma ReuploadReplacesToken(env: Env, st: ImportState, first: Path, plan1: UploadPlan,
                              second: Path, plan2: UploadPlan, maxRetries: nat)
    requires |env.outcomes| <= |env.tokens|
    requires forall i, j :: 0 <= i < j < |env.tokens| ==> env.tokens[i] != env.tokens[j]
    requires UploadKeyAsWritten(plan1) == UploadKeyAsWritten(plan2)
    requires UploadPlanned(env, st, first, plan1, maxRetries).url.Some?
    requires UploadPlanned(env, UploadPlanned(env, st, first, plan1, maxRetries).st, second, plan2, maxRetries).url.Some?
    ensures var u1 := UploadPlanned(env, st, first, plan1, maxRetries);
            var u2 := UploadPlanned(env, u1.st, second, plan2, maxRetries);
            var key := UploadKeyAsWritten(plan1);
            key in u2.st.blobs && u2.st.blobs[key].token != Token(env.tokens, u1.st.made - 1)
  {
    var u1 := UploadPlanned(env, st, first, plan1, maxRetries);
    UploadPlannedResolved(env, st, first, plan1, maxRetries);
    UploadPlannedResolved(env, u1.st, second, plan2, maxRetries);
    var u2 := UploadPlanned(env, u1.st, second, plan2, maxRetries);
    DistinctTokens(env.tokens, env.outcomes, u1.st.made - 1, u2.st.made - 1);
  }

  /** A resolved upload of a plan: its last attempt succeeded and the
      stored object carries that attempt's token. */
  lemma UploadPlannedResolved(env: Env, st: ImportState, filepath: Path, plan: UploadPlan, maxRetries: nat)
    requires UploadPlanned(env, st, filepath, plan, maxRetries).url.Some?
    ensures var u := UploadPlanned(env, st, filepath, plan, maxRetries);
            st.made < u.st.made && Succeeds(env.outcomes, u.st.made - 1) &&
            UploadKeyAsWritten(plan) in u.st.blobs &&
            u.st.blobs[UploadKeyAsWritten(plan)].token == Token(env.tokens, u.st.made - 1)
  {
    UploadPlannedOutcome(env, st, filepath, plan, maxRetries);
  }

  /** Two successful attempts draw different tokens when the oracle's
      tokens are distinct. */
  lemma DistinctTokens(tokens: seq<string>, outcomes: seq<bool>, m1: int, m2: int)
    requires |outcomes| <= |tokens|
    requires forall i, j :: 0 <= i < j < |tokens| ==> tokens[i] != tokens[j]
    requires 0 <= m1 < m2 && Succeeds(outcomes, m2)
    ensures Token(tokens, m1) != Token(tokens, m2)
  {
    assert tokens[m1] != tokens[m2];
  }

  // ---------------------------------------------------------------------
  // Fields (restore.js:56-67)

  /** The import form of one field: a sentinel name becomes a public URL
      of the same bucket for the name the sidecar path yields; every other
      field stays as it is. */
  predicate Restored(bucketName: string, docFolder: Path, f: Field, g: Field)
  {
    g.name == f.name &&
    if IsSentinelName(f.value) then
      g.value.Str? && StartsWith(g.value.s, UrlHead(bucketName, RawFilename(BlobPath(docFolder, f.value.s))))
    else g == f
  }

  /** One step of the rewrite, at a sentinel field whose upload rejects:
      the rewrite stops there. */
  lemma RestoreRejected(env: Env, st: ImportState, data: Fields, docFolder: Path, i: nat)
    requires i < |data| && IsSentinelName(data[i].value)
    requires UploadRetry(env, st, BlobPath(docFolder, data[i].value.s), DefaultMaxRetries).url.None?
    ensures var u := UploadRetry(env, st, BlobPath(docFolder, data[i].value.s), DefaultMaxRetries);
            RestoreFrom(env, st, data, docFolder, i) == FieldsStep(u.st, data, false)
  {
  }

  /** One step of the rewrite, at a sentinel field whose upload resolves:
      the field is replaced by the returned URL and the rewrite goes on. */
  lemma RestoreResolved(env: Env, st: ImportState, data: Fields, docFolder: Path, i: nat)
    requires i < |data| && IsSentinelName(data[i].value)
    requires UploadRetry(env, st, BlobPath(docFolder, data[i].value.s), DefaultMaxRetries).url.Some?
    ensures var u := UploadRetry(env, st, BlobPath(docFolder, data[i].value.s), DefaultMaxRetries);
            RestoreFrom(env, st, data, docFolder, i) ==
            RestoreFrom(env, u.st, data[i := Field(data[i].name, Str(u.url.value))], docFolder, i + 1)
  {
    UploadNonEmpty(env, st, BlobPath(docFolder, data[i].value.s));
  }

  /** One step of the rewrite, at any other field. */
  lemma RestoreSkip(env: Env, st: ImportState, data: Fields, docFolder: Path, i: nat)
    requires i < |data| && !IsSentinelName(data[i].value)
    ensures RestoreFrom(env, st, data, docFolder, i) == RestoreFrom(env, st, data, docFolder, i + 1)
  {
  }

  /** A resolved upload of a sentinel field yields a non-empty URL, so the
      field is always replaced, by a URL of the form `Restored` names. */
  lemma UploadRestores(env: Env, st: ImportState, docFolder: Path, f: Field)
    requires IsSentinelName(f.value)
    requires UploadRetry(env, st, BlobPath(docFolder, f.value.s), DefaultMaxRetries).url.Some?
    ensures var url := UploadRetry(env, st, BlobPath(docFolder, f.value.s), DefaultMaxRetries).url.value;
            url != "" && Restored(env.bucketName, docFolder, f, Field(f.name, Str(url)))
  {
    var filepath := BlobPath(docFolder, f.value.s);
    UploadResolved(env, st, filepath, DefaultMaxRetries);
    var u := UploadRetry(env, st, filepath, DefaultMaxRetries);
    var head := UrlHead(env.bucketName, RawFilename(filepath));
    HeadOfJoin(head, Token(env.tokens, u.st.made - 1));
  }

  lemma HeadOfJoin(head: string, tail: string)
    requires head != []
    ensures head + tail != [] && StartsWith(head + tail, head)
  {
    assert (head + tail)[..|head|] == head;
  }

  /** The fields before `i` are kept, those from `i` on are kept or
      restored, and all of them are restored when `ok` holds. */
  predicate FieldsRestored(bucketName: string, docFolder: Path, data: Fields, out: Fields, i: nat, ok: bool)
  {
    |out| == |data| &&
    (forall k :: 0 <= k < i && k < |data| ==> out[k] == data[k]) &&
    (forall k :: i <= k < |data| ==> out[k] == data[k] || Restored(bucketName, docFolder, data[k], out[k])) &&
    (ok ==> forall k :: i <= k < |data| ==> Restored(bucketName, docFolder, data[k], out[k]))
  }

  /** Restoring field `i` first and the rest afterwards restores the
      fields from `i` on. */
  lemma FieldsRestoredStep(bucketName: string, docFolder: Path, data: Fields, out: Fields,
                           i: nat, g: Field, ok: bool)
    requires i < |data| && Restored(bucketName, docFolder, data[i], g)
    requires FieldsRestored(bucketName, docFolder, data[i := g], out, i + 1, ok)
    ensures FieldsRestored(bucketName, docFolder, data, out, i, ok)
  {
    var next := data[i := g];
    assert out[i] == next[i];
    forall k | 0 <= k < |data| && k != i
      ensures next[k] == data[k]
    {
    }
  }

  /** Keeping field `i` and restoring the rest afterwards restores the
      fields from `i` on, when field `i` needs no restoring. */
  lemma FieldsRestoredSkip(bucketName: string, docFolder: Path, data: Fields, out: Fields, i: nat, ok: bool)
    requires i < |data| && !IsSentinelName(data[i].value)
    requires FieldsRestored(bucketName, docFolder, data, out, i + 1, ok)
    ensures FieldsRestored(bucketName, docFolder, data, out, i, ok)
  {
    assert Restored(bucketName, docFolder, data[i], data[i]);
  }

  /** The rewrite keeps the document's key set and order: the fields
      before `i` are kept, those from `i` on are kept or restored, and all
      of them are restored when the rewrite completes. */
  lemma {:induction false} RestoreFromFields(env: Env, st: ImportState, data: Fields, docFolder: Path, i: nat)
    requires i <= |data|
    ensures var r := RestoreFrom(env, st, data, docFolder, i);
            FieldsRestored(env.bucketName, docFolder, data, r.data, i, r.ok)
    decreases |data| - i, 2
  {
    if i < |data| {
      if IsSentinelName(data[i].value) {
        RestoreFromFieldsAt(env, st, data, docFolder, i);
      } else {
        RestoreSkip(env, st, data, docFolder, i);
        RestoreFromFields(env, st, data, docFolder, i + 1);
        var r := RestoreFrom(env, st, data, docFolder, i + 1);
        FieldsRestoredSkip(env.bucketName, docFolder, data, r.data, i, r.ok);
      }
    }
  }

  /** RestoreFromFields at a sentinel field. */
  lemma {:induction false} RestoreFromFieldsAt(env: Env, st: ImportState, data: Fields, docFolder: Path, i: nat)
    requires i < |data| && IsSentinelName(data[i].value)
    ensures var r := RestoreFrom(env, st, data, docFolder, i);
            FieldsRestored(env.bucketName, docFolder, data, r.data, i, r.ok)
    decreases |data| - i, 1
  {
    var u := UploadRetry(env, st, BlobPath(docFolder, data[i].value.s), DefaultMaxRetries);
    if u.url.Some? {
      RestoreFromFieldsUploaded(env, st, data, docFolder, i);
    } else {
      RestoreRejected(env, st, data, docFolder, i);
      assert FieldsRestored(env.bucketName, docFolder, data, data, i, false);
    }
  }

  /** RestoreFromFields at a sentinel field whose upload resolves. */
  lemma {:induction false} RestoreFromFieldsUploaded(env: Env, st: ImportState, data: Fields, docFolder: Path,
                                                     i: nat)
    requires i < |data| && IsSentinelName(data[i].value)
    requires UploadRetry(env, st, BlobPath(docFolder, data[i].value.s), DefaultMaxRetries).url.Some?
    ensures var r := RestoreFrom(env, st, data, docFolder, i);
            FieldsRestored(env.bucketName, docFolder, data, r.data, i, r.ok)
    decreases |data| - i, 0
  {
    var u := UploadRetry(env, st, BlobPath(docFolder, data[i].value.s), DefaultMaxRetries);
    UploadRestores(env, st, docFolder, data[i]);
    RestoreResolved(env, st, data, docFolder, i);
    var g := Field(data[i].name, Str(u.url.value));
    RestoreFromFields(env, u.st, data[i := g], docFolder, i + 1);
    var r := RestoreFrom(env, u.st, data[i := g], docFolder, i + 1);
    FieldsRestoredStep(env.bucketName, docFolder, data, r.data, i, g, r.ok);
  }

  /** A sentinel field whose sidecar file is missing (an original string
      value that merely starts with the tag, say) aborts the rewrite of the
      whole document. */
  lemma {:induction false} MissingSidecarAborts(env: Env, st: ImportState, data: Fields, docFolder: Path,
                                                i: nat, j: nat)
    requires i <= j < |data| && IsSentinelName(data[j].value)
    requires BlobPath(docFolder, data[j].value.s) !in env.tree.files
    ensures !RestoreFrom(env, st, data, docFolder, i).ok
    decreases j - i, 1
  {
    if i == j {
      MissingFileRejects(env, st, BlobPath(docFolder, data[j].value.s), DefaultMaxRetries);
      RestoreRejected(env, st, data, docFolder, i);
    } else if !IsSentinelName(data[i].value) {
      RestoreSkip(env, st, data, docFolder, i);
      MissingSidecarAborts(env, st, data, docFolder, i + 1, j);
    } else if UploadRetry(env, st, BlobPath(docFolder, data[i].value.s), DefaultMaxRetries).url.Some? {
      MissingSidecarAfter(env, st, data, docFolder, i, j);
    } else {
      RestoreRejected(env, st, data, docFolder, i);
    }
  }

  /** MissingSidecarAborts past an earlier sentinel field. */
  lemma {:induction false} MissingSidecarAfter(env: Env, st: ImportState, data: Fields, docFolder: Path,
                                               i: nat, j: nat)
    requires i < j < |data| && IsSentinelName(data[i].value) && IsSentinelName(data[j].value)
    requires BlobPath(docFolder, data[j].value.s) !in env.tree.files
    requires UploadRetry(env, st, BlobPath(docFolder, data[i].value.s), DefaultMaxRetries).url.Some?
    ensures !RestoreFrom(env, st, data, docFolder, i).ok
    decreases j - i, 0
  {
    var u := UploadRetry(env, st, BlobPath(docFolder, data[i].value.s), DefaultMaxRetries);
    RestoreResolved(env, st, data, docFolder, i);
    var next := data[i := Field(data[i].name, Str(u.url.value))];
    assert next[j] == data[j];
    MissingSidecarAborts(env, u.st, next, docFolder, i + 1, j);
  }

  /** A resolved upload returns a non-empty URL. */
  lemma UploadNonEmpty(env: Env, st: ImportState, filepath: Path)
    requires UploadRetry(env, st, filepath, DefaultMaxRetries).url.Some?
    ensures UploadRetry(env, st, filepath, DefaultMaxRetries).url.value != ""
  {
    UploadResolved(env, st, filepath, DefaultMaxRetries);
  }
}
