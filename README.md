# Firestore backup and restore: the tree walks and blob rehoming

This project is a Dafny model of the two scripts of the backup tool.

- `backup.js` exports a document store. It walks the store's collections and documents and mirrors them as directories under `backups`. It downloads every blob that a string field points to (a field starting with `https://firebasestorage`) into the document's `__files` folder, and renames that field to `firebasestorage---` followed by the last segment of the URL's path. Then it writes each document's field map to its `__data.json`.
- `restore.js` imports an extracted backup. It walks the `backups` tree, skipping the reserved entries `__files` and `__data.json`. It uploads the sidecar file that each `firebasestorage---` field names to the storage bucket, and replaces the field by the public download URL of the new object. Then it writes every document back to the store at `collection/document`, nesting sub-collections as `collection/document/collection/...`.

The model has four parts:

- **Naming** (`naming.dfy`): the string functions that turn a blob URL into a local sidecar name, a sidecar path into an upload plan, and a plan into an object key and a public URL. Their round trips are proved.
- **Retry** (`retry.dfy`): the counted retry loop that both scripts share, over an oracle of attempt outcomes.
- **The export walk** (`backup.dfy`, with its properties in `backup_props.dfy`).
- **The import walk** (`restore.dfy`, with its properties in `restore_props.dfy` and `restore_walk.dfy`).

Each walk has two forms:

- a set of specification functions that return the final state and whether the walk completed;
- a class, `Backup.Exporter` or `Restore.Importer`, whose methods run the walk with the source's loops and in-place updates.

Every method is proved to end in the state its specification function gives, and the properties are proved about those functions. The shared vocabulary is in `model.dfy`: field values, file contents, and the reserved names. The local file system is in `localfs.dfy`: a set of directories, a map of files, and a sorted directory listing.

The external services become parameters:

- Each transfer attempt succeeds or fails as an oracle sequence `outcomes` says. The attempt counter `made` picks the entry.
- Each upload's token is drawn from an oracle sequence `tokens`.
- The bucket name is a parameter.
- The document store the export reads is a value: a tree of collections and documents.
- The store the import writes is a map from document path to field map.

## Model

| member | source | states |
|---|---|---|
| Naming.LocalName | backup.js:76-77 | The local name of a blob URL is the sentinel tag followed by exactly the last `/`-segment of the URL's pathname; it contains no `/`, `?` or `#` |
| Naming.Pathname | backup.js:77 | The pathname of an `https://` URL starts with `/` and holds no query or fragment |
| Naming.LastSegmentSpec | backup.js:77 | `split('/').pop()` is the longest `/`-free suffix of the path, preceded by a `/` unless it is the whole path |
| Naming.LastSegmentOfJoin | backup.js:77 | The last segment of `dir/name` is `name` when `name` has no `/` |
| Naming.RawFilenameOfSentinel | restore.js:97 | For a sentinel field value without `/`, the raw filename taken from its sidecar path is the value with the tag removed |
| Naming.ReplaceFirstPrefix | restore.js:97 | Replacing the first occurrence of a leading pattern strips exactly that prefix |
| Naming.RawFilenameInvertsLocalName | restore.js:97 | Stripping the tag from the sidecar name the export gave a blob URL returns that URL's last path segment, so restore's prefix strip inverts the export's prefix add (the export side is backup.js:77) |
| Naming.PublicUrlPathname | restore.js:113 | The public URL of an uploaded object is itself a blob URL, and its pathname is `/v0/b/<bucket>/o/<rawFilename>` |
| Naming.PublicUrlLocalName | restore.js:113 | The URL restore writes back is one a later export rehosts, under the same sidecar name (backup.js:76-77) |
| Naming.FieldRoundTrip | restore.js:97-113 | Export naming, then restore naming, then export naming gives the same sidecar name: the field survives a backup–restore–backup cycle (export naming at backup.js:76-77) |
| Naming.ObjectPathRoundTrip | restore.js:97-113 | For an ASCII object path encoded in a public URL, the export's sidecar name yields an upload plan that decodes back to that path, and the corrected key is that path (export naming at backup.js:77) |
| Naming.DecodeEncode | restore.js:98 | Decoding the percent-encoding of an ASCII string gives the string back |
| Naming.DecodeEscape | restore.js:98 | A `%hh` escape below 128 decodes to its character, followed by the decoding of the rest; the whole decoding fails when the rest's does |
| Naming.HexDigit | restore.js:98 | The hex digit written for `n < 16` reads back as `n` |
| Naming.PercentEncode | restore.js:98 | An encoded name holds no `/`, `?` or `#` |
| Naming.UploadKeyAsWrittenRejoins | restore.js:99-106 | The destination as written rejoins to the decoded path when the basename does not also occur earlier in the path |
| Naming.UploadKeyAsWrittenTopLevel | restore.js:99-106 | For a decoded path with no folder, the key as written gains a leading `/`, while the corrected key is the path itself |
| Naming.UploadKeyAsWrittenRepeatedName | restore.js:99-106 | For `name/name`, the key as written is `/name/name`, while the corrected key is `name/name` |
| Naming.UploadKeyAsWrittenInnerMatch | restore.js:99-106 | For `ab/b`, the basename `b` is first found inside the folder, so the key as written is `a/b/b`, while the corrected key is `ab/b` |
| Naming.UploadKeyAsWrittenIff | restore.js:99-106 | For a decoded path not ending in `/`, the key as written equals the path exactly when the path has a folder and its basename occurs nowhere before the basename itself |
| Naming.UploadKeyAsWrittenEarlier | restore.js:99-106 | When the basename also occurs earlier in the path, the key as written is one character longer than the path |
| Naming.UploadKeyIsObjectPath | restore.js:99-106 | The corrected upload key of an object path with no leading or trailing `/` is that path |
| Naming.IndexOfFromSpec | restore.js:100 | The search finds the first occurrence of the pattern at or after the start, and reports none only when there is none |
| Naming.IndexOfFirst | restore.js:100 | An occurrence with none before it is the one the search returns |
| Naming.TrimTrailingSlashesSpec | restore.js:97-99 | `path.basename` first drops the trailing run of `/`: what remains is a prefix that does not end in `/`, followed only by `/` in the original |
| Naming.BasenameOfJoin | restore.js:97-99 | `path.basename` of `dir/name` is `name` |
| Naming.FirstOfSpec | backup.js:77 | The first position holding one of the given characters, or the length when there is none |
| Retry.Attempts | backup.js:91-98 | The number of attempts is at most `maxRetries`, and at least one when `maxRetries > 0`; uploadObjectRetry runs the same loop |
| Retry.ResolvesIff | backup.js:93-98 | The loop resolves exactly when some attempt within the budget succeeds; the same for uploadObjectRetry |
| Retry.StopsAtFirstSuccess | backup.js:93-98 | A resolving loop stops at the first successful attempt, after failures only; the same for uploadObjectRetry |
| Retry.RejectsAfterMax | backup.js:100-106 | A rejecting loop makes exactly `maxRetries` attempts, all failed; the same for uploadObjectRetry |
| Retry.FirstSuccessAt | backup.js:93-98 | A first success at attempt `i` resolves the loop after `i + 1` attempts; the same for uploadObjectRetry |
| Retry.AllFail | backup.js:100-106 | When every attempt in the budget fails, the loop rejects after `maxRetries` attempts; the same for uploadObjectRetry |
| LocalFs.SortedList | restore.js:39 | A listing holds every entry once, in strictly ascending code-point order; the collection listing of restore.js:47 is the same call |
| LocalFs.ReadDirListsEntries | restore.js:39 | `readdirSync` of a directory names exactly its non-empty, `/`-free child entries, sorted |
| LocalFs.ListedNamesNonEmpty | restore.js:39 | Every listed name is non-empty |
| LocalFs.SubtreeShrinks | restore.js:45-70 | Descending into an entry shrinks the set of paths below, so the import walk terminates |
| LocalFs.StrLessTotal | restore.js:39 | The listing order is total |
| LocalFs.StrLessTransitive | restore.js:39 | The listing order is transitive |
| LocalFs.StrLessIrreflexive | restore.js:39 | The listing order is irreflexive |
| LocalFs.Least | restore.js:39 | Every non-empty set of names has a first one |
| Backup.Exporter.constructor | backup.js:17-25 | A run starts with the given local tree, an empty log and no attempts made |
| Backup.Exporter.DownloadObject | backup.js:109-124 | One attempt consumes one oracle entry; it fails whatever the oracle says when the document's `__files` folder is missing or a folder is at the file path; on success it writes the blob to the file path; nothing else changes |
| Backup.Exporter.DownloadObjectRetry | backup.js:89-107 | The retry loop ends in the state and result `Backup.DownloadRetry` gives: resolve with 0 on the first success, reject after `maxRetries` failures |
| Backup.Exporter.ReadDocument | backup.js:70-87 | The in-place field loop ends as `Backup.RehostFrom` says |
| Backup.Exporter.ReadCollections | backup.js:44-68 | The collection loop ends as `Backup.ExportCollections` says |
| Backup.Exporter.ReadCollection | backup.js:46-66 | One collection: its folder is made if absent, and its document loop ends as `Backup.ExportCollection` says |
| Backup.Exporter.BackupDocument | backup.js:53-65 | One document (log, folders, fields, data file, recursion) ends as `Backup.ExportDocument` says |
| Backup.Exporter.Run | backup.js:17-25 | `backups` is made if absent, then the root walk ends as `Backup.Export` says |
| BackupProperties.Rehosted | backup.js:74-82 | A field that is not a blob URL string is kept; a blob URL field becomes the sentinel tag plus the URL's last path segment, under the same name |
| BackupProperties.RehostAll | backup.js:71-86 | Rehosting a field map rehosts each field in place |
| BackupProperties.ReadDocumentRehosts | backup.js:71-86 | The rewritten map has the same field names in the same order; every field that is not a blob URL is unchanged; a completed rewrite rehosts every field |
| BackupProperties.RehostFromFields | backup.js:74-84 | Fields before the loop index are kept, later ones are kept or rehosted, and all are rehosted when the loop completes |
| BackupProperties.RehostStep | backup.js:76-82 | At a blob field, a rejected download aborts with the data unchanged; a resolved one (result 0) replaces the field and goes on |
| BackupProperties.RehostFromDownloads | backup.js:77-82 | After a completed rewrite, every blob field's sidecar file holds a blob downloaded from a URL with that local name; which URL, when several share the name, is stated by `BackupProperties.RehostFromLastDownloadWins` |
| BackupProperties.RehostFromLastDownloadWins | backup.js:77-80 | Blob fields whose URLs share a last segment share one sidecar; after a completed rewrite that sidecar holds the blob of the last such field, each download overwriting the one before |
| BackupProperties.RehostFromKeepsUnnamed | backup.js:74-84 | A sidecar that no remaining blob field is named after keeps its content through the rest of the rewrite |
| BackupProperties.RehostFromKeepsBlobs | backup.js:77-82 | A blob already downloaded into `__files` stays there through the rest of the rewrite |
| BackupProperties.DownloadHoldsBlob | backup.js:78-79 | A resolved download leaves the blob in the sidecar file named after its URL |
| BackupProperties.DownloadKeepsBlobs | backup.js:78-79 | A download keeps every other sidecar blob |
| BackupProperties.DownloadGrows | backup.js:78 | A download creates no folder, logs nothing, and writes only inside the document folder |
| BackupProperties.DownloadNeedsFilesFolder | backup.js:109-121 | A download into a document whose `__files` folder is missing rejects after all its attempts and writes nothing |
| BackupProperties.RehostNeedsFilesFolder | backup.js:74-84 | A document holding a blob field aborts its rewrite when its `__files` folder is missing |
| BackupProperties.RehostFromGrows | backup.js:74-84 | Rewriting fields creates no folder, logs nothing, and writes only inside the document folder |
| BackupProperties.RehostFromNoBlobs | backup.js:74-76 | Only blob fields are downloaded: with no blob URL among the remaining fields, the rewrite makes no attempt and changes nothing |
| BackupProperties.RehostFromWritesSidecars | backup.js:74-80 | Every file the rewrite writes is the sidecar of a remaining blob field, at the path named after that field's URL |
| BackupProperties.BlobPathInjective | backup.js:78 | Distinct sidecar names give distinct sidecar paths |
| BackupProperties.CollectionsGrow | backup.js:44-68 | The walk of a folder removes nothing and writes files only at least two names below it |
| BackupProperties.CollectionGrows | backup.js:46-66 | One collection's walk removes nothing and writes files only below its own folder, and so at least two names below the parent folder |
| BackupProperties.DocumentsGrow | backup.js:52-66 | A collection's document loop writes only below the collection folder |
| BackupProperties.DocumentGrows | backup.js:53-65 | One document writes only below the collection folder |
| BackupProperties.DataFileWritten | backup.js:62-65 | After a completed document, its `__data.json` holds exactly the rehosted field map; the walk of its child collections never touches it |
| BackupProperties.CollectionsMirrored | backup.js:44-68 | A completed walk leaves a folder (or a file already in the way) at the path of every collection and document of the tree, at every depth; the `__files` folders are stated by `DocumentFoldersCreated` |
| BackupProperties.CollectionMirrored | backup.js:46-66 | The same for one collection: its folder and every document folder below it |
| BackupProperties.DocumentsMirrored | backup.js:52-66 | The same for a collection's documents: every document folder and everything below them |
| BackupProperties.DocumentMirrored | backup.js:57-65 | The same for one document: its folder and the folders of its subtree |
| BackupProperties.DocumentFoldersCreated | backup.js:57-61 | A document folder that is absent when the walk reaches it is created together with its `__files` folder, and both are there when the document's walk ends |
| BackupProperties.ExistingFolderWithoutFilesAborts | backup.js:57-62 | A document folder that already exists without `__files` does not get one, so a document holding a blob field aborts the export |
| BackupProperties.CollectionsCreateNothing | backup.js:46-61 | Over a tree whose folders all exist, the walk creates no directory |
| BackupProperties.CollectionCreatesNothing | backup.js:46-49 | The same for one collection |
| BackupProperties.DocumentsCreateNothing | backup.js:57-61 | The same for a collection's documents |
| BackupProperties.DocumentCreatesNothing | backup.js:57-61 | The same for one document |
| BackupProperties.CollectionsSilent | backup.js:53-55 | Below the root folder the walk logs nothing |
| BackupProperties.DocumentsSilent | backup.js:53-55 | The same for a document loop below the root |
| BackupProperties.DocumentSilent | backup.js:53-55 | The same for one document below the root |
| BackupProperties.CollectionsLogRoot | backup.js:53-55 | At the root, the log only grows, by a prefix of one `Backing Up: c/d` line per root document in walk order, and by all of them when the walk completes |
| BackupProperties.DocumentsLogRoot | backup.js:53-55 | The same for one root collection's documents |
| BackupProperties.DocumentLogRoot | backup.js:53-55 | A root document adds exactly its own progress line |
| BackupProperties.BackupMirrorsTree | backup.js:17-68 | An export leaves `backups`, removes nothing, and writes only inside collection folders under it; a completed one mirrors every folder of the tree and logs every root document |
| BackupProperties.BackupRerunCreatesNoFolder | backup.js:46-61 | Running the export again over its own result creates no directory |
| Restore.ResolvesNeedsFile | restore.js:104 | An upload of a path that holds no file never succeeds |
| Restore.UploadPlannedResolves | restore.js:101-114 | A resolving attempt run stores the file under the key restore.js:106 builds (`destination + "/" + filename`), with the last attempt's token, and returns the public URL carrying that token |
| Restore.UploadPlannedRejects | restore.js:89-91 | A rejecting attempt run changes nothing but the attempt count, and returns nothing |
| Restore.Importer.constructor | restore.js:11-33 | A run starts with the given store, bucket, extracted tree and oracles, an empty log and no attempts made |
| Restore.Importer.UploadObject | restore.js:95-119 | One call, as a reference for a single call: a name that does not decode settles on nothing and changes nothing; otherwise it settles after one attempt, storing under the key restore.js:106 builds |
| Restore.Importer.UploadAttempt | restore.js:101-117 | One attempt draws a token; on success it stores the file under the key restore.js:106 builds, with that token, and returns the public URL; on failure it returns nothing and only the attempt count changes |
| Restore.Importer.UploadObjectRetry | restore.js:75-93 | The retry loop ends as `Restore.UploadRetry` says |
| Restore.Importer.UploadAttempts | restore.js:80-92 | The attempts for a decoded name end as `Restore.UploadPlanned` says, with a success stored under the key restore.js:106 builds |
| Restore.Importer.RestoreFields | restore.js:56-67 | The in-place field loop ends as `Restore.RestoreFrom` says |
| Restore.Importer.WriteCollections | restore.js:38-73 | The entry loop, skipping `__files` and `__data.json`, ends as `Restore.ImportCollections` says |
| Restore.Importer.WriteCollection | restore.js:45-71 | One collection's document loop ends as `Restore.ImportCollection` says |
| Restore.Importer.WriteDocument | restore.js:49-70 | One document (log, read, restore, set, recursion) ends as `Restore.ImportDocument` says |
| Restore.Importer.Run | restore.js:33 | The import of `backups` with an empty path ends as `Restore.Import` says |
| RestoreProperties.UrlHead | restore.js:113 | The public URL is a fixed head, starting with the public host's `/v0/b/`, followed by the token |
| RestoreProperties.UploadRetryPlanned | restore.js:97-98 | A name that does not decode settles on nothing; otherwise the upload goes as its plan says |
| RestoreProperties.PlanUploadDecodes | restore.js:97-98 | There is a plan exactly when the raw filename decodes; it keeps the still-encoded name and its decoding |
| RestoreProperties.UploadPlannedOutcome | restore.js:75-117 | Store and log are untouched; at most `maxRetries` attempts are made; the run resolves iff some attempt in budget finds the file and succeeds; then the URL carries the last attempt's token, which is the token stored with the object under the key restore.js:106 builds; a rejection makes exactly `maxRetries` attempts and stores nothing |
| RestoreProperties.UploadRetryOutcome | restore.js:75-117 | The same for the whole call, including the case where decoding fails: no attempt and no change; the object is stored under the as-written key of the decoded name |
| RestoreProperties.UploadResolved | restore.js:101-114 | A resolved upload consumed a successful attempt, found the file, returns the URL head plus the stored token, and stored the file under the as-written key |
| RestoreProperties.UploadPlannedResolved | restore.js:101-114 | A resolved upload leaves the object under the as-written key with the token of its last attempt |
| RestoreProperties.UploadKeyMatchesUrl | restore.js:97-113 | A resolved upload stores the file under the as-written key, while its URL names the decoded object path; the two agree exactly when the path has a folder and its basename occurs nowhere before the basename itself |
| RestoreProperties.MissingFileRejects | restore.js:89-104 | An upload of a missing sidecar file rejects and stores nothing |
| RestoreProperties.ReuploadReplacesToken | restore.js:101-110 | With distinct tokens, a second upload whose as-written key equals the first one's replaces the first upload's token: the earlier URL's token no longer matches the stored object. Two sidecars with different names can collide this way |
| RestoreProperties.DistinctTokens | restore.js:101 | Distinct attempts draw distinct tokens when the token oracle is injective and covers every successful attempt |
| RestoreProperties.UploadNonEmpty | restore.js:63-113 | A resolved upload's URL is never empty, so `if (url)` always holds |
| RestoreProperties.UploadRestores | restore.js:59-65 | A resolved upload of a sentinel field gives a non-empty URL of the bucket for the sidecar's raw name, under the same field name |
| RestoreProperties.RestoreRejected | restore.js:62-91 | A rejected upload aborts the field rewrite with the data unchanged |
| RestoreProperties.RestoreResolved | restore.js:62-65 | A resolved upload replaces the field by its URL, and the rewrite goes on |
| RestoreProperties.RestoreSkip | restore.js:58-59 | A field that is not a sentinel string is passed over |
| RestoreProperties.FieldsRestoredStep | restore.js:57-66 | Restoring one field, then the rest, restores the fields from that index on |
| RestoreProperties.FieldsRestoredSkip | restore.js:57-66 | Keeping a non-sentinel field, then restoring the rest, restores the fields from that index on |
| RestoreProperties.RestoreFromFields | restore.js:56-67 | The rewrite keeps the field names and order; non-sentinel fields are unchanged; every field is kept or restored, and all sentinel fields are restored when it completes |
| RestoreProperties.RestoreFromFieldsAt | restore.js:59-66 | The same, from a sentinel field on |
| RestoreProperties.RestoreFromFieldsUploaded | restore.js:62-65 | The same, from a sentinel field whose upload resolves |
| RestoreProperties.MissingSidecarAborts | restore.js:59-62 | A sentinel field whose sidecar file is missing aborts the document's rewrite, whatever comes before it |
| RestoreProperties.MissingSidecarAfter | restore.js:59-65 | The same, past an earlier sentinel field whose upload resolves |
| RestoreWalk.UploadKeepsStore | restore.js:75-119 | An upload changes neither the store nor the log |
| RestoreWalk.RestoreFromKeeps | restore.js:56-67 | The field rewrite changes neither the store nor the log |
| RestoreWalk.RestoreFieldKeeps | restore.js:59-66 | The same, from a sentinel field on |
| RestoreWalk.RestoreFromNoSentinels | restore.js:57-59 | Only sentinel fields are uploaded: with no sentinel among the remaining fields, the rewrite makes no attempt and changes nothing |
| RestoreWalk.RestoreFromUploads | restore.js:57-66 | Every bucket object the rewrite writes is the upload of a remaining sentinel field whose name decodes, under the key restore.js:106 builds for it |
| RestoreWalk.RestoreFieldUploads | restore.js:59-66 | The same, from a sentinel field on |
| RestoreWalk.CollectionsEffect | restore.js:38-73 | The walk of a folder removes no key; every key it writes lies under the path followed by a listed entry that is not `__files` or `__data.json`; below the root it logs nothing |
| RestoreWalk.EntriesEffect | restore.js:40-43 | The same, from one entry on |
| RestoreWalk.CollectionEffect | restore.js:45-47 | One collection writes only under `path + collection + "/"` |
| RestoreWalk.DocumentsEffect | restore.js:48-71 | A document loop writes only the documents' keys and keys under them |
| RestoreWalk.DocumentEffect | restore.js:49-70 | One document writes only its own key `collectionPath/document` and keys under `collectionPath/document/` |
| RestoreWalk.DocumentStored | restore.js:54-70 | After a completed document, its key holds its data file's fields restored, and every document its folder's walk reaches below it is stored at its nested key; its own sub-collections never overwrite it |
| RestoreWalk.DocumentsStored | restore.js:48-70 | After a completed document loop, every document and every document below it is stored with its fields restored; later siblings leave earlier ones alone |
| RestoreWalk.CollectionStored | restore.js:45-70 | After a completed collection, every document its folder lists is stored at `path + collection + "/" + document`, and every document below those at its nested key |
| RestoreWalk.EntriesStored | restore.js:40-70 | The same for every non-reserved entry from one index on, at every depth; later collections leave earlier ones alone |
| RestoreWalk.CollectionsStored | restore.js:38-73 | After a completed walk of a folder, every document of every non-reserved listed collection, and every document the walk reaches below it, is stored at its key under the path prefix, its fields restored |
| RestoreWalk.ImportWritesUnderCollections | restore.js:33-46 | Every key an import writes, completed or not, lies under a collection listed in `backups` that is not a reserved name |
| RestoreWalk.ImportMirrorsTree | restore.js:33-73 | A completed import stores every document it reaches, at every depth, at its nested key `collection/document/collection/document/...`, with its fields restored |
| RestoreWalk.ListingProper | restore.js:39-47 | The names of a listing are non-empty, `/`-free and distinct |
| RestoreWalk.DistinctKeysApart | restore.js:69 | Distinct document names give keys that are not each other's prefix |
| RestoreWalk.DistinctRangesApart | restore.js:46-70 | Distinct entry names head disjoint key ranges |
| RestoreWalk.DescendWithin | restore.js:46-70 | The key of a document reached below a key is that key or lies under it |
| RestoreWalk.WithinApart | restore.js:69 | A key at or under one document's key is not at or under a sibling's |
| RestoreWalk.RangesApart | restore.js:46 | A key under one collection's prefix is not under a sibling collection's prefix |

## Left out

- Zip packing, zip extraction and deletion of the temporary folder (backup.js:27-41, restore.js:31-32) are library calls. The import starts from the extracted tree as a value.
- Credential loading, client setup and `common.js` (restore.js:11-19) are left out. The bucket name is a parameter.
- HTTPS streaming and `bucket.upload` are network I/O. Each attempt is one entry of an outcome oracle. A download only ever resolves with 0, so `res === 0` always holds on the resolve path. An upload also fails when no file is at its path. A download also fails when its document's `__files` folder is missing or a folder is at its path, because the write stream cannot open.
- `uuid.v4()` is random. The token of attempt `k` is entry `k` of a token oracle, or empty when the oracle has run out (`Restore.Token`).
- JSON serialisation is left out. A `__data.json` holds the field map itself, and key enumeration order is the order of the field sequence.
- Values other than strings (numbers, booleans, null, nested maps and arrays) are opaque. Neither tool looks inside them, so a URL nested in a map is not rehosted, as in the source.
- `console.error` inside the retry loops is left out. `console.log` progress lines are recorded as a log.
- The async/Promise machinery is left out. Every `await` is sequential, so the walks are sequential methods.
- `fs.mkdirSync` and `fs.writeFileSync` are modelled as always succeeding. A failure of either would throw and abort the walk.
- `collection.get`, `listCollections` (backup.js:25, 51, 65) and the document write `set` (restore.js:69) are modelled as always succeeding. A rejection of any of them would abort the walk.
- `fs.existsSync` is true for a directory or a file at that path (`LocalFs.Exists`).
- BackupProperties.CollectionsMirrored: does not state that every document folder has a `__files` folder, because the source creates `__files` only together with an absent document folder (backup.js:58-61). `BackupProperties.DocumentFoldersCreated` states that case; `BackupProperties.ExistingFolderWithoutFilesAborts` states the other.
- BackupProperties.CollectionMirrored: does not state the `__files` folders, for the same reason.
- BackupProperties.DocumentsMirrored: does not state the `__files` folders, for the same reason.
- BackupProperties.DocumentMirrored: does not state the `__files` folder, for the same reason.
- `https.get` has no `'error'` listener (backup.js:111). A network error is an unhandled event that crashes the process rather than a failed attempt that is retried. The model treats every failed attempt as retried.
- `new URL(datum)` throws on a string it cannot parse, for example `https://firebasestorage:99999/x` with an out-of-range port (backup.js:77). That throw aborts the export. `Naming.LocalName` always yields a name, so the model continues where the source stops.
- The `public: true` upload option (restore.js:105) sets the object's access control. Access control is not part of the store model.
- A field map is a sequence of fields, and the model does not require its names to be distinct. A JavaScript object or a JSON object keeps one entry per key; the lemmas hold for either.
- The import stores each upload under the key restore.js:106 builds (`Naming.UploadKeyAsWritten`), as the code does. The corrected key `Naming.UploadKey` is a separate definition and no walk uses it.
- `new URL(datum).pathname` is simplified: the pathname is what follows the host up to the first `?` or `#`. Host parsing, dot-segment removal and percent re-encoding of the WHATWG URL parser are left out.
- `decodeURIComponent` decodes only escapes below `%80`. A multi-byte UTF-8 escape is treated like an invalid one, as a decode failure.
- `Restore.Importer.UploadObjectRetry`: the sidecar name is decoded once, before the first attempt, rather than once per attempt. Every attempt decodes the same name the same way, so the outcome is the same.
- `Restore.UploadRetry`: when decoding throws, the throw happens inside an async Promise executor (restore.js:96-98). The upload promise never settles, and the executor's own rejection is unhandled, which ends the process. The model records this as an upload that settles on nothing and aborts the walk, with no attempt made.
- `fs.readdirSync` order is modelled as ascending code-point order of the names. The store's own listing order on export is kept as given.
- The document store's own key-path syntax is not modelled beyond the string `collectionPath/document`.
- The import's root-level progress lines are only stated as silent below the root (`RestoreWalk.CollectionsEffect`). Their exact sequence is not stated, as it is for the export.

Two behaviours of the code worth stating plainly:

- A download or upload that exhausts its retries aborts the walk: the retry promise rejects and nothing catches it. It does not leave the field with its original URL.
- So a blob field is left unchanged only when the walk stops there. On a completed export every blob field is rehosted.

## Findings

| source | as written | input that shows it | evidently intended | confidence | as-written member | corrected member |
|---|---|---|---|---|---|---|
| restore.js:99-100, restore.js:106 | The destination is the decoded path with the first occurrence of its basename removed and one trailing `/` stripped, and the upload goes to `destination + "/" + filename` | A top-level object `photo.png` is uploaded to `/photo.png`. An object `a/a` is uploaded to `/a/a`, because the first `a` removed is the folder, not the basename. An object `ab/b` is uploaded to `a/b/b`, because the first `b` removed is inside the folder; that is a different object whether or not the client keeps a leading `/` | The object goes back to its original path: the folder of the decoded path, then the basename, with no leading `/` for a top-level object | not executed | Naming.UploadKeyAsWrittenIff | Naming.UploadKeyIsObjectPath |
