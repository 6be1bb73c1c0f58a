/** Shared vocabulary of the backup (export) and restore (import) tools:
    document field values, local file contents, and the reserved names of
    the on-disk layout. */
module Model {

  datatype Option<T> = None | Some(value: T)

  type Path = string

  /** A document field value as the document store hands it out. Only the
      string case is ever inspected; every other case passes through both
      tools untouched, including strings nested inside maps or arrays. */
  datatype Value =
    | Str(s: string)
    | Num(n: int)
    | Bool(b: bool)
    | Null
    | Nested(items: seq<Value>)

  /** One entry of a document's field mapping, in enumeration order. */
  datatype Field = Field(name: string, value: Value)

  type Fields = seq<Field>

  /** What a local file holds: a document's serialised field map, or the
      bytes that were fetched from a remote blob URL. */
  datatype Content = DataFile(fields: Fields) | BlobFile(url: string)

  /** Root folder of the local tree, shared by both tools. */
  const BackupFolder: Path := "backups"
  /** Per-document sidecar directory holding the downloaded blobs. */
  const FilesFolder: string := "__files"
  /** Per-document file holding the serialised field map. */
  const DataFilename: string := "__data.json"
  /** Number of transfer attempts when the caller gives no option. */
  const DefaultMaxRetries: nat := 3

  predicate StartsWith(s: string, prefix: string)
  {
    |prefix| <= |s| && s[..|prefix|] == prefix
  }

  /** The field names of a field map, in enumeration order. */
  function Names(fs: Fields): (r: seq<string>)
    ensures |r| == |fs|
    ensures forall k :: 0 <= k < |fs| ==> r[k] == fs[k].name
  {
    if fs == [] then [] else [fs[0].name] + Names(fs[1..])
  }

  /** Paths of the two reserved entries inside a document folder. */
  function DataPath(docFolder: Path): Path
  {
    docFolder + "/" + DataFilename
  }

  function BlobPath(docFolder: Path, filename: string): Path
  {
    docFolder + "/" + FilesFolder + "/" + filename
  }
}
