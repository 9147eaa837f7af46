/** The parsed config.json and the folder listings that the two audit scripts compare. */
module ConfigJson {
  import opened Common
  import opened Text

  /** A value json.load can return (numbers are kept integral here). */
  datatype Json =
    | Null
    | Bool(b: bool)
    | Number(n: int)
    | Str(s: string)
    | Array(items: seq<Json>)
    | Object(fields: map<string, Json>)

  /** A config key written with a leading underscore holds metadata, not an input file. */
  predicate IsMetadata(key: string)
  {
    StartsWith(key, "_")
  }

  datatype EntryKind = RegularFile | Directory

  /** The entries of a folder by name; None when the folder does not exist. */
  type Folder = Option<map<string, EntryKind>>
}
