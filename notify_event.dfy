/**
 * The raw event of the `notify` crate, as far as the classifier looks at it:
 * its kind (with the sub-kinds the classifier distinguishes) and its paths.
 * Payloads the classifier never inspects (the create kind, the data-change and
 * rename modes, the access kind, timestamps and attributes) are dropped.
 */
module Notify {
  import opened RustPath

  datatype ModifyKind = Any | Data | Metadata | Name | Other

  datatype RemoveKind = Any | File | Folder | Other

  datatype EventKind =
    | Any
    | Access
    | Create
    | Modify(modifyKind: ModifyKind)
    | Remove(removeKind: RemoveKind)
    | Other

  /** One debounced event: what happened, and to which paths (old and new for a rename). */
  datatype Event = Event(kind: EventKind, paths: seq<PathBuf>)
}
