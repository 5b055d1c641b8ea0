# Filesystem event classifier (rust_notify_playground)

This project models the event classifier of `rust_notify_playground` in Dafny and proves properties of that model.
A debounced batch of raw `notify` events, each a kind plus a list of paths, becomes one `FSEvent`.
The result is one of `Create`, `Modify`, `Delete`, `Rename`, `Move` or `Unknown`.
The classifier scans the batch in order and the first event that matches a rule wins.

Modules, one per part of `src/main.rs` plus the library pieces it relies on:

- `Wrappers` (`wrappers.dfy`): `Option`.
- `RustPath` (`rust_path.dfy`): Rust paths as component sequences (`RootDir`, `CurDir`, `ParentDir`, `Normal(name)`).
  It has `Path::ends_with`, which matches whole trailing components, and `Path::parent`, which is `None` for the empty path and for a path ending in the root.
- `Notify` (`notify_event.dfy`): the raw event, `Event(kind, paths)`.
  The kinds are `Any`, `Access`, `Create`, `Modify(Any|Data|Metadata|Name|Other)`, `Remove(Any|File|Folder|Other)` and `Other`.
- `Events` (`events.dfy`): `FSEvent` with its accessors `IsUnknown`, `Path` and `Path2`.
  It also has the two `EventExt` predicates, `IsRemoveAny` and `ShouldIgnore`, as free functions over the raw event.
- `Classifier` (`classifier.dfy`): `ToFsEvent`, the scan `Scan`, the per-event rule `EventRule`, and the removal detection `HasRemoveAny`/`FindRemoveAny`.
  Its result is an `Outcome`: either `Returned(ev)`, or `Panicked` for the panic of the `unwrap` at `src/main.rs:111`.
- `ClassifierProperties` (`classifier_properties.dfy`): lemmas about whole batches and about single rules.
- `Scenarios` (`scenarios.dfy`): concrete batches.

Whether a path still exists on disk is not computed by the model.
It is the oracle parameter `onDisk: PathBuf -> bool`, and a stat that fails counts as "absent".
The model proves that the `unwrap` on the first path at `src/main.rs:106` and the `find(..).unwrap()` at `src/main.rs:110` never fail.

## Behaviour of the code worth knowing

- A `Modify(Data)` or `Modify(Any)` event is classified `Modify` even when its path no longer exists.
  The `Data`/`Any` arm comes before the existence check (`ModifyDataOrAnyRule`, `Scenarios.DataChangeIsModifyEvenIfAbsent`).
  Only the other modify kinds consult the existence check.
- A `Move` can stay inside one directory.
  A `Create` paired with an unqualified removal is reported as a `Move` without comparing parents (`Scenarios.MoveWithinOneDirectory`).
  Only a `Rename` guarantees a parent relation, namely equal parents (`RenameOrigin`).
- Events after the deciding one can matter.
  The removal detection scans the whole batch, so a `Remove(Any)` placed after the deciding `Create` turns it into a `Move` (`Scenarios.LaterRemovalTurnsCreateIntoMove`).
  The removal detection also does not apply the `.DS_Store` filter (`Scenarios.IgnorableRemovalStillPairs`).
- For a batch that already classifies to something other than `Unknown`, appended events change the result exactly when the deciding event is a `Create` and only the appended events contain a `Remove(Any)`.
  `LaterEventsNotConsulted` proves the result is kept in every other case, and `AppendedRemovalChangesCreate` proves it changes in that one.
- The classifier can panic.
  It does so exactly when the deciding event is a `Create` and the batch's first `Remove(Any)` event carries no path (`PanicExactly`).

## Model

| member | source | states |
|---|---|---|
| `RustPath.Parent` | src/main.rs:119 | `Path::parent` is `None` exactly for the empty path and for a path ending in the root; otherwise the parent with the last component appended back is the path |
| `RustPath.EndsWith` | src/main.rs:89 | `Path::ends_with` holds iff the path is some directory followed by exactly the child's components |
| `RustPath.EndsWithComponent` | src/main.rs:89 | ending in a one-component path means having that component last, so `ends_with` compares whole components, not string suffixes |
| `RustPath.SameParentIff` | src/main.rs:119 | two paths have equal, existing parents iff both are one non-root component appended to the same directory |
| `Events.FSEvent.IsUnknown` | src/main.rs:48-53 | `is_unknown` is true iff the event is `Unknown` |
| `Events.FSEvent.Path` | src/main.rs:55-64 | `path` is `None` iff the event is `Unknown`, and otherwise the event's first path |
| `Events.FSEvent.Path2` | src/main.rs:66-72 | `path2` is `Some` iff the event is a `Rename` or a `Move`, and then its second path |
| `Events.AccessorConsistency` | src/main.rs:47-72 | `is_unknown` holds iff the event is `Unknown`; `path` is `None` iff `Unknown`; `path2` is `Some` iff `Rename`/`Move`; the accessors return the variant's payloads |
| `Events.IsRemoveAny` | src/main.rs:81-86 | `is_remove_any` is true iff the event's kind is `Remove(Any)` |
| `Events.AnyEndsWith` | src/main.rs:89 | the `iter().any(ends_with)` scan is true iff some path of the list ends with the given path |
| `Events.ShouldIgnore` | src/main.rs:88-90 | an event is ignored iff it has no paths or one of its paths has `.DS_Store` as its last component |
| `Classifier.HasRemoveAny` | src/main.rs:81-107 | the batch-wide `any(is_remove_any)` is true iff some event of the batch is `Remove(Any)` |
| `Classifier.FindRemoveAny` | src/main.rs:110 | `find(is_remove_any)` returns a value iff the batch contains a removal, and that value is the earliest `Remove(Any)` event |
| `Classifier.Scan` | src/main.rs:102-130 | the loop from index `i` returns `Unknown` iff no event from `i` on decides, and panics only in a batch with a `Remove(Any)` |
| `Classifier.ToFsEvent` | src/main.rs:98-131 | `to_fs_event` returns `Unknown` iff no event of the batch decides, and panics only in a batch with a `Remove(Any)` |
| `Classifier.EventRule` | src/main.rs:103-127 | the rule of one event: an ignored event never decides, no rule yields `Unknown`, and a panic only comes from a `Create` when the first removal has no path |
| `ClassifierProperties.ScanFrom` | src/main.rs:102-129 | the loop from index `i` returns the rule result of the earliest deciding event at or after `i` |
| `ClassifierProperties.ClassifyIsFirstMatch` | src/main.rs:98-131 | `to_fs_event` is `Unknown` iff no event decides; otherwise it is the result of the earliest deciding event, every earlier event having been skipped or matched nothing |
| `ClassifierProperties.EmptyOrIgnorableIsUnknown` | src/main.rs:99-130 | an empty batch, or one whose every event is ignorable, classifies to `Unknown` |
| `ClassifierProperties.RuleReadsOnlyRemoval` | src/main.rs:107-111 | one event's rule depends on the rest of the batch only through the removal detection and the first removal |
| `ClassifierProperties.RuleDecisionIgnoresBatch` | src/main.rs:107-127 | whether an event decides does not depend on the rest of the batch, and only a `Create` event's result does |
| `ClassifierProperties.PrefixDecidesAlike` | src/main.rs:102-129 | appending events never changes which events of the prefix decide |
| `ClassifierProperties.LaterEventsNotConsulted` | src/main.rs:102-129 | appending events to a batch that already classifies to something other than `Unknown` keeps the result when the deciding event is not a `Create` or when the appended events do not bring the batch's first `Remove(Any)` |
| `ClassifierProperties.AppendedRemovalChangesCreate` | src/main.rs:107-113 | when a `Create` decides and only the appended events contain a `Remove(Any)`, the result changes from `Create(p)` to `Move(p1, p)`, or to a panic when that removal has no path |
| `ClassifierProperties.PrefixRulesAgree` | src/main.rs:102-129 | the events of a prefix decide, and give the same rule result, in the longer batch exactly as in the prefix, when the appended events keep the removal detection |
| `ClassifierProperties.ResultOfFirstDecider` | src/main.rs:102-129 | the earliest deciding event's rule result is the classification |
| `ClassifierProperties.AppendKeepsRemoval` | src/main.rs:107-110 | appending events keeps the removal detection and the first removal, unless the appended events bring the first one |
| `ClassifierProperties.FirstSetFlag` | src/main.rs:102-129 | among the events that decide, there is an earliest one (stated for any sequence of flags) |
| `ClassifierProperties.FirstRemoveAnyExists` | src/main.rs:110 | a batch with an unqualified removal has a first one |
| `ClassifierProperties.CreateRule` | src/main.rs:109-113 | a kept `Create` always decides: without a `Remove(Any)` in the batch it gives `Create(p)`; otherwise it gives `Move(p1, p)` with `p1` the first path of the first `Remove(Any)` event, or a panic when that event has no path |
| `ClassifierProperties.ModifyDataOrAnyRule` | src/main.rs:114-116 | a kept `Modify(Data)`/`Modify(Any)` gives `Modify(p)` under every existence oracle |
| `ClassifierProperties.NameWithTwoPathsRule` | src/main.rs:117-125 | a kept two-path `Modify(Name)` always decides, giving `Rename(a, b)` iff `parent(a) == parent(b)` and `Move(a, b)` otherwise |
| `ClassifierProperties.OtherModifyRule` | src/main.rs:126 | every other kept `Modify` decides iff the oracle reports its first path absent, and then gives `Delete` of that path |
| `ClassifierProperties.NonModifyNonCreateRule` | src/main.rs:127 | `Remove`, `Access`, `Any` and `Other` events never decide; the scan continues past them |
| `ClassifierProperties.DeciderOf` | src/main.rs:102-129 | a result other than `Unknown` has a first deciding event, which is kept and whose rule gives the result |
| `ClassifierProperties.RenameOrigin` | src/main.rs:117-120 | a `Rename(a, b)` result has `parent(a) == parent(b)` and comes from a two-path `Modify(Name)` event `[a, b]` |
| `ClassifierProperties.MoveOrigin` | src/main.rs:109-122 | a `Move(a, b)` result comes either from a two-path `Modify(Name)` event `[a, b]` with different parents, or from a `Create` of `b` paired with the first path `a` of the first `Remove(Any)` event |
| `ClassifierProperties.CreateOrigin` | src/main.rs:113 | a `Create(p)` result comes from a `Create` event of `p` in a batch without `Remove(Any)` |
| `ClassifierProperties.ModifyOrigin` | src/main.rs:114-116 | a `Modify(p)` result comes from a `Modify(Data)` or `Modify(Any)` event of `p` |
| `ClassifierProperties.DeleteOrigin` | src/main.rs:126 | a `Delete(p)` result has `p` absent under the oracle and comes from a `Modify` event that is not `Data`/`Any` and not a two-path `Name`, with first path `p` |
| `ClassifierProperties.PanicExactly` | src/main.rs:109-111 | the classifier panics iff the deciding event is a `Create` and the first `Remove(Any)` event has no path |
| `ClassifierProperties.ResultPathsOccurInBatch` | src/main.rs:106-126 | every path a classified event carries (through `path` and `path2`) occurs in one of the batch's events |
| `Scenarios.EmptyBatch` | src/main.rs:99-101 | the empty batch gives `Unknown` |
| `Scenarios.SingleCreate` | src/main.rs:113 | a lone create of `/d/a.txt` gives `Create(/d/a.txt)` |
| `Scenarios.RemovalThenCreateIsMove` | src/main.rs:109-112 | a removal of `/d/old.txt` followed by a create of `/e/new.txt` gives `Move(/d/old.txt, /e/new.txt)` |
| `Scenarios.NameSameParentIsRename` | src/main.rs:119-120 | a name change `/d/a.txt` -> `/d/b.txt` gives `Rename` |
| `Scenarios.NameOtherParentIsMove` | src/main.rs:121-122 | a name change `/d/a.txt` -> `/e/a.txt` gives `Move` |
| `Scenarios.DataChangeIsModifyEvenIfAbsent` | src/main.rs:114-116 | a data change gives `Modify` whether the path exists or not |
| `Scenarios.MetadataChangeOfAbsentPathIsDelete` | src/main.rs:126-127 | a metadata change gives `Delete` when the path is absent and `Unknown` when it is present |
| `Scenarios.OnlyIgnorableIsUnknown` | src/main.rs:103-130 | a batch of a pathless event and a `.DS_Store` event gives `Unknown` |
| `Scenarios.SuffixIsNotComponent` | src/main.rs:89 | `x.DS_Store` is kept, and an event with a `.DS_Store` path among others is ignored |
| `Scenarios.FirstOfTwoWins` | src/main.rs:102-129 | of a create and a data change, the first event in batch order decides |
| `Scenarios.LaterRemovalTurnsCreateIntoMove` | src/main.rs:107-112 | a `Remove(Any)` after the create still turns `Create` into `Move` |
| `Scenarios.IgnorableRemovalStillPairs` | src/main.rs:107-111 | a `Remove(Any)` of a `.DS_Store` file still pairs with a create |
| `Scenarios.MoveWithinOneDirectory` | src/main.rs:109-112 | a removal and a create in one directory give a `Move` whose paths share their parent |
| `Scenarios.PathlessRemovalPanics` | src/main.rs:110-111 | a pathless `Remove(Any)` makes a later create panic, while a `Modify(Any)` still gives `Modify` |

## Left out

- `main` (`src/main.rs:12-35`) is not modelled: the tokio runtime, the debouncer setup, the channel, the watch on `demo`, the receive loop and the `println!` output are I/O and threading.
- `Path::exists` is not modelled. It is the oracle `onDisk`, and a stat failure is folded into "absent".
- The oracle is one snapshot for the whole classification. The program stats each path live, once per event, so two events on the same path can see different answers if the file vanishes in between. The model cannot produce that.
- The Windows path `Prefix` component is not modelled. `Path::parent` also returns `None` for a path ending in a prefix.
- The model has no path parser. Paths are taken already split into components, as `Path::components` yields them.
- Event payloads the classifier never inspects are dropped: the create, data-change, rename-mode and access sub-kinds, timestamps and attributes.
- `Debug` formatting and the derived `PartialEq` are not modelled. Dafny's datatype equality plays the role of `PartialEq`.
- Determinism and idempotence are not stated as lemmas, because every Dafny function is deterministic.
