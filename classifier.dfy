/**
 * `EventsExt::to_fs_event`: one debounced batch of raw events reduced to one
 * `FSEvent` by a first-match-wins scan. The only outside fact it consults,
 * whether a path still exists, is the oracle `onDisk` (a failing stat counts
 * as absent).
 */
module Classifier {
  import opened Wrappers
  import opened RustPath
  import opened Notify
  import opened Events

  /** How a call ends: with a returned event, or in the panic of an `unwrap` on `None`. */
  datatype Outcome = Returned(event: FSEvent) | Panicked

  /** `j` is the first unqualified removal of the batch. */
  ghost predicate IsFirstRemoveAny(batch: seq<Event>, j: int) {
    0 <= j < |batch| && IsRemoveAny(batch[j]) &&
    forall k :: 0 <= k < j ==> !IsRemoveAny(batch[k])
  }

  /** `self.iter().any(|event| event.is_remove_any())`. */
  function HasRemoveAny(batch: seq<Event>): (b: bool)
    ensures b <==> exists j :: 0 <= j < |batch| && IsRemoveAny(batch[j])
  {
    |batch| > 0 && (IsRemoveAny(batch[0]) || HasRemoveAny(batch[1..]))
  }

  /** `self.iter().find(|event| event.is_remove_any())`. */
  function FindRemoveAny(batch: seq<Event>): (r: Option<Event>)
    ensures r.Some? <==> HasRemoveAny(batch)
    ensures forall j :: IsFirstRemoveAny(batch, j) ==> r == Some(batch[j])
  {
    if |batch| == 0 then None
    else if IsRemoveAny(batch[0]) then Some(batch[0])
    else
      var r := FindRemoveAny(batch[1..]);
      assert forall j :: IsFirstRemoveAny(batch, j) ==> IsFirstRemoveAny(batch[1..], j - 1);
      r
  }

  /**
   * The body of the scan loop for one event of `batch`: `None` when the event
   * is skipped or matches no rule (the loop goes on), `Some(o)` when the call
   * ends with `o`. The rules are tried in the source's order.
   */
  function EventRule(batch: seq<Event>, event: Event, onDisk: PathBuf -> bool): (r: Option<Outcome>)
    ensures ShouldIgnore(event) ==> r.None?
    ensures r != Some(Returned(Unknown))
    ensures r == Some(Panicked) ==> event.kind.Create? && HasRemoveAny(batch) &&
                                    |FindRemoveAny(batch).value.paths| == 0
  {
    if ShouldIgnore(event) then None
    else
      var path := event.paths[0];
      var removeAny := HasRemoveAny(batch);
      match event.kind
      case Create =>
        if removeAny then
          var removal := FindRemoveAny(batch).value;
          if |removal.paths| == 0 then Some(Panicked)
          else Some(Returned(Move(removal.paths[0], path)))
        else Some(Returned(FSEvent.Create(path)))
      case Modify(kind) =>
        if kind == ModifyKind.Data || kind == ModifyKind.Any then
          Some(Returned(FSEvent.Modify(path)))
        else if kind == ModifyKind.Name && |event.paths| == 2 then
          var path2 := event.paths[1];
          if Parent(path) == Parent(path2) then Some(Returned(Rename(path, path2)))
          else Some(Returned(Move(path, path2)))
        else if !onDisk(path) then Some(Returned(Delete(path)))
        else None
      case _ => None
  }

  /** The event at index `j` ends the scan when the scan reaches it. */
  ghost predicate Decides(batch: seq<Event>, onDisk: PathBuf -> bool, j: int) {
    0 <= j < |batch| && EventRule(batch, batch[j], onDisk).Some?
  }

  /** The event at index `j` is the earliest one that ends the scan. */
  ghost predicate IsFirstDecider(batch: seq<Event>, onDisk: PathBuf -> bool, j: int) {
    Decides(batch, onDisk, j) && forall k :: 0 <= k < j ==> !Decides(batch, onDisk, k)
  }

  /** The `for` loop, from index `i` on. */
  function Scan(batch: seq<Event>, i: nat, onDisk: PathBuf -> bool): (r: Outcome)
    requires i <= |batch|
    ensures r == Returned(Unknown) <==> forall k :: i <= k < |batch| ==> !Decides(batch, onDisk, k)
    ensures r == Panicked ==> HasRemoveAny(batch)
    decreases |batch| - i
  {
    if i == |batch| then Returned(Unknown)
    else
      match EventRule(batch, batch[i], onDisk)
      case Some(o) => assert Decides(batch, onDisk, i); o
      case None => Scan(batch, i + 1, onDisk)
  }

  /** `to_fs_event`. */
  function ToFsEvent(batch: seq<Event>, onDisk: PathBuf -> bool): (r: Outcome)
    ensures r == Returned(Unknown) <==> forall j :: 0 <= j < |batch| ==> !Decides(batch, onDisk, j)
    ensures r == Panicked ==> HasRemoveAny(batch)
  {
    if |batch| == 0 then Returned(Unknown) else Scan(batch, 0, onDisk)
  }
}
