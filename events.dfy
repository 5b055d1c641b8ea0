/**
 * The classified event `FSEvent` with its accessors, and the two per-event
 * predicates of `EventExt` written as free functions over the raw event.
 */
module Events {
  import opened Wrappers
  import opened RustPath
  import opened Notify

  /** What one batch of raw events is reduced to. */
  datatype FSEvent =
    | Create(path: PathBuf)
    | Modify(path: PathBuf)
    | Delete(path: PathBuf)
    | Rename(path: PathBuf, path2: PathBuf)
    | Move(path: PathBuf, path2: PathBuf)
    | Unknown
  {
    /** `FSEvent::is_unknown`. */
    predicate IsUnknown(): (b: bool)
      ensures b <==> this == Unknown
    {
      match this
      case Unknown => true
      case _ => false
    }

    /** `FSEvent::path`: the (first) path the event carries. */
    function Path(): (r: Option<PathBuf>)
      ensures r.None? <==> this == Unknown
      ensures r.Some? ==> r.value == this.path
    {
      match this
      case Create(p) => Some(p)
      case Modify(p) => Some(p)
      case Delete(p) => Some(p)
      case Rename(p, _) => Some(p)
      case Move(p, _) => Some(p)
      case Unknown => None
    }

    /** `FSEvent::path2`: the destination of a rename or move. */
    function Path2(): (r: Option<PathBuf>)
      ensures r.Some? <==> this.Rename? || this.Move?
      ensures r.Some? ==> r.value == this.path2
    {
      match this
      case Rename(_, p) => Some(p)
      case Move(_, p) => Some(p)
      case _ => None
    }
  }

  /**
   * The three accessors agree with each other and with the variant, and
   * together they expose every path an event carries.
   */
  lemma AccessorConsistency(ev: FSEvent)
    ensures ev.IsUnknown() <==> ev == Unknown
    ensures ev.Path().None? <==> ev.IsUnknown()
    ensures ev.Path2().Some? <==> ev.Rename? || ev.Move?
    ensures ev.Path2().Some? ==> ev.Path().Some?
    ensures ev != Unknown ==> ev.Path() == Some(ev.path)
    ensures ev.Path2().Some? ==> ev.Path2() == Some(ev.path2)
  {
  }

  /** `EventExt::is_remove_any`: the event is an unqualified removal. */
  predicate IsRemoveAny(event: Event): (b: bool)
    ensures b <==> event.kind.Remove? && event.kind.removeKind == RemoveKind.Any
  {
    match event.kind
    case Remove(Any) => true
    case _ => false
  }

  /** `paths.iter().any(|path| path.ends_with(child))`, scanned left to right. */
  function AnyEndsWith(paths: seq<PathBuf>, child: PathBuf): (b: bool)
    ensures b <==> exists k :: 0 <= k < |paths| && EndsWith(paths[k], child)
  {
    |paths| > 0 && (EndsWith(paths[0], child) || AnyEndsWith(paths[1..], child))
  }

  /**
   * `EventExt::should_ignore`: the event names no path, or one of its paths
   * has `.DS_Store` as its last component.
   */
  function ShouldIgnore(event: Event): (b: bool)
    ensures b <==> |event.paths| == 0 ||
                   exists k :: 0 <= k < |event.paths| &&
                     |event.paths[k]| > 0 && event.paths[k][|event.paths[k]| - 1] == Normal(".DS_Store")
  {
    var ignored := |event.paths| == 0 || AnyEndsWith(event.paths, DsStore);
    assert forall k :: 0 <= k < |event.paths| ==>
      (EndsWith(event.paths[k], DsStore) <==>
       |event.paths[k]| > 0 && event.paths[k][|event.paths[k]| - 1] == Normal(".DS_Store")) by {
      forall k | 0 <= k < |event.paths| {
        EndsWithComponent(event.paths[k], Normal(".DS_Store"));
      }
    }
    ignored
  }
}
