/** What the classifier promises, stated over whole batches and single rules. */
module ClassifierProperties {
  import opened Wrappers
  import opened RustPath
  import opened Notify
  import opened Events
  import opened Classifier

  /** `p` is one of the paths of one of the batch's events. */
  ghost predicate OccursIn(batch: seq<Event>, p: PathBuf) {
    exists j, k :: 0 <= j < |batch| && 0 <= k < |batch[j].paths| && batch[j].paths[k] == p
  }

  // ---------------------------------------------------------------------------
  // First match wins
  // ---------------------------------------------------------------------------

  /** The scan from `i` ends with the rule of the earliest deciding event at or after `i`. */
  lemma {:induction false} ScanFrom(batch: seq<Event>, i: nat, onDisk: PathBuf -> bool, j: nat)
    requires i <= j < |batch| && Decides(batch, onDisk, j)
    requires forall k :: i <= k < j ==> !Decides(batch, onDisk, k)
    ensures Scan(batch, i, onDisk) == EventRule(batch, batch[j], onDisk).value
    decreases j - i
  {
    if i < j {
      assert !Decides(batch, onDisk, i);
      ScanFrom(batch, i + 1, onDisk, j);
    }
  }

  /** A sequence of flags with a set flag at or after `i` has an earliest one. */
  lemma {:induction false} FirstSetFlag(flags: seq<bool>, i: nat)
    requires i <= |flags|
    requires exists k :: i <= k < |flags| && flags[k]
    ensures exists j :: i <= j < |flags| && flags[j] && forall k :: i <= k < j ==> !flags[k]
    decreases |flags| - i
  {
    if !flags[i] {
      FirstSetFlag(flags, i + 1);
      var j :| i + 1 <= j < |flags| && flags[j] && forall k :: i + 1 <= k < j ==> !flags[k];
      assert forall k :: i <= k < j ==> !flags[k];
    }
  }

  /**
   * The classification is `Unknown` exactly when no event of the batch decides;
   * otherwise it is what the EARLIEST deciding event's rule gives, so every
   * earlier event was skipped or matched nothing and no later event's rule is
   * consulted.
   */
  lemma ClassifyIsFirstMatch(batch: seq<Event>, onDisk: PathBuf -> bool)
    ensures ToFsEvent(batch, onDisk) == Returned(Unknown) <==>
            forall j :: 0 <= j < |batch| ==> !Decides(batch, onDisk, j)
    ensures forall j :: IsFirstDecider(batch, onDisk, j) ==>
            ToFsEvent(batch, onDisk) == EventRule(batch, batch[j], onDisk).value
    ensures ToFsEvent(batch, onDisk) != Returned(Unknown) ==>
            exists j :: IsFirstDecider(batch, onDisk, j)
  {
    forall j | IsFirstDecider(batch, onDisk, j)
      ensures ToFsEvent(batch, onDisk) == EventRule(batch, batch[j], onDisk).value
    {
      ScanFrom(batch, 0, onDisk, j);
    }
    if ToFsEvent(batch, onDisk) != Returned(Unknown) {
      var flags := seq(|batch|, k requires 0 <= k < |batch| => Decides(batch, onDisk, k));
      var k0 :| 0 <= k0 < |batch| && Decides(batch, onDisk, k0);
      assert flags[k0];
      FirstSetFlag(flags, 0);
      var j :| 0 <= j < |flags| && flags[j] && forall k :: 0 <= k < j ==> !flags[k];
      forall k | 0 <= k < j ensures !Decides(batch, onDisk, k) {
        assert !flags[k];
      }
      assert IsFirstDecider(batch, onDisk, j);
    }
  }

  /** An empty batch, or one whose every event is ignorable, classifies to `Unknown`. */
  lemma EmptyOrIgnorableIsUnknown(batch: seq<Event>, onDisk: PathBuf -> bool)
    requires forall j :: 0 <= j < |batch| ==> ShouldIgnore(batch[j])
    ensures ToFsEvent(batch, onDisk) == Returned(Unknown)
  {
    ClassifyIsFirstMatch(batch, onDisk);
  }

  /** A rule reads the rest of the batch only through the removal detection. */
  lemma RuleReadsOnlyRemoval(b1: seq<Event>, b2: seq<Event>, event: Event, onDisk: PathBuf -> bool)
    requires HasRemoveAny(b1) == HasRemoveAny(b2)
    requires FindRemoveAny(b1) == FindRemoveAny(b2)
    ensures EventRule(b1, event, onDisk) == EventRule(b2, event, onDisk)
  {
  }

  /**
   * Whether an event decides does not depend on the rest of the batch, and only
   * a `Create` event's result does (through the removal detection).
   */
  lemma RuleDecisionIgnoresBatch(b1: seq<Event>, b2: seq<Event>, event: Event, onDisk: PathBuf -> bool)
    ensures EventRule(b1, event, onDisk).Some? <==> EventRule(b2, event, onDisk).Some?
    ensures !event.kind.Create? ==> EventRule(b1, event, onDisk) == EventRule(b2, event, onDisk)
  {
  }

  /** Appending events never changes which events of the prefix decide. */
  lemma PrefixDecidesAlike(batch: seq<Event>, rest: seq<Event>, onDisk: PathBuf -> bool)
    ensures forall k :: 0 <= k < |batch| ==> (Decides(batch + rest, onDisk, k) <==> Decides(batch, onDisk, k))
  {
    forall k | 0 <= k < |batch|
      ensures Decides(batch + rest, onDisk, k) <==> Decides(batch, onDisk, k)
    {
      assert (batch + rest)[k] == batch[k];
      RuleDecisionIgnoresBatch(batch + rest, batch, batch[k], onDisk);
    }
  }

  /**
   * Events appended to a batch that already classifies do not change the
   * result when the deciding event is not a `Create`, or when the appended
   * events do not bring the batch's first unqualified removal (the removal
   * detection scans the whole batch, not only the events before the deciding
   * one). `AppendedRemovalChangesCreate` shows the remaining case always
   * changes the result.
   */
  lemma LaterEventsNotConsulted(batch: seq<Event>, rest: seq<Event>, onDisk: PathBuf -> bool)
    requires ToFsEvent(batch, onDisk) != Returned(Unknown)
    requires HasRemoveAny(batch) || !HasRemoveAny(rest) ||
             (forall j :: IsFirstDecider(batch, onDisk, j) ==> !batch[j].kind.Create?)
    ensures ToFsEvent(batch + rest, onDisk) == ToFsEvent(batch, onDisk)
  {
    var whole := batch + rest;
    var j := DeciderOf(batch, onDisk);
    PrefixDecidesAlike(batch, rest, onDisk);
    assert IsFirstDecider(whole, onDisk, j);
    ResultOfFirstDecider(whole, onDisk, j);
    assert whole[j] == batch[j];
    if HasRemoveAny(batch) || !HasRemoveAny(rest) {
      PrefixRulesAgree(batch, rest, onDisk);
    } else {
      RuleDecisionIgnoresBatch(whole, batch, batch[j], onDisk);
    }
  }

  /**
   * When a `Create` decides and only the appended events bring an unqualified
   * removal, the create becomes a move from the first removal's first path
   * (or a panic if that removal has no path): the result always changes.
   */
  lemma AppendedRemovalChangesCreate(batch: seq<Event>, rest: seq<Event>, onDisk: PathBuf -> bool, j: nat)
    requires IsFirstDecider(batch, onDisk, j) && batch[j].kind.Create?
    requires !HasRemoveAny(batch) && HasRemoveAny(rest)
    ensures ToFsEvent(batch, onDisk) == Returned(FSEvent.Create(batch[j].paths[0]))
    ensures forall m :: IsFirstRemoveAny(rest, m) ==>
              ToFsEvent(batch + rest, onDisk) ==
                (if |rest[m].paths| == 0 then Panicked else Returned(Move(rest[m].paths[0], batch[j].paths[0])))
    ensures ToFsEvent(batch + rest, onDisk) != ToFsEvent(batch, onDisk)
  {
    var whole := batch + rest;
    ResultOfFirstDecider(batch, onDisk, j);
    CreateRule(batch, batch[j], onDisk);
    PrefixDecidesAlike(batch, rest, onDisk);
    assert IsFirstDecider(whole, onDisk, j);
    ResultOfFirstDecider(whole, onDisk, j);
    assert whole[j] == batch[j];
    CreateRule(whole, batch[j], onDisk);
    forall m | IsFirstRemoveAny(rest, m)
      ensures IsFirstRemoveAny(whole, |batch| + m) && whole[|batch| + m] == rest[m]
    {
      assert whole[|batch| + m] == rest[m];
      forall k | 0 <= k < |batch| + m ensures !IsRemoveAny(whole[k]) {
        if k >= |batch| { assert whole[k] == rest[k - |batch|]; }
      }
    }
    var m := FirstRemoveAnyIndex(rest);
    assert IsFirstRemoveAny(whole, |batch| + m);
  }

  /** Events of a prefix keep their rule results when events are appended that keep the removal. */
  lemma PrefixRulesAgree(batch: seq<Event>, rest: seq<Event>, onDisk: PathBuf -> bool)
    requires HasRemoveAny(batch) || !HasRemoveAny(rest)
    ensures forall k :: 0 <= k < |batch| ==>
              (Decides(batch + rest, onDisk, k) <==> Decides(batch, onDisk, k)) &&
              EventRule(batch + rest, (batch + rest)[k], onDisk) == EventRule(batch, batch[k], onDisk)
  {
    AppendKeepsRemoval(batch, rest);
    forall k | 0 <= k < |batch|
      ensures Decides(batch + rest, onDisk, k) <==> Decides(batch, onDisk, k)
      ensures EventRule(batch + rest, (batch + rest)[k], onDisk) == EventRule(batch, batch[k], onDisk)
    {
      assert (batch + rest)[k] == batch[k];
      RuleReadsOnlyRemoval(batch + rest, batch, batch[k], onDisk);
    }
  }

  /** The first deciding event gives the result. */
  lemma ResultOfFirstDecider(batch: seq<Event>, onDisk: PathBuf -> bool, j: int)
    requires IsFirstDecider(batch, onDisk, j)
    ensures ToFsEvent(batch, onDisk) == EventRule(batch, batch[j], onDisk).value
  {
    ClassifyIsFirstMatch(batch, onDisk);
  }

  /** Appending events changes neither the detection nor the first removal, unless they bring the first one. */
  lemma AppendKeepsRemoval(batch: seq<Event>, rest: seq<Event>)
    requires HasRemoveAny(batch) || !HasRemoveAny(rest)
    ensures HasRemoveAny(batch + rest) == HasRemoveAny(batch)
    ensures FindRemoveAny(batch + rest) == FindRemoveAny(batch)
  {
    var whole := batch + rest;
    if HasRemoveAny(batch) {
      var m := FirstRemoveAnyIndex(batch);
      assert IsFirstRemoveAny(whole, m);
    } else {
      forall m | 0 <= m < |whole| ensures !IsRemoveAny(whole[m]) {
        if m >= |batch| {
          assert whole[m] == rest[m - |batch|];
        }
      }
    }
  }

  /** Some index is the first unqualified removal of a batch that has one. */
  lemma {:induction false} FirstRemoveAnyExists(batch: seq<Event>)
    requires HasRemoveAny(batch)
    ensures exists m :: IsFirstRemoveAny(batch, m)
  {
    if !IsRemoveAny(batch[0]) {
      FirstRemoveAnyExists(batch[1..]);
      var m :| IsFirstRemoveAny(batch[1..], m);
      assert IsFirstRemoveAny(batch, m + 1);
    } else {
      assert IsFirstRemoveAny(batch, 0);
    }
  }

  ghost function FirstRemoveAnyIndex(batch: seq<Event>): (m: int)
    requires HasRemoveAny(batch)
    ensures IsFirstRemoveAny(batch, m)
  {
    FirstRemoveAnyExists(batch);
    var m :| IsFirstRemoveAny(batch, m); m
  }

  // ---------------------------------------------------------------------------
  // The rules, one event at a time
  // ---------------------------------------------------------------------------

  /**
   * A kept `Create` event always decides: a move from the first path of the
   * batch's first unqualified removal (wherever that removal stands and whether
   * or not it is itself ignorable; a panic if it has no path), or else a create.
   */
  lemma CreateRule(batch: seq<Event>, event: Event, onDisk: PathBuf -> bool)
    requires !ShouldIgnore(event) && event.kind.Create?
    ensures !HasRemoveAny(batch) ==>
            EventRule(batch, event, onDisk) == Some(Returned(FSEvent.Create(event.paths[0])))
    ensures forall m :: IsFirstRemoveAny(batch, m) ==>
            EventRule(batch, event, onDisk) ==
              Some(if |batch[m].paths| == 0 then Panicked
                   else Returned(Move(batch[m].paths[0], event.paths[0])))
  {
    if HasRemoveAny(batch) {
      var m := FirstRemoveAnyIndex(batch);
      assert FindRemoveAny(batch) == Some(batch[m]);
    }
  }

  /** A kept `Modify(Data)` or `Modify(Any)` event gives `Modify` of its path, whatever the oracle says. */
  lemma ModifyDataOrAnyRule(batch: seq<Event>, event: Event, onDisk: PathBuf -> bool, onDisk': PathBuf -> bool)
    requires !ShouldIgnore(event)
    requires event.kind == EventKind.Modify(ModifyKind.Data) || event.kind == EventKind.Modify(ModifyKind.Any)
    ensures EventRule(batch, event, onDisk) == EventRule(batch, event, onDisk') ==
            Some(Returned(FSEvent.Modify(event.paths[0])))
  {
  }

  /**
   * A kept `Modify(Name)` event with exactly two paths always decides: a rename
   * iff both paths have the same parent, a move otherwise.
   */
  lemma NameWithTwoPathsRule(batch: seq<Event>, event: Event, onDisk: PathBuf -> bool)
    requires !ShouldIgnore(event) && event.kind == EventKind.Modify(ModifyKind.Name) && |event.paths| == 2
    ensures EventRule(batch, event, onDisk).Some?
    ensures var a, b := event.paths[0], event.paths[1];
            EventRule(batch, event, onDisk).value ==
              Returned(if Parent(a) == Parent(b) then Rename(a, b) else Move(a, b))
  {
  }

  /**
   * Any other kept `Modify` event (metadata, other, or a rename with other
   * than two paths) decides iff the oracle says its first path is gone, and
   * then gives `Delete` of that path.
   */
  lemma OtherModifyRule(batch: seq<Event>, event: Event, onDisk: PathBuf -> bool)
    requires !ShouldIgnore(event) && event.kind.Modify?
    requires event.kind.modifyKind !in {ModifyKind.Data, ModifyKind.Any}
    requires !(event.kind.modifyKind == ModifyKind.Name && |event.paths| == 2)
    ensures EventRule(batch, event, onDisk).Some? <==> !onDisk(event.paths[0])
    ensures EventRule(batch, event, onDisk).Some? ==>
            EventRule(batch, event, onDisk).value == Returned(Delete(event.paths[0]))
  {
  }

  /** Removal, access, `Any` and `Other` events never decide; the scan goes past them. */
  lemma NonModifyNonCreateRule(batch: seq<Event>, event: Event, onDisk: PathBuf -> bool)
    requires !event.kind.Create? && !event.kind.Modify?
    ensures EventRule(batch, event, onDisk) == None
  {
  }

  // ---------------------------------------------------------------------------
  // Where each result comes from
  // ---------------------------------------------------------------------------

  /** Facts about the deciding event of a classified batch. */
  lemma DeciderOf(batch: seq<Event>, onDisk: PathBuf -> bool) returns (j: nat)
    requires ToFsEvent(batch, onDisk) != Returned(Unknown)
    ensures IsFirstDecider(batch, onDisk, j)
    ensures ToFsEvent(batch, onDisk) == EventRule(batch, batch[j], onDisk).value
    ensures !ShouldIgnore(batch[j])
  {
    ClassifyIsFirstMatch(batch, onDisk);
    j :| IsFirstDecider(batch, onDisk, j);
  }

  /** A rename comes only from a two-path `Modify(Name)` event whose paths share their parent. */
  lemma RenameOrigin(batch: seq<Event>, onDisk: PathBuf -> bool, a: PathBuf, b: PathBuf)
    requires ToFsEvent(batch, onDisk) == Returned(Rename(a, b))
    ensures Parent(a) == Parent(b)
    ensures exists j :: IsFirstDecider(batch, onDisk, j) &&
                        batch[j].kind == EventKind.Modify(ModifyKind.Name) && batch[j].paths == [a, b]
  {
    var j := DeciderOf(batch, onDisk);
    assert batch[j].paths == [batch[j].paths[0], batch[j].paths[1]];
  }

  /**
   * A move comes either from a two-path `Modify(Name)` event whose paths have
   * different parents, or from a kept `Create` event of the new path paired
   * with the first path of the batch's first unqualified removal.
   */
  lemma MoveOrigin(batch: seq<Event>, onDisk: PathBuf -> bool, a: PathBuf, b: PathBuf)
    requires ToFsEvent(batch, onDisk) == Returned(Move(a, b))
    ensures exists j :: IsFirstDecider(batch, onDisk, j) &&
              ((batch[j].kind == EventKind.Modify(ModifyKind.Name) && batch[j].paths == [a, b] &&
                Parent(a) != Parent(b)) ||
               (batch[j].kind.Create? && batch[j].paths[0] == b &&
                exists m :: IsFirstRemoveAny(batch, m) && |batch[m].paths| > 0 && batch[m].paths[0] == a))
  {
    var j := DeciderOf(batch, onDisk);
    if batch[j].kind.Create? {
      var m := FirstRemoveAnyIndex(batch);
      CreateRule(batch, batch[j], onDisk);
    } else {
      assert batch[j].paths == [batch[j].paths[0], batch[j].paths[1]];
    }
  }

  /** A create comes only from a kept `Create` event, in a batch without unqualified removals. */
  lemma CreateOrigin(batch: seq<Event>, onDisk: PathBuf -> bool, p: PathBuf)
    requires ToFsEvent(batch, onDisk) == Returned(FSEvent.Create(p))
    ensures !HasRemoveAny(batch)
    ensures exists j :: IsFirstDecider(batch, onDisk, j) && batch[j].kind.Create? && batch[j].paths[0] == p
  {
    var j := DeciderOf(batch, onDisk);
  }

  /** A modify comes only from a kept `Modify(Data)` or `Modify(Any)` event. */
  lemma ModifyOrigin(batch: seq<Event>, onDisk: PathBuf -> bool, p: PathBuf)
    requires ToFsEvent(batch, onDisk) == Returned(FSEvent.Modify(p))
    ensures exists j :: IsFirstDecider(batch, onDisk, j) && batch[j].paths[0] == p &&
              batch[j].kind in {EventKind.Modify(ModifyKind.Data), EventKind.Modify(ModifyKind.Any)}
  {
    var j := DeciderOf(batch, onDisk);
  }

  /**
   * A delete comes only from a kept `Modify` event that is neither `Data` nor
   * `Any` nor a two-path `Name`, whose first path the oracle reports absent.
   */
  lemma DeleteOrigin(batch: seq<Event>, onDisk: PathBuf -> bool, p: PathBuf)
    requires ToFsEvent(batch, onDisk) == Returned(Delete(p))
    ensures !onDisk(p)
    ensures exists j :: IsFirstDecider(batch, onDisk, j) && batch[j].paths[0] == p &&
              batch[j].kind.Modify? &&
              batch[j].kind.modifyKind !in {ModifyKind.Data, ModifyKind.Any} &&
              !(batch[j].kind.modifyKind == ModifyKind.Name && |batch[j].paths| == 2)
  {
    var j := DeciderOf(batch, onDisk);
  }

  /**
   * The classifier panics exactly when the deciding event is a `Create` and
   * the batch's first unqualified removal has no path to pair it with.
   */
  lemma PanicExactly(batch: seq<Event>, onDisk: PathBuf -> bool)
    ensures ToFsEvent(batch, onDisk) == Panicked <==>
            exists j, m :: IsFirstDecider(batch, onDisk, j) && batch[j].kind.Create? &&
                           IsFirstRemoveAny(batch, m) && |batch[m].paths| == 0
  {
    ClassifyIsFirstMatch(batch, onDisk);
    if ToFsEvent(batch, onDisk) == Panicked {
      var j := DeciderOf(batch, onDisk);
      var m := FirstRemoveAnyIndex(batch);
      assert FindRemoveAny(batch) == Some(batch[m]);
    }
    if exists j, m :: IsFirstDecider(batch, onDisk, j) && batch[j].kind.Create? &&
                      IsFirstRemoveAny(batch, m) && |batch[m].paths| == 0 {
      var j, m :| IsFirstDecider(batch, onDisk, j) && batch[j].kind.Create? &&
                  IsFirstRemoveAny(batch, m) && |batch[m].paths| == 0;
      CreateRule(batch, batch[j], onDisk);
    }
  }

  /** Every path carried by a classified event occurs in one of the batch's events. */
  lemma ResultPathsOccurInBatch(batch: seq<Event>, onDisk: PathBuf -> bool, ev: FSEvent)
    requires ToFsEvent(batch, onDisk) == Returned(ev)
    ensures ev.Path().Some? ==> OccursIn(batch, ev.Path().value)
    ensures ev.Path2().Some? ==> OccursIn(batch, ev.Path2().value)
  {
    if ev != Unknown {
      var j := DeciderOf(batch, onDisk);
      match ev
      case Create(p) => {}
      case Modify(p) => {}
      case Delete(p) => {}
      case Rename(a, b) => {
        assert batch[j].paths[1] == b;
      }
      case Move(a, b) => {
        if batch[j].kind.Create? {
          var m := FirstRemoveAnyIndex(batch);
          assert FindRemoveAny(batch) == Some(batch[m]);
          assert batch[m].paths[0] == a;
        } else {
          assert batch[j].paths[1] == b;
        }
      }
    }
  }
}
