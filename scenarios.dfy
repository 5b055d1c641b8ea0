/** Concrete batches, including cases that are easy to get wrong. */
module Scenarios {
  import opened Wrappers
  import opened RustPath
  import opened Notify
  import opened Events
  import opened Classifier
  import opened ClassifierProperties

  const DA: PathBuf := [RootDir, Normal("d"), Normal("a.txt")]
  const DB: PathBuf := [RootDir, Normal("d"), Normal("b.txt")]
  const DOld: PathBuf := [RootDir, Normal("d"), Normal("old.txt")]
  const ENew: PathBuf := [RootDir, Normal("e"), Normal("new.txt")]
  const EA: PathBuf := [RootDir, Normal("e"), Normal("a.txt")]
  const DStore: PathBuf := [RootDir, Normal("d"), Normal(".DS_Store")]

  const Present: PathBuf -> bool := p => true
  const Absent: PathBuf -> bool := p => false

  /** A one-path event whose file is not `.DS_Store` is kept. */
  lemma Kept(kind: EventKind, p: PathBuf)
    requires |p| > 0 && p[|p| - 1].Normal? && |p[|p| - 1].name| > 0 && p[|p| - 1].name[0] != '.'
    ensures !ShouldIgnore(Event(kind, [p]))
  {
    assert p[|p| - 1] != Normal(".DS_Store") by {
      assert ".DS_Store"[0] == '.';
    }
  }

  lemma EmptyBatch(onDisk: PathBuf -> bool)
    ensures ToFsEvent([], onDisk) == Returned(Unknown)
  {
  }

  lemma SingleCreate(onDisk: PathBuf -> bool)
    ensures ToFsEvent([Event(EventKind.Create, [DA])], onDisk) == Returned(FSEvent.Create(DA))
  {
    Kept(EventKind.Create, DA);
  }

  lemma RemovalThenCreateIsMove(onDisk: PathBuf -> bool)
    ensures ToFsEvent([Event(Remove(RemoveKind.Any), [DOld]), Event(EventKind.Create, [ENew])], onDisk)
            == Returned(Move(DOld, ENew))
  {
    var batch := [Event(Remove(RemoveKind.Any), [DOld]), Event(EventKind.Create, [ENew])];
    Kept(EventKind.Create, ENew);
    assert IsFirstRemoveAny(batch, 0);
    assert IsFirstDecider(batch, onDisk, 1);
    ClassifyIsFirstMatch(batch, onDisk);
  }

  lemma NameSameParentIsRename(onDisk: PathBuf -> bool)
    ensures ToFsEvent([Event(EventKind.Modify(ModifyKind.Name), [DA, DB])], onDisk) == Returned(Rename(DA, DB))
  {
    var e := Event(EventKind.Modify(ModifyKind.Name), [DA, DB]);
    assert ".DS_Store"[0] == '.';
    assert Parent(DA) == Parent(DB) by { assert DA[..2] == DB[..2]; }
    assert !ShouldIgnore(e);
  }

  lemma NameOtherParentIsMove(onDisk: PathBuf -> bool)
    ensures ToFsEvent([Event(EventKind.Modify(ModifyKind.Name), [DA, EA])], onDisk) == Returned(Move(DA, EA))
  {
    var e := Event(EventKind.Modify(ModifyKind.Name), [DA, EA]);
    assert ".DS_Store"[0] == '.';
    assert Parent(DA) != Parent(EA) by { assert DA[..2][1] != EA[..2][1]; }
    assert !ShouldIgnore(e);
  }

  /** A data change is a modify whether or not the path still exists. */
  lemma DataChangeIsModifyEvenIfAbsent()
    ensures ToFsEvent([Event(EventKind.Modify(ModifyKind.Data), [DA])], Present) == Returned(FSEvent.Modify(DA))
    ensures ToFsEvent([Event(EventKind.Modify(ModifyKind.Data), [DA])], Absent) == Returned(FSEvent.Modify(DA))
  {
    Kept(EventKind.Modify(ModifyKind.Data), DA);
  }

  /** Only the other modify kinds consult the oracle. */
  lemma MetadataChangeOfAbsentPathIsDelete()
    ensures ToFsEvent([Event(EventKind.Modify(ModifyKind.Metadata), [DA])], Absent) == Returned(Delete(DA))
    ensures ToFsEvent([Event(EventKind.Modify(ModifyKind.Metadata), [DA])], Present) == Returned(Unknown)
  {
    var batch := [Event(EventKind.Modify(ModifyKind.Metadata), [DA])];
    Kept(EventKind.Modify(ModifyKind.Metadata), DA);
    assert !Decides(batch, Present, 0);
    ClassifyIsFirstMatch(batch, Present);
  }

  lemma OnlyIgnorableIsUnknown(onDisk: PathBuf -> bool)
    ensures ToFsEvent([Event(EventKind.Create, []), Event(EventKind.Modify(ModifyKind.Data), [DStore])], onDisk)
            == Returned(Unknown)
  {
    var batch := [Event(EventKind.Create, []), Event(EventKind.Modify(ModifyKind.Data), [DStore])];
    assert ShouldIgnore(batch[1]) by { assert batch[1].paths[0] == DStore; }
    EmptyOrIgnorableIsUnknown(batch, onDisk);
  }

  /** `ends_with` compares whole components: `x.DS_Store` is an ordinary file. */
  lemma SuffixIsNotComponent()
    ensures !ShouldIgnore(Event(EventKind.Create, [[Normal("x.DS_Store")]]))
    ensures ShouldIgnore(Event(EventKind.Create, [DA, DStore]))
  {
    Kept(EventKind.Create, [Normal("x.DS_Store")]);
    var e := Event(EventKind.Create, [DA, DStore]);
    assert e.paths[1] == DStore;
  }

  /** Of two deciding events the first one wins. */
  lemma FirstOfTwoWins(onDisk: PathBuf -> bool)
    ensures ToFsEvent([Event(EventKind.Create, [DA]), Event(EventKind.Modify(ModifyKind.Data), [DB])], onDisk)
            == Returned(FSEvent.Create(DA))
  {
    var batch := [Event(EventKind.Create, [DA]), Event(EventKind.Modify(ModifyKind.Data), [DB])];
    Kept(EventKind.Create, DA);
    assert !HasRemoveAny(batch);
    assert IsFirstDecider(batch, onDisk, 0);
    ClassifyIsFirstMatch(batch, onDisk);
  }

  /** A later unqualified removal still turns an earlier create into a move. */
  lemma LaterRemovalTurnsCreateIntoMove(onDisk: PathBuf -> bool)
    ensures ToFsEvent([Event(EventKind.Create, [ENew])], onDisk) == Returned(FSEvent.Create(ENew))
    ensures ToFsEvent([Event(EventKind.Create, [ENew]), Event(Remove(RemoveKind.Any), [DOld])], onDisk)
            == Returned(Move(DOld, ENew))
  {
    var batch := [Event(EventKind.Create, [ENew]), Event(Remove(RemoveKind.Any), [DOld])];
    Kept(EventKind.Create, ENew);
    assert IsFirstRemoveAny(batch, 1);
    assert IsFirstDecider(batch, onDisk, 0);
    ClassifyIsFirstMatch(batch, onDisk);
  }

  /** The removal is paired even when it names a `.DS_Store` file, which is otherwise ignored. */
  lemma IgnorableRemovalStillPairs(onDisk: PathBuf -> bool)
    ensures ToFsEvent([Event(Remove(RemoveKind.Any), [DStore]), Event(EventKind.Create, [ENew])], onDisk)
            == Returned(Move(DStore, ENew))
  {
    var batch := [Event(Remove(RemoveKind.Any), [DStore]), Event(EventKind.Create, [ENew])];
    Kept(EventKind.Create, ENew);
    assert IsFirstRemoveAny(batch, 0);
    assert IsFirstDecider(batch, onDisk, 1);
    ClassifyIsFirstMatch(batch, onDisk);
  }

  /** A move built from a removal and a create may keep its parent directory. */
  lemma MoveWithinOneDirectory(onDisk: PathBuf -> bool)
    ensures ToFsEvent([Event(Remove(RemoveKind.Any), [DA]), Event(EventKind.Create, [DB])], onDisk)
            == Returned(Move(DA, DB))
    ensures Parent(DA) == Parent(DB)
  {
    var batch := [Event(Remove(RemoveKind.Any), [DA]), Event(EventKind.Create, [DB])];
    Kept(EventKind.Create, DB);
    assert IsFirstRemoveAny(batch, 0);
    assert IsFirstDecider(batch, onDisk, 1);
    ClassifyIsFirstMatch(batch, onDisk);
    assert DA[..2] == DB[..2];
  }

  /** An unqualified removal without paths makes a create panic, but not a `Modify(Any)`. */
  lemma PathlessRemovalPanics(onDisk: PathBuf -> bool)
    ensures ToFsEvent([Event(Remove(RemoveKind.Any), []), Event(EventKind.Create, [DA])], onDisk) == Panicked
    ensures ToFsEvent([Event(Remove(RemoveKind.Any), []), Event(EventKind.Modify(ModifyKind.Any), [DA])], onDisk)
            == Returned(FSEvent.Modify(DA))
  {
    var batch := [Event(Remove(RemoveKind.Any), []), Event(EventKind.Create, [DA])];
    Kept(EventKind.Create, DA);
    assert IsFirstRemoveAny(batch, 0);
    assert IsFirstDecider(batch, onDisk, 1);
    ClassifyIsFirstMatch(batch, onDisk);
    var batch' := [Event(Remove(RemoveKind.Any), []), Event(EventKind.Modify(ModifyKind.Any), [DA])];
    Kept(EventKind.Modify(ModifyKind.Any), DA);
    assert IsFirstDecider(batch', onDisk, 1);
    ClassifyIsFirstMatch(batch', onDisk);
  }
}
