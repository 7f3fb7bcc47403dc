/**
Restoring a workspace backup through a staged directory and a swap of names: `restore` and
`_activate_restore` (src/image23mf/workspace_bundles.py:311-402, 605-659), under every pattern of
failing and interrupted renames and directory syncs.
*/
module WorkspaceSwap {
  import opened Wrappers

  type Path = nat

  /** The files of a workspace, as far as a backup tells them apart. */
  datatype File = Database | WriteAheadLog | SharedMemory | Temporary(name: nat) | Other(name: nat)

  /** The files of a directory and their contents; an empty directory has none. */
  type Tree = map<File, nat>

  /** EACCES, EPERM or EROFS; anything else; or a KeyboardInterrupt before or after the call took effect. */
  datatype Errno = Permission | OtherErrno | Interrupt(done: bool)

  predicate IsInterrupt(error: Option<Errno>) {
    error.Some? && error.value.Interrupt?
  }

  /** The call took effect, although it may not have returned. */
  predicate Effective(error: Option<Errno>) {
    error.None? || error.value == Interrupt(true)
  }

  /** The siblings a swap works with: `target`, and the fresh names it makes up beside it. */
  datatype Names = Names(target: Path, stage: Path, previous: Path, failed: Path) {
    predicate Distinct() {
      && target != stage && target != previous && target != failed
      && stage != previous && stage != failed && previous != failed
    }

    function All(): set<Path> {
      {target, stage, previous, failed}
    }
  }

  datatype Activation =
    | Activated
    | Refused(permission: bool)
    | RecoveryNeeded(previousNamed: Path, stagedNamed: Path)
    | Interrupted

  /** Where the two trees ended up. The original has no place when there was none. */
  datatype Places = Places(original: Option<Path>, staged: Path)

  function At(dirs: map<Path, Tree>, path: Path): Option<Tree> {
    if path in dirs then Some(dirs[path]) else None
  }

  /** Everything as it was, except that the original and the staged tree are at these places and nowhere else. */
  function Placed(dirs: map<Path, Tree>, names: Names, places: Places): map<Path, Tree> {
    var rest := dirs - names.All();
    var withStaged := if names.stage in dirs then rest[places.staged := dirs[names.stage]] else rest;
    if places.original.Some? && names.target in dirs
    then withStaged[places.original.value := dirs[names.target]]
    else withStaged
  }

  lemma PlacedIsFound(dirs: map<Path, Tree>, names: Names, places: Places)
    requires names.stage in dirs && places.staged in names.All() && places.original != Some(places.staged)
    requires places.original.Some? <==> names.target in dirs
    requires places.original.Some? ==> places.original.value in names.All()
    ensures At(Placed(dirs, names, places), places.staged) == At(dirs, names.stage)
    ensures places.original.Some? ==> At(Placed(dirs, names, places), places.original.value) == At(dirs, names.target)
    ensures Placed(dirs, names, places) - names.All() == dirs - names.All()
    ensures forall path :: path in Placed(dirs, names, places) && path in names.All() ==>
              path == places.staged || Some(path) == places.original
  {
  }

  // ----- what a backup holds

  /** What SQLite adds: the database read through its write-ahead log, and the files its rows name. */
  datatype Sqlite = Sqlite(snapshot: (nat, Option<nat>) -> nat, named: nat -> map<File, nat>)

  predicate Excluded(file: File) {
    file.WriteAheadLog? || file.SharedMemory? || file.Temporary?
  }

  function SnapshotOf(sqlite: Sqlite, tree: Tree): nat
    requires Database in tree
  {
    sqlite.snapshot(tree[Database], if WriteAheadLog in tree then Some(tree[WriteAheadLog]) else None)
  }

  /** The members of a workspace archive: every file that is not excluded, and a snapshot for the database. */
  function Archived(sqlite: Sqlite, tree: Tree): Tree
    requires Database in tree
  {
    (map file | file in tree && !Excluded(file) :: tree[file])[Database := SnapshotOf(sqlite, tree)]
  }

  /** An export needs a database, and every file its rows name as the rows describe it. */
  predicate Exportable(sqlite: Sqlite, tree: Tree) {
    && Database in tree
    && var named := sqlite.named(SnapshotOf(sqlite, tree));
    && forall file :: file in named ==>
         file in Archived(sqlite, tree) && Archived(sqlite, tree)[file] == named[file]
  }

  /** What a backup keeps and what it does not: rows or no rows, every file outside `temp` is in it. */
  lemma ArchiveKeepsExactly(sqlite: Sqlite, tree: Tree, file: File)
    requires Database in tree
    ensures file in Archived(sqlite, tree) <==> file in tree && (file == Database || file.Other?)
    ensures file.Other? && file in tree ==> Archived(sqlite, tree)[file] == tree[file]
    ensures WriteAheadLog in tree ==>
              Archived(sqlite, tree)[Database] == sqlite.snapshot(tree[Database], Some(tree[WriteAheadLog]))
    ensures WriteAheadLog !in tree ==> Archived(sqlite, tree)[Database] == sqlite.snapshot(tree[Database], None)
  {
  }

  /** The files a backup leaves out play no part in whether it is made, but for the log the snapshot is read through. */
  lemma ExportableExactly(sqlite: Sqlite, tree: Tree)
    requires Database in tree
    ensures var snapshot := sqlite.snapshot(tree[Database],
                                            if WriteAheadLog in tree then Some(tree[WriteAheadLog]) else None);
            Exportable(sqlite, tree) <==>
              forall file :: file in sqlite.named(snapshot) ==>
                if file == Database then sqlite.named(snapshot)[file] == snapshot
                else file.Other? && file in tree && tree[file] == sqlite.named(snapshot)[file]
  {
    var named := sqlite.named(SnapshotOf(sqlite, tree));
    forall file | file in named
      ensures file in Archived(sqlite, tree) && Archived(sqlite, tree)[file] == named[file]
         <==> if file == Database then named[file] == SnapshotOf(sqlite, tree)
              else file.Other? && file in tree && tree[file] == named[file]
    {
      ArchiveKeepsExactly(sqlite, tree, file);
    }
  }

  // ----- the restore around the swap

  datatype Choice = EmptyOnly | ReplaceTarget | Unsupported

  /** What the rest of the world contributes to one restore. */
  datatype External = External(
    preflight: Option<nat>,          // digest of the verified backup
    targetInUse: bool,
    enoughSpace: bool,
    parentCreated: bool,
    backupWritten: bool,             // writing the rollback archive of a populated target, and its final sync
    backupSynced: bool,
    stageCreated: bool,
    reverified: Option<nat>,         // digest of the second verification
    staged: Tree,                    // what ends up in the stage, and whether filling and validating it worked
    stageFilled: bool,
    sameDevice: bool,
    stuckStage: Option<set<File>>,   // files that cannot be removed from the stage or the previous directory
    stuckPrevious: Option<set<File>>)

  datatype Rejection =
    | UnsupportedChoice | InvalidBackup | TargetPopulated | TargetInUse | NotEnoughSpace | NoParent
    | BackupFailed | NoStage | BackupChanged | StagingFailed

  datatype Restoring =
    | Restored(rollback: Option<Path>)
    | Rejected(reason: Rejection)
    | SwapRefused(permission: bool)
    | SwapNeedsRecovery(previousNamed: Path, stagedNamed: Path)
    | SwapInterrupted

  predicate Populated(directories: map<Path, Tree>, target: Path) {
    target in directories && directories[target] != map[]
  }

  predicate Unused(names: Names, directories: map<Path, Tree>) {
    names.stage !in directories && names.previous !in directories && names.failed !in directories
  }

  predicate Cleared(sqlite: Sqlite, choice: Choice, external: External, directories: map<Path, Tree>, target: Path) {
    && choice != Unsupported
    && external.preflight.Some? && !external.targetInUse && external.enoughSpace && external.parentCreated
    && (Populated(directories, target) ==>
          && choice == ReplaceTarget && Exportable(sqlite, directories[target])
          && external.backupWritten && external.backupSynced)
    && external.stageCreated
  }

  predicate Fillable(external: External) {
    external.reverified.Some? && external.reverified == external.preflight && external.stageFilled
  }

  /** With the rollback archive of a populated target beside the others. */
  function Backed(sqlite: Sqlite, archives: map<Path, Tree>, rollback: Path, directories: map<Path, Tree>,
                  target: Path): map<Path, Tree> {
    if Populated(directories, target) && Database in directories[target]
    then archives[rollback := Archived(sqlite, directories[target])]
    else archives
  }

  function Removed(directories: map<Path, Tree>, path: Path, stuck: Option<set<File>>): map<Path, Tree> {
    if path !in directories then directories
    else if stuck.None? then directories - {path}
    else directories[path := directories[path] - (directories[path].Keys - stuck.value)]
  }

  class Volume {
    var directories: map<Path, Tree>
    var archives: map<Path, Tree>
    /** Renames and syncs made so far, and whether the n-th of them fails. */
    var calls: nat
    const fault: nat -> Option<Errno>
    const sqlite: Sqlite

    constructor (directories: map<Path, Tree>, archives: map<Path, Tree>, fault: nat -> Option<Errno>, sqlite: Sqlite)
      ensures this.directories == directories && this.archives == archives && calls == 0
      ensures this.fault == fault && this.sqlite == sqlite
    {
      this.directories, this.archives, this.calls := directories, archives, 0;
      this.fault, this.sqlite := fault, sqlite;
    }

    /** `os.replace` on directories: all or nothing, and never onto a directory with files. */
    method Replace(source: Path, destination: Path) returns (error: Option<Errno>, ghost moved: bool)
      modifies this`directories, this`calls
      ensures calls == old(calls) + 1
      ensures !moved ==> directories == old(directories)
      ensures moved ==> source in old(directories)
      ensures moved ==> directories == (old(directories) - {source})[destination := old(directories)[source]]
      ensures error.None? ==> moved
      ensures moved ==> error.None? || error == Some(Interrupt(true))
      ensures source in old(directories) && destination !in old(directories) ==>
                error == fault(old(calls)) && (moved <==> error.None? || error == Some(Interrupt(true)))
    {
      error, moved := fault(calls), false;
      calls := calls + 1;
      if Effective(error) {
        if source !in directories || (destination in directories && directories[destination] != map[]) {
          error := Some(OtherErrno);
        } else {
          directories := (directories - {source})[destination := directories[source]];
          moved := true;
        }
      }
    }

    method SyncDirectory() returns (error: Option<Errno>)
      modifies this`calls
      ensures calls == old(calls) + 1 && error == fault(old(calls))
    {
      error := fault(calls);
      calls := calls + 1;
    }

    predicate Works(call: nat) {
      fault(call).None?
    }

    /** The index of the first of at most three calls that fails, from a given one on; n when none does. */
    function FailsAt(first: nat, n: nat): nat
      requires n <= 3
    {
      if n == 0 || !Works(first) then 0
      else if n == 1 || !Works(first + 1) then 1
      else if n == 2 || !Works(first + 2) then 2
      else 3
    }

    function FirstError(first: nat, n: nat): Option<Errno>
      requires n <= 3
    {
      if FailsAt(first, n) < n then fault(first + FailsAt(first, n)) else None
    }

    /** Moving an existing target aside, installing the stage, syncing; without a target, only the last two. */
    function Steps(existed: bool): nat {
      if existed then 3 else 2
    }

    function ActivationError(first: nat, existed: bool): Option<Errno> {
      FirstError(first, Steps(existed))
    }

    /** Where the two trees are when the activation stops. */
    function PlacesReached(names: Names, existed: bool, first: nat): Places {
      var k, install := FailsAt(first, Steps(existed)), Steps(existed) - 2;
      Places(
        if !existed then None
        else Some(if k > 0 || Effective(fault(first)) then names.previous else names.target),
        if k > install || (k == install && Effective(fault(first + k))) then names.target else names.stage)
    }

    /** What a failed activation undoes: nothing, or as many renames as worked and one sync. */
    function RollbackError(first: nat, existed: bool): Option<Errno> {
      var k := FailsAt(first, Steps(existed));
      FirstError(first + k + 1, if k == 0 || k == Steps(existed) then 0 else k + 1)
    }

    /** An interrupt ends the activation or what undoes it. */
    predicate InterruptedAt(first: nat, existed: bool) {
      var error, undone := ActivationError(first, existed), RollbackError(first, existed);
      error.Some? && (error.value.Interrupt? || (undone.Some? && undone.value.Interrupt?))
    }

    /** The activation fails, and so does what would undo it. */
    predicate NeedsRecovery(first: nat, existed: bool) {
      var error, undone := ActivationError(first, existed), RollbackError(first, existed);
      error.Some? && !error.value.Interrupt? && undone.Some? && !undone.value.Interrupt?
    }

    /** The stage is at the target, the sync fails, and the target cannot be moved out of the way again. */
    predicate StuckAtTarget(first: nat, existed: bool) {
      existed && FailsAt(first, 3) == 2 && fault(first + 3).Some?
    }

    /** The rollback of a swap that had moved the original aside. */
    method PutBack(names: Names, ghost before: map<Path, Tree>, ghost reached: Places)
      returns (error: Option<Errno>, recoverableStage: Path, ghost places: Places)
      requires names.Distinct() && {names.stage, names.target} <= before.Keys
      requires names.previous !in before && names.failed !in before
      requires reached.original == Some(names.previous) && reached.staged in {names.stage, names.target}
      requires directories == Placed(before, names, reached)
      modifies this`directories, this`calls
      ensures directories == Placed(before, names, places)
      ensures error == FirstError(old(calls), if reached.staged == names.target then 3 else 2)
      ensures places.original.Some? && places.original.value in {names.previous, names.target} - {places.staged}
      ensures reached.staged == names.stage ==> places.staged == names.stage
      ensures reached.staged == names.target ==>
                places.staged == if Effective(fault(old(calls))) then names.failed else names.target
      ensures error.None? ==> places.original == Some(names.target)
      ensures recoverableStage ==
                if reached.staged == names.target && fault(old(calls)).None? then names.failed else names.stage
    {
      places, recoverableStage, error := reached, names.stage, None;
      ghost var moved;
      if names.target in directories {
        error, moved := Replace(names.target, names.failed);
        if moved { places := places.(staged := names.failed); }
        if error.None? { recoverableStage := names.failed; }
      }
      if error.None? {
        error, moved := Replace(names.previous, names.target);
        if moved { places := places.(original := Some(names.target)); }
        if error.None? { error := SyncDirectory(); }
      }
    }

    /** The rollback of a swap onto a name that was free. */
    method TakeBack(names: Names, ghost before: map<Path, Tree>, ghost reached: Places)
      returns (error: Option<Errno>, stagedNamed: Path, ghost places: Places)
      requires names.Distinct() && names.stage in before && names.target !in before
      requires names.previous !in before && names.failed !in before
      requires reached == Places(None, names.target) && directories == Placed(before, names, reached)
      modifies this`directories, this`calls
      ensures directories == Placed(before, names, places)
      ensures error == FirstError(old(calls), 2)
      ensures places == Places(None, if Effective(fault(old(calls))) then names.stage else names.target)
      ensures stagedNamed == places.staged
    {
      places, stagedNamed := reached, names.target;
      ghost var moved;
      error, moved := Replace(names.target, names.stage);
      if moved { places := places.(staged := names.stage); }
      if error.None? { error := SyncDirectory(); }
      stagedNamed := if names.target in directories then names.target else names.stage;
    }

    ghost function Untouched(names: Names): Places
      reads this`directories
    {
      Places(if names.target in directories then Some(names.target) else None, names.stage)
    }

    /** The activation up to its first failing call. */
    method MoveIn(names: Names) returns (error: Option<Errno>, movedPrevious: bool, ghost places: Places)
      requires names.Distinct() && names.stage in directories
      requires names.previous !in directories && names.failed !in directories
      modifies this`directories, this`calls
      ensures directories == Placed(old(directories), names, places)
      ensures error == ActivationError(old(calls), names.target in old(directories))
      ensures movedPrevious == (names.target in old(directories) && fault(old(calls)).None?)
      ensures places == PlacesReached(names, names.target in old(directories), old(calls))
      ensures error.Some? ==> calls == old(calls) + FailsAt(old(calls), Steps(names.target in old(directories))) + 1
    {
      places, movedPrevious, error := Untouched(names), false, None;
      ghost var moved;
      if names.target in directories {
        error, moved := Replace(names.target, names.previous);
        movedPrevious := error.None?;
        if moved { places := places.(original := Some(names.previous)); }
      }
      if error.None? {
        error, moved := Replace(names.stage, names.target);
        if moved { places := places.(staged := names.target); }
        if error.None? { error := SyncDirectory(); }
      }
    }

    /**
    Every pattern of failures: what the call reports, where both trees are then, and whether the
    report names the staged tree's place.
    */
    method Activate(names: Names, sameDevice: bool) returns (outcome: Activation, ghost places: Places)
      requires names.Distinct() && names.stage in directories
      requires names.previous !in directories && names.failed !in directories
      modifies this`directories, this`calls
      ensures directories == Placed(old(directories), names, places)
      ensures places.original.Some? <==> names.target in old(directories)
      ensures places.original.Some? ==> places.original.value in {names.target, names.previous}
      ensures places.original != Some(places.staged) && places.staged in {names.target, names.stage, names.failed}
      ensures var existed := names.target in old(directories);
              var error := ActivationError(old(calls), existed);
              && (outcome.Activated? <==> sameDevice && error.None?)
              && (outcome.Interrupted? <==> sameDevice && InterruptedAt(old(calls), existed))
              && (outcome.RecoveryNeeded? <==> sameDevice && NeedsRecovery(old(calls), existed))
              && (outcome.Refused? ==> outcome.permission == (sameDevice && error == Some(Permission)))
              && (outcome.RecoveryNeeded? ==>
                    (outcome.stagedNamed == places.staged <==> !StuckAtTarget(old(calls), existed)))
      ensures outcome.Activated? ==>
                places.staged == names.target && (places.original.Some? ==> places.original.value == names.previous)
      ensures outcome.Refused? ==>
                places.staged != names.target && (places.original.Some? ==> places.original.value == names.target)
      ensures outcome.RecoveryNeeded? ==> outcome.previousNamed == names.previous
      ensures outcome.RecoveryNeeded? && outcome.stagedNamed != places.staged ==>
                outcome.stagedNamed == names.stage && places == Places(Some(names.previous), names.target)
      ensures outcome.Interrupted? && IsInterrupt(ActivationError(old(calls), names.target in old(directories))) ==>
                places == PlacesReached(names, names.target in old(directories), old(calls))
    {
      ghost var before := directories;
      if !sameDevice {
        places := Untouched(names);
        assert directories == Placed(before, names, places);
        return Refused(false), places;
      }
      var activationError, movedPrevious;
      activationError, movedPrevious, places := MoveIn(names);
      if activationError.None? {
        return Activated, places;
      }
      if IsInterrupt(activationError) {
        return Interrupted, places;
      }
      if movedPrevious {
        var rollbackError, recoverableStage;
        rollbackError, recoverableStage, places := PutBack(names, before, places);
        if IsInterrupt(rollbackError) { return Interrupted, places; }
        if rollbackError.Some? {
          return RecoveryNeeded(names.previous, recoverableStage), places;
        }
      } else if names.stage !in directories && names.target in directories {
        var rollbackError, stagedNamed;
        rollbackError, stagedNamed, places := TakeBack(names, before, places);
        if IsInterrupt(rollbackError) { return Interrupted, places; }
        if rollbackError.Some? {
          return RecoveryNeeded(names.previous, stagedNamed), places;
        }
      }
      outcome := Refused(activationError.value == Permission);
    }

    /** `shutil.rmtree(path, ignore_errors=True)`: gone, or some of its files remain. */
    method RemoveTree(path: Path, stuck: Option<set<File>>)
      modifies this`directories
      ensures directories == Removed(old(directories), path, stuck)
    {
      if path in directories {
        if stuck.None? {
          directories := directories - {path};
        } else {
          directories := directories[path := directories[path] - (directories[path].Keys - stuck.value)];
        }
      }
    }

    /** `export`: nothing but the finished archive is ever at its name. */
    method Export(target: Path, rollback: Path, external: External) returns (ok: bool)
      requires target in directories
      modifies this`archives
      ensures ok <==> Exportable(sqlite, directories[target]) && external.backupWritten && external.backupSynced
      ensures archives in {old(archives), Backed(sqlite, old(archives), rollback, directories, target)}
      ensures ok && Populated(directories, target) ==>
                archives == Backed(sqlite, old(archives), rollback, directories, target)
    {
      if !Exportable(sqlite, directories[target]) || !external.backupWritten {
        return false;
      }
      archives := archives[rollback := Archived(sqlite, directories[target])];
      ok := external.backupSynced;
    }

    /** The checks before anything is written, and the rollback archive of a populated target. */
    method Clear(names: Names, rollback: Path, choice: Choice, external: External)
      returns (rejection: Option<Rejection>, backup: Option<Path>)
      modifies this`archives
      ensures rejection.None? <==> Cleared(sqlite, choice, external, directories, names.target)
      ensures rejection.None? ==> backup == if Populated(directories, names.target) then Some(rollback) else None
      ensures rejection.None? ==> archives == Backed(sqlite, old(archives), rollback, directories, names.target)
      ensures archives in {old(archives), Backed(sqlite, old(archives), rollback, directories, names.target)}
      ensures rejection == Some(TargetPopulated) <==>
                && choice == EmptyOnly && external.preflight.Some?
                && names.target in directories && directories[names.target] != map[]
      ensures rejection == Some(TargetPopulated) ==> archives == old(archives)
    {
      backup := None;
      if choice == Unsupported { return Some(UnsupportedChoice), None; }
      if external.preflight.None? { return Some(InvalidBackup), None; }
      var populated := Populated(directories, names.target);
      if populated && choice != ReplaceTarget { return Some(TargetPopulated), None; }
      if external.targetInUse { return Some(TargetInUse), None; }
      if !external.enoughSpace { return Some(NotEnoughSpace), None; }
      if !external.parentCreated { return Some(NoParent), None; }
      if populated {
        var exported := Export(names.target, rollback, external);
        if !exported { return Some(BackupFailed), None; }
        backup := Some(rollback);
      }
      rejection := if external.stageCreated then None else Some(NoStage);
    }

    /** Fills the new stage from the backup, or discards it. */
    method FillStage(stage: Path, external: External) returns (rejection: Option<Rejection>)
      requires stage !in directories
      modifies this`directories
      ensures rejection.None? <==> Fillable(external)
      ensures rejection.None? ==> directories == old(directories)[stage := external.staged]
      ensures rejection.Some? ==> directories - {stage} == old(directories)
      ensures rejection.Some? && external.stuckStage.None? ==> directories == old(directories)
      ensures rejection != Some(TargetPopulated)
    {
      directories := directories[stage := map[]];
      if external.reverified.None? {
        rejection := Some(InvalidBackup);
      } else if external.reverified != external.preflight {
        rejection := Some(BackupChanged);
      } else {
        directories := directories[stage := external.staged];
        rejection := if external.stageFilled then None else Some(StagingFailed);
      }
      if rejection.Some? {
        RemoveTree(stage, external.stuckStage);
        assert directories - {stage} == old(directories);
      }
    }

    /** The swap of a filled stage, and what is removed after it. */
    method Swap(names: Names, backup: Option<Path>, external: External) returns (outcome: Restoring)
      requires names.Distinct() && names.stage in directories
      requires names.previous !in directories && names.failed !in directories
      modifies this`directories, this`calls
      ensures !outcome.Rejected?
      ensures outcome.Restored? <==>
                external.sameDevice && ActivationError(old(calls), names.target in old(directories)).None?
      ensures outcome.SwapInterrupted? <==>
                external.sameDevice && InterruptedAt(old(calls), names.target in old(directories))
      ensures outcome.SwapNeedsRecovery? <==>
                external.sameDevice && NeedsRecovery(old(calls), names.target in old(directories))
      ensures outcome.Restored? ==>
                outcome.rollback == backup && At(directories, names.target) == At(old(directories), names.stage)
      ensures outcome.Restored? && external.stuckPrevious.None? ==>
                directories == (old(directories) - {names.stage})[names.target := old(directories)[names.stage]]
      ensures outcome.SwapRefused? ==> At(directories, names.target) == At(old(directories), names.target)
      ensures outcome.SwapNeedsRecovery? ==>
                && At(old(directories), names.target)
                   in {None, At(directories, names.target), At(directories, names.previous)}
                && At(old(directories), names.stage)
                   in {At(directories, names.target), At(directories, names.stage), At(directories, names.failed)}
                && (outcome.stagedNamed in directories
                    <==> !StuckAtTarget(old(calls), names.target in old(directories)))
      // An interrupt skips the handlers but not the final removal of the previous directory.
      ensures outcome.SwapInterrupted? ==>
                At(old(directories), names.stage)
                in {At(directories, names.target), At(directories, names.stage), At(directories, names.failed)}
      ensures outcome.SwapInterrupted? && external.stuckPrevious.None? ==> names.previous !in directories
      ensures outcome.SwapInterrupted? && external.stuckPrevious.None?
              && IsInterrupt(ActivationError(old(calls), names.target in old(directories))) ==>
                directories == Placed(old(directories), names,
                                      PlacesReached(names, names.target in old(directories), old(calls)))
                               - {names.previous}
      ensures directories - names.All() == old(directories) - names.All()
    {
      ghost var before := directories;
      var activation, places := Activate(names, external.sameDevice);
      PlacedIsFound(before, names, places);
      match activation
      case RecoveryNeeded(previousNamed, stagedNamed) =>
        outcome := SwapNeedsRecovery(previousNamed, stagedNamed);
      case Refused(permission) =>
        RemoveTree(names.stage, external.stuckStage);
        RemoveTree(names.previous, external.stuckPrevious);
        outcome := SwapRefused(permission);
      case Interrupted =>
        RemoveTree(names.previous, external.stuckPrevious);
        outcome := SwapInterrupted;
      case Activated =>
        RemoveTree(names.previous, external.stuckPrevious);
        outcome := Restored(backup);
    }

    method Restore(names: Names, rollback: Path, choice: Choice, external: External) returns (outcome: Restoring)
      requires names.Distinct() && Unused(names, directories)
      modifies this
      // What a restore amounts to.
      ensures outcome.Restored? <==>
                && Cleared(sqlite, choice, external, old(directories), names.target)
                && Fillable(external)
                && external.sameDevice
                && ActivationError(old(calls), names.target in old(directories)).None?
      ensures outcome.Rejected? <==>
                !Cleared(sqlite, choice, external, old(directories), names.target) || !Fillable(external)
      ensures outcome.SwapInterrupted? <==>
                !outcome.Rejected? && external.sameDevice && InterruptedAt(old(calls), names.target in old(directories))
      ensures outcome.SwapNeedsRecovery? <==>
                !outcome.Rejected? && external.sameDevice && NeedsRecovery(old(calls), names.target in old(directories))
      ensures outcome.Restored? ==> At(directories, names.target) == Some(external.staged)
      ensures outcome.Restored? ==>
                outcome.rollback == if Populated(old(directories), names.target) then Some(rollback) else None
      // What was there before: a replaced workspace lives on in the rollback archive and nowhere else.
      ensures outcome.Restored? && external.stuckPrevious.None? ==>
                directories == old(directories)[names.target := external.staged]
      ensures !outcome.Rejected? ==>
                archives == Backed(sqlite, old(archives), rollback, old(directories), names.target)
      ensures !outcome.Rejected? && Populated(old(directories), names.target) ==>
                && Database in old(directories)[names.target]
                && At(archives, rollback) == Some(Archived(sqlite, old(directories)[names.target]))
      // Every reported failure leaves the original itself.
      ensures outcome.Rejected? || outcome.SwapRefused? ==>
                At(directories, names.target) == At(old(directories), names.target)
      ensures outcome == Rejected(TargetPopulated) <==>
                && choice == EmptyOnly && external.preflight.Some?
                && names.target in old(directories) && old(directories)[names.target] != map[]
      ensures outcome == Rejected(TargetPopulated) ==> directories == old(directories) && archives == old(archives)
      ensures outcome.SwapNeedsRecovery? ==>
                && At(old(directories), names.target)
                   in {None, At(directories, names.target), At(directories, names.previous)}
                && Some(external.staged)
                   in {At(directories, names.target), At(directories, names.stage), At(directories, names.failed)}
                && (outcome.stagedNamed in directories
                    <==> !StuckAtTarget(old(calls), names.target in old(directories)))
      // An interrupted swap keeps the new workspace somewhere; of the old one, at worst what was archived.
      ensures outcome.SwapInterrupted? ==>
                Some(external.staged)
                in {At(directories, names.target), At(directories, names.stage), At(directories, names.failed)}
      ensures outcome.SwapInterrupted? && external.stuckPrevious.None?
              && IsInterrupt(ActivationError(old(calls), names.target in old(directories))) ==>
                directories == Placed(old(directories)[names.stage := external.staged], names,
                                      PlacesReached(names, names.target in old(directories), old(calls)))
                               - {names.previous}
      // Nothing else is touched.
      ensures directories - names.All() == old(directories) - names.All()
      ensures archives - {rollback} == old(archives) - {rollback}
    {
      var rejection, backup := Clear(names, rollback, choice, external);
      if rejection.Some? { return Rejected(rejection.value); }
      rejection := FillStage(names.stage, external);
      if rejection.Some? { return Rejected(rejection.value); }
      outcome := Swap(names, backup, external);
    }
  }

  // ----- at concrete inputs

  // The n-th rename or sync of these fails.
  function FailingAt(failing: set<nat>, error: Errno): nat -> Option<Errno> {
    n => if n in failing then Some(error) else None
  }

  /** The sync after both renames fails and the target cannot be moved aside: no directory has the reported name. */
  method ReportsAMissingStage(original: Tree, staged: Tree, sqlite: Sqlite)
    returns (outcome: Activation, volume: Volume)
    ensures outcome == RecoveryNeeded(3, 2) && 2 !in volume.directories
    ensures At(volume.directories, 1) == Some(staged) && At(volume.directories, 3) == Some(original)
  {
    volume := new Volume(map[1 := original, 2 := staged], map[], FailingAt({2, 3}, OtherErrno), sqlite);
    ghost var places;
    outcome, places := volume.Activate(Names(1, 2, 3, 4), true);
  }

  /** An interrupt between the two renames: the original directory is removed, its archive is all that is left. */
  method InterruptLosesTheDirectory(original: Tree, external: External, sqlite: Sqlite)
    returns (outcome: Restoring, volume: Volume)
    requires Exportable(sqlite, original) && external.stuckPrevious.None? && external.sameDevice
    requires Cleared(sqlite, ReplaceTarget, external, map[1 := original], 1) && Fillable(external)
    ensures outcome.SwapInterrupted?
    ensures volume.directories == map[2 := external.staged]
    ensures volume.archives == map[9 := Archived(sqlite, original)]
  {
    volume := new Volume(map[1 := original], map[], FailingAt({1}, Interrupt(false)), sqlite);
    outcome := volume.Restore(Names(1, 2, 3, 4), 9, ReplaceTarget, external);
  }
}
