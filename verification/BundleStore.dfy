/**
 The crash-safe replacement of the architecture map (lib/architecture-map/store.ts).

 Three sibling directories live under `memory/`: the published map, a temporary copy and
 a backup.  `rename` is atomic; a recursive `rm` deletes file after file and writing the
 temporary copy creates file after file, so both can stop anywhere.  Every operation below may
 throw or be cut short by a crash of the process before each of its micro-steps, unless it runs `calm`.

 The whole argument hangs on one abstraction function: `RecoveredTarget` is the map that a
 later, undisturbed recovery would publish.
 */
module BundleStore {
  import opened Wrappers

  const INDEX := "index.md"

  type Path = string
  type Dir = map<Path, string>
  datatype Slot = Target | Temp | Backup
  type Disk = map<Slot, Dir>

  datatype BundleFile = BundleFile(path: Path, content: string)
  datatype BundleError = MissingIndex | UnsafePath(path: Path) | DuplicatePath(path: Path)

  /** How an operation ended: it finished, an exception left it, or the process died in it. */
  datatype Exit = Done | Threw | Crashed

  datatype StoreResult =
    | Unchanged
    | Written(changed: set<Path>)
    | Invalid(error: BundleError)
    | Failed
    | Died

  predicate HasMap(disk: Disk) {
    Target in disk && INDEX in disk[Target]
  }

  /** What an undisturbed recovery of `disk` publishes (None: no map directory at all). */
  function RecoveredTarget(disk: Disk): Option<Dir> {
    if Backup in disk && !HasMap(disk) then Some(disk[Backup])
    else if Target in disk then Some(disk[Target])
    else None
  }

  /** A state that recovery would publish as it stands. */
  predicate Recovered(disk: Disk) {
    Backup in disk ==> HasMap(disk)
  }

  /** `left` is what an interrupted recursive delete of `dir` can leave behind. */
  predicate Leftover(left: Dir, dir: Dir) {
    forall p | p in left :: p in dir && left[p] == dir[p]
  }

  /** `after` is `before` with `slot` partly or wholly deleted. */
  predicate PartlyRemoved(before: Disk, after: Disk, slot: Slot) {
    && after - {slot} == before - {slot}
    && (slot in after ==> slot in before && Leftover(after[slot], before[slot]))
  }

  /** When a recursive delete may be interrupted anywhere without changing the outcome. */
  predicate RemovalSafe(disk: Disk, slot: Slot) {
    match slot
    case Temp => true
    case Backup => Backup in disk ==> HasMap(disk)
    case Target => Target in disk ==> Backup in disk && !HasMap(disk)
  }

  lemma PartialRemovalKeeps(before: Disk, after: Disk, slot: Slot)
    requires RemovalSafe(before, slot) && PartlyRemoved(before, after, slot)
    ensures RecoveredTarget(after) == RecoveredTarget(before)
  {
    assert forall s | s != slot :: s in after <==> s in after - {slot};
    assert forall s | s != slot :: s in before <==> s in before - {slot};
    assert forall s | s != slot && s in before :: before[s] == (before - {slot})[s];
    assert forall s | s != slot && s in after :: after[s] == (after - {slot})[s];
  }

  /**
   The condition is exact as soon as the published map and its backup differ: outside it, an
   interruption can change what recovery publishes.
   */
  lemma RemovalSafeIff(disk: Disk, slot: Slot)
    requires Target in disk && Backup in disk ==> disk[Target] != disk[Backup]
    ensures RemovalSafe(disk, slot) <==>
            forall after | PartlyRemoved(disk, after, slot) :: RecoveredTarget(after) == RecoveredTarget(disk)
  {
    if RemovalSafe(disk, slot) {
      forall after | PartlyRemoved(disk, after, slot)
        ensures RecoveredTarget(after) == RecoveredTarget(disk)
      {
        PartialRemovalKeeps(disk, after, slot);
      }
    } else {
      var gone := disk - {slot};
      assert gone - {slot} == disk - {slot};
      assert PartlyRemoved(disk, gone, slot);
    }
  }

  /** The files of a bundle as a directory; a later file would overwrite an earlier one. */
  function BundleDir(files: seq<BundleFile>): Dir {
    if files == [] then map[]
    else BundleDir(files[..|files| - 1])[files[|files| - 1].path := files[|files| - 1].content]
  }

  lemma {:induction false} BundleDirKeys(files: seq<BundleFile>)
    ensures forall p :: p in BundleDir(files) <==> exists f | f in files :: f.path == p
  {
    if files != [] {
      var init, last := files[..|files| - 1], files[|files| - 1];
      BundleDirKeys(init);
      assert files == init + [last];
    }
  }

  predicate DistinctPaths(files: seq<BundleFile>) {
    forall i, j | 0 <= i < j < |files| :: files[i].path != files[j].path
  }

  /** Without repeated paths every listed file is in the directory with its own content. */
  lemma {:induction false} BundleDirHolds(files: seq<BundleFile>)
    requires DistinctPaths(files)
    ensures forall f | f in files :: f.path in BundleDir(files) && BundleDir(files)[f.path] == f.content
  {
    if files != [] {
      var init, last := files[..|files| - 1], files[|files| - 1];
      BundleDirHolds(init);
      assert files == init + [last];
    }
  }

  /** The paths on which two directories disagree. */
  function Differences(bundle: Dir, disk: Dir): set<Path> {
    set p | p in bundle.Keys + disk.Keys && !(p in bundle && p in disk && bundle[p] == disk[p])
  }

  lemma NoDifferencesIff(bundle: Dir, disk: Dir)
    ensures Differences(bundle, disk) == {} <==> bundle == disk
  {
    if Differences(bundle, disk) == {} {
      forall p | p in bundle.Keys + disk.Keys
        ensures p in bundle && p in disk && bundle[p] == disk[p]
      {
        assert p !in Differences(bundle, disk);
      }
    }
  }

  predicate ValidBundle(files: seq<BundleFile>, safe: Path -> bool) {
    && (exists f | f in files :: f.path == INDEX)
    && (forall f | f in files :: safe(f.path))
    && DistinctPaths(files)
  }

  /** `safe` stands for the path rules: relative, normalized and inside the map directory. */
  method ValidateBundleFiles(files: seq<BundleFile>, safe: Path -> bool) returns (error: Option<BundleError>)
    ensures error.None? <==> ValidBundle(files, safe)
    ensures error == Some(MissingIndex) <==> !exists f | f in files :: f.path == INDEX
    ensures error.Some? && error.value.UnsafePath? ==> !safe(error.value.path) && exists f | f in files :: f.path == error.value.path
    ensures error.Some? && error.value.DuplicatePath? ==>
              exists i, j | 0 <= i < j < |files| :: files[i].path == files[j].path == error.value.path
  {
    if !exists f | f in files :: f.path == INDEX {
      return Some(MissingIndex);
    }
    var seen: set<Path> := {};
    for i := 0 to |files|
      invariant seen == set k | 0 <= k < i :: files[k].path
      invariant forall k | 0 <= k < i :: safe(files[k].path)
      invariant DistinctPaths(files[..i])
    {
      assert files[i] in files;
      if !safe(files[i].path) {
        return Some(UnsafePath(files[i].path));
      }
      if files[i].path in seen {
        return Some(DuplicatePath(files[i].path));
      }
      seen := seen + {files[i].path};
    }
    assert files[..|files|] == files;
    error := None;
  }

  /** The two loops that collect added, edited and deleted files. */
  method ChangedGeneratedFiles(files: seq<BundleFile>, existing: Dir) returns (changed: set<Path>)
    requires DistinctPaths(files)
    ensures changed == Differences(BundleDir(files), existing)
    ensures forall f | f in files :: f.path in changed <==> !(f.path in existing && existing[f.path] == f.content)
    ensures forall p | p in existing && !exists f | f in files :: f.path == p :: p in changed
    ensures forall p | p in changed :: p in existing || exists f | f in files :: f.path == p
  {
    changed := {};
    for i := 0 to |files|
      invariant changed == set k | 0 <= k < i && !(files[k].path in existing && existing[files[k].path] == files[k].content) :: files[k].path
    {
      if !(files[i].path in existing && existing[files[i].path] == files[i].content) {
        changed := changed + {files[i].path};
      }
    }
    var expected := set f | f in files :: f.path;
    var rest := existing.Keys;
    ghost var edited := changed;
    while rest != {}
      invariant rest <= existing.Keys
      invariant changed == edited + (existing.Keys - rest - expected)
    {
      var p :| p in rest;
      if p !in expected {
        changed := changed + {p};
      }
      rest := rest - {p};
    }
    BundleDirKeys(files);
    BundleDirHolds(files);
    var bundle := BundleDir(files);
    forall p ensures p in changed <==> p in Differences(bundle, existing) {
      if p in bundle {
        var f :| f in files && f.path == p;
        var k :| 0 <= k < |files| && files[k] == f;
        assert bundle[p] == files[k].content;
      }
    }
  }

  lemma TempIrrelevant(one: Disk, other: Disk)
    requires one - {Temp} == other - {Temp}
    ensures RecoveredTarget(one) == RecoveredTarget(other)
    ensures Recovered(one) <==> Recovered(other)
  {
    assert forall s | s != Temp :: s in one <==> s in one - {Temp};
    assert forall s | s != Temp :: s in other <==> s in other - {Temp};
    assert forall s | s != Temp && s in one :: one[s] == (one - {Temp})[s];
    assert forall s | s != Temp && s in other :: other[s] == (other - {Temp})[s];
  }

  /** Every bundle `RecoveredTarget` may show once `files` was offered to a store holding `before`. */
  predicate OldOrNew(disk: Disk, before: Disk, files: seq<BundleFile>) {
    || RecoveredTarget(disk) == RecoveredTarget(before)
    || RecoveredTarget(disk) == Some(BundleDir(files))
  }

  class MapStorage {
    var disk: Disk

    constructor (disk: Disk)
      ensures this.disk == disk
    {
      this.disk := disk;
    }

    /** What may happen between two steps: anything, unless the surroundings are calm. */
    method Interruption(calm: bool) returns (exit: Exit)
      ensures calm ==> exit.Done?
    {
      exit := *;
      if calm {
        exit := Done;
      }
    }

    /** `rm(dir, { recursive, force })`: file after file, in an order of the system's choosing. */
    method RemoveTree(slot: Slot, calm: bool) returns (exit: Exit)
      modifies this
      ensures PartlyRemoved(old(disk), disk, slot)
      ensures exit.Done? ==> disk == old(disk) - {slot}
      ensures calm ==> exit.Done?
    {
      while slot in disk && disk[slot] != map[]
        invariant PartlyRemoved(old(disk), disk, slot)
        decreases if slot in disk then |disk[slot]| else 0
      {
        exit := Interruption(calm);
        if !exit.Done? { return; }
        var p :| p in disk[slot];
        assert disk[slot].Keys - {p} == (disk[slot] - {p}).Keys;
        disk := disk[slot := disk[slot] - {p}];
        assert disk - {slot} == old(disk) - {slot};
      }
      exit := Interruption(calm);
      if !exit.Done? { return; }
      disk := disk - {slot};
      assert disk == old(disk) - {slot};
      return Done;
    }

    /** An atomic `rename` of a directory; only an empty directory may be in the way. */
    method Rename(source: Slot, destination: Slot, calm: bool) returns (exit: Exit)
      requires source != destination
      modifies this
      ensures exit.Done? ==> source in old(disk) && disk == (old(disk) - {source})[destination := old(disk)[source]]
      ensures !exit.Done? ==> disk == old(disk)
      ensures calm && source in old(disk) && destination !in old(disk) ==> exit.Done?
    {
      exit := Interruption(calm);
      if !exit.Done? { return; }
      if source !in disk || (destination in disk && disk[destination] != map[]) {
        return Threw;
      }
      disk := (disk - {source})[destination := disk[source]];
      return Done;
    }

    /** Writes the temporary copy; an interrupted write leaves any prefix of the work behind. */
    method WriteReplacementTempBundle(files: seq<BundleFile>, existing: Dir, calm: bool) returns (exit: Exit)
      requires DistinctPaths(files)
      requires existing == if Target in disk then disk[Target] else map[]
      modifies this
      ensures disk - {Temp} == old(disk) - {Temp}
      ensures exit.Done? ==> disk == old(disk)[Temp := BundleDir(files)]
      ensures calm ==> exit.Done?
    {
      exit := RemoveTree(Temp, calm);
      if !exit.Done? { return; }
      exit := Interruption(calm);
      if !exit.Done? { return; }
      disk := disk[Temp := map[]];
      assert disk - {Temp} == old(disk) - {Temp};
      for i := 0 to |files|
        invariant Temp in disk && disk[Temp] == BundleDir(files[..i])
        invariant disk - {Temp} == old(disk) - {Temp}
      {
        var file := files[i];
        var partial: string := *;
        exit := Interruption(calm);
        if !exit.Done? { return; }
        assert files[..i + 1][..i] == files[..i];
        if !calm {
          if * {
            disk := disk[Temp := disk[Temp][file.path := partial]];
            assert disk - {Temp} == old(disk) - {Temp};
            if * { return Threw; } else { return Crashed; }
          }
        }
        assert Target in disk - {Temp} <==> Target in old(disk) - {Temp};
        assert Target in disk ==> disk[Target] == (disk - {Temp})[Target] == (old(disk) - {Temp})[Target];
        var content := if file.path in existing && existing[file.path] == file.content
                       then disk[Target][file.path]  // copyFile keeps the published file and its times
                       else file.content;
        disk := disk[Temp := disk[Temp][file.path := content]];
        assert disk - {Temp} == old(disk) - {Temp};
      }
      assert files[..|files|] == files;
      assert disk == (disk - {Temp})[Temp := disk[Temp]];
      assert old(disk)[Temp := BundleDir(files)] == (old(disk) - {Temp})[Temp := BundleDir(files)];
      return Done;
    }

    /**
     Recovery never changes what recovery publishes: wherever it stops, running it again leads
     to the same map.  When it finishes, that map is in place and nothing else is left.
     */
    method Recover(calm: bool) returns (exit: Exit)
      modifies this
      ensures RecoveredTarget(disk) == old(RecoveredTarget(disk))
      ensures exit.Done? ==> disk.Keys <= {Target} && Recovered(disk)
      ensures exit.Done? ==> (if Target in disk then Some(disk[Target]) else None) == old(RecoveredTarget(disk))
      // a map with an index is kept, else the backup comes back
      ensures exit.Done? && Target in old(disk) && (INDEX in old(disk)[Target] || Backup !in old(disk)) ==>
                disk == map[Target := old(disk)[Target]]
      ensures exit.Done? && Backup in old(disk) && (Target in old(disk) ==> INDEX !in old(disk)[Target]) ==>
                disk == map[Target := old(disk)[Backup]]
      ensures exit.Done? && Backup !in old(disk) && Target !in old(disk) ==> disk == map[]
      ensures calm ==> exit.Done?
    {
      exit := Interruption(calm);
      if !exit.Done? { return; }
      if Backup in disk {
        if !HasMap(disk) {
          ghost var before := disk;
          exit := RemoveTree(Target, calm);
          PartialRemovalKeeps(before, disk, Target);
          if !exit.Done? { return; }
          exit := Rename(Backup, Target, calm);
          if !exit.Done? { return; }
        } else {
          ghost var before := disk;
          exit := RemoveTree(Backup, calm);
          PartialRemovalKeeps(before, disk, Backup);
          if !exit.Done? { return; }
        }
      }
      ghost var before := disk;
      exit := RemoveTree(Temp, calm);
      PartialRemovalKeeps(before, disk, Temp);
      if exit.Done? {
        forall s | s in disk ensures s == Target { assert s != Temp && s != Backup; }
      }
    }

    /** The swap proper, with its rollback; every way out leads recovery to the old map or the new one. */
    method Swap(files: seq<BundleFile>, calm: bool) returns (exit: Exit)
      requires Recovered(disk) && Temp in disk && disk[Temp] == BundleDir(files) && INDEX in disk[Temp]
      modifies this
      ensures OldOrNew(disk, old(disk), files)
      ensures exit.Done? ==> disk == map[Target := BundleDir(files)]
      ensures calm ==> exit.Done?
    {
      ghost var start := disk;
      exit := Interruption(calm);  // validateTempBundle
      if !exit.Done? { return; }
      exit := RemoveTree(Backup, calm);
      PartialRemovalKeeps(start, disk, Backup);
      if !exit.Done? { return; }
      exit := Interruption(calm);  // mkdir
      if !exit.Done? { return; }
      var hadTarget := Target in disk;
      if hadTarget {
        exit := Rename(Target, Backup, calm);
        if !exit.Done? { return; }
      }
      exit := Rename(Temp, Target, calm);
      if exit.Threw? {
        if hadTarget {
          ghost var before := disk;
          exit := RemoveTree(Target, calm);
          PartialRemovalKeeps(before, disk, Target);
          if !exit.Done? { return; }
          exit := Rename(Backup, Target, calm);
          if !exit.Done? { return; }
        }
        return Threw;
      }
      if exit.Crashed? { return; }
      ghost var swapped := disk;
      exit := RemoveTree(Backup, calm);
      PartialRemovalKeeps(swapped, disk, Backup);
      if exit.Done? {
        assert forall s: Slot | s in disk :: s == Target;
        assert Target in swapped - {Backup} && disk[Target] == (swapped - {Backup})[Target];
      }
    }

    /** Temporary copy, swap, and the clean-up of a failed swap. */
    method Replace(files: seq<BundleFile>, existing: Dir, calm: bool) returns (exit: Exit)
      requires Recovered(disk) && DistinctPaths(files) && INDEX in BundleDir(files)
      requires existing == if Target in disk then disk[Target] else map[]
      modifies this
      ensures OldOrNew(disk, old(disk), files)
      ensures exit.Done? ==> disk == map[Target := BundleDir(files)]
      ensures calm ==> exit.Done?
    {
      exit := WriteReplacementTempBundle(files, existing, calm);
      TempIrrelevant(old(disk), disk);
      if !exit.Done? { return; }
      exit := Swap(files, calm);
      if exit.Threw? {
        ghost var thrown := disk;
        exit := RemoveTree(Temp, calm);
        PartialRemovalKeeps(thrown, disk, Temp);
        return if exit.Crashed? then Crashed else Threw;
      }
    }

    method StoreBundle(files: seq<BundleFile>, safe: Path -> bool, calm: bool) returns (result: StoreResult)
      requires Recovered(disk)
      modifies this
      ensures OldOrNew(disk, old(disk), files)
      ensures result.Written? ==> disk == map[Target := BundleDir(files)]
      ensures result.Written? ==> result.changed == Differences(BundleDir(files), if Target in old(disk) then old(disk)[Target] else map[])
      // exactly the added, edited and deleted files
      ensures result.Written? ==>
                var existing := if Target in old(disk) then old(disk)[Target] else map[];
                && (forall f | f in files :: f.path in result.changed <==> !(f.path in existing && existing[f.path] == f.content))
                && (forall p | p in existing && !exists f | f in files :: f.path == p :: p in result.changed)
                && (forall p | p in result.changed :: p in existing || exists f | f in files :: f.path == p)
      ensures result.Unchanged? ==> disk == old(disk)
      ensures result.Invalid? ==> disk == old(disk) && !ValidBundle(files, safe)
      ensures !ValidBundle(files, safe) ==> result.Invalid?
      ensures !result.Failed? && !result.Died? && ValidBundle(files, safe) ==>
                (result.Unchanged? <==> Target in old(disk) && old(disk)[Target] == BundleDir(files))
      ensures result.Unchanged? || result.Written? ==> Target in disk && disk[Target] == BundleDir(files)
      ensures calm ==> !result.Failed? && !result.Died?
    {
      var invalid := ValidateBundleFiles(files, safe);
      if invalid.Some? {
        return Invalid(invalid.value);
      }
      var exit := Interruption(calm);
      if !exit.Done? { return Failed; }
      var existing := if Target in disk then disk[Target] else map[];
      var changed := ChangedGeneratedFiles(files, existing);
      NoDifferencesIff(BundleDir(files), existing);
      BundleDirKeys(files);
      assert INDEX in BundleDir(files);
      if changed == {} {
        return Unchanged;
      }
      exit := Replace(files, existing, calm);
      return match exit case Done => Written(changed) case Threw => Failed case Crashed => Died;
    }

    /** One run of the generator: recover, then store. */
    method GenerateOnce(files: seq<BundleFile>, safe: Path -> bool, calm: bool) returns (result: StoreResult)
      modifies this
      ensures RecoveredTarget(disk) == RecoveredTarget(old(disk))
              || (ValidBundle(files, safe) && RecoveredTarget(disk) == Some(BundleDir(files)))
      ensures Acknowledged(result) ==> ValidBundle(files, safe) && RecoveredTarget(disk) == Some(BundleDir(files))
      ensures calm && ValidBundle(files, safe) ==> Acknowledged(result)
    {
      var exit := Recover(calm);
      if !exit.Done? {
        return if exit.Threw? then Failed else Died;
      }
      result := StoreBundle(files, safe, calm);
    }
  }

  predicate Acknowledged(result: StoreResult) {
    result.Written? || result.Unchanged?
  }

  /**
   Any number of generator runs, each of which recovers and then stores, with exceptions and
   crashes anywhere in both, and a last recovery.  The outcome is one whole map of the history:
   the initial one or a valid offered bundle, and never one older than the last acknowledged store.
   Runs in calm surroundings store what they are offered.
   */
  method GenerateRepeatedly(storage: MapStorage, offered: seq<seq<BundleFile>>, safe: Path -> bool, calm: nat -> bool)
    returns (results: seq<StoreResult>, recovered: Exit, ghost k: nat)
    modifies storage
    ensures |results| == |offered| && k <= |offered|
    ensures RecoveredTarget(storage.disk) == if k == 0 then RecoveredTarget(old(storage.disk)) else Some(BundleDir(offered[k - 1]))
    ensures forall i: nat | i < |offered| && calm(i) && ValidBundle(offered[i], safe) :: Acknowledged(results[i])
    ensures forall i | 0 <= i < |offered| :: Acknowledged(results[i]) ==> i < k
    ensures k > 0 ==> ValidBundle(offered[k - 1], safe)
    ensures recovered.Done? ==>
              if k > 0 then storage.disk == map[Target := BundleDir(offered[k - 1])]
              else storage.disk == match RecoveredTarget(old(storage.disk)) case None => map[] case Some(dir) => map[Target := dir]
    ensures calm(|offered|) ==> recovered.Done?
  {
    results, k := [], 0;
    for i := 0 to |offered|
      invariant |results| == i && k <= i
      invariant RecoveredTarget(storage.disk) == if k == 0 then RecoveredTarget(old(storage.disk)) else Some(BundleDir(offered[k - 1]))
      invariant forall j: nat | j < i && calm(j) && ValidBundle(offered[j], safe) :: Acknowledged(results[j])
      invariant forall j | 0 <= j < i :: Acknowledged(results[j]) ==> j < k
      invariant k > 0 ==> ValidBundle(offered[k - 1], safe)
    {
      var result := storage.GenerateOnce(offered[i], safe, calm(i));
      if ValidBundle(offered[i], safe) && RecoveredTarget(storage.disk) == Some(BundleDir(offered[i])) {
        k := i + 1;
      }
      results := results + [result];
    }
    recovered := storage.Recover(calm(|offered|));
  }
}
