/**
 Replacing the state file: the snapshot goes to a temporary file that is renamed over the
 state path. The disk remembers every state it has been in, so a claim about all of them is
 a claim about a crash of the process at any point.
 */
module AtomicWrite {
  import opened Wrappers
  import opened Utf8
  import opened GoCache
  import opened StateFile
  import StateRoundTrip

  type Path = string

  type Files = map<Path, seq<byte>>

  function TempName(target: Path, suffix: string): (name: Path)
    ensures |name| > |target|
  {
    target + ".tmp-" + suffix
  }

  class Disk {
    var files: Files
    const sound: bool           // no call fails
    ghost var seen: seq<Files>  // all states so far, the current one last
    ghost var removals: seq<Path>  // the names whose removal was tried

    ghost predicate Valid()
      reads this
    {
      seen != [] && seen[|seen| - 1] == files
    }

    constructor (files: Files, sound: bool)
      ensures Valid() && this.files == files && seen == [files] && this.sound == sound && removals == []
    {
      this.files := files;
      this.sound := sound;
      this.seen := [files];
      this.removals := [];
    }

    method Become(files': Files)
      requires Valid()
      modifies this`files, this`seen
      ensures Valid() && files == files' && seen == old(seen) + [files']
    {
      files := files';
      seen := seen + [files'];
    }

    /** `os.CreateTemp(dir, base+".tmp-*")`: a new empty file whose name extends the target's. */
    method CreateTemp(target: Path, suffix: string) returns (name: Option<Path>)
      requires Valid()
      modifies this`files, this`seen
      ensures Valid()
      ensures name.None? ==> files == old(files) && seen == old(seen)
      ensures name.Some? ==> name.value == TempName(target, suffix) && name.value != target
      ensures name.Some? ==> name.value !in old(files)
      ensures sound && TempName(target, suffix) !in old(files) ==> name.Some?
      ensures name.Some? ==> files == old(files)[name.value := []] && seen == old(seen) + [files]
    {
      var candidate := TempName(target, suffix);
      var failed: bool := *;
      if (failed && !sound) || candidate in files {
        return None;
      }
      Become(files[candidate := []]);
      name := Some(candidate);
    }

    /** The deferred `os.Remove` of the temporary file; an error is ignored. */
    method Remove(name: Path)
      requires Valid()
      modifies this
      ensures Valid()
      ensures files == old(files) || files == old(files) - {name}
      ensures sound ==> files == old(files) - {name}
      ensures seen == old(seen) + [files] && removals == old(removals) + [name]
    {
      removals := removals + [name];
      var ok: bool := *;
      Become(if ok || sound then files - {name} else files);
    }

    /** Opening the state file for writing creates it, and does not truncate it. */
    method EnsureExists(path: Path) returns (ok: bool)
      requires Valid()
      modifies this`files, this`seen
      ensures Valid()
      ensures sound ==> ok
      ensures files == if ok && path !in old(files) then old(files)[path := []] else old(files)
    {
      ok := *;
      ok := ok || sound;
      if ok && path !in files {
        Become(files[path := []]);
      }
    }
  }

  /** In both states the path has the same content, or is absent. */
  ghost predicate SameAt(a: Files, b: Files, path: Path) {
    (path in a <==> path in b) && (path in a ==> a[path] == b[path])
  }

  /** From `from` on, no state differs from `start` in anything but the file `tmp`. */
  ghost predicate OnlyTouched(seen: seq<Files>, from: nat, start: Files, tmp: Path) {
    forall i, path :: from <= i < |seen| && path != tmp ==> SameAt(seen[i], start, path)
  }

  lemma StillUntouched(seen: seq<Files>, from: nat, start: Files, tmp: Path, next: Files)
    requires from < |seen| && OnlyTouched(seen, from, start, tmp)
    requires next - {tmp} == seen[|seen| - 1] - {tmp}
    ensures OnlyTouched(seen + [next], from, start, tmp)
  {
    var now := seen[|seen| - 1];
    forall path | path != tmp ensures SameAt(next, start, path) {
      assert SameAt(now, start, path);
      assert path in next <==> path in next - {tmp};
      assert path in now <==> path in now - {tmp};
    }
  }

  ghost predicate Grown(before: seq<Files>, after: seq<Files>) {
    |before| <= |after| && forall i :: 0 <= i < |before| ==> after[i] == before[i]
  }

  /** The buffered data reaches the file in pieces of any size, and may stop short. */
  method WriteInPieces(disk: Disk, tmp: Path, data: seq<byte>, ghost from: nat, ghost start: Files) returns (ok: bool)
    requires disk.Valid() && tmp in disk.files && disk.files[tmp] == []
    requires from < |disk.seen| && OnlyTouched(disk.seen, from, start, tmp)
    modifies disk`files, disk`seen
    ensures disk.Valid() && tmp in disk.files && (ok ==> disk.files[tmp] == data) && (disk.sound ==> ok)
    ensures Grown(old(disk.seen), disk.seen) && OnlyTouched(disk.seen, from, start, tmp)
  {
    var n := 0;
    while n < |data|
      invariant n <= |data| && disk.Valid() && tmp in disk.files && disk.files[tmp] == data[..n]
      invariant from < |disk.seen| && Grown(old(disk.seen), disk.seen)
      invariant OnlyTouched(disk.seen, from, start, tmp)
    {
      var failed: bool := *;
      if failed && !disk.sound {
        return false;
      }
      var size: nat := *;
      var m := if 0 < size <= |data| - n then n + size else n + 1;
      StillUntouched(disk.seen, from, start, tmp, disk.files[tmp := data[..m]]);
      disk.Become(disk.files[tmp := data[..m]]);
      n := m;
    }
    assert data[..|data|] == data;
    ok := true;
  }

  /** Create the temporary file and write the whole snapshot to it. */
  method PrepareTemp(disk: Disk, path: Path, items: map<Key, Item>, suffix: string)
    returns (name: Option<Path>, ghost tmp: Path, ghost order: seq<Key>)
    requires disk.Valid()
    modifies disk
    ensures disk.Valid() && Grown(old(disk.seen), disk.seen)
    ensures tmp != path || disk.seen == old(disk.seen)
    ensures OnlyTouched(disk.seen, |old(disk.seen)|, old(disk.files), tmp)
    ensures name.None? ==> SameAt(disk.files, old(disk.files), path)
    ensures disk.removals == old(disk.removals) + if name.None? && tmp != path then [tmp] else []
    ensures disk.sound && TempName(path, suffix) !in old(disk.files) && AllBool(items) ==> name.Some?
    ensures name.Some? ==>
              && name.value == tmp && tmp != path && tmp !in old(disk.files) && |disk.seen| > |old(disk.seen)|
              && AllBool(items) && IsIteration(order, items) && Printable(order, items)
              && tmp in disk.files && disk.files[tmp] == StateText(order, items)
  {
    hide StateText, Printable, IsIteration, AllBool;
    ghost var from, start := |disk.seen|, disk.files;
    order, tmp := [], path;
    var created := disk.CreateTemp(path, suffix);
    if created.None? {
      return None, tmp, order;
    }
    var tmpName := created.value;
    tmp := tmpName;
    var writer := new Writer(disk.sound);
    var encoded;
    encoded, order := WriteStateJSON(writer, items);
    var written := WriteInPieces(disk, tmpName, writer.out, from, start);
    var closed: bool := *;  // Chmod and Close
    closed := closed || disk.sound;
    if !encoded || !written || !closed {
      ghost var before := disk.seen;
      disk.Remove(tmpName);
      StillUntouched(before, from, start, tmp, disk.files);
      assert SameAt(disk.seen[|disk.seen| - 1], start, path);
      return None, tmp, order;
    }
    assert [] + StateText(order, items) == StateText(order, items);
    name := Some(tmpName);
  }

  /** The path holds what it held before, or the complete new snapshot. */
  ghost predicate OldOrNew(files: Files, start: Files, path: Path, items: map<Key, Item>, order: seq<Key>) {
    || SameAt(files, start, path)
    || (&& path in files && IsIteration(order, items) && Printable(order, items)
        && files[path] == StateText(order, items))
  }

  /**
   `atomicWriteStateFile`: in every state on the way the path holds its previous content or
   the complete new one, and no other file but the temporary one is touched.
   */
  method AtomicWriteStateFile(disk: Disk, path: Path, items: map<Key, Item>, suffix: string)
    returns (ok: bool, ghost order: seq<Key>, ghost tmp: Path)
    requires disk.Valid()
    modifies disk
    ensures disk.Valid() && Grown(old(disk.seen), disk.seen)
    ensures forall i :: |old(disk.seen)| <= i < |disk.seen| ==>
              OldOrNew(disk.seen[i], old(disk.files), path, items, order)
    ensures forall i, other :: |old(disk.seen)| <= i < |disk.seen| && other != path && other != tmp ==>
              SameAt(disk.seen[i], old(disk.files), other)
    ensures ok ==> AllBool(items) && IsIteration(order, items) && Printable(order, items)
    ensures ok ==> disk.files == old(disk.files)[path := StateText(order, items)]
    ensures !ok ==> SameAt(disk.files, old(disk.files), path)
    ensures disk.seen != old(disk.seen) ==> disk.removals == old(disk.removals) + [tmp] && tmp != path
    ensures disk.sound && TempName(path, suffix) !in old(disk.files) && AllBool(items) ==> ok
  {
    hide StateText, Printable, IsIteration, AllBool;
    var prepared;
    prepared, tmp, order := PrepareTemp(disk, path, items, suffix);
    if prepared.None? {
      return false, order, tmp;
    }
    var tmpName := prepared.value;
    ghost var from, start, before := |old(disk.seen)|, old(disk.files), disk.files;
    ghost var seen := disk.seen;
    var renamed: bool := *;
    if !renamed && !disk.sound {
      disk.Remove(tmpName);
      StillUntouched(seen, from, start, tmp, disk.files);
      assert SameAt(disk.seen[|disk.seen| - 1], start, path);
      return false, order, tmp;
    }
    assert forall other :: other != tmp ==> SameAt(before, start, other) by {
      assert seen[|seen| - 1] == before;
    }
    RenameResult(start, before, tmp, path);
    disk.Become((disk.files - {tmpName})[path := disk.files[tmpName]]);
    assert disk.files == start[path := StateText(order, items)];
    assert disk.files - {tmpName} == disk.files;
    disk.Remove(tmpName);
    ok := true;
  }

  lemma RenameResult(start: Files, before: Files, tmp: Path, path: Path)
    requires tmp in before && tmp !in start && tmp != path
    requires forall other :: other != tmp ==> SameAt(before, start, other)
    ensures (before - {tmp})[path := before[tmp]] == start[path := before[tmp]]
  {
    forall other ensures other in before - {tmp} <==> other in start {
      assert other != tmp ==> SameAt(before, start, other);
    }
    forall other | other in start ensures before[other] == start[other] {
      assert SameAt(before, start, other);
    }
  }

  /** A state file a start can load: the empty one of a first run, or one that parses. */
  ghost predicate Loadable(content: seq<byte>) {
    content == [] || Unmarshal(content).Some?
  }

  /**
   A crash at any point of a save leaves a file that loads, with the entries it had before or
   with exactly those of the new snapshot (as far as their keys are valid UTF-8).
   */
  lemma CrashLeavesLoadableFile(files: Files, start: Files, path: Path, items: map<Key, Item>, order: seq<Key>)
    requires AllBool(items) && OldOrNew(files, start, path, items, order)
    requires path in start && Loadable(start[path])
    ensures path in files && Loadable(files[path])
    ensures || files[path] == start[path]
            || (&& Unmarshal(files[path]).Some?
                && (Unmarshal(files[path]).value.verified == StateRoundTrip.Snapshot(items)
                    <==> forall k :: k in items ==> Utf8.Valid(k)))
  {
    hide StateText, Printable, IsIteration, AllBool, Unmarshal;
    if !SameAt(files, start, path) {
      StateRoundTrip.RoundTrip(order, items);
    }
  }
}
