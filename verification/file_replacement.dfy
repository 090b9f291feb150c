/**
  Replacing the last-known-good catalog file when any file operation may fail, with every
  intermediate state of the directory on record.
*/
module FileReplacement {
  import opened Wrappers

  type Bytes = string
  type Path = string
  type Files = map<Path, Bytes>

  function At(files: Files, path: Path): Option<Bytes> {
    if path in files then Some(files[path]) else None
  }

  datatype ReadFault = Missing | Unreadable

  datatype Removal = Removed | Absent | Refused

  // A folder whose operations fail at will. `history` holds every state it went through,
  // `failures` counts the operations that failed.
  class Folder {
    var files: Files
    ghost var history: seq<Files>
    ghost var failures: nat

    constructor (files: Files)
      ensures this.files == files && history == [files] && failures == 0
    {
      this.files := files;
      history := [files];
      failures := 0;
    }

    method Read(path: Path) returns (r: Result<Bytes, ReadFault>)
      modifies this`failures
      ensures r.Ok? ==> At(files, path) == Some(r.value)
      ensures path !in files <==> r.Err? && r.error == Missing
      ensures r.Err? ==> r.error == Missing || r.error == Unreadable
      ensures failures == old(failures) + if r == Err(Unreadable) then 1 else 0
    {
      if path !in files {
        return Err(Missing);
      }
      if * {
        failures := failures + 1;
        return Err(Unreadable);
      }
      return Ok(files[path]);
    }

    // Writes a new sibling of the path under a name not in use. A failed attempt may leave a
    // partial file behind.
    method CreateTemporary(path: Path, contents: Bytes) returns (r: Option<Path>)
      modifies this
      ensures r.Some? ==> r.value !in old(files) && r.value != path && files == old(files)[r.value := contents]
      ensures At(files, path) == At(old(files), path)
      ensures forall p :: p in old(files) ==> At(files, p) == Some(old(files)[p])
      ensures history == old(history) + [files]
      ensures failures == old(failures) + if r.None? then 1 else 0
    {
      var name := Unused(files, path);
      if * {
        files := files[name := contents];
        r := Some(name);
      } else {
        if * {
          var partial := *;
          files := files[name := partial];
        }
        failures := failures + 1;
        r := None;
      }
      history := history + [files];
    }

    // Moves one file over another. A failed move leaves both in any condition.
    method Replace(source: Path, target: Path) returns (ok: bool)
      requires source in files && source != target
      modifies this
      ensures ok ==> files == (old(files) - {source})[target := old(files)[source]]
      ensures forall p :: p != source && p != target ==> At(files, p) == At(old(files), p)
      ensures history == old(history) + [files]
      ensures failures == old(failures) + if ok then 0 else 1
    {
      if * {
        files := (files - {source})[target := files[source]];
        ok := true;
      } else {
        ok := false;
        failures := failures + 1;
        if * {
          files := files - {source};
        }
        if * {
          files := files - {target};
        } else if * {
          var garbage := *;
          files := files[target := garbage];
        }
      }
      history := history + [files];
    }

    method Sync() returns (ok: bool)
      modifies this`failures
      ensures failures == old(failures) + if ok then 0 else 1
    {
      ok := *;
      if !ok {
        failures := failures + 1;
      }
    }

    // A refused removal leaves the file.
    method Remove(path: Path) returns (r: Removal)
      modifies this
      ensures r == Absent <==> path !in old(files)
      ensures files == if r == Removed then old(files) - {path} else old(files)
      ensures history == old(history) + [files]
      ensures failures == old(failures) + if r == Refused then 1 else 0
    {
      if path !in files {
        r := Absent;
      } else if * {
        files := files - {path};
        r := Removed;
      } else {
        failures := failures + 1;
        r := Refused;
      }
      history := history + [files];
    }
  }

  method Unused(files: Files, path: Path) returns (name: Path)
    ensures name !in files && name != path
  {
    name := path + "t";
    var rest := files.Keys;
    while rest != {}
      invariant |path| < |name|
      invariant forall p :: p in files.Keys - rest ==> |p| < |name|
      decreases rest
    {
      var p :| p in rest;
      rest := rest - {p};
      while |name| <= |p|
        invariant |path| < |name|
        invariant forall q :: q in files.Keys - rest - {p} ==> |q| < |name|
      {
        name := name + "t";
      }
    }
  }

  // ---- the replacement -------------------------------------------------------------------

  // What the caller learns. A stranded replacement names the backup it kept, if there was anything to keep.
  datatype Outcome = Stored | Unchanged | RolledBack | Stranded(backup: Option<Path>)

  // The previous bytes are in place, or the new ones are, or some other file holds the previous ones.
  ghost predicate Safe(files: Files, path: Path, previous: Option<Bytes>, contents: Bytes) {
    || previous.None?
    || At(files, path) == previous
    || At(files, path) == Some(contents)
    || exists b :: b != path && At(files, b) == previous
  }

  // Every state the directory went through after the first n was safe.
  ghost predicate SafeSince(history: seq<Files>, n: nat, path: Path, previous: Option<Bytes>, contents: Bytes) {
    n <= |history| && forall k :: n <= k < |history| ==> Safe(history[k], path, previous, contents)
  }

  // Files that were there are still there, apart from the one at the path.
  ghost predicate OthersKept(before: Files, after: Files, path: Path) {
    forall p :: p in before && p != path ==> At(after, p) == Some(before[p])
  }

  // Puts the previous bytes back from the backup, or removes what should not be there.
  method Restore(dir: Folder, path: Path, backup: Option<Path>, ghost contents: Bytes) returns (ok: bool)
    requires backup.Some? ==> backup.value in dir.files && backup.value != path
    modifies dir
    ensures ok ==> At(dir.files, path) == if backup.Some? then At(old(dir.files), backup.value) else None
    ensures ok <==> dir.failures == old(dir.failures)
    ensures dir.failures >= old(dir.failures)
    ensures OthersKept(old(dir.files), dir.files, path)
    ensures old(dir.history) <= dir.history
    ensures SafeSince(dir.history, |old(dir.history)|, path,
                      if backup.Some? then At(old(dir.files), backup.value) else None, contents)
  {
    if backup.Some? {
      var previous := dir.Read(backup.value);
      if previous.Err? {
        return false;
      }
      var candidate := dir.CreateTemporary(path, previous.value);
      if candidate.None? {
        return false;
      }
      var replaced := dir.Replace(candidate.value, path);
      if replaced {
        ok := dir.Sync();
      } else {
        ok := false;
      }
      var _ := dir.Remove(candidate.value);
    } else {
      var removed := dir.Remove(path);
      if removed == Refused {
        return false;
      }
      ok := dir.Sync();
    }
  }

  ghost predicate BystandersKept(before: Files, after: Files, path: Path, temporary: Path, backup: Option<Path>) {
    forall p :: p in before && p != path && p != temporary && backup != Some(p) ==> At(after, p) == Some(before[p])
  }

  lemma SafeAppend(history: seq<Files>, n: nat, path: Path, previous: Option<Bytes>, contents: Bytes, files: Files)
    requires SafeSince(history, n, path, previous, contents) && Safe(files, path, previous, contents)
    ensures SafeSince(history + [files], n, path, previous, contents)
  {
  }

  // Moves the new file into place, and the previous one back if that cannot be made to last.
  method Commit(dir: Folder, path: Path, temporary: Path, backup: Option<Path>, ghost contents: Bytes)
    returns (r: Outcome, replaced: bool, keepBackup: bool)
    requires temporary != path && At(dir.files, temporary) == Some(contents)
    requires backup.Some? ==> backup.value != path && backup.value != temporary && backup.value in dir.files
    requires At(dir.files, path) == if backup.Some? then At(dir.files, backup.value) else None
    modifies dir
    ensures r != Unchanged && (r.Stranded? ==> r.backup == backup && keepBackup) && (r == Stored ==> replaced)
    ensures r == Stored <==> dir.failures == old(dir.failures)
    ensures dir.failures >= old(dir.failures) + if r.Stranded? then 2 else 0
    ensures r == Stored && backup.Some? ==> keepBackup && dir.files == (old(dir.files) - {temporary, backup.value})[path := contents]
    ensures r == Stored && backup.None? ==> dir.files == (old(dir.files) - {temporary})[path := contents]
    ensures r == RolledBack ==> At(dir.files, path) == At(old(dir.files), path)
    ensures r.Stranded? && backup.Some? ==> At(dir.files, backup.value) == At(old(dir.files), path)
    ensures BystandersKept(old(dir.files), dir.files, path, temporary, backup)
    ensures old(dir.history) <= dir.history
    ensures SafeSince(dir.history, |old(dir.history)|, path, At(old(dir.files), path), contents)
  {
    keepBackup := false;
    replaced := dir.Replace(temporary, path);
    assert backup.Some? ==> At(dir.files, backup.value) == At(old(dir.files), path);
    assert BystandersKept(old(dir.files), dir.files, path, temporary, backup);
    var synced := false;
    if replaced {
      synced := dir.Sync();
    }
    if !synced {
      var restored := Restore(dir, path, backup, contents);
      r := if restored then RolledBack else Stranded(backup);
      keepBackup := !restored;
    } else if backup.Some? {
      keepBackup := true;
      var removed := dir.Remove(backup.value);
      if removed != Removed {
        var restored := Restore(dir, path, backup, contents);
        r := if restored then RolledBack else Stranded(backup);
      } else {
        r := Stored;
      }
    } else {
      r := Stored;
    }
  }

  // Removes a leftover, if it can be removed, without touching what matters.
  method Discard(dir: Folder, leftover: Path, ghost n: nat, ghost path: Path, ghost previous: Option<Bytes>,
                 ghost contents: Bytes)
    requires SafeSince(dir.history, n, path, previous, contents)
    requires Safe(dir.files - {leftover}, path, previous, contents) && Safe(dir.files, path, previous, contents)
    modifies dir
    ensures dir.files == old(dir.files) || dir.files == old(dir.files) - {leftover}
    ensures dir.failures >= old(dir.failures)
    ensures old(dir.history) <= dir.history && SafeSince(dir.history, n, path, previous, contents)
  {
    ghost var history := dir.history;
    var _ := dir.Remove(leftover);
    SafeAppend(history, n, path, previous, contents, dir.files);
  }

  // The commit and the deferred removals after it.
  method Swap(dir: Folder, path: Path, temporary: Path, backup: Option<Path>, ghost contents: Bytes) returns (r: Outcome)
    requires temporary != path && At(dir.files, temporary) == Some(contents)
    requires backup.Some? ==> backup.value != path && backup.value != temporary && backup.value in dir.files
    requires At(dir.files, path) == if backup.Some? then At(dir.files, backup.value) else None
    modifies dir
    ensures r != Unchanged && (r.Stranded? ==> r.backup == backup)
    ensures r == Stored <==> dir.failures == old(dir.failures)
    ensures dir.failures >= old(dir.failures) + if r.Stranded? then 2 else 0
    ensures r == Stored && backup.Some? ==> dir.files == (old(dir.files) - {temporary, backup.value})[path := contents]
    ensures r == Stored && backup.None? ==> dir.files == (old(dir.files) - {temporary})[path := contents]
    ensures r == RolledBack ==> At(dir.files, path) == At(old(dir.files), path)
    ensures r.Stranded? && backup.Some? ==> At(dir.files, backup.value) == At(old(dir.files), path)
    ensures BystandersKept(old(dir.files), dir.files, path, temporary, backup)
    ensures old(dir.history) <= dir.history
    ensures SafeSince(dir.history, |old(dir.history)|, path, At(old(dir.files), path), contents)
  {
    hide SafeSince;
    ghost var previous := At(dir.files, path);
    ghost var n := |dir.history|;
    var replaced, keepBackup;
    r, replaced, keepBackup := Commit(dir, path, temporary, backup, contents);
    if backup.Some? && !keepBackup {
      assert At(dir.files - {backup.value}, path) == previous;
      Discard(dir, backup.value, n, path, previous, contents);
      assert At(dir.files, path) == previous;
    }
    assert BystandersKept(old(dir.files), dir.files, path, temporary, backup);
    if !replaced {
      ghost var fewer := dir.files - {temporary};
      if r == RolledBack {
        assert At(fewer, path) == previous;
      } else if backup.Some? {
        assert At(fewer, backup.value) == previous;
      }
      Discard(dir, temporary, n, path, previous, contents);
    }
  }

  lemma NothingNew(history: seq<Files>, path: Path, previous: Option<Bytes>, contents: Bytes)
    ensures SafeSince(history, |history|, path, previous, contents)
  {
  }

  // While the previous bytes are in place, the folder is safe.
  lemma InPlaceIsSafe(history: seq<Files>, n: nat, path: Path, previous: Option<Bytes>, contents: Bytes, files: Files)
    requires SafeSince(history, n, path, previous, contents) && At(files, path) == previous
    ensures SafeSince(history + [files], n, path, previous, contents)
  {
    SafeAppend(history, n, path, previous, contents, files);
  }

  lemma SafeThrough(history: seq<Files>, m: nat, n: nat, path: Path, previous: Option<Bytes>, contents: Bytes)
    requires n <= m <= |history| && SafeSince(history[..m], n, path, previous, contents)
    requires SafeSince(history, m, path, previous, contents)
    ensures SafeSince(history, n, path, previous, contents)
  {
    forall k | n <= k < |history| ensures Safe(history[k], path, previous, contents) {
      assert k < m ==> history[..m][k] == history[k];
    }
  }

  // Copies the file at the path, if there is one.
  method BackUp(dir: Folder, path: Path, ghost contents: Bytes) returns (r: Result<Option<Path>, ReadFault>)
    modifies dir
    ensures At(dir.files, path) == At(old(dir.files), path)
    ensures r.Ok? && path in old(dir.files) ==>
              && r.value.Some? && r.value.value !in old(dir.files) && r.value.value != path
              && dir.files == old(dir.files)[r.value.value := old(dir.files)[path]]
    ensures r.Ok? && path !in old(dir.files) ==> r.value.None? && dir.files == old(dir.files)
    ensures forall p :: p in old(dir.files) ==> At(dir.files, p) == Some(old(dir.files)[p])
    ensures r.Ok? <==> dir.failures == old(dir.failures)
    ensures dir.failures >= old(dir.failures)
    ensures old(dir.history) <= dir.history
    ensures SafeSince(dir.history, |old(dir.history)|, path, At(old(dir.files), path), contents)
  {
    var previous := dir.Read(path);
    if previous.Err? {
      return if previous.error == Missing then Ok(None) else Err(Unreadable);
    }
    var backup := dir.CreateTemporary(path, previous.value);
    return if backup.Some? then Ok(backup) else Err(Unreadable);
  }

  // Replaces the file at the path: all or nothing, or with a backup kept.
  method Store(dir: Folder, path: Path, contents: Bytes) returns (r: Outcome)
    modifies dir
    ensures r == Stored ==> dir.files == old(dir.files)[path := contents]
    ensures r == Stored <==> dir.failures == old(dir.failures)
    ensures dir.failures >= old(dir.failures) + if r.Stranded? then 2 else 0
    ensures r == Unchanged || r == RolledBack ==> At(dir.files, path) == At(old(dir.files), path)
    ensures r.Stranded? && path in old(dir.files) ==>
              r.backup.Some? && r.backup.value != path && At(dir.files, r.backup.value) == At(old(dir.files), path)
    ensures OthersKept(old(dir.files), dir.files, path)
    ensures SafeSince(dir.history, |old(dir.history)|, path, At(old(dir.files), path), contents)
  {
    hide SafeSince, Safe;
    ghost var n, previous := |dir.history|, At(dir.files, path);
    NothingNew(dir.history, path, previous, contents);
    ghost var h0 := dir.history;
    var temporary := dir.CreateTemporary(path, contents);
    InPlaceIsSafe(h0, n, path, previous, contents, dir.files);
    if temporary.None? {
      return Unchanged;
    }
    ghost var h1 := dir.history;
    var backup := BackUp(dir, path, contents);
    SafeThrough(dir.history, |h1|, n, path, previous, contents);
    if backup.Err? {
      ghost var h2 := dir.history;
      var _ := dir.Remove(temporary.value);
      InPlaceIsSafe(h2, n, path, previous, contents, dir.files);
      return Unchanged;
    }
    ghost var h2 := dir.history;
    r := Swap(dir, path, temporary.value, backup.value, contents);
    SafeThrough(dir.history, |h2|, n, path, previous, contents);
  }
}
