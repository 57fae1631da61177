/**
 The atomic, durable write of src/notebooklm/_atomic_io.py on a small file system.

 A file's bytes are durable once it was fsynced; a directory entry is durable once its
 directory was.  Until then a crash may bring back any earlier version of the entry and
 anything at all as the bytes.  `AtomicWriteJson` records every intermediate state, so its
 contract speaks about every crash point.
 */
module AtomicFile {
  import opened Options

  type Bytes = seq<bv8>
  type Name = string

  datatype Inode = Inode(content: Bytes, synced: bool)

  /** `versions`: the directory as last made durable and every version since; the last one
      is the directory that running programs see. */
  datatype Fs = Fs(inodes: seq<Inode>, versions: seq<map<Name, nat>>) {
    predicate Valid() {
      && versions != []
      && forall i, name :: 0 <= i < |versions| && name in versions[i] ==> versions[i][name] < |inodes|
    }

    function Dir(): map<Name, nat>
      requires versions != []
    {
      versions[|versions| - 1]
    }

    /** What a running program reads. */
    function Visible(name: Name): Option<Bytes>
      requires Valid()
    {
      if name in Dir() then Some(inodes[Dir()[name]].content) else None
    }

    /** What may be found under `name` after a crash, if version `i` of its entry survives. */
    ghost predicate RecoversFrom(i: nat, name: Name, r: Option<Bytes>)
      requires Valid() && i < |versions|
    {
      if name in versions[i]
      then r.Some? && (inodes[versions[i][name]].synced ==> r.value == inodes[versions[i][name]].content)
      else r.None?
    }

    ghost predicate Recovers(name: Name, r: Option<Bytes>)
      requires Valid()
    {
      exists i :: 0 <= i < |versions| && RecoversFrom(i, name, r)
    }

    /** Every version of the entry leads to bytes that are durable. */
    ghost predicate Clean(name: Name)
      requires Valid()
    {
      forall i :: 0 <= i < |versions| && name in versions[i] ==> inodes[versions[i][name]].synced
    }

    // The effects of the system calls.

    /** A new empty file. */
    function Created(name: Name): (fs: Fs)
      requires Valid()
      ensures fs.Valid()
    {
      Fs(inodes + [Inode([], false)], versions + [Dir()[name := |inodes|]])
    }

    function Written(ino: nat, chunk: Bytes): (fs: Fs)
      requires Valid() && ino < |inodes|
      ensures fs.Valid()
    {
      Fs(inodes[ino := Inode(inodes[ino].content + chunk, false)], versions)
    }

    function Fsynced(ino: nat): (fs: Fs)
      requires Valid() && ino < |inodes|
      ensures fs.Valid()
    {
      Fs(inodes[ino := Inode(inodes[ino].content, true)], versions)
    }

    /** `os.replace`. */
    function Renamed(temp: Name, path: Name): (fs: Fs)
      requires Valid() && temp in Dir()
      ensures fs.Valid()
    {
      Fs(inodes, versions + [Dir()[path := Dir()[temp]] - {temp}])
    }

    /** `unlink(missing_ok=True)`. */
    function Unlinked(name: Name): (fs: Fs)
      requires Valid()
      ensures fs.Valid()
    {
      Fs(inodes, versions + [Dir() - {name}])
    }

    function DirFsynced(): (fs: Fs)
      requires Valid()
      ensures fs.Valid()
    {
      Fs(inodes, [Dir()])
    }
  }

  // ---------- Nothing done to other names matters ----------

  /** `name` may come back only as it could before, and looks as it did. */
  ghost predicate Untouched(before: Fs, after: Fs, name: Name)
    requires before.Valid() && after.Valid()
  {
    && |before.inodes| <= |after.inodes|
    && (forall n :: 0 <= n < |before.inodes| ==> after.inodes[n] == before.inodes[n])
    && (forall i :: 0 <= i < |after.versions| ==> OldEntry(before, after.versions[i], name))
    && SameEntry(before.Dir(), after.Dir(), name)
  }

  ghost predicate SameEntry(d: map<Name, nat>, e: map<Name, nat>, name: Name) {
    (name in d <==> name in e) && (name in d ==> d[name] == e[name])
  }

  ghost predicate OldEntry(before: Fs, d: map<Name, nat>, name: Name) {
    exists j :: 0 <= j < |before.versions| && SameEntry(before.versions[j], d, name)
  }

  lemma {:induction false} UntouchedRecovers(before: Fs, after: Fs, name: Name, r: Option<Bytes>)
    requires before.Valid() && after.Valid() && Untouched(before, after, name) && after.Recovers(name, r)
    ensures before.Recovers(name, r)
  {
    var i :| 0 <= i < |after.versions| && after.RecoversFrom(i, name, r);
    assert OldEntry(before, after.versions[i], name);
    var j :| 0 <= j < |before.versions| && SameEntry(before.versions[j], after.versions[i], name);
    assert before.RecoversFrom(j, name, r);
  }

  // ---------- The crash guarantee ----------

  /** At a crash here, `path` comes back as it could before, or completely new. */
  ghost predicate OldOrNew(before: Fs, here: Fs, path: Name, data: Bytes)
    requires before.Valid()
  {
    here.Valid() && forall r :: here.Recovers(path, r) ==> before.Recovers(path, r) || r == Some(data)
  }

  function Concat(chunks: seq<Bytes>): Bytes {
    if chunks == [] then [] else Concat(chunks[..|chunks| - 1]) + chunks[|chunks| - 1]
  }

  /** The complete data: the chunks one after another, and nothing else. */
  lemma {:induction false} ConcatJoins(a: seq<Bytes>, b: seq<Bytes>, chunk: Bytes)
    ensures Concat(a + b) == Concat(a) + Concat(b) && Concat([chunk]) == chunk
  {
    if b == [] {
      assert a + b == a;
    } else {
      var last := |b| - 1;
      assert (a + b)[..|a + b| - 1] == a + b[..last];
      ConcatJoins(a, b[..last], chunk);
    }
    assert [chunk][..0] == [];
  }

  datatype Sync = Synced | Unsupported | SyncFailed

  /** The outcome of each system call of one write. */
  datatype Faults = Faults(
    createFails: bool, writeFailsAt: Option<nat>, chmodFails: bool, sync: Sync,
    replaceFails: bool, dirSynced: bool, unlinkFails: bool)
  {
    predicate Raises(chunks: nat) {
      || createFails
      || (writeFailsAt.Some? && writeFailsAt.value < chunks)
      || chmodFails || sync == SyncFailed || replaceFails
    }
  }

  // ---------- The states a write passes through ----------

  function Staged(before: Fs, temp: Name, content: Bytes, synced: bool): Fs
    requires before.Valid()
  {
    Fs(before.inodes + [Inode(content, synced)], before.versions + [before.Dir()[temp := |before.inodes|]])
  }

  function Abandoned(before: Fs, temp: Name, content: Bytes, synced: bool): Fs
    requires before.Valid()
  {
    var staged := Staged(before, temp, content, synced);
    staged.(versions := staged.versions + [staged.Dir() - {temp}])
  }

  function Replaced(before: Fs, temp: Name, path: Name, content: Bytes, synced: bool): Fs
    requires before.Valid()
  {
    var staged := Staged(before, temp, content, synced);
    staged.(versions := staged.versions + [staged.Dir()[path := |before.inodes|] - {temp}])
  }

  function Flushed(before: Fs, temp: Name, path: Name, content: Bytes, synced: bool): Fs
    requires before.Valid()
  {
    var replaced := Replaced(before, temp, path, content, synced);
    replaced.(versions := [replaced.Dir()])
  }

  lemma {:induction false} OldEntryAt(before: Fs, j: nat, d: map<Name, nat>, name: Name)
    requires before.Valid() && j < |before.versions| && SameEntry(before.versions[j], d, name)
    ensures OldEntry(before, d, name)
  {
  }

  lemma {:induction false} StagedUntouched(before: Fs, here: Fs, temp: Name, content: Bytes, synced: bool, name: Name)
    requires before.Valid() && name != temp && here == Staged(before, temp, content, synced)
    ensures here.Valid() && Untouched(before, here, name)
  {
    forall i | 0 <= i < |here.versions| ensures OldEntry(before, here.versions[i], name) {
      OldEntryAt(before, if i < |before.versions| then i else |before.versions| - 1, here.versions[i], name);
    }
  }

  lemma {:induction false} AbandonedUntouched(
    before: Fs, here: Fs, temp: Name, content: Bytes, synced: bool, name: Name)
    requires before.Valid() && name != temp && here == Abandoned(before, temp, content, synced)
    ensures here.Valid() && Untouched(before, here, name)
  {
    forall i | 0 <= i < |here.versions| ensures OldEntry(before, here.versions[i], name) {
      OldEntryAt(before, if i < |before.versions| then i else |before.versions| - 1, here.versions[i], name);
    }
  }

  lemma {:induction false} ReplacedUntouched(
    before: Fs, here: Fs, temp: Name, path: Name, content: Bytes, synced: bool, name: Name)
    requires before.Valid() && name != temp && name != path && here == Replaced(before, temp, path, content, synced)
    ensures here.Valid() && Untouched(before, here, name)
  {
    forall i | 0 <= i < |here.versions| ensures OldEntry(before, here.versions[i], name) {
      OldEntryAt(before, if i < |before.versions| then i else |before.versions| - 1, here.versions[i], name);
    }
  }

  lemma {:induction false} FlushedUntouched(
    before: Fs, here: Fs, temp: Name, path: Name, content: Bytes, synced: bool, name: Name)
    requires before.Valid() && name != temp && name != path && here == Flushed(before, temp, path, content, synced)
    ensures here.Valid() && Untouched(before, here, name)
  {
    OldEntryAt(before, |before.versions| - 1, here.versions[0], name);
  }

  /** After the rename, the crash may still find an older entry; the new one leads to the data
      exactly when its bytes were synced first. */
  lemma {:induction false} ReplacedOldOrNew(before: Fs, here: Fs, temp: Name, path: Name, data: Bytes)
    requires before.Valid() && temp != path && here == Replaced(before, temp, path, data, true)
    ensures OldOrNew(before, here, path, data)
  {
    forall r | here.Recovers(path, r) ensures before.Recovers(path, r) || r == Some(data) {
      var i :| 0 <= i < |here.versions| && here.RecoversFrom(i, path, r);
      if i < |here.versions| - 1 {
        assert before.RecoversFrom(if i < |before.versions| then i else |before.versions| - 1, path, r);
      }
    }
  }

  lemma {:induction false} FlushedOnlyNew(before: Fs, here: Fs, temp: Name, path: Name, data: Bytes, r: Option<Bytes>)
    requires before.Valid() && temp != path && here == Flushed(before, temp, path, data, true)
    ensures here.Valid() && (here.Recovers(path, r) <==> r == Some(data))
  {
    assert here.Recovers(path, r) <==> here.RecoversFrom(0, path, r);
  }

  lemma {:induction false} OnlyNewRecovers(before: Fs, here: Fs, temp: Name, path: Name, data: Bytes)
    requires before.Valid() && temp != path && here == Flushed(before, temp, path, data, true)
    ensures here.Valid() && forall r :: here.Recovers(path, r) <==> r == Some(data)
  {
    assert here.Valid();
    forall r ensures here.Recovers(path, r) <==> r == Some(data) {
      FlushedOnlyNew(before, here, temp, path, data, r);
    }
  }

  /** Without the sync of the bytes, the entry of a finished write may lead to anything. */
  lemma {:induction false} UnsyncedRecoversAnything(before: Fs, here: Fs, temp: Name, path: Name, data: Bytes, b: Bytes)
    requires before.Valid() && temp != path
    requires here in [Replaced(before, temp, path, data, false), Flushed(before, temp, path, data, false)]
    ensures here.Valid() && here.Recovers(path, Some(b))
  {
    assert here.RecoversFrom(|here.versions| - 1, path, Some(b));
  }

  function LongestContent(inodes: seq<Inode>): (n: nat)
    ensures forall i :: 0 <= i < |inodes| ==> |inodes[i].content| <= n
  {
    if inodes == [] then 0
    else
      var rest := LongestContent(inodes[..|inodes| - 1]);
      var last := |inodes[|inodes| - 1].content|;
      if last > rest then last else rest
  }

  /** So a finished write without that sync breaks the guarantee, unless it was broken before. */
  lemma {:induction false} UnsyncedIsUnsafe(before: Fs, here: Fs, temp: Name, path: Name, data: Bytes)
    requires before.Valid() && temp != path
    requires here in [Replaced(before, temp, path, data, false), Flushed(before, temp, path, data, false)]
    ensures OldOrNew(before, here, path, data) <==> !before.Clean(path)
  {
    assert here.Valid();
    if before.Clean(path) {
      var odd := seq(LongestContent(before.inodes) + |data| + 1, _ => 0 as bv8);
      UnsyncedRecoversAnything(before, here, temp, path, data, odd);
    } else {
      var i :| 0 <= i < |before.versions| && path in before.versions[i]
            && !before.inodes[before.versions[i][path]].synced;
      forall r | here.Recovers(path, r) ensures before.Recovers(path, r) {
        var k :| 0 <= k < |here.versions| && here.RecoversFrom(k, path, r);
        if r.Some? {
          assert before.RecoversFrom(i, path, r);
        } else {
          assert before.RecoversFrom(if k < |before.versions| then k else |before.versions| - 1, path, r);
        }
      }
    }
  }

  lemma {:induction false} UntouchedOldOrNew(before: Fs, here: Fs, path: Name, data: Bytes)
    requires before.Valid() && here.Valid() && Untouched(before, here, path)
    ensures OldOrNew(before, here, path, data)
  {
    forall r | here.Recovers(path, r) ensures before.Recovers(path, r) {
      UntouchedRecovers(before, here, path, r);
    }
  }

  /** What a state before the rename promises: nothing but the temporary name is touched. */
  ghost predicate Harmless(before: Fs, here: Fs, temp: Name)
    requires before.Valid()
  {
    here.Valid() && forall name :: name != temp ==> Untouched(before, here, name)
  }

  lemma {:induction false} StagedHarmless(before: Fs, here: Fs, temp: Name, content: Bytes, synced: bool)
    requires before.Valid() && here == Staged(before, temp, content, synced)
    ensures Harmless(before, here, temp)
  {
    assert here.Valid();
    forall name | name != temp ensures Untouched(before, here, name) {
      StagedUntouched(before, here, temp, content, synced, name);
    }
  }

  lemma {:induction false} AbandonedHarmless(before: Fs, here: Fs, temp: Name, content: Bytes, synced: bool)
    requires before.Valid() && here == Abandoned(before, temp, content, synced)
    ensures Harmless(before, here, temp)
  {
    assert here.Valid();
    forall name | name != temp ensures Untouched(before, here, name) {
      AbandonedUntouched(before, here, temp, content, synced, name);
    }
  }

  /** A state after the rename. */
  ghost predicate Committed(before: Fs, here: Fs, temp: Name, path: Name, data: Bytes, synced: bool)
    requires before.Valid()
  {
    here in [Replaced(before, temp, path, data, synced), Flushed(before, temp, path, data, synced)]
  }

  lemma {:induction false} CommittedKeeps(
    before: Fs, here: Fs, temp: Name, path: Name, data: Bytes, synced: bool, name: Name)
    requires before.Valid() && temp != path && Committed(before, here, temp, path, data, synced)
    ensures here.Valid()
    ensures name != temp && name != path ==> Untouched(before, here, name)
    ensures here.Visible(path) == Some(data) && temp !in here.Dir()
    ensures synced && before.Clean(path) ==> here.Clean(path)
    ensures OldOrNew(before, here, path, data) <==> synced || !before.Clean(path)
  {
    if name != temp && name != path {
      if here == Replaced(before, temp, path, data, synced) {
        ReplacedUntouched(before, here, temp, path, data, synced, name);
      } else {
        FlushedUntouched(before, here, temp, path, data, synced, name);
      }
    }
    CommittedIsSafe(before, here, temp, path, data, synced);
  }

  lemma {:induction false} CommittedIsSafe(
    before: Fs, here: Fs, temp: Name, path: Name, data: Bytes, synced: bool)
    requires before.Valid() && temp != path && Committed(before, here, temp, path, data, synced)
    ensures OldOrNew(before, here, path, data) <==> synced || !before.Clean(path)
  {
    if !synced {
      UnsyncedIsUnsafe(before, here, temp, path, data);
    } else if here == Replaced(before, temp, path, data, true) {
      ReplacedOldOrNew(before, here, temp, path, data);
    } else {
      OnlyNewRecovers(before, here, temp, path, data);
    }
  }

  /** The crash points of a write that failed. */
  lemma {:induction false} BeforeCommit(before: Fs, history: seq<Fs>, n: nat, temp: Name, path: Name, data: Bytes)
    requires before.Valid() && temp != path && n <= |history|
    requires forall k :: n <= k < |history| ==> Harmless(before, history[k], temp)
    ensures forall k :: n <= k < |history| ==> OldOrNew(before, history[k], path, data)
    ensures forall k :: n <= k < |history| ==> history[k].Valid() && (before.Clean(path) ==> history[k].Clean(path))
  {
    forall k | n <= k < |history|
      ensures OldOrNew(before, history[k], path, data) && history[k].Valid()
      ensures before.Clean(path) ==> history[k].Clean(path)
    {
      assert Harmless(before, history[k], temp);
      UntouchedOldOrNew(before, history[k], path, data);
      if before.Clean(path) {
        UntouchedClean(before, history[k], path);
      }
    }
  }

  lemma {:induction false} UntouchedClean(before: Fs, here: Fs, path: Name)
    requires before.Valid() && here.Valid() && Untouched(before, here, path) && before.Clean(path)
    ensures here.Clean(path)
  {
    forall i | 0 <= i < |here.versions| && path in here.versions[i]
      ensures here.inodes[here.versions[i][path]].synced
    {
      assert OldEntry(before, here.versions[i], path);
    }
  }

  /** The crash points of a write that renamed its file at state `m`. */
  lemma {:induction false} AfterCommit(
    before: Fs, history: seq<Fs>, n: nat, m: nat, temp: Name, path: Name, data: Bytes, synced: bool)
    requires before.Valid() && temp != path && n <= m < |history|
    requires forall k :: n <= k < m ==> Harmless(before, history[k], temp)
    requires forall k :: m <= k < |history| ==> Committed(before, history[k], temp, path, data, synced)
    ensures (forall k :: n <= k < |history| ==> OldOrNew(before, history[k], path, data))
       <==> synced || !before.Clean(path)
    ensures forall k :: n <= k < |history| ==> history[k].Valid()
    ensures forall k, name :: n <= k < |history| && name != temp && name != path ==>
              Untouched(before, history[k], name)
    ensures history[|history| - 1].Visible(path) == Some(data) && temp !in history[|history| - 1].Dir()
    ensures synced && before.Clean(path) ==> history[|history| - 1].Clean(path)
  {
    forall k | m <= k < |history|
      ensures history[k].Valid() && (OldOrNew(before, history[k], path, data) <==> synced || !before.Clean(path))
    {
      CommittedKeeps(before, history[k], temp, path, data, synced, path);
    }
    forall k, name | n <= k < |history| && name != temp && name != path
      ensures history[k].Valid() && Untouched(before, history[k], name)
    {
      if k < m {
        assert Harmless(before, history[k], temp);
      } else {
        CommittedKeeps(before, history[k], temp, path, data, synced, name);
      }
    }
    BeforeCommit(before, history[..m], n, temp, path, data);
    assert forall k :: n <= k < m ==> OldOrNew(before, history[..m][k], path, data);
    CommittedKeeps(before, history[|history| - 1], temp, path, data, synced, path);
    assert OldOrNew(before, history[|history| - 1], path, data) <==> synced || !before.Clean(path);
  }

  class Disk {
    var fs: Fs
    ghost var history: seq<Fs>  // every state since the disk was opened, the present one last

    ghost predicate Valid()
      reads this
    {
      && history != [] && history[|history| - 1] == fs
      && forall k :: 0 <= k < |history| ==> history[k].Valid()
    }

    constructor (fs: Fs)
      requires fs.Valid()
      ensures Valid() && this.fs == fs && history == [fs]
    {
      this.fs := fs;
      history := [fs];
    }

    /** One system call takes effect. */
    method Become(next: Fs)
      requires Valid() && next.Valid()
      modifies this
      ensures Valid() && fs == next && history == old(history) + [next]
    {
      fs := next;
      history := history + [next];
    }

    method Create(name: Name) returns (ino: nat)
      requires Valid()
      modifies this
      ensures Valid() && ino == |old(fs).inodes| && fs == old(fs).Created(name) && history == old(history) + [fs]
    {
      ino := |fs.inodes|;
      Become(fs.Created(name));
    }

    method Write(ino: nat, chunk: Bytes)
      requires Valid() && ino < |fs.inodes|
      modifies this
      ensures Valid() && fs == old(fs).Written(ino, chunk) && history == old(history) + [fs]
    {
      Become(fs.Written(ino, chunk));
    }

    method Fsync(ino: nat)
      requires Valid() && ino < |fs.inodes|
      modifies this
      ensures Valid() && fs == old(fs).Fsynced(ino) && history == old(history) + [fs]
    {
      Become(fs.Fsynced(ino));
    }

    method Replace(temp: Name, path: Name)
      requires Valid() && temp in fs.Dir()
      modifies this
      ensures Valid() && fs == old(fs).Renamed(temp, path) && history == old(history) + [fs]
    {
      Become(fs.Renamed(temp, path));
    }

    method Unlink(name: Name)
      requires Valid()
      modifies this
      ensures Valid() && fs == old(fs).Unlinked(name) && history == old(history) + [fs]
    {
      Become(fs.Unlinked(name));
    }

    method FsyncDir()
      requires Valid()
      modifies this
      ensures Valid() && fs == old(fs).DirFsynced() && history == old(history) + [fs]
    {
      Become(fs.DirFsynced());
    }

    /** `_atomic_write_json_unchecked`: write a temporary sibling, sync it, rename it over `path`.
        The JSON text arrives in `chunks`; an exception before the rename removes the temporary
        file, if it can be removed, and is reported as `!ok`. */
    method AtomicWriteJson(path: Name, temp: Name, chunks: seq<Bytes>, faults: Faults) returns (ok: bool)
      requires Valid() && temp != path && temp !in fs.Dir()
      modifies this
      ensures Valid() && |old(history)| <= |history| && history[..|old(history)|] == old(history)
      ensures ok <==>
                && !faults.createFails && !faults.chmodFails && !faults.replaceFails && faults.sync != SyncFailed
                && (faults.writeFailsAt.Some? ==> faults.writeFailsAt.value >= |chunks|)
      // Every other file, and on failure the target too, at every crash point.
      ensures !ok ==> forall k :: |old(history)| <= k < |history| ==> Harmless(old(fs), history[k], temp)
      ensures forall k, name :: |old(history)| <= k < |history| && name != temp && name != path ==>
                Untouched(old(fs), history[k], name)
      // The target at every crash point, exactly.
      ensures (forall k :: |old(history)| <= k < |history| ==> OldOrNew(old(fs), history[k], path, Concat(chunks)))
         <==> !(ok && faults.sync == Unsupported && old(fs).Clean(path))
      // After a return.
      ensures ok ==> fs.Visible(path) == Some(Concat(chunks))
      ensures ok && faults.sync == Synced && faults.dirSynced ==>
                forall r :: fs.Recovers(path, r) <==> r == Some(Concat(chunks))
      ensures old(fs).Clean(path) && !(ok && faults.sync == Unsupported) ==> fs.Clean(path)
      ensures ok || !faults.unlinkFails ==> temp !in fs.Dir()
    {
      ghost var before, n, data := fs, |history|, Concat(chunks);
      var staged, ino, synced := StageTemp(temp, chunks, faults);
      if staged && !faults.replaceFails {
        Replace(temp, path);
        assert Committed(before, fs, temp, path, data, synced);
        ghost var m := |history| - 1;
        if faults.dirSynced {
          FsyncDir();
          assert Committed(before, fs, temp, path, data, synced);
        }
        ok := true;
        AfterCommit(before, history, n, m, temp, path, data, synced);
        if synced && faults.dirSynced {
          OnlyNewRecovers(before, fs, temp, path, data);
        }
      } else {
        ok := false;
        if ino.Some? && !faults.unlinkFails {
          CleanUp(before, temp);
        }
        BeforeCommit(before, history, n, temp, path, data);
      }
    }

    /** The staged temporary file is removed. */
    method CleanUp(ghost before: Fs, temp: Name)
      requires Valid() && before.Valid() && exists content, synced :: fs == Staged(before, temp, content, synced)
      modifies this
      ensures Valid() && history == old(history) + [fs]
      ensures Harmless(before, fs, temp) && temp !in fs.Dir()
    {
      ghost var content, synced :| fs == Staged(before, temp, content, synced);
      Unlink(temp);
      AbandonedHarmless(before, fs, temp, content, synced);
    }

    /** The part before the rename: create, write, chmod and sync the temporary file. */
    method StageTemp(temp: Name, chunks: seq<Bytes>, faults: Faults)
      returns (staged: bool, ino: Option<nat>, synced: bool)
      requires Valid() && temp !in fs.Dir()
      modifies this
      ensures Valid() && |old(history)| <= |history| && history[..|old(history)|] == old(history)
      ensures staged <==> !faults.(replaceFails := false).Raises(|chunks|)
      ensures ino == (if faults.createFails then None else Some(|old(fs).inodes|))
      ensures ino.None? ==> history == old(history)
      ensures ino.Some? ==> exists content :: fs == Staged(old(fs), temp, content, synced)
      ensures staged ==> fs == Staged(old(fs), temp, Concat(chunks), synced) && synced == (faults.sync == Synced)
      ensures forall k :: |old(history)| <= k < |history| ==> Harmless(old(fs), history[k], temp)
    {
      ghost var before, n := fs, |history|;
      if faults.createFails {
        return false, None, false;
      }
      var created := Create(temp);
      assert fs == Staged(before, temp, Concat(chunks[..0]), false);
      StagedHarmless(before, fs, temp, Concat(chunks[..0]), false);
      var i := 0;
      while i < |chunks| && faults.writeFailsAt != Some(i)
        invariant 0 <= i <= |chunks|
        invariant faults.writeFailsAt.Some? ==> i <= faults.writeFailsAt.value || |chunks| <= faults.writeFailsAt.value
        invariant Valid() && n < |history| && history[..n] == old(history)
        invariant fs == Staged(before, temp, Concat(chunks[..i]), false)
        invariant forall k :: n <= k < |history| ==> Harmless(before, history[k], temp)
      {
        assert chunks[..i + 1][..i] == chunks[..i];
        Write(created, chunks[i]);
        i := i + 1;
        assert fs == Staged(before, temp, Concat(chunks[..i]), false);
        StagedHarmless(before, fs, temp, Concat(chunks[..i]), false);
      }
      assert i == |chunks| ==> chunks[..i] == chunks;
      if i < |chunks| || faults.chmodFails || faults.sync == SyncFailed {
        return false, Some(created), false;
      }
      if faults.sync == Synced {
        Fsync(created);
        assert fs == Staged(before, temp, Concat(chunks), true);
        StagedHarmless(before, fs, temp, Concat(chunks), true);
      }
      return true, Some(created), faults.sync == Synced;
    }
  }
}
