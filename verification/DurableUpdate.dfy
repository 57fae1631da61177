/**
 The locked updates of `LockedUpdate` on the file system of `AtomicFile`.

 Every call writes a temporary file, syncs it, renames it over the target and syncs the
 directory before it gives the lock back; calls raise, time out or die at any of these
 steps, and either sync may fail to do its work.  A power loss at any moment leaves the
 serial result of a prefix of the commits, in lock order, that holds every call which
 returned after its directory sync; or anything, where the bytes were never synced.
 */
module DurableUpdate {
  import opened Options
  import opened AtomicFile
  import opened LockedUpdate

  /** The target, how an object is printed, and what a reader makes of the target's bytes. */
  datatype Json = Json(path: Name, chunks: Fields -> seq<Bytes>, parse: Option<Bytes> -> Content)

  ghost predicate Faithful(json: Json) {
    && json.parse(None) == Missing
    && forall fields :: json.parse(Some(Concat(json.chunks(fields)))) == Object(fields)
  }

  type ValidFs = fs: Fs | fs.Valid() witness Fs([], [map[]])

  /** The temporary file of the call that holds the lock, with so many chunks written and what
      came of its sync, once that was tried. */
  datatype Temp = Temp(name: Name, ino: nat, written: nat, sync: Option<Sync>)

  /** `settled`: the directory sync was tried after the last rename.  The other fields only record:
      `marks` how many commits each version of the directory has seen, `unflushed` whose directory
      sync failed, and `unsynced` for whom the sync of the bytes was not supported. */
  datatype World = World(
    locks: State, fs: ValidFs, temp: Option<Temp>, settled: bool,
    marks: seq<nat>, unflushed: set<nat>, unsynced: set<nat>)

  /** A sync of the bytes that fails otherwise raises: that is `WriteFails`. */
  datatype Action =
    | Do(event: Event)
    | CreateTemp(p: nat, name: Name) | WriteChunk(p: nat) | SyncTemp(p: nat) | SyncUnsupported(p: nat)
    | UnlinkTemp(p: nat)
    | SyncDir(p: nat) | SyncDirFails(p: nat)

  function Actor(a: Action): nat {
    if a.Do? then a.event.p else a.p
  }

  function PhaseOf(w: World, p: nat): Phase {
    if p < |w.locks.phases| then w.locks.phases[p] else Dead
  }

  /** `p` may go on with its temporary file. */
  predicate Writing(w: World, p: nat) {
    && PhaseOf(w, p).HasMutated? && w.temp.Some?
    && w.temp.value.ino < |w.fs.inodes| && w.temp.value.name in w.fs.Dir()
  }

  predicate WrittenOut(json: Json, w: World, p: nat)
    requires Writing(w, p)
  {
    w.temp.value.written == |json.chunks(PhaseOf(w, p).updated)|
  }

  predicate May(json: Json, w: World, a: Action) {
    match a
    case Do(event) =>
      && Enabled(w.locks, event)
      && (event.Replace? ==>
            Writing(w, event.p) && WrittenOut(json, w, event.p) && w.temp.value.sync.Some?)
      && (event.Release? && PhaseOf(w, event.p).Committed? ==> w.settled)
    case CreateTemp(p, name) =>
      PhaseOf(w, p).HasMutated? && w.temp.None? && name != json.path && name !in w.fs.Dir()
    case WriteChunk(p) =>
      Writing(w, p) && w.temp.value.written < |json.chunks(PhaseOf(w, p).updated)| && w.temp.value.sync.None?
    case SyncTemp(p) => Writing(w, p) && WrittenOut(json, w, p) && w.temp.value.sync.None?
    case SyncUnsupported(p) => Writing(w, p) && WrittenOut(json, w, p) && w.temp.value.sync.None?
    case UnlinkTemp(p) => PhaseOf(w, p).Unwinding? && w.temp.Some?
    case SyncDir(p) => PhaseOf(w, p).Committed? && !w.settled
    case SyncDirFails(p) => PhaseOf(w, p).Committed? && !w.settled
  }

  function With(s: set<nat>, p: nat): set<nat> {
    s + {p}
  }

  /** The directory changed, but not at the target. */
  function Marked(w: World, fs: ValidFs, temp: Option<Temp>): World {
    w.(fs := fs, temp := temp, marks := w.marks + [|w.locks.commits|])
  }

  function Renaming(json: Json, w: World, locks: State, temp: Name): World
    requires temp in w.fs.Dir()
  {
    w.(locks := locks, fs := w.fs.Renamed(temp, json.path), temp := None, settled := false,
       marks := w.marks + [|locks.commits|])
  }

  function Act(json: Json, calls: seq<Call>, w: World, a: Action): World
    requires |calls| == |w.locks.phases|
  {
    if !May(json, w, a) then w
    else
      match a
      case Do(event) =>
        var locks := Step(calls, w.locks, event);
        if event.Replace? then Renaming(json, w, locks, w.temp.value.name)
        else w.(locks := locks, temp := if event.Acquire? then None else w.temp)
      case CreateTemp(p, name) => Marked(w, w.fs.Created(name), Some(Temp(name, |w.fs.inodes|, 0, None)))
      case WriteChunk(p) =>
        var temp := w.temp.value;
        var chunk := json.chunks(PhaseOf(w, p).updated)[temp.written];
        w.(fs := w.fs.Written(temp.ino, chunk), temp := Some(temp.(written := temp.written + 1)))
      case SyncTemp(p) =>
        var temp := w.temp.value;
        w.(fs := w.fs.Fsynced(temp.ino), temp := Some(temp.(sync := Some(Synced))))
      case SyncUnsupported(p) =>
        w.(temp := Some(w.temp.value.(sync := Some(Unsupported))), unsynced := With(w.unsynced, p))
      case UnlinkTemp(p) => Marked(w, w.fs.Unlinked(w.temp.value.name), None)
      case SyncDir(p) => w.(fs := w.fs.DirFsynced(), settled := true, marks := [|w.locks.commits|])
      case SyncDirFails(p) => w.(settled := true, unflushed := With(w.unflushed, p))
  }

  function Start(json: Json, calls: seq<Call>, fs: ValidFs): World {
    World(Run(calls, json.parse(fs.Visible(json.path)), []), fs, None, true, seq(|fs.versions|, _ => 0), {}, {})
  }

  function Play(json: Json, calls: seq<Call>, fs: ValidFs, actions: seq<Action>): (w: World)
    ensures |w.locks.phases| == |calls|
  {
    if actions == [] then Start(json, calls, fs)
    else Act(json, calls, Play(json, calls, fs, actions[..|actions| - 1]), actions[|actions| - 1])
  }

  // ---------- The locks alone ----------

  /** Seen without the disk, it is a run of the locked updates, so all that holds of those holds here. */
  lemma {:induction false} PlayIsRun(json: Json, calls: seq<Call>, fs: ValidFs, actions: seq<Action>)
    returns (events: seq<Event>)
    ensures Play(json, calls, fs, actions).locks == Run(calls, json.parse(fs.Visible(json.path)), events)
  {
    if actions == [] {
      events := [];
    } else {
      events := PlayIsRun(json, calls, fs, actions[..|actions| - 1]);
      var a := actions[|actions| - 1];
      if a.Do? && May(json, Play(json, calls, fs, actions[..|actions| - 1]), a) {
        assert (events + [a.event])[..|events|] == events;
        events := events + [a.event];
      }
    }
  }

  // ---------- The invariant ----------

  /** The last of these commits was renamed without a sync of its bytes. */
  predicate Torn(commits: seq<nat>, unsynced: set<nat>, n: nat) {
    0 < n <= |commits| && commits[n - 1] in unsynced
  }

  /** Directory `d` leads to this content; a crash that brings `d` back brings back no other,
      unless the bytes were not synced. */
  ghost predicate Shows(json: Json, fs: ValidFs, d: map<Name, nat>, content: Content, torn: bool) {
    if json.path in d
    then
      && d[json.path] < |fs.inodes|
      && json.parse(Some(fs.inodes[d[json.path]].content)) == content
      && (fs.inodes[d[json.path]].synced <==> !torn)
    else json.parse(None) == content && !torn
  }

  ghost predicate ShowsPrefix(
    json: Json, calls: seq<Call>, initial: Content, fs: ValidFs, commits: seq<nat>, unsynced: set<nat>,
    d: map<Name, nat>, n: nat)
  {
    && n <= |commits|
    && exists content ::
         Serially(calls, initial, commits[..n]) == Some(content)
         && Shows(json, fs, d, content, Torn(commits, unsynced, n))
  }

  /** The marks rise by at most one at a time, up to all commits. */
  predicate Climbs(marks: seq<nat>, top: nat) {
    && marks != [] && marks[|marks| - 1] == top
    && forall i {:trigger marks[i]} :: 0 < i < |marks| ==> marks[i - 1] <= marks[i] <= marks[i - 1] + 1
  }

  ghost predicate VersionsInv(
    json: Json, calls: seq<Call>, initial: Content, fs: ValidFs, commits: seq<nat>, unsynced: set<nat>, marks: seq<nat>)
  {
    && |marks| == |fs.versions|
    && Climbs(marks, |commits|)
    && forall i :: 0 <= i < |marks| ==>
         ShowsPrefix(json, calls, initial, fs, commits, unsynced, fs.versions[i], marks[i])
  }

  /** The temporary file holds what was written so far and is not the target in any version. */
  ghost predicate TempInv(json: Json, fs: ValidFs, temp: Temp, chunks: seq<Bytes>) {
    && temp.ino < |fs.inodes| && temp.name != json.path
    && temp.name in fs.Dir() && fs.Dir()[temp.name] == temp.ino
    && temp.written <= |chunks| && fs.inodes[temp.ino].content == Concat(chunks[..temp.written])
    && NotTarget(json, fs, temp.ino)
    && (temp.sync.Some? ==> temp.written == |chunks|)
    && (fs.inodes[temp.ino].synced <==> temp.sync == Some(Synced)) && temp.sync != Some(SyncFailed)
  }

  ghost predicate NotTarget(json: Json, fs: Fs, ino: nat) {
    forall i :: 0 <= i < |fs.versions| && json.path in fs.versions[i] ==> fs.versions[i][json.path] != ino
  }

  ghost predicate HolderInv(json: Json, w: World, p: nat) {
    match PhaseOf(w, p)
    case Waiting => p !in w.unsynced
    case Locked => w.temp.None? && p !in w.unsynced
    case HasRead(_) => w.temp.None? && p !in w.unsynced
    case HasMutated(updated) =>
      && (w.temp.Some? ==> TempInv(json, w.fs, w.temp.value, json.chunks(updated)))
      && (p in w.unsynced <==> w.temp.Some? && w.temp.value.sync == Some(Unsupported))
    case Unwinding => w.temp.Some? ==> w.temp.value.name != json.path
    case Committed => (w.settled && p !in w.unflushed ==> Survives(w, p)) && (!w.settled ==> !Survives(w, p))
    case Returned => p !in w.unflushed ==> Survives(w, p)
    case _ => true
  }

  /** Call `p` is among the commits that every version has seen. */
  predicate Survives(w: World, p: nat) {
    w.marks != [] && w.marks[0] <= |w.locks.commits| && p in w.locks.commits[..w.marks[0]]
  }

  // Some contracts below compare such predicates with `true`: the verifier then proves and uses
  // each as one fact, and unfolds neither the runs nor the file systems in it.
  ghost predicate DiskInv(json: Json, calls: seq<Call>, initial: Content, w: World) {
    && VersionsInv(json, calls, initial, w.fs, w.locks.commits, w.unsynced, w.marks)
    && forall p: nat :: HolderInv(json, w, p)
  }

  // ---------- What the disk shows ----------

  /** What the target led to in `fs` is as it was in `after`. */
  ghost predicate SameTargets(json: Json, fs: ValidFs, after: ValidFs) {
    forall i :: 0 <= i < |fs.versions| && json.path in fs.versions[i] ==>
      var ino := fs.versions[i][json.path];
      ino < |after.inodes| && after.inodes[ino] == fs.inodes[ino]
  }

  lemma {:induction false} PrefixKept(
    json: Json, calls: seq<Call>, initial: Content, fs: ValidFs, after: ValidFs, commits: seq<nat>,
    unsynced: set<nat>, i: nat, d: map<Name, nat>, n: nat)
    requires i < |fs.versions| && SameTargets(json, fs, after) && SameEntry(fs.versions[i], d, json.path)
    requires ShowsPrefix(json, calls, initial, fs, commits, unsynced, fs.versions[i], n)
    ensures ShowsPrefix(json, calls, initial, after, commits, unsynced, d, n)
  {
    var torn := Torn(commits, unsynced, n);
    var content :| Serially(calls, initial, commits[..n]) == Some(content)
                && Shows(json, fs, fs.versions[i], content, torn);
    assert Shows(json, after, d, content, torn);
  }

  lemma {:induction false} BytesChanged(
    json: Json, calls: seq<Call>, initial: Content, fs: ValidFs, after: ValidFs, commits: seq<nat>,
    unsynced: set<nat>, marks: seq<nat>)
    requires VersionsInv(json, calls, initial, fs, commits, unsynced, marks)
    requires SameTargets(json, fs, after) && after.versions == fs.versions
    ensures VersionsInv(json, calls, initial, after, commits, unsynced, marks)
  {
    forall i | 0 <= i < |marks|
      ensures ShowsPrefix(json, calls, initial, after, commits, unsynced, after.versions[i], marks[i])
    {
      PrefixKept(json, calls, initial, fs, after, commits, unsynced, i, fs.versions[i], marks[i]);
    }
  }

  /** The versions that were there show what they did. */
  lemma {:induction false} OldVersion(
    json: Json, calls: seq<Call>, initial: Content, fs: ValidFs, after: ValidFs, commits: seq<nat>,
    unsynced: set<nat>, marks: seq<nat>, i: nat)
    requires VersionsInv(json, calls, initial, fs, commits, unsynced, marks) && i < |marks|
    requires SameTargets(json, fs, after)
    requires |fs.versions| <= |after.versions| && after.versions[..|fs.versions|] == fs.versions
    ensures ShowsPrefix(json, calls, initial, after, commits, unsynced, after.versions[i], marks[i])
  {
    assert after.versions[i] == after.versions[..|fs.versions|][i];
    PrefixKept(json, calls, initial, fs, after, commits, unsynced, i, after.versions[i], marks[i]);
  }

  lemma {:induction false} ClimbsOn(marks: seq<nat>, top: nat, next: nat)
    requires Climbs(marks, top) && top <= next <= top + 1
    ensures Climbs(marks + [next], next)
  {
  }

  lemma {:induction false} VersionAdded(
    json: Json, calls: seq<Call>, initial: Content, after: ValidFs, commits: seq<nat>,
    unsynced: set<nat>, marks: seq<nat>, top: nat)
    requires Climbs(marks, top) && top <= |commits| <= top + 1 && |after.versions| == |marks| + 1
    requires forall i :: 0 <= i < |marks| ==>
               ShowsPrefix(json, calls, initial, after, commits, unsynced, after.versions[i], marks[i])
    requires ShowsPrefix(json, calls, initial, after, commits, unsynced, after.Dir(), |commits|)
    ensures VersionsInv(json, calls, initial, after, commits, unsynced, marks + [|commits|])
  {
    ClimbsOn(marks, top, |commits|);
  }

  /** Another name came or went. */
  lemma {:induction false} OtherNameChanged(
    json: Json, calls: seq<Call>, initial: Content, fs: ValidFs, after: ValidFs, commits: seq<nat>,
    unsynced: set<nat>, marks: seq<nat>)
    requires VersionsInv(json, calls, initial, fs, commits, unsynced, marks)
    requires SameTargets(json, fs, after) && |after.versions| == |fs.versions| + 1
    requires after.versions[..|fs.versions|] == fs.versions && SameEntry(fs.Dir(), after.Dir(), json.path)
    ensures VersionsInv(json, calls, initial, after, commits, unsynced, marks + [|commits|])
  {
    PrefixKept(json, calls, initial, fs, after, commits, unsynced, |marks| - 1, after.Dir(), |commits|);
    forall i | 0 <= i < |marks|
      ensures ShowsPrefix(json, calls, initial, after, commits, unsynced, after.versions[i], marks[i])
    {
      OldVersion(json, calls, initial, fs, after, commits, unsynced, marks, i);
    }
    VersionAdded(json, calls, initial, after, commits, unsynced, marks, |commits|);
  }

  /** One more commit, or a skipped sync of a call that has not committed, changes nothing in what
      was there. */
  lemma {:induction false} LongerCommits(
    json: Json, calls: seq<Call>, initial: Content, fs: ValidFs, commits: seq<nat>, unsynced: set<nat>, p: nat,
    d: map<Name, nat>, n: nat)
    requires ShowsPrefix(json, calls, initial, fs, commits, unsynced, d, n)
    ensures ShowsPrefix(json, calls, initial, fs, commits + [p], unsynced, d, n)
    ensures p !in commits ==> ShowsPrefix(json, calls, initial, fs, commits, With(unsynced, p), d, n)
  {
    assert (commits + [p])[..n] == commits[..n];
    assert Torn(commits + [p], unsynced, n) == Torn(commits, unsynced, n);
    assert p !in commits ==> Torn(commits, With(unsynced, p), n) == Torn(commits, unsynced, n);
  }

  lemma {:induction false} SkippedShows(
    json: Json, calls: seq<Call>, initial: Content, fs: ValidFs, commits: seq<nat>, unsynced: set<nat>,
    marks: seq<nat>, p: nat)
    requires VersionsInv(json, calls, initial, fs, commits, unsynced, marks) && p !in commits
    ensures VersionsInv(json, calls, initial, fs, commits, With(unsynced, p), marks)
  {
    forall i | 0 <= i < |marks|
      ensures ShowsPrefix(json, calls, initial, fs, commits, With(unsynced, p), fs.versions[i], marks[i])
    {
      LongerCommits(json, calls, initial, fs, commits, unsynced, p, fs.versions[i], marks[i]);
    }
  }

  lemma {:induction false} NewestShown(
    json: Json, calls: seq<Call>, initial: Content, fs: ValidFs, commits: seq<nat>, unsynced: set<nat>,
    d: map<Name, nat>, file: Content)
    requires Serially(calls, initial, commits) == Some(file)
    requires Shows(json, fs, d, file, Torn(commits, unsynced, |commits|))
    ensures ShowsPrefix(json, calls, initial, fs, commits, unsynced, d, |commits|)
  {
    assert commits[..|commits|] == commits;
  }

  lemma {:induction false} RenamedFrame(json: Json, fs: ValidFs, temp: Name, after: ValidFs)
    requires temp in fs.Dir() && after == fs.Renamed(temp, json.path)
    ensures SameTargets(json, fs, after) && |after.versions| == |fs.versions| + 1
    ensures after.versions[..|fs.versions|] == fs.versions
  {
  }

  lemma {:induction false} RenameShows(
    json: Json, calls: seq<Call>, initial: Content, fs: ValidFs, temp: Name, after: ValidFs, commits: seq<nat>,
    unsynced: set<nat>, marks: seq<nat>, p: nat, file: Content)
    requires VersionsInv(json, calls, initial, fs, commits, unsynced, marks)
    requires temp in fs.Dir() && after == fs.Renamed(temp, json.path)
    requires Serially(calls, initial, commits + [p]) == Some(file)
    requires Shows(json, after, after.Dir(), file, p in unsynced)
    ensures VersionsInv(json, calls, initial, after, commits + [p], unsynced, marks + [|commits + [p]|])
  {
    RenamedFrame(json, fs, temp, after);
    assert Torn(commits + [p], unsynced, |commits + [p]|) <==> p in unsynced;
    NewestShown(json, calls, initial, after, commits + [p], unsynced, after.Dir(), file);
    forall i | 0 <= i < |marks|
      ensures ShowsPrefix(json, calls, initial, after, commits + [p], unsynced, after.versions[i], marks[i])
    {
      OldVersion(json, calls, initial, fs, after, commits, unsynced, marks, i);
      LongerCommits(json, calls, initial, after, commits, unsynced, p, after.versions[i], marks[i]);
    }
    VersionAdded(json, calls, initial, after, commits + [p], unsynced, marks, |commits|);
  }

  lemma {:induction false} DirSyncShows(
    json: Json, calls: seq<Call>, initial: Content, fs: ValidFs, after: ValidFs, commits: seq<nat>,
    unsynced: set<nat>, marks: seq<nat>)
    requires VersionsInv(json, calls, initial, fs, commits, unsynced, marks) && after == fs.DirFsynced()
    ensures VersionsInv(json, calls, initial, after, commits, unsynced, [|commits|])
  {
    PrefixKept(json, calls, initial, fs, after, commits, unsynced, |marks| - 1, after.versions[0], |commits|);
  }

  // ---------- Every action keeps it ----------

  lemma {:induction false} NotYetIn(calls: seq<Call>, initial: Content, w: World, p: nat)
    requires Inv(calls, initial, w.locks) && PhaseOf(w, p).HasMutated?
    ensures p !in w.locks.commits
  {
    assert ProcessInv(calls, w.locks, p);
  }

  lemma {:induction false} NameKeepsVersions(
    json: Json, calls: seq<Call>, initial: Content, w: World, after: ValidFs, name: Name)
    requires VersionsInv(json, calls, initial, w.fs, w.locks.commits, w.unsynced, w.marks)
    requires name != json.path && (after == w.fs.Created(name) || after == w.fs.Unlinked(name))
    ensures VersionsInv(json, calls, initial, after, w.locks.commits, w.unsynced, w.marks + [|w.locks.commits|])
  {
    OtherNameChanged(json, calls, initial, w.fs, after, w.locks.commits, w.unsynced, w.marks);
  }

  lemma {:induction false} TempKeepsVersions(
    json: Json, calls: seq<Call>, initial: Content, w: World, a: Action, t: World)
    requires |calls| == |w.locks.phases| && DiskInv(json, calls, initial, w) && Inv(calls, initial, w.locks)
    requires May(json, w, a) && !a.Do? && t == Act(json, calls, w, a)
    ensures VersionsInv(json, calls, initial, t.fs, t.locks.commits, t.unsynced, t.marks)
  {
    var commits, unsynced := w.locks.commits, w.unsynced;
    assert HolderInv(json, w, a.p);
    match a
    case CreateTemp(p, name) => NameKeepsVersions(json, calls, initial, w, w.fs.Created(name), name);
    case WriteChunk(p) => BytesChanged(json, calls, initial, w.fs, t.fs, commits, unsynced, w.marks);
    case SyncTemp(p) => BytesChanged(json, calls, initial, w.fs, t.fs, commits, unsynced, w.marks);
    case SyncUnsupported(p) =>
      NotYetIn(calls, initial, w, p);
      SkippedShows(json, calls, initial, w.fs, commits, unsynced, w.marks, p);
    case UnlinkTemp(p) => NameKeepsVersions(json, calls, initial, w, t.fs, w.temp.value.name);
    case SyncDir(p) => DirSyncShows(json, calls, initial, w.fs, t.fs, commits, unsynced, w.marks);
    case SyncDirFails(p) =>
  }

  /** The rename brings in the object of the commit. */
  lemma {:induction false} RenamedShows(json: Json, w: World, temp: Temp, updated: Fields, after: ValidFs)
    requires Faithful(json) && TempInv(json, w.fs, temp, json.chunks(updated))
    requires temp.written == |json.chunks(updated)| && temp.sync.Some?
    requires after == w.fs.Renamed(temp.name, json.path)
    ensures Shows(json, after, after.Dir(), Object(updated), temp.sync == Some(Unsupported))
  {
    assert json.chunks(updated)[..temp.written] == json.chunks(updated);
    assert temp.sync.value.Synced? || temp.sync.value.Unsupported?;
  }

  lemma {:induction false} LockKeepsVersions(
    json: Json, calls: seq<Call>, initial: Content, w: World, a: Action, t: World)
    requires Faithful(json) && |calls| == |w.locks.phases| && DiskInv(json, calls, initial, w)
    requires May(json, w, a) && a.Do? && t == Act(json, calls, w, a) && Inv(calls, initial, t.locks)
    ensures VersionsInv(json, calls, initial, t.fs, t.locks.commits, t.unsynced, t.marks)
  {
    if a.event.Replace? {
      var p, temp := a.event.p, w.temp.value;
      assert HolderInv(json, w, p);
      RenamedShows(json, w, temp, PhaseOf(w, p).updated, t.fs);
      RenameShows(json, calls, initial, w.fs, temp.name, t.fs, w.locks.commits, w.unsynced, w.marks, p, t.locks.file);
    }
  }

  /** Nothing is taken back. */
  lemma {:induction false} GoesOn(json: Json, calls: seq<Call>, w: World, a: Action, t: World)
    requires |calls| == |w.locks.phases| && t == Act(json, calls, w, a)
    requires w.marks != [] && w.marks[0] <= |w.locks.commits|
    ensures t.marks != [] && w.marks[0] <= t.marks[0] <= |t.locks.commits| && w.locks.commits <= t.locks.commits
    ensures May(json, w, a) && a.SyncDir? ==> t.marks[0] == |t.locks.commits| && t.locks.commits == w.locks.commits
    ensures !(May(json, w, a) && a.SyncDir?) ==> t.marks[0] == w.marks[0]
  {
  }

  /** What survives once survives for good. */
  lemma {:induction false} SurvivesOn(json: Json, calls: seq<Call>, w: World, a: Action, t: World, q: nat)
    requires |calls| == |w.locks.phases| && t == Act(json, calls, w, a) && Survives(w, q)
    ensures Survives(t, q)
  {
    GoesOn(json, calls, w, a, t);
    var i :| 0 <= i < w.marks[0] && w.locks.commits[i] == q;
    assert t.locks.commits[i] == q;
  }

  lemma {:induction false} OthersHold(
    json: Json, calls: seq<Call>, initial: Content, w: World, a: Action, t: World, q: nat)
    requires |calls| == |w.locks.phases| && DiskInv(json, calls, initial, w) && LockInv(w.locks)
    requires May(json, w, a) && t == Act(json, calls, w, a)
    requires q != Actor(a)
    ensures HolderInv(json, t, q)
  {
    var p := Actor(a);
    assert HolderInv(json, w, q) && PhaseOf(t, q) == PhaseOf(w, q);
    if p < |calls| && q < |calls| {
      assert HoldsLock(w.locks.phases[p]) <==> w.locks.holder == Some(p);
      assert HoldsLock(w.locks.phases[q]) <==> w.locks.holder == Some(q);
    }
    if Survives(w, q) {
      SurvivesOn(json, calls, w, a, t, q);
    }
  }

  lemma {:induction false} LockHolds(json: Json, calls: seq<Call>, initial: Content, w: World, a: Action, t: World)
    requires |calls| == |w.locks.phases| && DiskInv(json, calls, initial, w) && Inv(calls, initial, w.locks)
    requires May(json, w, a) && a.Do? && t == Act(json, calls, w, a)
    ensures HolderInv(json, t, a.event.p)
  {
    var p := a.event.p;
    assert HolderInv(json, w, p);
    if a.event.Replace? {
      NotYetIn(calls, initial, w, p);
      JustCommitted(w, t, p);
    } else if Survives(w, p) {
      SurvivesOn(json, calls, w, a, t, p);
    }
  }

  /** A commit is not durable before the directory sync. */
  lemma {:induction false} JustCommitted(w: World, t: World, p: nat)
    requires p !in w.locks.commits && t.locks.commits == w.locks.commits + [p]
    requires w.marks != [] && t.marks != [] && t.marks[0] == w.marks[0] <= |w.locks.commits|
    ensures !Survives(t, p)
  {
    assert t.locks.commits[..t.marks[0]] == w.locks.commits[..w.marks[0]];
  }

  lemma {:induction false} NewTemp(json: Json, fs: ValidFs, name: Name, chunks: seq<Bytes>)
    requires name != json.path
    ensures TempInv(json, fs.Created(name), Temp(name, |fs.inodes|, 0, None), chunks)
  {
  }

  lemma {:induction false} LongerTemp(json: Json, fs: ValidFs, temp: Temp, chunks: seq<Bytes>)
    requires TempInv(json, fs, temp, chunks) && temp.written < |chunks| && temp.sync.None?
    ensures TempInv(json, fs.Written(temp.ino, chunks[temp.written]),
                    Temp(temp.name, temp.ino, temp.written + 1, None), chunks)
  {
    assert chunks[..temp.written + 1][..temp.written] == chunks[..temp.written];
  }

  lemma {:induction false} WriterHolds(json: Json, t: World, p: nat)
    requires PhaseOf(t, p).HasMutated? && t.temp.Some?
    requires TempInv(json, t.fs, t.temp.value, json.chunks(PhaseOf(t, p).updated)) == true
    requires p in t.unsynced <==> t.temp.value.sync == Some(Unsupported)
    ensures HolderInv(json, t, p) == true
  {
  }

  lemma {:induction false} WritingHolds(json: Json, calls: seq<Call>, w: World, a: Action, t: World)
    requires a.CreateTemp? || a.WriteChunk? || a.SyncTemp? || a.SyncUnsupported?
    requires |calls| == |w.locks.phases| && HolderInv(json, w, a.p) == true
    requires May(json, w, a) && t == Act(json, calls, w, a)
    ensures HolderInv(json, t, a.p) == true
  {
    var chunks := json.chunks(PhaseOf(w, a.p).updated);
    match a {
      case CreateTemp(p, name) => NewTemp(json, w.fs, name, chunks);
      case WriteChunk(p) => LongerTemp(json, w.fs, w.temp.value, chunks);
      case SyncTemp(p) =>
      case SyncUnsupported(p) =>
    }
    WriterHolds(json, t, a.p);
  }

  lemma {:induction false} SyncDirHolds(json: Json, t: World, p: nat)
    requires PhaseOf(t, p).Committed? && t.settled && t.marks == [|t.locks.commits|] && p in t.locks.commits
    ensures HolderInv(json, t, p) == true
  {
    assert t.locks.commits[..|t.locks.commits|] == t.locks.commits;
  }

  lemma {:induction false} TempHolds(json: Json, calls: seq<Call>, initial: Content, w: World, a: Action, t: World)
    requires |calls| == |w.locks.phases| && DiskInv(json, calls, initial, w) && Inv(calls, initial, w.locks)
    requires May(json, w, a) && !a.Do? && t == Act(json, calls, w, a)
    ensures HolderInv(json, t, a.p) == true
  {
    assert HolderInv(json, w, a.p);
    if a.CreateTemp? || a.WriteChunk? || a.SyncTemp? || a.SyncUnsupported? {
      WritingHolds(json, calls, w, a, t);
    } else if a.SyncDir? {
      assert ProcessInv(calls, w.locks, a.p);
      SyncDirHolds(json, t, a.p);
    }
  }

  lemma {:induction false} ActKeepsInv(json: Json, calls: seq<Call>, initial: Content, w: World, a: Action, t: World)
    requires Faithful(json) && |calls| == |w.locks.phases| && t == Act(json, calls, w, a)
    requires Inv(calls, initial, w.locks) && DiskInv(json, calls, initial, w) && Inv(calls, initial, t.locks)
    ensures DiskInv(json, calls, initial, t)
  {
    if May(json, w, a) {
      if a.Do? {
        LockKeepsVersions(json, calls, initial, w, a, t);
        LockHolds(json, calls, initial, w, a, t);
      } else {
        TempKeepsVersions(json, calls, initial, w, a, t);
        TempHolds(json, calls, initial, w, a, t);
      }
      forall q: nat | q != Actor(a) ensures HolderInv(json, t, q) {
        OthersHold(json, calls, initial, w, a, t, q);
      }
    }
  }

  /** Whatever a crash brings back reads as the file does now. */
  ghost predicate Durable(json: Json, fs: ValidFs, content: Content) {
    forall i :: 0 <= i < |fs.versions| ==> Shows(json, fs, fs.versions[i], content, false)
  }

  lemma {:induction false} StartHolds(json: Json, calls: seq<Call>, initial: Content, fs: ValidFs, none: seq<nat>)
    requires Durable(json, fs, initial) && none == []
    ensures DiskInv(json, calls, initial, Start(json, calls, fs)) == true
  {
    var w := Start(json, calls, fs);
    assert w.locks.commits == none;
    forall i | 0 <= i < |w.marks|
      ensures ShowsPrefix(json, calls, initial, w.fs, w.locks.commits, w.unsynced, w.fs.versions[i], w.marks[i])
    {
      NewestShown(json, calls, initial, fs, none, {}, fs.versions[i], initial);
    }
  }

  lemma {:induction false} LocksKeepInv(
    json: Json, calls: seq<Call>, fs: ValidFs, actions: seq<Action>, initial: Content)
    requires initial == json.parse(fs.Visible(json.path))
    ensures Inv(calls, initial, Play(json, calls, fs, actions).locks) == true
  {
    var events := PlayIsRun(json, calls, fs, actions);
    RunKeepsInv(calls, initial, events);
  }

  lemma {:induction false} PlayKeepsInv(
    json: Json, calls: seq<Call>, initial: Content, fs: ValidFs, actions: seq<Action>)
    requires Faithful(json) && Durable(json, fs, initial)
    ensures Inv(calls, initial, Play(json, calls, fs, actions).locks) == true
    ensures DiskInv(json, calls, initial, Play(json, calls, fs, actions)) == true
  {
    LocksKeepInv(json, calls, fs, actions, initial);
    if actions == [] {
      StartHolds(json, calls, initial, fs, []);
    } else {
      var earlier, a := actions[..|actions| - 1], actions[|actions| - 1];
      PlayKeepsInv(json, calls, initial, fs, earlier);
      ActKeepsInv(json, calls, initial, Play(json, calls, fs, earlier), a, Play(json, calls, fs, actions));
    }
  }

  // ---------- What a power loss leaves ----------

  lemma {:induction false} MarksRise(marks: seq<nat>, top: nat, i: nat, j: nat)
    requires Climbs(marks, top) && i <= j < |marks|
    ensures marks[i] <= marks[j]
    decreases j
  {
    if i < j {
      MarksRise(marks, top, i, j - 1);
    }
  }

  lemma {:induction false} MarkAt(marks: seq<nat>, top: nat, j: nat, n: nat) returns (i: nat)
    requires Climbs(marks, top) && j < |marks| && marks[0] <= n <= marks[j]
    ensures i <= j && marks[i] == n
    decreases j
  {
    if marks[j] == n {
      i := j;
    } else {
      i := MarkAt(marks, top, j - 1, n);
    }
  }

  /** `n` commits are left, or what a disk makes of unsynced bytes. */
  ghost predicate Leaves(json: Json, calls: seq<Call>, initial: Content, w: World, n: nat, content: Content) {
    && w.marks != [] && w.marks[0] <= n <= |w.locks.commits|
    && if Torn(w.locks.commits, w.unsynced, n) then exists b :: json.parse(Some(b)) == content
       else Serially(calls, initial, w.locks.commits[..n]) == Some(content)
  }

  ghost predicate MayLeave(json: Json, w: World, content: Content) {
    exists r :: w.fs.Recovers(json.path, r) && json.parse(r) == content
  }

  lemma {:induction false} RecoveredIsPrefix(
    json: Json, calls: seq<Call>, initial: Content, w: World, r: Option<Bytes>) returns (n: nat)
    requires Faithful(json) && DiskInv(json, calls, initial, w) && w.fs.Recovers(json.path, r)
    ensures Leaves(json, calls, initial, w, n, json.parse(r))
  {
    var i :| 0 <= i < |w.fs.versions| && w.fs.RecoversFrom(i, json.path, r);
    n := w.marks[i];
    assert ShowsPrefix(json, calls, initial, w.fs, w.locks.commits, w.unsynced, w.fs.versions[i], n);
    MarksRise(w.marks, |w.locks.commits|, 0, i);
    assert r.Some? ==> json.parse(Some(r.value)) == json.parse(r);
  }

  lemma {:induction false} PrefixIsRecovered(
    json: Json, calls: seq<Call>, initial: Content, w: World, n: nat, content: Content)
    requires Faithful(json) && DiskInv(json, calls, initial, w) && Leaves(json, calls, initial, w, n, content)
    ensures MayLeave(json, w, content)
  {
    var i := MarkAt(w.marks, |w.locks.commits|, |w.marks| - 1, n);
    var d := w.fs.versions[i];
    assert ShowsPrefix(json, calls, initial, w.fs, w.locks.commits, w.unsynced, d, n);
    var r := if json.path in d then Some(w.fs.inodes[d[json.path]].content) else None;
    if Torn(w.locks.commits, w.unsynced, n) {
      var b :| json.parse(Some(b)) == content;
      r := Some(b);
    }
    assert w.fs.RecoversFrom(i, json.path, r);
  }

  lemma {:induction false} MayLeaveExactly(
    json: Json, calls: seq<Call>, initial: Content, w: World, content: Content)
    requires Faithful(json) && DiskInv(json, calls, initial, w)
    ensures MayLeave(json, w, content) <==> exists n :: Leaves(json, calls, initial, w, n, content)
  {
    if r :| w.fs.Recovers(json.path, r) && json.parse(r) == content {
      var n := RecoveredIsPrefix(json, calls, initial, w, r);
    }
    if n :| Leaves(json, calls, initial, w, n, content) {
      PrefixIsRecovered(json, calls, initial, w, n, content);
    }
  }

  lemma {:induction false} VisibleIsFile(json: Json, calls: seq<Call>, initial: Content, w: World)
    requires DiskInv(json, calls, initial, w) && Serially(calls, initial, w.locks.commits) == Some(w.locks.file)
    ensures json.parse(w.fs.Visible(json.path)) == w.locks.file
  {
    var last := |w.marks| - 1;
    assert ShowsPrefix(json, calls, initial, w.fs, w.locks.commits, w.unsynced, w.fs.versions[last], w.marks[last]);
    assert w.locks.commits[..|w.locks.commits|] == w.locks.commits;
  }

  // ---------- What was done and when ----------

  /** Action `j` took effect. */
  predicate Took(json: Json, calls: seq<Call>, fs: ValidFs, actions: seq<Action>, j: nat) {
    j < |actions| && May(json, Play(json, calls, fs, actions[..j]), actions[j])
  }

  predicate TookAs(json: Json, calls: seq<Call>, fs: ValidFs, actions: seq<Action>, a: Action, j: nat) {
    Took(json, calls, fs, actions, j) && actions[j] == a
  }

  /** Action `a` took effect at some time. */
  predicate Happened(json: Json, calls: seq<Call>, fs: ValidFs, actions: seq<Action>, a: Action) {
    exists j :: 0 <= j < |actions| && TookAs(json, calls, fs, actions, a, j)
  }

  predicate DirSyncedAt(json: Json, calls: seq<Call>, fs: ValidFs, actions: seq<Action>, j: nat) {
    Took(json, calls, fs, actions, j) && actions[j].SyncDir?
  }

  lemma {:induction false} TookEarlier(json: Json, calls: seq<Call>, fs: ValidFs, actions: seq<Action>, j: nat)
    requires j < |actions| - 1
    ensures actions[..|actions| - 1][j] == actions[j]
    ensures Took(json, calls, fs, actions[..|actions| - 1], j) == Took(json, calls, fs, actions, j)
  {
    assert actions[..|actions| - 1][..j] == actions[..j];
  }

  lemma {:induction false} HappenedBefore(json: Json, calls: seq<Call>, fs: ValidFs, actions: seq<Action>, a: Action)
    requires actions != [] && Happened(json, calls, fs, actions[..|actions| - 1], a)
    ensures Happened(json, calls, fs, actions, a)
  {
    var earlier := actions[..|actions| - 1];
    var j :| 0 <= j < |earlier| && TookAs(json, calls, fs, earlier, a, j);
    TookEarlier(json, calls, fs, actions, j);
    assert TookAs(json, calls, fs, actions, a, j);
  }

  lemma {:induction false} NotTookBefore(
    json: Json, calls: seq<Call>, fs: ValidFs, actions: seq<Action>, a: Action, j: nat)
    requires j < |actions| - 1 && !Happened(json, calls, fs, actions[..|actions| - 1], a)
    ensures TookAs(json, calls, fs, actions, a, j) == false
  {
    TookEarlier(json, calls, fs, actions, j);
    assert !TookAs(json, calls, fs, actions[..|actions| - 1], a, j);
  }

  lemma {:induction false} HappenedLast(json: Json, calls: seq<Call>, fs: ValidFs, actions: seq<Action>, a: Action)
    requires actions != [] && !Happened(json, calls, fs, actions[..|actions| - 1], a)
    ensures Happened(json, calls, fs, actions, a) == TookAs(json, calls, fs, actions, a, |actions| - 1)
  {
    forall j: nat | j < |actions| - 1 ensures TookAs(json, calls, fs, actions, a, j) == false {
      NotTookBefore(json, calls, fs, actions, a, j);
    }
  }

  lemma {:induction false} HappenedNext(json: Json, calls: seq<Call>, fs: ValidFs, actions: seq<Action>, a: Action)
    requires actions != []
    ensures Happened(json, calls, fs, actions, a)
       <==> Happened(json, calls, fs, actions[..|actions| - 1], a)
            || TookAs(json, calls, fs, actions, a, |actions| - 1)
  {
    if Happened(json, calls, fs, actions[..|actions| - 1], a) {
      HappenedBefore(json, calls, fs, actions, a);
    } else {
      HappenedLast(json, calls, fs, actions, a);
    }
  }

  lemma {:induction false} ActRecords(json: Json, calls: seq<Call>, w: World, a: Action, p: nat)
    requires |calls| == |w.locks.phases|
    ensures var t := Act(json, calls, w, a);
            && (p in t.unsynced <==> p in w.unsynced || (a == SyncUnsupported(p) && May(json, w, a)))
            && (p in t.unflushed <==> p in w.unflushed || (a == SyncDirFails(p) && May(json, w, a)))
  {
  }

  /** What the records say happened is what happened. */
  lemma {:induction false} RecordsAreTrue(json: Json, calls: seq<Call>, fs: ValidFs, actions: seq<Action>, p: nat)
    ensures p in Play(json, calls, fs, actions).unsynced <==> Happened(json, calls, fs, actions, SyncUnsupported(p))
    ensures p in Play(json, calls, fs, actions).unflushed <==> Happened(json, calls, fs, actions, SyncDirFails(p))
  {
    if actions != [] {
      var earlier, a := actions[..|actions| - 1], actions[|actions| - 1];
      RecordsAreTrue(json, calls, fs, earlier, p);
      ActRecords(json, calls, Play(json, calls, fs, earlier), a, p);
      HappenedNext(json, calls, fs, actions, SyncUnsupported(p));
      HappenedNext(json, calls, fs, actions, SyncDirFails(p));
    }
  }

  lemma {:induction false} SurvivorIsIn(w: World, n: nat, p: nat)
    requires Survives(w, p) && w.marks[0] <= n <= |w.locks.commits|
    ensures p in w.locks.commits[..n]
  {
    var i :| 0 <= i < w.marks[0] && w.locks.commits[i] == p;
    assert w.locks.commits[..n][i] == p;
  }

  // ---------- What is there for good ----------

  /** By the records: whatever a power loss leaves, it is a serial result with the update of `p` in it. */
  ghost predicate AlwaysLeft(json: Json, calls: seq<Call>, initial: Content, w: World, p: nat) {
    forall n: nat, content :: Leaves(json, calls, initial, w, n, content) ==>
      p in w.locks.commits[..n] && !Torn(w.locks.commits, w.unsynced, n)
  }

  lemma {:induction false} SomethingIsLeft(json: Json, calls: seq<Call>, initial: Content, w: World, n: nat)
    returns (content: Content)
    requires DiskInv(json, calls, initial, w) && w.marks[0] <= n <= |w.locks.commits|
    ensures Leaves(json, calls, initial, w, n, content)
  {
    var i := MarkAt(w.marks, |w.locks.commits|, |w.marks| - 1, n);
    var d, torn := w.fs.versions[i], Torn(w.locks.commits, w.unsynced, n);
    assert ShowsPrefix(json, calls, initial, w.fs, w.locks.commits, w.unsynced, d, n);
    content :| Serially(calls, initial, w.locks.commits[..n]) == Some(content) && Shows(json, w.fs, d, content, torn);
  }

  lemma {:induction false} FirstMark(json: Json, calls: seq<Call>, initial: Content, w: World)
    requires DiskInv(json, calls, initial, w)
    ensures w.marks != [] && w.marks[0] <= |w.locks.commits|
  {
    MarksRise(w.marks, |w.locks.commits|, 0, |w.marks| - 1);
  }

  /** Every version leads to synced bytes. */
  ghost predicate AllSynced(w: World) {
    && w.marks != []
    && forall n :: w.marks[0] <= n <= |w.locks.commits| ==> !Torn(w.locks.commits, w.unsynced, n)
  }

  lemma {:induction false} ThereMeans(json: Json, calls: seq<Call>, initial: Content, w: World, p: nat, n: nat)
    requires DiskInv(json, calls, initial, w) && AlwaysLeft(json, calls, initial, w, p)
    requires w.marks[0] <= n <= |w.locks.commits|
    ensures p in w.locks.commits[..n] && Torn(w.locks.commits, w.unsynced, n) == false
  {
    var content := SomethingIsLeft(json, calls, initial, w, n);
  }

  lemma {:induction false} AlwaysLeftIs(json: Json, calls: seq<Call>, initial: Content, w: World, p: nat)
    requires DiskInv(json, calls, initial, w) == true
    ensures AlwaysLeft(json, calls, initial, w, p) <==> Survives(w, p) && AllSynced(w)
  {
    FirstMark(json, calls, initial, w);
    if AlwaysLeft(json, calls, initial, w, p) {
      forall n | w.marks[0] <= n <= |w.locks.commits|
        ensures p in w.locks.commits[..n] && Torn(w.locks.commits, w.unsynced, n) == false
      {
        ThereMeans(json, calls, initial, w, p, n);
      }
    }
    if Survives(w, p) && AllSynced(w) {
      forall n: nat | w.marks[0] <= n <= |w.locks.commits| ensures p in w.locks.commits[..n] {
        SurvivorIsIn(w, n, p);
      }
    }
  }

  /** Every directory sync that worked made the commits before it durable. */
  lemma {:induction false} DirSyncCounts(
    json: Json, calls: seq<Call>, initial: Content, fs: ValidFs, actions: seq<Action>, j: nat)
    requires Faithful(json) && Durable(json, fs, initial) && DirSyncedAt(json, calls, fs, actions, j)
    ensures var w, before := Play(json, calls, fs, actions), Play(json, calls, fs, actions[..j]).locks.commits;
            w.marks != [] && |before| <= w.marks[0] && before <= w.locks.commits
  {
    var earlier := actions[..|actions| - 1];
    PlayKeepsInv(json, calls, initial, fs, earlier);
    FirstMark(json, calls, initial, Play(json, calls, fs, earlier));
    GoesOn(json, calls, Play(json, calls, fs, earlier), actions[|actions| - 1], Play(json, calls, fs, actions));
    if j < |earlier| {
      TookEarlier(json, calls, fs, actions, j);
      DirSyncCounts(json, calls, initial, fs, earlier, j);
      assert earlier[..j] == actions[..j];
    }
  }

  /** And what is durable, the last of them made durable. */
  lemma {:induction false} LastDirSync(
    json: Json, calls: seq<Call>, initial: Content, fs: ValidFs, actions: seq<Action>) returns (j: nat)
    requires Faithful(json) && Durable(json, fs, initial)
    requires var w := Play(json, calls, fs, actions); w.marks != [] && w.marks[0] > 0
    ensures DirSyncedAt(json, calls, fs, actions, j)
    ensures |Play(json, calls, fs, actions[..j]).locks.commits| == Play(json, calls, fs, actions).marks[0]
  {
    var n := |actions| - 1;
    var earlier, a := actions[..n], actions[n];
    PlayKeepsInv(json, calls, initial, fs, earlier);
    FirstMark(json, calls, initial, Play(json, calls, fs, earlier));
    GoesOn(json, calls, Play(json, calls, fs, earlier), a, Play(json, calls, fs, actions));
    if May(json, Play(json, calls, fs, earlier), a) && a.SyncDir? {
      j := n;
    } else {
      j := LastDirSync(json, calls, initial, fs, earlier);
      TookEarlier(json, calls, fs, actions, j);
      assert earlier[..j] == actions[..j];
    }
  }

  /** No directory sync worked after more than `n` commits. */
  ghost predicate NoSyncPast(json: Json, calls: seq<Call>, fs: ValidFs, actions: seq<Action>, n: nat) {
    forall j :: 0 <= j < |actions| && DirSyncedAt(json, calls, fs, actions, j) ==>
      |Play(json, calls, fs, actions[..j]).locks.commits| <= n
  }

  /** The last of `n` commits skipped the sync of its bytes. */
  predicate LastSkipped(json: Json, calls: seq<Call>, fs: ValidFs, actions: seq<Action>, n: nat) {
    var commits := Play(json, calls, fs, actions).locks.commits;
    0 < n <= |commits| && Happened(json, calls, fs, actions, SyncUnsupported(commits[n - 1]))
  }

  /** `n` commits are left, as many as a directory sync has made durable or more.  The content is
      their serial result, or anything if the last of them skipped the sync of its bytes. */
  ghost predicate LeftBehind(
    json: Json, calls: seq<Call>, initial: Content, fs: ValidFs, actions: seq<Action>, n: nat, content: Content)
  {
    var commits := Play(json, calls, fs, actions).locks.commits;
    && n <= |commits| && NoSyncPast(json, calls, fs, actions, n)
    && if LastSkipped(json, calls, fs, actions, n) then exists b :: json.parse(Some(b)) == content
       else Serially(calls, initial, commits[..n]) == Some(content)
  }

  lemma {:induction false} NoSyncPastIs(
    json: Json, calls: seq<Call>, initial: Content, fs: ValidFs, actions: seq<Action>, n: nat, w: World)
    requires Faithful(json) && Durable(json, fs, initial) && w == Play(json, calls, fs, actions)
    ensures w.marks != [] && (NoSyncPast(json, calls, fs, actions, n) <==> w.marks[0] <= n)
  {
    PlayKeepsInv(json, calls, initial, fs, actions);
    FirstMark(json, calls, initial, w);
    if w.marks[0] > n {
      var last := LastDirSync(json, calls, initial, fs, actions);
    } else {
      forall j | 0 <= j < |actions| && DirSyncedAt(json, calls, fs, actions, j)
        ensures |Play(json, calls, fs, actions[..j]).locks.commits| <= n
      {
        DirSyncCounts(json, calls, initial, fs, actions, j);
      }
    }
  }

  lemma {:induction false} LastSkippedIs(
    json: Json, calls: seq<Call>, fs: ValidFs, actions: seq<Action>, n: nat, w: World)
    requires w == Play(json, calls, fs, actions)
    ensures LastSkipped(json, calls, fs, actions, n) == Torn(w.locks.commits, w.unsynced, n)
  {
    if 0 < n <= |w.locks.commits| {
      RecordsAreTrue(json, calls, fs, actions, w.locks.commits[n - 1]);
    }
  }

  lemma {:induction false} LeftIsLeaves(
    json: Json, calls: seq<Call>, initial: Content, fs: ValidFs, actions: seq<Action>, n: nat, content: Content,
    w: World)
    requires Faithful(json) && Durable(json, fs, initial) && w == Play(json, calls, fs, actions)
    ensures LeftBehind(json, calls, initial, fs, actions, n, content) == Leaves(json, calls, initial, w, n, content)
  {
    NoSyncPastIs(json, calls, initial, fs, actions, n, w);
    LastSkippedIs(json, calls, fs, actions, n, w);
  }

  /** A power loss at any moment may leave exactly the serial results of the prefixes of the commits
      that go at least as far as the last directory sync; and anything at all for one whose last
      commit was renamed without a sync of its bytes. */
  lemma {:induction false} PowerLossExactly(
    json: Json, calls: seq<Call>, initial: Content, fs: ValidFs, actions: seq<Action>, content: Content)
    requires Faithful(json) && Durable(json, fs, initial)
    ensures MayLeave(json, Play(json, calls, fs, actions), content)
       <==> exists n :: LeftBehind(json, calls, initial, fs, actions, n, content)
  {
    var w := Play(json, calls, fs, actions);
    PlayKeepsInv(json, calls, initial, fs, actions);
    MayLeaveExactly(json, calls, initial, w, content);
    forall n: nat
      ensures LeftBehind(json, calls, initial, fs, actions, n, content) == Leaves(json, calls, initial, w, n, content)
    {
      LeftIsLeaves(json, calls, initial, fs, actions, n, content, w);
    }
  }

  /** Whatever prefix is left holds every call that returned, unless its own directory sync failed;
      and what a reader sees meanwhile is the result of all commits. */
  lemma {:induction false} ReturnedSurvives(
    json: Json, calls: seq<Call>, initial: Content, fs: ValidFs, actions: seq<Action>, n: nat, content: Content,
    p: nat)
    requires Faithful(json) && Durable(json, fs, initial)
    requires LeftBehind(json, calls, initial, fs, actions, n, content)
    ensures var w := Play(json, calls, fs, actions);
            && (PhaseOf(w, p).Returned? && !Happened(json, calls, fs, actions, SyncDirFails(p)) ==>
                  p in w.locks.commits[..n])
            && json.parse(w.fs.Visible(json.path)) == w.locks.file
  {
    var w := Play(json, calls, fs, actions);
    PlayKeepsInv(json, calls, initial, fs, actions);
    assert HolderInv(json, w, p);
    RecordsAreTrue(json, calls, fs, actions, p);
    NoSyncPastIs(json, calls, initial, fs, actions, n, w);
    if Survives(w, p) {
      SurvivorIsIn(w, n, p);
    }
    VisibleIsFile(json, calls, initial, w);
  }

  /** Directory sync `j` came after the commit of `p`; and neither the last commit before it nor any
      since was renamed with the sync of its bytes skipped. */
  ghost predicate MadeDurableAt(json: Json, calls: seq<Call>, fs: ValidFs, actions: seq<Action>, j: nat, p: nat) {
    && DirSyncedAt(json, calls, fs, actions, j)
    && var before, commits := Play(json, calls, fs, actions[..j]).locks.commits,
                              Play(json, calls, fs, actions).locks.commits;
       && p in before
       && forall i :: |before| - 1 <= i < |commits| ==>
            !Happened(json, calls, fs, actions, SyncUnsupported(commits[i]))
  }

  lemma {:induction false} DurableIsThere(
    json: Json, calls: seq<Call>, initial: Content, fs: ValidFs, actions: seq<Action>, j: nat, p: nat, w: World)
    requires Faithful(json) && Durable(json, fs, initial) && w == Play(json, calls, fs, actions)
    requires MadeDurableAt(json, calls, fs, actions, j, p)
    ensures AlwaysLeft(json, calls, initial, w, p)
  {
    PlayKeepsInv(json, calls, initial, fs, actions);
    AlwaysLeftIs(json, calls, initial, w, p);
    FirstMark(json, calls, initial, w);
    DirSyncCounts(json, calls, initial, fs, actions, j);
    var before := Play(json, calls, fs, actions[..j]).locks.commits;
    var i :| 0 <= i < |before| && before[i] == p;
    assert w.locks.commits[..w.marks[0]][i] == p;
    forall n | w.marks[0] <= n <= |w.locks.commits| ensures !Torn(w.locks.commits, w.unsynced, n) {
      if n > 0 {
        RecordsAreTrue(json, calls, fs, actions, w.locks.commits[n - 1]);
      }
    }
  }

  lemma {:induction false} ThereIsDurable(
    json: Json, calls: seq<Call>, initial: Content, fs: ValidFs, actions: seq<Action>, p: nat, w: World)
    returns (j: nat)
    requires Faithful(json) && Durable(json, fs, initial) && w == Play(json, calls, fs, actions)
    requires AlwaysLeft(json, calls, initial, w, p)
    ensures MadeDurableAt(json, calls, fs, actions, j, p)
  {
    PlayKeepsInv(json, calls, initial, fs, actions);
    AlwaysLeftIs(json, calls, initial, w, p);
    j := LastDirSync(json, calls, initial, fs, actions);
    DirSyncCounts(json, calls, initial, fs, actions, j);
    forall i | w.marks[0] - 1 <= i < |w.locks.commits|
      ensures !Happened(json, calls, fs, actions, SyncUnsupported(w.locks.commits[i]))
    {
      RecordsAreTrue(json, calls, fs, actions, w.locks.commits[i]);
      assert !Torn(w.locks.commits, w.unsynced, i + 1);
    }
  }

  /** Whatever a power loss may leave, it is a serial result, with the update of `p` in it. */
  ghost predicate AlwaysThere(
    json: Json, calls: seq<Call>, initial: Content, fs: ValidFs, actions: seq<Action>, p: nat)
  {
    forall n: nat, content :: LeftBehind(json, calls, initial, fs, actions, n, content) ==>
      p in Play(json, calls, fs, actions).locks.commits[..n] && !LastSkipped(json, calls, fs, actions, n)
  }

  lemma {:induction false} ThereIsLeft(
    json: Json, calls: seq<Call>, initial: Content, fs: ValidFs, actions: seq<Action>, p: nat, w: World)
    requires Faithful(json) && Durable(json, fs, initial) && w == Play(json, calls, fs, actions)
    ensures AlwaysThere(json, calls, initial, fs, actions, p) == AlwaysLeft(json, calls, initial, w, p)
  {
    forall n: nat, content
      ensures LeftBehind(json, calls, initial, fs, actions, n, content) == Leaves(json, calls, initial, w, n, content)
      ensures LastSkipped(json, calls, fs, actions, n) == Torn(w.locks.commits, w.unsynced, n)
    {
      LeftIsLeaves(json, calls, initial, fs, actions, n, content, w);
      LastSkippedIs(json, calls, fs, actions, n, w);
    }
  }

  /** An update survives every power loss exactly if some directory sync worked after its commit, and
      since then all bytes were synced before they were renamed. */
  lemma {:induction false} SurvivesExactly(
    json: Json, calls: seq<Call>, initial: Content, fs: ValidFs, actions: seq<Action>, p: nat)
    requires Faithful(json) && Durable(json, fs, initial)
    ensures AlwaysThere(json, calls, initial, fs, actions, p)
       <==> exists j :: 0 <= j < |actions| && MadeDurableAt(json, calls, fs, actions, j, p)
  {
    var w := Play(json, calls, fs, actions);
    ThereIsLeft(json, calls, initial, fs, actions, p, w);
    if AlwaysLeft(json, calls, initial, w, p) {
      var j := ThereIsDurable(json, calls, initial, fs, actions, p, w);
    }
    if j :| 0 <= j < |actions| && MadeDurableAt(json, calls, fs, actions, j, p) {
      DurableIsThere(json, calls, initial, fs, actions, j, p, w);
    }
  }

  // ---------- Returned and lost ----------

  /** `t` is what `a` makes of `w`. */
  predicate Follows(json: Json, calls: seq<Call>, w: World, a: Action, t: World)
    requires |calls| == |w.locks.phases|
  {
    t == Act(json, calls, w, a)
  }

  lemma {:induction false} OneMore(
    json: Json, calls: seq<Call>, fs: ValidFs, actions: seq<Action>, a: Action, longer: seq<Action>)
    requires longer == actions + [a]
    ensures Follows(json, calls, Play(json, calls, fs, actions), a, Play(json, calls, fs, longer)) == true
  {
    assert longer[..|longer| - 1] == actions && longer[|longer| - 1] == a;
  }

  lemma {:induction false} TwoMore(
    json: Json, calls: seq<Call>, fs: ValidFs, actions: seq<Action>, a: Action, b: Action)
    returns (u: World)
    ensures |calls| == |u.locks.phases| && Follows(json, calls, Play(json, calls, fs, actions), a, u) == true
    ensures Follows(json, calls, u, b, Play(json, calls, fs, actions + [a, b])) == true
  {
    OneMore(json, calls, fs, actions, a, actions + [a]);
    assert actions + [a, b] == (actions + [a]) + [b];
    OneMore(json, calls, fs, actions + [a], b, actions + [a, b]);
    u := Play(json, calls, fs, actions + [a]);
  }

  lemma {:induction false} GivesUp(json: Json, calls: seq<Call>, w: World, p: nat, u: World, t: World)
    requires |calls| == |w.locks.phases| && PhaseOf(w, p).Committed? && !w.settled && !Survives(w, p)
    requires |calls| == |u.locks.phases|
    requires Follows(json, calls, w, SyncDirFails(p), u) && Follows(json, calls, u, Do(Release(p)), t)
    ensures PhaseOf(t, p).Returned? && !Survives(t, p)
  {
  }

  /** A call whose directory sync fails returns all the same, and its update may be lost. */
  lemma {:induction false} FailedDirSyncLoses(
    json: Json, calls: seq<Call>, initial: Content, fs: ValidFs, actions: seq<Action>, p: nat, longer: seq<Action>)
    requires Faithful(json) && Durable(json, fs, initial)
    requires var w := Play(json, calls, fs, actions); PhaseOf(w, p).Committed? && !w.settled
    requires longer == actions + [SyncDirFails(p), Do(Release(p))]
    ensures var t := Play(json, calls, fs, longer);
            PhaseOf(t, p).Returned? && !AlwaysThere(json, calls, initial, fs, longer, p)
  {
    PlayKeepsInv(json, calls, initial, fs, actions);
    assert HolderInv(json, Play(json, calls, fs, actions), p);
    var u := TwoMore(json, calls, fs, actions, SyncDirFails(p), Do(Release(p)));
    GivesUp(json, calls, Play(json, calls, fs, actions), p, u, Play(json, calls, fs, longer));
    PlayKeepsInv(json, calls, initial, fs, longer);
    AlwaysLeftIs(json, calls, initial, Play(json, calls, fs, longer), p);
    ThereIsLeft(json, calls, initial, fs, longer, p, Play(json, calls, fs, longer));
  }

  lemma {:induction false} SkipsAndRenames(json: Json, calls: seq<Call>, w: World, p: nat, u: World, t: World)
    requires |calls| == |w.locks.phases|
    requires Writing(w, p) && WrittenOut(json, w, p) && w.temp.value.sync.None?
    requires |calls| == |u.locks.phases|
    requires Follows(json, calls, w, SyncUnsupported(p), u) && Follows(json, calls, u, Do(Replace(p)), t)
    ensures PhaseOf(t, p).Committed? && !t.settled && p in t.unsynced && t.locks.commits == w.locks.commits + [p]
  {
  }

  lemma {:induction false} Finishes(json: Json, calls: seq<Call>, w: World, p: nat, u: World, t: World)
    requires |calls| == |w.locks.phases| && PhaseOf(w, p).Committed? && !w.settled
    requires |calls| == |u.locks.phases|
    requires Follows(json, calls, w, SyncDir(p), u) && Follows(json, calls, u, Do(Release(p)), t)
    ensures PhaseOf(t, p).Returned? && t.marks == [|t.locks.commits|]
    ensures t.locks.commits == w.locks.commits && t.unsynced == w.unsynced
  {
  }

  /** A call whose bytes were not synced returns with its directory synced, and anything may come back. */
  lemma {:induction false} SkippedSyncLoses(
    json: Json, calls: seq<Call>, initial: Content, fs: ValidFs, actions: seq<Action>, p: nat, b: Bytes,
    renamed: seq<Action>, longer: seq<Action>)
    requires Faithful(json) && Durable(json, fs, initial)
    requires var w := Play(json, calls, fs, actions);
             Writing(w, p) && WrittenOut(json, w, p) && w.temp.value.sync.None?
    requires renamed == actions + [SyncUnsupported(p), Do(Replace(p))]
    requires longer == renamed + [SyncDir(p), Do(Release(p))]
    ensures var t := Play(json, calls, fs, longer);
            PhaseOf(t, p).Returned? && MayLeave(json, t, json.parse(Some(b)))
  {
    var u := TwoMore(json, calls, fs, actions, SyncUnsupported(p), Do(Replace(p)));
    var v := TwoMore(json, calls, fs, renamed, SyncDir(p), Do(Release(p)));
    SkipsAndRenames(json, calls, Play(json, calls, fs, actions), p, u, Play(json, calls, fs, renamed));
    Finishes(json, calls, Play(json, calls, fs, renamed), p, v, Play(json, calls, fs, longer));
    var t := Play(json, calls, fs, longer);
    assert Torn(t.locks.commits, t.unsynced, |t.locks.commits|);
    assert Leaves(json, calls, initial, t, |t.locks.commits|, json.parse(Some(b)));
    PlayKeepsInv(json, calls, initial, fs, longer);
    PrefixIsRecovered(json, calls, initial, t, |t.locks.commits|, json.parse(Some(b)));
  }

  // ---------- Starting again ----------

  /** What a power loss makes of the disk: one version of the directory, synced bytes as they were,
      and anything in place of the others. */
  ghost predicate CrashLeaves(fs: Fs, after: Fs) {
    && after.Valid() && |after.inodes| == |fs.inodes|
    && (exists i :: 0 <= i < |fs.versions| && after.versions == [fs.versions[i]])
    && forall n :: 0 <= n < |fs.inodes| ==>
         after.inodes[n].synced && (fs.inodes[n].synced ==> after.inodes[n] == fs.inodes[n])
  }

  /** A machine started again after the power loss reads what may be left, and begins durable, so that
      all of this holds again. */
  lemma {:induction false} RestartIsDurable(
    json: Json, calls: seq<Call>, initial: Content, fs: ValidFs, actions: seq<Action>, after: ValidFs)
    requires Faithful(json) && Durable(json, fs, initial)
    requires CrashLeaves(Play(json, calls, fs, actions).fs, after)
    ensures var content := json.parse(after.Visible(json.path));
            Durable(json, after, content) && MayLeave(json, Play(json, calls, fs, actions), content)
  {
    var w := Play(json, calls, fs, actions);
    var i :| 0 <= i < |w.fs.versions| && after.versions == [w.fs.versions[i]];
    assert w.fs.RecoversFrom(i, json.path, after.Visible(json.path));
  }

  // ---------- It can always finish ----------

  /** What the holder has yet to do on the disk. */
  function DiskWork(json: Json, w: World): nat {
    if w.locks.holder.None? then 0
    else
      match PhaseOf(w, w.locks.holder.value)
      case HasMutated(updated) =>
        var chunks := |json.chunks(updated)|;
        if w.temp.None? then chunks + 3
        else if w.temp.value.written < chunks then chunks - w.temp.value.written + 2
        else if w.temp.value.sync.Some? then 1
        else 2
      case Committed => if w.settled then 0 else 1
      case _ => 0
  }

  /** What a call does next when nothing fails. */
  function NextAction(json: Json, w: World, p: nat, unused: Name): Action {
    match PhaseOf(w, p)
    case HasMutated(updated) =>
      if w.temp.None? then CreateTemp(p, unused)
      else if w.temp.value.written < |json.chunks(updated)| then WriteChunk(p)
      else if w.temp.value.sync.Some? then Do(Replace(p))
      else SyncTemp(p)
    case Committed => if w.settled then Do(Release(p)) else SyncDir(p)
    case phase => Do(Onward(phase, p))
  }

  predicate Faultless(a: Action) {
    && !a.SyncDirFails? && !a.SyncUnsupported?
    && (a.Do? ==> !a.event.Timeout? && !a.event.Crash? && !a.event.ReadFails? && !a.event.WriteFails?)
  }

  function LongestName(names: seq<Name>): (n: nat)
    ensures forall name :: name in names ==> |name| <= n
  {
    if names == [] then 0
    else if |names[0]| > LongestName(names[1..]) then |names[0]|
    else LongestName(names[1..])
  }

  lemma {:induction false} NamesOf(dir: map<Name, nat>) returns (names: seq<Name>)
    ensures forall name :: name in dir ==> name in names
    decreases |dir|
  {
    if name :| name in dir {
      names := NamesOf(dir - {name});
      names := names + [name];
    } else {
      names := [];
    }
  }

  lemma {:induction false} UnusedName(dir: map<Name, nat>, path: Name) returns (unused: Name)
    ensures unused != path && unused !in dir
  {
    var names := NamesOf(dir);
    unused := seq(LongestName(names + [path]) + 1, _ => '.');
    assert path in names + [path];
    assert unused in dir ==> unused in names + [path];
  }

  lemma {:induction false} NextActionHelps(
    json: Json, calls: seq<Call>, initial: Content, w: World, q: nat, unused: Name, a: Action, t: World)
    requires Faithful(json) && |calls| == |w.locks.phases|
    requires Inv(calls, initial, w.locks) && DiskInv(json, calls, initial, w)
    requires q < |calls| && Enabled(w.locks, Onward(w.locks.phases[q], q))
    requires unused != json.path && unused !in w.fs.Dir()
    requires a == NextAction(json, w, q, unused) && t == Act(json, calls, w, a)
    ensures May(json, w, a) && Faultless(a)
    ensures if a.Do? then a.event == Onward(w.locks.phases[q], q)
            else t.locks == w.locks && DiskWork(json, t) < DiskWork(json, w)
  {
    assert HolderInv(json, w, q);
    assert HoldsLock(w.locks.phases[q]) <==> w.locks.holder == Some(q);
  }

  /** No call is under way. */
  predicate AllEnded(w: World) {
    forall p :: 0 <= p < |w.locks.phases| ==> Ended(w.locks.phases[p])
  }

  predicate Nearer(json: Json, w: World, t: World) {
    var before, after := TotalRemaining(w.locks.phases), TotalRemaining(t.locks.phases);
    after < before || (after == before && DiskWork(json, t) < DiskWork(json, w))
  }

  lemma {:induction false} SomeoneActs(json: Json, calls: seq<Call>, initial: Content, w: World) returns (a: Action)
    requires Faithful(json) && |calls| == |w.locks.phases| && !AllEnded(w)
    requires Inv(calls, initial, w.locks) && DiskInv(json, calls, initial, w)
    ensures Faultless(a) && Nearer(json, w, Act(json, calls, w, a))
  {
    var p :| 0 <= p < |calls| && !Ended(w.locks.phases[p]);
    var q := SomeoneGoesOn(calls, w.locks, p);
    var unused := UnusedName(w.fs.Dir(), json.path);
    a := NextAction(json, w, q, unused);
    NextActionHelps(json, calls, initial, w, q, unused, a, Act(json, calls, w, a));
  }

  lemma {:induction false} OneMoreAction(
    json: Json, calls: seq<Call>, initial: Content, fs: ValidFs, actions: seq<Action>) returns (a: Action)
    requires Faithful(json) && Durable(json, fs, initial) && AllEnded(Play(json, calls, fs, actions)) == false
    ensures Faultless(a) && Nearer(json, Play(json, calls, fs, actions), Play(json, calls, fs, actions + [a])) == true
  {
    PlayKeepsInv(json, calls, initial, fs, actions);
    a := SomeoneActs(json, calls, initial, Play(json, calls, fs, actions));
    assert (actions + [a])[..|actions|] == actions;
  }

  lemma {:induction false} GoOn(actions: seq<Action>, a: Action, later: seq<Action>)
    ensures actions + ([a] + later) == (actions + [a]) + later
  {
  }

  /** Nothing wedges: after any actions, crashes and failed syncs included, the calls still under
      way can all be run to their end, their files written and synced, without another fault. */
  lemma {:induction false} DiskNeverWedges(
    json: Json, calls: seq<Call>, initial: Content, fs: ValidFs, actions: seq<Action>) returns (rest: seq<Action>)
    requires Faithful(json) && Durable(json, fs, initial)
    ensures AllEnded(Play(json, calls, fs, actions + rest)) == true
    ensures forall a :: a in rest ==> Faultless(a)
    decreases TotalRemaining(Play(json, calls, fs, actions).locks.phases),
              DiskWork(json, Play(json, calls, fs, actions))
  {
    if AllEnded(Play(json, calls, fs, actions)) == true {
      rest := [];
      assert actions + rest == actions;
    } else {
      var a := OneMoreAction(json, calls, initial, fs, actions);
      var later := DiskNeverWedges(json, calls, initial, fs, actions + [a]);
      rest := [a] + later;
      GoOn(actions, a, later);
    }
  }
}
