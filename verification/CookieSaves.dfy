/**
 The ordering of cookie saves in src/notebooklm/_cookie_persistence.py.

 `save` stamps each call with the next number and queues a worker; the workers then run in
 any order, one at a time under the lock.  `CookiePersistence` is the object they share.
 `Run` lets any calls and workers follow one another, with any outcome of each disk write.
 */
module CookieSaves {
  import opened Options

  type Path = string
  type Snapshot = map<string, string>

  /** What the storage writer returns; `Plain` is its older boolean form. */
  datatype Result = Structured(ok: bool, casRejected: set<string>) | Plain(value: bool)

  /** `_apply_ran_merge` */
  predicate RanMerge(result: Result) {
    match result
    case Structured(ok, rejected) => ok || rejected != {}
    case Plain(value) => value
  }

  /** The merge was applied but some keys were refused. */
  predicate Partial(result: Result) {
    result.Structured? && !result.ok && result.casRejected != {}
  }

  /** The writer merged the jar into the file, all of it or all but some refused keys. */
  predicate Merged(result: Result) {
    match result
    case Structured(true, _) => true
    case Structured(false, rejected) => |rejected| > 0
    case Plain(value) => value
  }

  /** One queued worker; `post` is the snapshot of the jar taken when `save` was called. */
  datatype Job = Job(key: Path, path: Path, post: Snapshot)

  /** `advance_cookie_snapshot_after_save`, which has nothing to return without an original snapshot. */
  type Advance = (Option<Snapshot>, Snapshot, set<string>) -> Option<Snapshot>

  /** What the workers share under the lock. */
  datatype Book = Book(lastApplied: map<Path, nat>, loaded: Option<Snapshot>, auth: Option<Snapshot>)

  predicate Stale(b: Book, key: Path, seqNo: nat) {
    key in b.lastApplied && seqNo < b.lastApplied[key]
  }

  function AdvanceBaseline(
    advance: Advance, b: Book, original: Option<Snapshot>, post: Snapshot, result: Result): Book
  {
    match result
    case Structured(ok, rejected) =>
      var loaded :=
        if ok then Some(post)
        else if rejected != {} then advance(original, post, rejected)
        else b.loaded;
      b.(loaded := loaded, auth := if loaded.Some? then loaded else b.auth)
    case Plain(value) => if value then b.(loaded := Some(post), auth := Some(post)) else b
  }

  /** One worker that gets as far as the disk write. */
  function Apply(advance: Advance, b: Book, seqNo: nat, job: Job, result: Result): Book {
    var marked :=
      if RanMerge(result) && (job.key in b.lastApplied ==> b.lastApplied[job.key] < seqNo)
      then b.(lastApplied := b.lastApplied[job.key := seqNo])
      else b;
    AdvanceBaseline(advance, marked, b.loaded, job.post, result)
  }

  class CookiePersistence {
    const defaultPath: Option<Path>
    const canonical: Path -> Option<Path>
    const advance: Advance
    var saveSeq: nat
    var lastApplied: map<Path, nat>
    var loaded: Option<Snapshot>
    var auth: Option<Snapshot>  // the snapshot on the auth object

    function TheBook(): Book
      reads this
    {
      Book(lastApplied, loaded, auth)
    }

    constructor (auth: Option<Snapshot>, defaultPath: Option<Path>, canonical: Path -> Option<Path>, advance: Advance)
      ensures saveSeq == 0 && TheBook() == Book(map[], None, auth)
      ensures this.defaultPath == defaultPath && this.canonical == canonical && this.advance == advance
    {
      this.auth, this.defaultPath, this.canonical, this.advance := auth, defaultPath, canonical, advance;
      saveSeq, lastApplied, loaded := 0, map[], None;
    }

    method CaptureOpenSnapshot(jar: Snapshot)
      modifies this`loaded, this`auth
      ensures loaded == auth == Some(if old(auth).Some? then old(auth).value else jar)
    {
      loaded := if auth.Some? then auth else Some(jar);
      auth := loaded;
    }

    /** The part of `save` before the worker: nothing at all without a path, otherwise the number
        and the job that the worker will run with. */
    method Save(jar: Snapshot, path: Option<Path>) returns (dispatched: Option<(nat, Job)>)
      modifies this`saveSeq
      ensures path.None? && defaultPath.None? ==> dispatched.None? && saveSeq == old(saveSeq)
      ensures path.Some? || defaultPath.Some? ==>
                && dispatched.Some? && dispatched.value.0 == old(saveSeq) && saveSeq == old(saveSeq) + 1
                && var target := if path.Some? then path.value else defaultPath.value;
                   var job := dispatched.value.1;
                   job.path == target && job.post == jar
                   && job.key == if canonical(target).Some? then canonical(target).value else target
    {
      var effective := if path.Some? then path else defaultPath;
      if effective.None? {
        return None;
      }
      var savePath := effective.value;
      var saveKey := if canonical(savePath).Some? then canonical(savePath).value else savePath;
      var seqNo := saveSeq;
      saveSeq := saveSeq + 1;
      return Some((seqNo, Job(saveKey, savePath, jar)));
    }

    /** The worker, run under the lock; `writer` is the storage writer. */
    method RunWorker(seqNo: nat, job: Job, writer: (Job, Option<Snapshot>) -> Result) returns (wrote: bool)
      modifies this`lastApplied, this`loaded, this`auth
      ensures wrote <==> !Stale(old(TheBook()), job.key, seqNo)
      ensures TheBook() == if wrote then Apply(advance, old(TheBook()), seqNo, job, writer(job, old(loaded)))
                           else old(TheBook())
      // The marker rises to this dispatch if something was merged, refused keys or not, and stays otherwise.
      ensures wrote <==> (job.key in old(lastApplied) ==> old(lastApplied)[job.key] <= seqNo)
      ensures wrote && Merged(writer(job, old(loaded))) ==> lastApplied == old(lastApplied)[job.key := seqNo]
      ensures !(wrote && Merged(writer(job, old(loaded)))) ==> lastApplied == old(lastApplied)
      // The baseline becomes the new snapshot, or what can be said of it when keys were refused.
      ensures wrote ==>
                match writer(job, old(loaded))
                case Structured(true, _) => loaded == auth == Some(job.post)
                case Plain(true) => loaded == auth == Some(job.post)
                case Plain(false) => loaded == old(loaded) && auth == old(auth)
                case Structured(false, rejected) =>
                  && loaded == (if rejected == {} then old(loaded) else advance(old(loaded), job.post, rejected))
                  && auth == (if loaded.Some? then loaded else old(auth))
    {
      var last := if job.key in lastApplied then lastApplied[job.key] else -1;
      if seqNo < last {
        return false;
      }
      var snap := loaded;
      var result := writer(job, snap);
      if RanMerge(result) && seqNo > last {
        lastApplied := lastApplied[job.key := seqNo];
      }
      match result {
        case Structured(ok, rejected) =>
          if ok {
            loaded := Some(job.post);
          } else if rejected != {} {
            loaded := advance(snap, job.post, rejected);
          }
          if loaded.Some? {
            auth := loaded;
          }
        case Plain(value) =>
          if value {
            loaded := Some(job.post);
            auth := Some(job.post);
          }
      }
      return true;
    }
  }

  // ---------- Whole sessions ----------

  /** `Work(k, result)`: the worker of dispatch `k` gets the lock, `result` being what the
      writer answers if it is asked. */
  datatype Event = Save(job: Job) | Work(seqNo: nat, result: Result)

  /** `applied` lists the dispatches whose merge was applied, in order; `merging` those that ran
      with a writer willing to merge, whether or not they were dropped. */
  datatype Session = Session(
    book: Book, jobs: seq<Job>, ran: set<nat>, applied: seq<nat>, merging: set<nat>)

  predicate Enabled(s: Session, e: Event) {
    e.Work? ==> e.seqNo < |s.jobs| && e.seqNo !in s.ran
  }

  function Step(advance: Advance, s: Session, e: Event): Session {
    if !Enabled(s, e) then s
    else
      match e
      case Save(job) => s.(jobs := s.jobs + [job])
      case Work(k, result) =>
        var job := s.jobs[k];
        var stale := Stale(s.book, job.key, k);
        Session(
          if stale then s.book else Apply(advance, s.book, k, job, result),
          s.jobs,
          s.ran + {k},
          if !stale && RanMerge(result) then s.applied + [k] else s.applied,
          if RanMerge(result) then s.merging + {k} else s.merging)
  }

  /** A session from the moment the snapshot `open` was captured. */
  function Run(advance: Advance, open: Snapshot, events: seq<Event>): Session {
    if events == [] then Session(Book(map[], Some(open), Some(open)), [], {}, [], {})
    else Step(advance, Run(advance, open, events[..|events| - 1]), events[|events| - 1])
  }

  predicate SameKey(s: Session, i: nat, j: nat) {
    i < |s.jobs| && j < |s.jobs| && s.jobs[i].key == s.jobs[j].key
  }

  // ---------- The invariant ----------

  /** The marker of a path is the newest dispatch applied to it. */
  predicate MarkerInv(s: Session, key: Path) {
    && (key in s.book.lastApplied ==>
          var k := s.book.lastApplied[key]; k in s.applied && k < |s.jobs| && s.jobs[k].key == key)
    && (forall i :: 0 <= i < |s.applied| && s.applied[i] < |s.jobs| && s.jobs[s.applied[i]].key == key ==>
          key in s.book.lastApplied && s.applied[i] <= s.book.lastApplied[key])
  }

  /** Applied to one path, dispatch numbers only rise. */
  predicate Rising(s: Session) {
    forall i, j :: 0 <= i < j < |s.applied| && SameKey(s, s.applied[i], s.applied[j]) ==>
      s.applied[i] < s.applied[j]
  }

  predicate RanInv(s: Session, k: nat) {
    && (k in s.ran ==> k < |s.jobs|)
    && (k in s.applied ==> k in s.merging)
    && (k in s.merging ==> k in s.ran)
    && (k in s.merging && k < |s.jobs| ==>
          s.jobs[k].key in s.book.lastApplied && k <= s.book.lastApplied[s.jobs[k].key])
  }

  ghost predicate Inv(s: Session) {
    && (forall key :: MarkerInv(s, key))
    && (forall k: nat :: RanInv(s, k))
    && Rising(s)
  }

  lemma {:induction false} StepKeepsMarker(advance: Advance, s: Session, e: Event, t: Session, key: Path)
    requires Enabled(s, e) && t == Step(advance, s, e) && MarkerInv(s, key)
    requires e.Work? ==> MarkerInv(s, s.jobs[e.seqNo].key)
    requires forall i :: 0 <= i < |s.applied| ==> s.applied[i] < |s.jobs|
    ensures MarkerInv(t, key)
  {
  }

  lemma {:induction false} StepKeepsRan(advance: Advance, s: Session, e: Event, t: Session, k: nat)
    requires Enabled(s, e) && t == Step(advance, s, e) && RanInv(s, k)
    ensures RanInv(t, k)
  {
  }

  lemma {:induction false} StepKeepsRising(advance: Advance, s: Session, e: Event, t: Session)
    requires Enabled(s, e) && t == Step(advance, s, e) && Rising(s)
    requires e.Work? ==> MarkerInv(s, s.jobs[e.seqNo].key) && e.seqNo !in s.applied
    requires forall i :: 0 <= i < |s.applied| ==> s.applied[i] < |s.jobs|
    ensures Rising(t)
  {
    forall i, j | 0 <= i < j < |t.applied| && SameKey(t, t.applied[i], t.applied[j])
      ensures t.applied[i] < t.applied[j]
    {
      if j < |s.applied| {
        assert SameKey(s, s.applied[i], s.applied[j]);
      }
    }
  }

  lemma {:induction false} StepKeepsInv(advance: Advance, s: Session, e: Event, t: Session)
    requires Inv(s) && t == Step(advance, s, e)
    ensures Inv(t)
  {
    if Enabled(s, e) {
      forall i | 0 <= i < |s.applied| ensures s.applied[i] < |s.jobs| {
        assert RanInv(s, s.applied[i]);
      }
      assert e.Work? ==> MarkerInv(s, s.jobs[e.seqNo].key) && RanInv(s, e.seqNo);
      forall key ensures MarkerInv(t, key) {
        assert MarkerInv(s, key);
        StepKeepsMarker(advance, s, e, t, key);
      }
      forall k: nat ensures RanInv(t, k) {
        assert RanInv(s, k);
        StepKeepsRan(advance, s, e, t, k);
      }
      StepKeepsRising(advance, s, e, t);
    }
  }

  lemma {:induction false} RunKeepsInv(advance: Advance, open: Snapshot, events: seq<Event>)
    ensures Inv(Run(advance, open, events))
  {
    if events != [] {
      RunKeepsInv(advance, open, events[..|events| - 1]);
      StepKeepsInv(advance, Run(advance, open, events[..|events| - 1]), events[|events| - 1],
                   Run(advance, open, events));
    }
  }

  // ---------- What it promises, in every schedule ----------

  /** The dispatches applied to one path rise strictly, so no older jar is written over a newer. */
  lemma {:induction false} AppliedInOrder(advance: Advance, open: Snapshot, events: seq<Event>, i: nat, j: nat)
    requires var s := Run(advance, open, events);
             i < j < |s.applied| && SameKey(s, s.applied[i], s.applied[j])
    ensures var s := Run(advance, open, events); s.applied[i] < s.applied[j]
  {
    RunKeepsInv(advance, open, events);
  }

  /** A worker is dropped exactly when a newer dispatch was already applied to its own path. */
  lemma {:induction false} DroppedExactly(advance: Advance, open: Snapshot, events: seq<Event>, k: nat)
    requires k < |Run(advance, open, events).jobs|
    ensures var s := Run(advance, open, events);
            Stale(s.book, s.jobs[k].key, k) <==> exists a :: a in s.applied && a > k && SameKey(s, a, k)
  {
    RunKeepsInv(advance, open, events);
    var s := Run(advance, open, events);
    var key := s.jobs[k].key;
    assert MarkerInv(s, key);
    if a :| a in s.applied && a > k && SameKey(s, a, k) {
      assert Stale(s.book, key, k);
    }
    if Stale(s.book, key, k) {
      assert SameKey(s, s.book.lastApplied[key], k);
    }
  }

  /** Worker `k` would reach the writer now: it has been dispatched, has not run, and no newer dispatch
      has marked its path. */
  predicate Writes(s: Session, k: nat) {
    && k < |s.jobs| && k !in s.ran
    && (s.jobs[k].key in s.book.lastApplied ==> s.book.lastApplied[s.jobs[k].key] <= k)
  }

  /** A worker that may not write changes nothing; one that may is recorded as applied if anything was
      merged. */
  lemma {:induction false} WorkCounts(advance: Advance, s: Session, k: nat, r: Result, t: Session)
    requires t == Step(advance, s, Work(k, r))
    ensures t.jobs == s.jobs && t.ran == if k < |s.jobs| then s.ran + {k} else s.ran
    ensures !Writes(s, k) ==> t.book == s.book
    ensures t.applied == if Writes(s, k) && Merged(r) then s.applied + [k] else s.applied
  {
  }

  /** What one worker leaves behind: its mark, if anything was merged, and the baseline. */
  lemma {:induction false} WorkLeaves(advance: Advance, s: Session, k: nat, r: Result, t: Session)
    requires Writes(s, k) && t == Step(advance, s, Work(k, r))
    ensures t.book.lastApplied == if Merged(r) then s.book.lastApplied[s.jobs[k].key := k] else s.book.lastApplied
    ensures t.book.loaded ==
              match r
              case Structured(true, _) => Some(s.jobs[k].post)
              case Structured(false, rejected) =>
                if |rejected| > 0 then advance(s.book.loaded, s.jobs[k].post, rejected) else s.book.loaded
              case Plain(value) => if value then Some(s.jobs[k].post) else s.book.loaded
    ensures t.book.auth == if t.book.loaded.Some? && !(r.Plain? && !r.value) then t.book.loaded else s.book.auth
  {
  }

  lemma {:induction false} JobsStay(advance: Advance, open: Snapshot, events: seq<Event>, n: nat, k: nat)
    requires n <= |events| && k < |Run(advance, open, events[..n]).jobs|
    ensures k < |Run(advance, open, events).jobs|
    ensures Run(advance, open, events).jobs[k] == Run(advance, open, events[..n]).jobs[k]
    decreases |events|
  {
    if n < |events| {
      assert events[..|events| - 1][..n] == events[..n];
      JobsStay(advance, open, events[..|events| - 1], n, k);
    } else {
      assert events[..n] == events;
    }
  }

  /** After a worker has merged its jar, refused keys or not, no older dispatch writes to its path. */
  lemma {:induction false} NoOlderWrite(
    advance: Advance, open: Snapshot, events: seq<Event>, n: nat, k: nat, r: Result, j: nat)
    requires n < |events| && events[n] == Work(k, r) && Merged(r) && Writes(Run(advance, open, events[..n]), k)
    requires j < k && SameKey(Run(advance, open, events), j, k)
    ensures !Writes(Run(advance, open, events), j)
  {
    var before, after := Run(advance, open, events[..n]), Run(advance, open, events[..n + 1]);
    assert events[..n + 1][..n] == events[..n];
    WorkLeaves(advance, before, k, r, after);
    assert before.jobs[k].key in after.book.lastApplied && after.book.lastApplied[before.jobs[k].key] == k;
    JobsStay(advance, open, events, n, k);
    MarkersNeverFall(advance, open, events, n + 1, before.jobs[k].key);
  }

  /** Once every worker has run, the last write to each path comes from the newest dispatch whose
      save did not fail outright; if none failed, from the newest dispatch to that path. */
  lemma {:induction false} NewestWins(advance: Advance, open: Snapshot, events: seq<Event>, k: nat)
    requires k in Run(advance, open, events).merging
    ensures var s := Run(advance, open, events);
            && k < |s.jobs| && s.jobs[k].key in s.book.lastApplied
            && var last := s.book.lastApplied[s.jobs[k].key];
               && k <= last && last in s.applied && last in s.merging && SameKey(s, last, k)
               && forall i :: 0 <= i < |s.applied| && SameKey(s, s.applied[i], k) ==> s.applied[i] <= last
  {
    RunKeepsInv(advance, open, events);
    var s := Run(advance, open, events);
    assert RanInv(s, k);
    assert MarkerInv(s, s.jobs[k].key);
    var last := s.book.lastApplied[s.jobs[k].key];
    assert RanInv(s, last);
  }

  predicate NeverHardFails(events: seq<Event>) {
    forall i :: 0 <= i < |events| && events[i].Work? ==> RanMerge(events[i].result)
  }

  predicate NeverPartial(events: seq<Event>) {
    forall i :: 0 <= i < |events| && events[i].Work? ==> !Partial(events[i].result)
  }

  lemma {:induction false} AllMerging(advance: Advance, open: Snapshot, events: seq<Event>)
    requires NeverHardFails(events)
    ensures Run(advance, open, events).merging == Run(advance, open, events).ran
  {
    if events != [] {
      AllMerging(advance, open, events[..|events| - 1]);
    }
  }

  /** If no save fails outright, the last write to each path is its latest dispatch. */
  lemma {:induction false} LatestWins(advance: Advance, open: Snapshot, events: seq<Event>, k: nat)
    requires NeverHardFails(events)
    requires var s := Run(advance, open, events);
             && (forall j: nat :: j < |s.jobs| ==> j in s.ran)
             && k < |s.jobs| && (forall j :: k < j < |s.jobs| ==> !SameKey(s, j, k))
    ensures var s := Run(advance, open, events);
            && s.jobs[k].key in s.book.lastApplied && s.book.lastApplied[s.jobs[k].key] == k
            && k in s.applied
            && forall i :: 0 <= i < |s.applied| && SameKey(s, s.applied[i], k) ==> s.applied[i] <= k
  {
    AllMerging(advance, open, events);
    NewestWins(advance, open, events, k);
  }

  /** The numbers applied to a path never fall as a session goes on. */
  lemma {:induction false} MarkersNeverFall(advance: Advance, open: Snapshot, events: seq<Event>, n: nat, key: Path)
    requires n <= |events| && key in Run(advance, open, events[..n]).book.lastApplied
    ensures key in Run(advance, open, events).book.lastApplied
    ensures Run(advance, open, events[..n]).book.lastApplied[key] <= Run(advance, open, events).book.lastApplied[key]
    decreases |events|
  {
    if n < |events| {
      assert events[..|events| - 1][..n] == events[..n];
      MarkersNeverFall(advance, open, events[..|events| - 1], n, key);
    } else {
      assert events[..n] == events;
    }
  }

  // ---------- The baseline ----------

  /** Whatever the paths, the baseline is the snapshot of the save applied last. */
  lemma {:induction false} BaselineIsLastApplied(advance: Advance, open: Snapshot, events: seq<Event>)
    requires NeverPartial(events)
    ensures var s := Run(advance, open, events);
            && s.book.auth == s.book.loaded
            && (s.applied == [] ==> s.book.loaded == Some(open))
            && (s.applied != [] ==>
                  && s.applied[|s.applied| - 1] < |s.jobs|
                  && s.book.loaded == Some(s.jobs[s.applied[|s.applied| - 1]].post))
  {
    if events != [] {
      BaselineIsLastApplied(advance, open, events[..|events| - 1]);
    }
  }

  predicate OnePath(events: seq<Event>, key: Path) {
    forall i :: 0 <= i < |events| && events[i].Save? ==> events[i].job.key == key
  }

  lemma {:induction false} OnePathKeys(advance: Advance, open: Snapshot, events: seq<Event>, key: Path, k: nat)
    requires OnePath(events, key) && k < |Run(advance, open, events).jobs|
    ensures Run(advance, open, events).jobs[k].key == key
  {
    assert events != [];
    var e := events[|events| - 1];
    var before := Run(advance, open, events[..|events| - 1]);
    if k < |before.jobs| {
      OnePathKeys(advance, open, events[..|events| - 1], key, k);
    }
  }

  /** Whatever is applied, partial applies included, the auth object holds the baseline. */
  lemma {:induction false} AuthAgrees(advance: Advance, open: Snapshot, events: seq<Event>)
    requires forall original: Option<Snapshot>, post, rejected ::
               original.Some? ==> advance(original, post, rejected).Some?
    ensures var b := Run(advance, open, events).book; b.auth == b.loaded && b.loaded.Some?
  {
    if events != [] {
      AuthAgrees(advance, open, events[..|events| - 1]);
    }
  }

  // ---------- Moving back ----------

  /** The dispatch whose snapshot is the baseline, -1 for the one captured at open. */
  function BaselineFrom(s: Session): int {
    if s.applied == [] then -1 else s.applied[|s.applied| - 1]
  }

  /** From no moment of a session to a later one does the baseline go to an older dispatch. */
  ghost predicate NeverMovesBack(advance: Advance, open: Snapshot, events: seq<Event>) {
    forall m, n :: 0 <= m <= n <= |events| ==> NotBefore(advance, open, events, m, n)
  }

  predicate NotBefore(advance: Advance, open: Snapshot, events: seq<Event>, m: nat, n: nat)
    requires m <= n <= |events|
  {
    BaselineFrom(Run(advance, open, events[..m])) <= BaselineFrom(Run(advance, open, events[..n]))
  }

  predicate OneKey(jobs: seq<Job>) {
    forall i, j :: 0 <= i < j < |jobs| ==> jobs[i].key == jobs[j].key
  }

  lemma {:induction false} AppliedGrows(advance: Advance, open: Snapshot, events: seq<Event>, n: nat)
    requires n <= |events|
    ensures Run(advance, open, events[..n]).applied <= Run(advance, open, events).applied
    decreases |events|
  {
    if n < |events| {
      assert events[..|events| - 1][..n] == events[..n];
      AppliedGrows(advance, open, events[..|events| - 1], n);
    } else {
      assert events[..n] == events;
    }
  }

  /** With one path it never does. */
  lemma {:induction false} OnePathNeverMovesBack(advance: Advance, open: Snapshot, events: seq<Event>)
    requires OneKey(Run(advance, open, events).jobs)
    ensures NeverMovesBack(advance, open, events)
  {
    forall m, n | 0 <= m <= n <= |events| ensures NotBefore(advance, open, events, m, n) {
      var s := Run(advance, open, events);
      var now, later := Run(advance, open, events[..m]).applied, Run(advance, open, events[..n]).applied;
      RunKeepsInv(advance, open, events);
      AppliedGrows(advance, open, events, n);
      assert events[..n][..m] == events[..m];
      AppliedGrows(advance, open, events[..n], m);
      if now != [] {
        var i, j := |now| - 1, |later| - 1;
        assert s.applied[i] == now[i] && s.applied[j] == later[j];
        assert RanInv(s, now[i]) && RanInv(s, later[j]);
        assert i < j ==> SameKey(s, s.applied[i], s.applied[j]);
      }
    }
  }

  /** With one path the baseline is the snapshot of the dispatch in its marker, and it never moves back
      to an older one. */
  lemma {:induction false} BaselineIsMarker(advance: Advance, open: Snapshot, events: seq<Event>, key: Path)
    requires NeverPartial(events) && OnePath(events, key)
    ensures var s := Run(advance, open, events);
            && s.book.auth == s.book.loaded
            && (key !in s.book.lastApplied ==> s.book.loaded == Some(open))
            && (key in s.book.lastApplied ==>
                  && s.book.lastApplied[key] < |s.jobs|
                  && s.book.loaded == Some(s.jobs[s.book.lastApplied[key]].post))
            && NeverMovesBack(advance, open, events)
  {
    RunKeepsInv(advance, open, events);
    BaselineIsLastApplied(advance, open, events);
    var s := Run(advance, open, events);
    forall i, j | 0 <= i < j < |s.jobs| ensures s.jobs[i].key == s.jobs[j].key {
      OnePathKeys(advance, open, events, key, i);
      OnePathKeys(advance, open, events, key, j);
    }
    OnePathNeverMovesBack(advance, open, events);
    assert MarkerInv(s, key);
    if s.applied != [] {
      var last := s.applied[|s.applied| - 1];
      OnePathKeys(advance, open, events, key, last);
    }
    if key in s.book.lastApplied {
      var marker, last := s.book.lastApplied[key], s.applied[|s.applied| - 1];
      var i :| 0 <= i < |s.applied| && s.applied[i] == marker;
      assert SameKey(s, marker, last);
    }
  }

  function Dispatches(jobs: seq<Job>): seq<Event> {
    seq(|jobs|, i requires 0 <= i < |jobs| => Save(jobs[i]))
  }

  lemma {:induction false} OnlyDispatched(advance: Advance, open: Snapshot, jobs: seq<Job>)
    ensures Run(advance, open, Dispatches(jobs)) == Session(Book(map[], Some(open), Some(open)), jobs, {}, [], {})
  {
    if jobs != [] {
      var earlier := jobs[..|jobs| - 1];
      assert Dispatches(jobs)[..|jobs| - 1] == Dispatches(earlier);
      OnlyDispatched(advance, open, earlier);
      assert jobs == earlier + [jobs[|jobs| - 1]];
    }
  }

  /** All saves dispatched, then two workers, the later dispatch first. */
  function LateFirst(jobs: seq<Job>, i: nat, j: nat): seq<Event> {
    Dispatches(jobs) + [Work(j, Structured(true, {})), Work(i, Structured(true, {}))]
  }

  lemma {:induction false} LateFirstMovesBack(advance: Advance, open: Snapshot, jobs: seq<Job>, i: nat, j: nat)
    requires i < j < |jobs| && jobs[i].key != jobs[j].key
    ensures Run(advance, open, LateFirst(jobs, i, j)).jobs == jobs
    ensures !NeverMovesBack(advance, open, LateFirst(jobs, i, j)) && NeverPartial(LateFirst(jobs, i, j))
  {
    var done, saves, events := Structured(true, {}), Dispatches(jobs), LateFirst(jobs, i, j);
    var n := |jobs|;
    OnlyDispatched(advance, open, jobs);
    assert events[..n] == saves && events[..n + 1] == saves + [Work(j, done)] && events[..n + 2] == events;
    assert events[..n + 1][..n] == saves && events[..n + 2][..n + 1] == events[..n + 1];
    var s0 := Run(advance, open, saves);
    var s1 := Run(advance, open, events[..n + 1]);
    assert s1 == Step(advance, s0, Work(j, done)) && s1.applied == [j];
    var s2 := Run(advance, open, events);
    assert s2 == Step(advance, s1, Work(i, done)) && s2.applied == [j, i];
    assert !NotBefore(advance, open, events, n + 1, n + 2);
  }

  /** Whatever is dispatched, the baseline can never move back, in any schedule and with any outcomes,
      exactly when all saves go to one path. */
  lemma {:induction false} MovesBackExactly(advance: Advance, open: Snapshot, jobs: seq<Job>)
    ensures (forall events :: Run(advance, open, events).jobs == jobs && NeverPartial(events) ==>
               NeverMovesBack(advance, open, events))
       <==> OneKey(jobs)
  {
    if OneKey(jobs) {
      forall events | Run(advance, open, events).jobs == jobs ensures NeverMovesBack(advance, open, events) {
        OnePathNeverMovesBack(advance, open, events);
      }
    } else {
      var i, j :| 0 <= i < j < |jobs| && jobs[i].key != jobs[j].key;
      LateFirstMovesBack(advance, open, jobs, i, j);
    }
  }

  /** With two paths it can move back: the save dispatched first may be applied last. */
  lemma {:induction false} TwoPathsMoveBack(advance: Advance, open: Snapshot, older: Job, newer: Job)
    requires older.key != newer.key
    ensures var done := Structured(true, {});
            var before := Run(advance, open, [Save(older), Save(newer), Work(1, done)]);
            var after := Run(advance, open, [Save(older), Save(newer), Work(1, done), Work(0, done)]);
            before.book.loaded == Some(newer.post) && after.book.loaded == Some(older.post)
  {
    var done := Structured(true, {});
    var e0, e1, e2, e3 := Save(older), Save(newer), Work(1, done), Work(0, done);
    assert [e0][..0] == [] && [e0, e1][..1] == [e0];
    assert [e0, e1, e2][..2] == [e0, e1] && [e0, e1, e2, e3][..3] == [e0, e1, e2];
    var s1 := Run(advance, open, [e0]);
    assert s1 == Step(advance, Run(advance, open, []), e0);
    var s2 := Run(advance, open, [e0, e1]);
    assert s2 == Step(advance, s1, e1);
    var s3 := Run(advance, open, [e0, e1, e2]);
    assert s3 == Step(advance, s2, e2);
    assert Run(advance, open, [e0, e1, e2, e3]) == Step(advance, s3, e3);
  }
}
