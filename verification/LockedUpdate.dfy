/**
 The locked read-modify-write of src/notebooklm/_atomic_io.py.

 `JsonFile.AtomicUpdateJson` is one call running alone.  The rest of the module lets any
 number of calls run in separate processes, one system call at a time, with holders that
 raise, time out or die, and shows that the file is always what the committed calls would
 have made of it running alone, one after another, in the order they took the lock.
 */
module LockedUpdate {
  import opened Options

  type Fields = map<string, string>

  datatype Content = Missing | Corrupt | NotObject | Object(fields: Fields)

  /** One call; a mutator that raises returns `None`. */
  datatype Call = Call(mutator: Fields -> Option<Fields>, recoverFromCorrupt: bool)

  /** What the call reads from the file, `None` if it raises. */
  function Load(call: Call, content: Content): Option<Fields> {
    match content
    case Object(fields) => Some(fields)
    case Corrupt => if call.recoverFromCorrupt then Some(map[]) else None
    case _ => Some(map[])
  }

  /** What the call makes of the file when nothing interferes, `None` if it raises. */
  function UpdateAlone(call: Call, content: Content): Option<Content> {
    match Load(call, content)
    case None => None
    case Some(current) =>
      match call.mutator(current)
      case None => None
      case Some(updated) => Some(Object(updated))
  }

  const STORAGE_STATE := "storage_state.json"

  datatype UpdateError = WrongFile | OsError | TimedOut | DecodeError | MutatorError

  /** What goes wrong outside the call's own logic. */
  datatype Faults = Faults(mkdirFails: bool, timesOut: bool, readFails: bool, writeFails: bool)

  class JsonFile {
    const foldedName: string
    var content: Content

    constructor (foldedName: string, content: Content)
      ensures this.foldedName == foldedName && this.content == content
    {
      this.foldedName := foldedName;
      this.content := content;
    }

    method AtomicUpdateJson(call: Call, faults: Faults) returns (error: Option<UpdateError>)
      modifies this`content
      ensures error.None? <==>
                && foldedName != STORAGE_STATE && !faults.mkdirFails && !faults.timesOut
                && !(faults.readFails && old(content) != Missing)
                && UpdateAlone(call, old(content)).Some? && !faults.writeFails
      ensures content == if error.None? then UpdateAlone(call, old(content)).value else old(content)
      // The mutator gets the file's object, or an empty one if there is none; text that is no JSON is
      // fatal unless the caller asked to recover.
      ensures error.None? ==>
                && content.Object? && (old(content) == Corrupt ==> call.recoverFromCorrupt)
                && call.mutator(if old(content).Object? then old(content).fields else map[]) == Some(content.fields)
      ensures error == Some(WrongFile) <==> foldedName == "storage_state.json"
      ensures error == Some(DecodeError) ==> old(content) == Corrupt && !call.recoverFromCorrupt
      ensures error == Some(MutatorError) ==>
                call.mutator(if old(content).Object? then old(content).fields else map[]).None?
    {
      if foldedName == STORAGE_STATE {
        return Some(WrongFile);
      }
      if faults.mkdirFails {
        return Some(OsError);
      }
      if faults.timesOut {
        return Some(TimedOut);
      }
      var current: Fields := map[];
      if content != Missing {
        if faults.readFails {
          return Some(OsError);
        }
        match content {
          case Object(fields) => current := fields;
          case NotObject => current := map[];
          case _ =>
            if !call.recoverFromCorrupt {
              return Some(DecodeError);
            }
        }
      }
      var updated := call.mutator(current);
      if updated.None? {
        return Some(MutatorError);
      }
      if faults.writeFails {
        return Some(OsError);
      }
      content := Object(updated.value);
      return None;
    }
  }

  // ---------- Many processes ----------

  datatype Phase =
    | Waiting | Locked | HasRead(current: Fields) | HasMutated(updated: Fields)
    | Committed | Unwinding            // these four and `Locked` hold the lock
    | Returned | Raised | Dead

  predicate HoldsLock(phase: Phase) {
    phase.Locked? || phase.HasRead? || phase.HasMutated? || phase.Committed? || phase.Unwinding?
  }

  predicate Ended(phase: Phase) {
    phase.Returned? || phase.Raised? || phase.Dead?
  }

  /** `locked` and `commits` only record who took the lock and who replaced the file. */
  datatype State = State(
    file: Content, holder: Option<nat>, phases: seq<Phase>, locked: seq<nat>, commits: seq<nat>)

  /** What process `p` may do next; a dead holder's lock is freed by the system. */
  datatype Event =
    | Acquire(p: nat) | Timeout(p: nat) | ReadFile(p: nat) | ReadFails(p: nat) | Mutate(p: nat)
    | Replace(p: nat) | WriteFails(p: nat) | Release(p: nat) | Crash(p: nat)

  predicate Enabled(s: State, e: Event) {
    && e.p < |s.phases|
    && match e
       case Acquire(p) => s.phases[p].Waiting? && s.holder.None?
       case Timeout(p) => s.phases[p].Waiting?
       case ReadFile(p) => s.phases[p].Locked?
       case ReadFails(p) => s.phases[p].Locked?
       case Mutate(p) => s.phases[p].HasRead?
       case Replace(p) => s.phases[p].HasMutated?
       case WriteFails(p) => s.phases[p].HasMutated?
       case Release(p) => s.phases[p].Committed? || s.phases[p].Unwinding?
       case Crash(p) => !Ended(s.phases[p])
  }

  function NextPhase(calls: seq<Call>, s: State, e: Event): Phase
    requires Enabled(s, e) && |calls| == |s.phases|
  {
    var phase := s.phases[e.p];
    match e
    case Acquire(p) => Locked
    case Timeout(p) => Raised
    case ReadFile(p) =>
      var loaded := Load(calls[p], s.file);
      if loaded.Some? then HasRead(loaded.value) else Unwinding
    case ReadFails(p) => Unwinding
    case Mutate(p) =>
      var updated := calls[p].mutator(phase.current);
      if updated.Some? then HasMutated(updated.value) else Unwinding
    case Replace(p) => Committed
    case WriteFails(p) => Unwinding
    case Release(p) => if phase.Committed? then Returned else Raised
    case Crash(p) => Dead
  }

  function Step(calls: seq<Call>, s: State, e: Event): State
    requires |calls| == |s.phases|
  {
    if !Enabled(s, e) then s
    else
      var phase := s.phases[e.p];
      var next := NextPhase(calls, s, e);
      State(
        if e.Replace? then Object(phase.updated) else s.file,
        if HoldsLock(next) then Some(e.p) else if HoldsLock(phase) then None else s.holder,
        s.phases[e.p := next],
        if e.Acquire? then s.locked + [e.p] else s.locked,
        if e.Replace? then s.commits + [e.p] else s.commits)
  }

  function Run(calls: seq<Call>, initial: Content, events: seq<Event>): (s: State)
    ensures |s.phases| == |calls|
  {
    if events == [] then State(initial, None, seq(|calls|, _ => Waiting), [], [])
    else Step(calls, Run(calls, initial, events[..|events| - 1]), events[|events| - 1])
  }

  /** The calls of `order` running alone, one after another. */
  function Serially(calls: seq<Call>, initial: Content, order: seq<nat>): Option<Content> {
    if order == [] then Some(initial)
    else
      var before := Serially(calls, initial, order[..|order| - 1]);
      var p := order[|order| - 1];
      if before.None? || |calls| <= p then None else UpdateAlone(calls[p], before.value)
  }

  function Only(order: seq<nat>, keep: seq<nat>): seq<nat> {
    if order == [] then []
    else
      var p := order[|order| - 1];
      Only(order[..|order| - 1], keep) + (if p in keep then [p] else [])
  }

  // ---------- The invariant ----------

  predicate LockInv(s: State) {
    && (s.holder.Some? ==> s.holder.value < |s.phases|)
    && forall p :: 0 <= p < |s.phases| ==> (HoldsLock(s.phases[p]) <==> s.holder == Some(p))
  }

  /** What the holder has in hand was computed from the file as it still is. */
  predicate Fresh(call: Call, file: Content, phase: Phase) {
    match phase
    case HasRead(current) => Load(call, file) == Some(current)
    case HasMutated(updated) => UpdateAlone(call, file) == Some(Object(updated))
    case _ => true
  }

  predicate OutcomeInv(s: State, p: nat)
    requires p < |s.phases|
  {
    var phase := s.phases[p];
    && (phase.Committed? || phase.Returned? ==> p in s.commits)
    && (!phase.Committed? && !phase.Returned? && !phase.Dead? ==> p !in s.commits)
    && (phase.Waiting? ==> p !in s.locked)
    && (HoldsLock(phase) ==> s.locked != [] && s.locked[|s.locked| - 1] == p)
    && (p in s.commits ==> p in s.locked)
  }

  predicate Distinct(order: seq<nat>) {
    forall i, j :: 0 <= i < j < |order| ==> order[i] != order[j]
  }

  predicate Below(order: seq<nat>, n: nat) {
    forall i :: 0 <= i < |order| ==> order[i] < n
  }

  /** The file is what the committed calls make of it alone, in the order of the lock. */
  predicate OrderInv(calls: seq<Call>, initial: Content, file: Content, locked: seq<nat>, commits: seq<nat>) {
    && Below(locked, |calls|)
    && Distinct(locked)
    && Serially(calls, initial, commits) == Some(file)
    && commits == Only(locked, commits)
  }

  ghost predicate ProcessInv(calls: seq<Call>, s: State, p: nat) {
    p < |calls| && p < |s.phases| ==> Fresh(calls[p], s.file, s.phases[p]) && OutcomeInv(s, p)
  }

  ghost predicate Inv(calls: seq<Call>, initial: Content, s: State) {
    && |s.phases| == |calls|
    && LockInv(s)
    && (forall p: nat :: ProcessInv(calls, s, p))
    && OrderInv(calls, initial, s.file, s.locked, s.commits)
  }

  lemma {:induction false} OnlyIgnores(order: seq<nat>, keep: seq<nat>, p: nat)
    requires p !in order
    ensures Only(order, keep + [p]) == Only(order, keep)
  {
    if order != [] {
      OnlyIgnores(order[..|order| - 1], keep, p);
    }
  }

  lemma {:induction false} StepKeepsLock(calls: seq<Call>, s: State, e: Event, t: State)
    requires |calls| == |s.phases| && LockInv(s) && Enabled(s, e) && t == Step(calls, s, e)
    ensures LockInv(t)
  {
    assert HoldsLock(s.phases[e.p]) <==> s.holder == Some(e.p);
    forall p | 0 <= p < |t.phases| ensures HoldsLock(t.phases[p]) <==> t.holder == Some(p) {
      assert HoldsLock(s.phases[p]) <==> s.holder == Some(p);
    }
  }

  lemma {:induction false} StepKeepsFresh(calls: seq<Call>, s: State, e: Event, t: State, p: nat)
    requires |calls| == |s.phases| && LockInv(s) && Enabled(s, e) && t == Step(calls, s, e) && p < |calls|
    requires Fresh(calls[p], s.file, s.phases[p])
    ensures Fresh(calls[p], t.file, t.phases[p])
  {
    if p != e.p {
      assert t.phases[p] == s.phases[p];
      assert HoldsLock(s.phases[p]) <==> s.holder == Some(p);
      assert HoldsLock(s.phases[e.p]) <==> s.holder == Some(e.p);
    }
  }

  lemma {:induction false} StepKeepsOutcome(calls: seq<Call>, s: State, e: Event, t: State, p: nat)
    requires |calls| == |s.phases| && LockInv(s) && Enabled(s, e) && t == Step(calls, s, e) && p < |calls|
    requires OutcomeInv(s, p)
    ensures OutcomeInv(t, p)
  {
    if p != e.p {
      assert t.phases[p] == s.phases[p];
      assert HoldsLock(s.phases[p]) <==> s.holder == Some(p);
    }
  }

  lemma {:induction false} LockKeepsOrder(
    calls: seq<Call>, initial: Content, file: Content, locked: seq<nat>, commits: seq<nat>, p: nat)
    requires OrderInv(calls, initial, file, locked, commits)
    requires p < |calls| && p !in locked && p !in commits
    ensures OrderInv(calls, initial, file, locked + [p], commits)
  {
    assert (locked + [p])[..|locked|] == locked;
    assert Only(locked + [p], commits) == Only(locked, commits) + [];
  }

  /** The committing process is the one that locked last, so commit order is lock order. */
  lemma {:induction false} CommitKeepsOrder(
    calls: seq<Call>, initial: Content, file: Content, locked: seq<nat>, commits: seq<nat>, p: nat, next: Content)
    requires OrderInv(calls, initial, file, locked, commits)
    requires p < |calls| && p !in commits && locked != [] && locked[|locked| - 1] == p
    requires UpdateAlone(calls[p], file) == Some(next)
    ensures OrderInv(calls, initial, next, locked, commits + [p])
  {
    var earlier := locked[..|locked| - 1];
    OnlyIgnores(earlier, commits, p);
    assert Only(locked, commits) == Only(earlier, commits) + [];
    assert (commits + [p])[..|commits|] == commits;
  }

  lemma {:induction false} StepKeepsOrder(calls: seq<Call>, initial: Content, s: State, e: Event, t: State)
    requires |calls| == |s.phases| && Enabled(s, e) && t == Step(calls, s, e)
    requires OutcomeInv(s, e.p) && Fresh(calls[e.p], s.file, s.phases[e.p])
    requires OrderInv(calls, initial, s.file, s.locked, s.commits)
    ensures OrderInv(calls, initial, t.file, t.locked, t.commits)
  {
    if e.Replace? {
      CommitKeepsOrder(calls, initial, s.file, s.locked, s.commits, e.p, t.file);
    } else if e.Acquire? {
      LockKeepsOrder(calls, initial, s.file, s.locked, s.commits, e.p);
    }
  }

  lemma {:induction false} StepKeepsInv(calls: seq<Call>, initial: Content, s: State, e: Event, t: State)
    requires Inv(calls, initial, s) && t == Step(calls, s, e)
    ensures Inv(calls, initial, t)
  {
    if Enabled(s, e) {
      assert ProcessInv(calls, s, e.p);
      StepKeepsLock(calls, s, e, t);
      StepKeepsOrder(calls, initial, s, e, t);
      forall p: nat ensures ProcessInv(calls, t, p) {
        assert ProcessInv(calls, s, p);
        if p < |calls| {
          StepKeepsFresh(calls, s, e, t, p);
          StepKeepsOutcome(calls, s, e, t, p);
        }
      }
    }
  }

  lemma {:induction false} RunKeepsInv(calls: seq<Call>, initial: Content, events: seq<Event>)
    ensures Inv(calls, initial, Run(calls, initial, events))
  {
    if events != [] {
      RunKeepsInv(calls, initial, events[..|events| - 1]);
      StepKeepsInv(calls, initial, Run(calls, initial, events[..|events| - 1]), events[|events| - 1],
                   Run(calls, initial, events));
    }
  }

  // ---------- What it promises ----------

  lemma {:induction false} OnlyDistinct(order: seq<nat>, keep: seq<nat>)
    requires Distinct(order)
    ensures Distinct(Only(order, keep)) && forall p :: p in Only(order, keep) ==> p in order
  {
    if order != [] {
      OnlyDistinct(order[..|order| - 1], keep);
      assert order[|order| - 1] !in order[..|order| - 1];
    }
  }

  /** No committed update is lost: every interleaving leaves the file as the committed calls
      would have left it alone, in lock order; a call that returned committed exactly once and
      a call that raised not at all. */
  lemma {:induction false} NoLostUpdate(calls: seq<Call>, initial: Content, events: seq<Event>)
    ensures var s := Run(calls, initial, events);
            && Serially(calls, initial, s.commits) == Some(s.file)
            && s.commits == Only(s.locked, s.commits) && Distinct(s.locked) && Distinct(s.commits)
            && (forall p :: 0 <= p < |calls| && s.phases[p].Returned? ==> p in s.commits)
            && (forall p :: 0 <= p < |calls| && s.phases[p].Raised? ==> p !in s.commits)
  {
    RunKeepsInv(calls, initial, events);
    var s := Run(calls, initial, events);
    OnlyDistinct(s.locked, s.commits);
    forall p | 0 <= p < |calls|
      ensures (s.phases[p].Returned? ==> p in s.commits) && (s.phases[p].Raised? ==> p !in s.commits)
    {
      assert ProcessInv(calls, s, p);
    }
  }

  /** At most one process is between taking and giving back the lock. */
  lemma {:induction false} OneHolder(calls: seq<Call>, initial: Content, events: seq<Event>, p: nat, q: nat)
    requires p < |calls| && q < |calls|
    requires HoldsLock(Run(calls, initial, events).phases[p]) && HoldsLock(Run(calls, initial, events).phases[q])
    ensures p == q
  {
    RunKeepsInv(calls, initial, events);
    assert LockInv(Run(calls, initial, events));
  }

  /** The next event of a process that is never refused, raised upon or killed. */
  function Onward(phase: Phase, p: nat): Event {
    match phase
    case Waiting => Acquire(p)
    case Locked => ReadFile(p)
    case HasRead(_) => Mutate(p)
    case HasMutated(_) => Replace(p)
    case _ => Release(p)
  }

  function Remaining(phase: Phase): nat {
    match phase
    case Waiting => 5
    case Locked => 4
    case HasRead(_) => 3
    case HasMutated(_) => 2
    case Committed => 1
    case Unwinding => 1
    case _ => 0
  }

  function TotalRemaining(phases: seq<Phase>): nat {
    if phases == [] then 0 else TotalRemaining(phases[..|phases| - 1]) + Remaining(phases[|phases| - 1])
  }

  lemma {:induction false} TotalDrops(phases: seq<Phase>, p: nat, next: Phase)
    requires p < |phases|
    ensures TotalRemaining(phases[p := next]) == TotalRemaining(phases) - Remaining(phases[p]) + Remaining(next)
  {
    var last := |phases| - 1;
    if p < last {
      assert phases[p := next][..last] == phases[..last][p := next];
      TotalDrops(phases[..last], p, next);
    } else {
      assert phases[p := next][..last] == phases[..last];
    }
  }

  /** Someone still under way can always go on: the holder, or else anyone waiting. */
  lemma {:induction false} SomeoneGoesOn(calls: seq<Call>, s: State, p: nat) returns (q: nat)
    requires |calls| == |s.phases| && LockInv(s) && p < |s.phases| && !Ended(s.phases[p])
    ensures q < |s.phases| && Enabled(s, Onward(s.phases[q], q))
    ensures TotalRemaining(Step(calls, s, Onward(s.phases[q], q)).phases) < TotalRemaining(s.phases)
  {
    q := if s.holder.Some? then s.holder.value else p;
    var e := Onward(s.phases[q], q);
    TotalDrops(s.phases, q, NextPhase(calls, s, e));
  }

  /** Nothing wedges: after any prefix, whoever crashed in it, the calls still under way can
      all be run to their end without a timeout. */
  lemma {:induction false} NeverWedged(calls: seq<Call>, initial: Content, events: seq<Event>)
    returns (rest: seq<Event>)
    ensures forall p :: 0 <= p < |calls| ==> Ended(Run(calls, initial, events + rest).phases[p])
    ensures forall e :: e in rest ==> !e.Timeout? && !e.Crash? && !e.ReadFails? && !e.WriteFails?
    decreases TotalRemaining(Run(calls, initial, events).phases)
  {
    var s := Run(calls, initial, events);
    RunKeepsInv(calls, initial, events);
    if p :| 0 <= p < |calls| && !Ended(s.phases[p]) {
      var q := SomeoneGoesOn(calls, s, p);
      var e := Onward(s.phases[q], q);
      assert (events + [e])[..|events|] == events;
      var later := NeverWedged(calls, initial, events + [e]);
      rest := [e] + later;
      assert events + rest == (events + [e]) + later;
    } else {
      rest := [];
      assert events + rest == events;
    }
  }

  // ---------- What one call does, and what may go wrong ----------

  /** The next step of a call that nothing disturbs. */
  function Go(calls: seq<Call>, s: State, p: nat): (t: State)
    requires |calls| == |s.phases| && p < |s.phases|
    ensures |t.phases| == |s.phases|
  {
    Step(calls, s, Onward(s.phases[p], p))
  }

  /** Steps of `p` change no other process. */
  lemma {:induction false} GoTouches(calls: seq<Call>, s: State, p: nat, q: nat)
    requires |calls| == |s.phases| && p < |s.phases| && q < |s.phases| && q != p
    ensures Go(calls, s, p).phases[q] == s.phases[q]
  {
  }

  /** A call that waits for a free lock and then takes five steps does to the file what it does alone; it
      returns exactly if it does not raise alone, and the lock is free again. */
  lemma {:induction false} CallGoesThrough(calls: seq<Call>, s: State, p: nat, t: State)
    requires |calls| == |s.phases| && p < |calls| && s.phases[p].Waiting? && s.holder.None?
    requires t == Go(calls, Go(calls, Go(calls, Go(calls, Go(calls, s, p), p), p), p), p)
    ensures t.holder.None? && t.locked == s.locked + [p]
    ensures UpdateAlone(calls[p], s.file).Some? ==>
              && t.phases[p].Returned? && t.commits == s.commits + [p]
              && t.file == UpdateAlone(calls[p], s.file).value
    ensures UpdateAlone(calls[p], s.file).None? ==>
              t.phases[p].Raised? && t.commits == s.commits && t.file == s.file
    ensures forall q :: 0 <= q < |s.phases| && q != p ==> t.phases[q] == s.phases[q]
  {
    var s1 := Go(calls, s, p);
    var s2 := Go(calls, s1, p);
    var s3 := Go(calls, s2, p);
    var s4 := Go(calls, s3, p);
    forall q | 0 <= q < |s.phases| && q != p ensures t.phases[q] == s.phases[q] {
      GoTouches(calls, s, p, q);
      GoTouches(calls, s1, p, q);
      GoTouches(calls, s2, p, q);
      GoTouches(calls, s3, p, q);
      GoTouches(calls, s4, p, q);
    }
  }

  /** The file, and what is recorded of it, is as it was, and so is every other process. */
  predicate OnlyTouches(s: State, t: State, p: nat) {
    && t.file == s.file && t.commits == s.commits && t.locked == s.locked && |t.phases| == |s.phases|
    && forall q :: 0 <= q < |s.phases| && q != p ==> t.phases[q] == s.phases[q]
  }

  /** Without a fault a process can only take its next step. */
  lemma {:induction false} OneWayOn(calls: seq<Call>, s: State, e: Event)
    requires |calls| == |s.phases| && e.p < |calls|
    requires e != Onward(s.phases[e.p], e.p) && !e.Timeout? && !e.ReadFails? && !e.WriteFails? && !e.Crash?
    ensures Step(calls, s, e) == s
  {
  }

  /** The lock may be refused to a waiting call, the file may turn out unreadable or unwritable, and a
      process may die anywhere: none of it touches the file, and the lock is free again afterwards. */
  lemma {:induction false} MayFail(calls: seq<Call>, s: State, p: nat)
    requires |calls| == |s.phases| && p < |calls| && LockInv(s)
    ensures s.phases[p].Waiting? ==>
              var t := Step(calls, s, Timeout(p)); t.phases[p].Raised? && OnlyTouches(s, t, p) && t.holder == s.holder
    ensures s.phases[p].Locked? ==>
              var t := Step(calls, Step(calls, s, ReadFails(p)), Release(p));
              t.phases[p].Raised? && OnlyTouches(s, t, p) && t.holder.None?
    ensures s.phases[p].HasMutated? ==>
              var t := Step(calls, Step(calls, s, WriteFails(p)), Release(p));
              t.phases[p].Raised? && OnlyTouches(s, t, p) && t.holder.None?
    ensures !Ended(s.phases[p]) ==>
              var t := Step(calls, s, Crash(p));
              && t.phases[p].Dead? && OnlyTouches(s, t, p)
              && t.holder == if s.holder == Some(p) then None else s.holder
    ensures !s.phases[p].Waiting? ==> Step(calls, s, Timeout(p)) == s
    ensures !s.phases[p].Locked? ==> Step(calls, s, ReadFails(p)) == s
    ensures !s.phases[p].HasMutated? ==> Step(calls, s, WriteFails(p)) == s
    ensures Ended(s.phases[p]) ==> forall e: Event :: e.p == p ==> Step(calls, s, e) == s
  {
    assert HoldsLock(s.phases[p]) <==> s.holder == Some(p);
  }
}
