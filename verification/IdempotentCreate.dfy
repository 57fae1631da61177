/**
 Probe-then-retry creation and the policy registry of src/notebooklm/_idempotency.py.

 The server may commit a request and still fail to say so.  `Creator.IdempotentCreate` is the
 retry loop; `AtMostOneCommit` is what the probe buys, and `AtMostOneExactly` shows that it needs
 the transport's own retries off, which the registry's policy enforces.
 */
module IdempotentCreate {
  import opened Options

  /** What becomes of one request: whether it is committed and what the caller hears of it.
      `Garbled` is a committed request whose answer cannot be decoded. */
  datatype Reply = Done | Lost | Dropped | Garbled | Refused

  predicate Commits(r: Reply) {
    r.Done? || r.Lost? || r.Garbled?
  }

  /** Heard as one of the retryable transport errors. */
  predicate Transport(r: Reply) {
    r.Lost? || r.Dropped?
  }

  /** The resource made by a request is known by the number of that request. */
  datatype Server = Server(requests: nat, commits: seq<nat>)

  type Script = nat -> Reply

  function Request(script: Script, s: Server): Server {
    Server(s.requests + 1, if Commits(script(s.requests)) then s.commits + [s.requests] else s.commits)
  }

  /** One `rpc_call`: the transport repeats a failed request up to `retries` times unless told not to. */
  function Rpc(script: Script, s: Server, disabled: bool, retries: nat): (r: (Server, Reply))
    ensures r.0.requests > s.requests
    decreases retries
  {
    var reply, after := script(s.requests), Request(script, s);
    if Transport(reply) && !disabled && retries > 0 then Rpc(script, after, disabled, retries - 1)
    else (after, reply)
  }

  datatype Outcome =
    | Created(resource: nat) | Probed(resource: nat)
    | TransportFailed | Failed | ProbeFailed | BadArgument

  /** An accurate probe that may itself fail: `probeFails(n)` is its fate after `n` requests. */
  function CreateFrom(
    script: Script, probeFails: nat -> bool, s: Server, attempts: nat, disabled: bool, retries: nat)
    : (Server, Outcome)
    decreases attempts
  {
    if attempts == 0 then (s, TransportFailed)
    else
      var (after, reply) := Rpc(script, s, disabled, retries);
      if reply.Done? then (after, Created(after.requests - 1))
      else if !Transport(reply) then (after, Failed)
      else if probeFails(after.requests) then (after, ProbeFailed)
      else if after.commits != [] then (after, Probed(after.commits[0]))
      else CreateFrom(script, probeFails, after, attempts - 1, disabled, retries)
  }

  class Creator {
    const script: Script
    const probeFails: nat -> bool
    const disabled: bool
    const retries: nat
    var server: Server

    constructor (script: Script, probeFails: nat -> bool, disabled: bool, retries: nat)
      ensures this.script == script && this.probeFails == probeFails
      ensures this.disabled == disabled && this.retries == retries && server == Server(0, [])
    {
      this.script, this.probeFails, this.disabled, this.retries := script, probeFails, disabled, retries;
      server := Server(0, []);
    }

    method Create() returns (reply: Reply)
      modifies this`server
      ensures (server, reply) == Rpc(script, old(server), disabled, retries)
    {
      reply := script(server.requests);
      server := Request(script, server);
      var left := retries;
      while Transport(reply) && !disabled && left > 0
        invariant 0 <= left <= retries
        invariant Rpc(script, old(server), disabled, retries)
               == if Transport(reply) && !disabled && left > 0 then Rpc(script, server, disabled, left - 1)
                  else (server, reply)
      {
        left := left - 1;
        reply := script(server.requests);
        server := Request(script, server);
      }
    }

    method Probe() returns (failed: bool, existing: Option<nat>)
      ensures failed == probeFails(server.requests)
      ensures existing == if failed || server.commits == [] then None else Some(server.commits[0])
    {
      failed := probeFails(server.requests);
      existing := if failed || server.commits == [] then None else Some(server.commits[0]);
    }

    method IdempotentCreate(maxAttempts: int) returns (o: Outcome)
      modifies this`server
      ensures maxAttempts < 1 ==> o == BadArgument && server == old(server)
      ensures maxAttempts >= 1 ==>
                (server, o) == CreateFrom(script, probeFails, old(server), maxAttempts, disabled, retries)
    {
      if maxAttempts < 1 {
        return BadArgument;
      }
      for attempt := 1 to maxAttempts + 1
        invariant CreateFrom(script, probeFails, old(server), maxAttempts, disabled, retries)
               == CreateFrom(script, probeFails, server, maxAttempts + 1 - attempt, disabled, retries)
      {
        var reply := Create();
        if reply.Done? {
          return Created(server.requests - 1);
        }
        if !Transport(reply) {
          return Failed;
        }
        var failed, existing := Probe();
        if failed {
          return ProbeFailed;
        }
        if existing.Some? {
          return Probed(existing.value);
        }
      }
      return TransportFailed;
    }
  }

  // ---------- What the loop promises ----------

  /** With one request per attempt: never more than one commit, success returns what was committed,
      and giving up means that nothing was. */
  lemma {:induction false} AtMostOneCommit(
    script: Script, probeFails: nat -> bool, s: Server, attempts: nat, disabled: bool, retries: nat)
    requires |s.commits| == 0 && (disabled || retries == 0)
    ensures var (after, o) := CreateFrom(script, probeFails, s, attempts, disabled, retries);
            && |after.commits| <= 1
            && after.requests <= s.requests + attempts
            && (o.Created? || o.Probed? ==> after.commits == [o.resource])
            && (o.TransportFailed? ==> after.commits == [] && after.requests == s.requests + attempts)
            && (o.Failed? ==>
                  && after.requests > s.requests
                  && after.commits == if script(after.requests - 1).Garbled? then [after.requests - 1] else [])
            && !o.BadArgument?
    decreases attempts
  {
    if attempts > 0 {
      var after, reply := Request(script, s), script(s.requests);
      assert Rpc(script, s, disabled, retries) == (after, reply);
      if Commits(reply) {
        assert after.commits == [s.requests];
      } else if Transport(reply) && !probeFails(after.requests) {
        AtMostOneCommit(script, probeFails, after, attempts - 1, disabled, retries);
      }
    }
  }

  /** Which outcome: the first request that is not dropped, or whose probe fails, decides. */
  lemma {:induction false} DecidedBy(
    script: Script, probeFails: nat -> bool, s: Server, attempts: nat, disabled: bool, retries: nat, k: nat)
    requires |s.commits| == 0 && (disabled || retries == 0)
    requires k <= attempts
    requires forall i :: s.requests <= i < s.requests + k ==> script(i).Dropped? && !probeFails(i + 1)
    requires k < attempts ==> !script(s.requests + k).Dropped? || probeFails(s.requests + k + 1)
    ensures var n := s.requests + k;
            CreateFrom(script, probeFails, s, attempts, disabled, retries).1
            == if k == attempts then TransportFailed
               else if script(n).Done? then Created(n)
               else if script(n).Garbled? || script(n).Refused? then Failed
               else if probeFails(n + 1) then ProbeFailed
               else Probed(n)
    decreases attempts
  {
    if k > 0 {
      DecidedBy(script, probeFails, Request(script, s), attempts - 1, disabled, retries, k - 1);
    }
  }

  /** The transport repeats a request as often as it may while it hears nothing, and hands on the first
      answer it gets. */
  lemma {:induction false} RepeatsUntilHeard(script: Script, s: Server, disabled: bool, retries: nat, k: nat)
    requires k <= if disabled then 0 else retries
    requires forall i :: s.requests <= i < s.requests + k ==> script(i).Lost? || script(i).Dropped?
    requires k < (if disabled then 0 else retries) ==> script(s.requests + k) in {Done, Garbled, Refused}
    ensures var (after, reply) := Rpc(script, s, disabled, retries);
            && reply == script(s.requests + k) && after.requests == s.requests + k + 1
            && forall n: nat :: n in after.commits <==>
                 n in s.commits || (s.requests <= n < after.requests && script(n) in {Done, Lost, Garbled})
    decreases k
  {
    if k > 0 {
      RepeatsUntilHeard(script, Request(script, s), disabled, retries - 1, k - 1);
    }
  }

  /** Two requests in one attempt, the first committed but not heard of. */
  lemma {:induction false} RetryDuplicates(
    script: Script, probeFails: nat -> bool, attempts: nat, retries: nat)
    requires attempts > 0 && retries > 0 && script(0).Lost? && script(1).Done?
    ensures CreateFrom(script, probeFails, Server(0, []), attempts, false, retries)
         == (Server(2, [0, 1]), Created(1))
  {
    var s, t, u := Server(0, []), Server(1, [0]), Server(2, [0, 1]);
    assert Request(script, s) == t && Request(script, t) == u by {
      assert [] + [0] == [0] && [0] + [1] == [0, 1];
    }
    assert Rpc(script, t, false, retries - 1) == (u, Done);
    assert Rpc(script, s, false, retries) == (u, Done);
  }

  /** One commit at most, whatever the server and the probe do, exactly when the transport's own
      retries are off. */
  lemma {:induction false} AtMostOneExactly(attempts: nat, disabled: bool, retries: nat)
    requires attempts > 0
    ensures (forall script: Script, probeFails: nat -> bool ::
               |CreateFrom(script, probeFails, Server(0, []), attempts, disabled, retries).0.commits| <= 1)
       <==> disabled || retries == 0
  {
    if disabled || retries == 0 {
      forall script: Script, probeFails: nat -> bool
        ensures |CreateFrom(script, probeFails, Server(0, []), attempts, disabled, retries).0.commits| <= 1
      {
        AtMostOneCommit(script, probeFails, Server(0, []), attempts, disabled, retries);
      }
    } else {
      var script: Script := n => if n == 0 then Lost else Done;
      var probeFails: nat -> bool := n => false;
      RetryDuplicates(script, probeFails, attempts, retries);
      assert |CreateFrom(script, probeFails, Server(0, []), attempts, disabled, retries).0.commits| == 2;
    }
  }

  // ---------- The registry ----------

  type Method = string
  type Variant = string

  datatype Policy =
    | Unclassified | ProbeThenCreate | IdempotentSetOp | AtLeastOnceAccepted | NonIdempotentNoRetry

  predicate ForcesDisable(p: Policy) {
    p.ProbeThenCreate? || p.NonIdempotentNoRetry?
  }

  /** `probeKey` names the function that extracts a probe key, if there is one. */
  datatype Entry = Entry(policy: Policy, probeKey: Option<string>, notes: string)

  const PLACEHOLDER_NOTE := "placeholder — must classify"

  type Table = map<Option<Variant>, Entry>

  datatype Lookup = Found(entry: Entry) | NoMethod | UnknownVariant | NoDefault

  predicate HasVariants(t: Table) {
    exists v :: v in t && v.Some?
  }

  function GetEntry(entries: map<Method, Table>, m: Method, variant: Option<Variant>): Lookup {
    if m !in entries then NoMethod
    else
      var t := entries[m];
      if variant.Some? && variant in t then Found(t[variant])
      else if variant.Some? && HasVariants(t) then UnknownVariant
      else if None in t then Found(t[None])
      else NoDefault
  }

  function EntryFor(policy: Policy, probeKey: Option<string>, notes: Option<string>): Entry {
    Entry(policy, probeKey, match notes
                            case Some(text) => text
                            case None => if policy.Unclassified? then PLACEHOLDER_NOTE else "")
  }

  function Registered(
    entries: map<Method, Table>, m: Method, policy: Policy, variant: Option<Variant>, probeKey: Option<string>,
    notes: Option<string>)
    : map<Method, Table>
  {
    entries[m := (if m in entries then entries[m] else map[])[variant := EntryFor(policy, probeKey, notes)]]
  }

  class Registry {
    var entries: map<Method, Table>

    constructor ()
      ensures entries == map[]
    {
      entries := map[];
    }

    method Register(
      m: Method, policy: Policy, variant: Option<Variant>, probeKey: Option<string>, notes: Option<string>)
      modifies this
      ensures entries == Registered(old(entries), m, policy, variant, probeKey, notes)
    {
      if m !in entries {
        entries := entries[m := map[]];
      }
      entries := entries[m := entries[m][variant := EntryFor(policy, probeKey, notes)]];
    }

    /** Afterwards every method answers a plain look-up, whatever answered before answers the same,
        and there is no row but the old ones and placeholders. */
    method SeedDefaults(methods: seq<Method>)
      modifies this
      ensures forall m :: m in methods ==> GetEntry(entries, m, None).Found?
      ensures forall m, v :: GetEntry(old(entries), m, v).Found? ==>
                GetEntry(entries, m, v) == GetEntry(old(entries), m, v)
      ensures forall m, v :: m in entries && v in entries[m] ==>
                RowFrom(old(entries), methods, m, v, entries[m][v])
    {
      ghost var was := entries;
      for i := 0 to |methods|
        invariant forall j :: 0 <= j < i ==> methods[j] in entries && None in entries[methods[j]]
        invariant Extends(was, entries)
        invariant forall m, v :: m in entries && v in entries[m] ==> RowFrom(was, methods, m, v, entries[m][v])
      {
        var m := methods[i];
        if m !in entries || None !in entries[m] {
          assert RowFrom(was, methods, m, None, EntryFor(Unclassified, None, None));
          Register(m, Unclassified, None, None, None);
        }
      }
      forall m, v | GetEntry(was, m, v).Found? ensures GetEntry(entries, m, v) == GetEntry(was, m, v) {
        ExtendedGet(was, entries, methods, m, v);
      }
    }
  }

  ghost predicate RowFrom(was: map<Method, Table>, methods: seq<Method>, m: Method, v: Option<Variant>, e: Entry) {
    || (m in was && v in was[m] && e == was[m][v])
    || (m in methods && v.None? && e == Entry(Unclassified, None, PLACEHOLDER_NOTE))
  }

  ghost predicate Extends(was: map<Method, Table>, now: map<Method, Table>) {
    forall m, v :: m in was && v in was[m] ==> m in now && v in now[m] && now[m][v] == was[m][v]
  }

  lemma {:induction false} ExtendedGet(
    was: map<Method, Table>, now: map<Method, Table>, methods: seq<Method>, m: Method, v: Option<Variant>)
    requires Extends(was, now) && GetEntry(was, m, v).Found?
    requires forall n, x :: n in now && x in now[n] ==> RowFrom(was, methods, n, x, now[n][x])
    ensures GetEntry(now, m, v) == GetEntry(was, m, v)
  {
    if HasVariants(now[m]) {
      var x :| x in now[m] && x.Some?;
      assert RowFrom(was, methods, m, x, now[m][x]);
    }
  }

  /** A registered row is found; other rows are found as before, except that the first variant of a
      method makes its other variants unknown. */
  lemma {:induction false} RegisterThenGet(
    entries: map<Method, Table>, m: Method, policy: Policy, variant: Option<Variant>, probeKey: Option<string>,
    notes: Option<string>, n: Method, other: Option<Variant>)
    ensures var after := Registered(entries, m, policy, variant, probeKey, notes);
            && GetEntry(after, m, variant) == Found(EntryFor(policy, probeKey, notes))
            && EntryFor(policy, probeKey, notes) == Entry(
                 policy, probeKey,
                 if notes.Some? then notes.value
                 else if policy == Unclassified then "placeholder — must classify" else "")
            && (n != m ==> GetEntry(after, n, other) == GetEntry(entries, n, other))
            && (n == m && other.Some? && other != variant ==>
                  GetEntry(after, n, other)
                  == if m in entries && other in entries[m] then Found(entries[m][other])
                     else if variant.Some? || (m in entries && HasVariants(entries[m])) then UnknownVariant
                     else Found(EntryFor(policy, probeKey, notes)))
            && (n == m && other.None? && variant.Some? ==>
                  GetEntry(after, n, other)
                  == if m in entries && None in entries[m] then Found(entries[m][None]) else NoDefault)
  {
    var after := Registered(entries, m, policy, variant, probeKey, notes);
    if variant.Some? {
      assert variant in after[m];
    }
    if m in entries && HasVariants(entries[m]) {
      var v :| v in entries[m] && v.Some?;
      assert v in after[m];
    }
  }

  // ---------- The resolver ----------

  const LOG_INTERVAL := 30

  /** `None` when the look-up raises. */
  function Resolve(
    entries: map<Method, Table>, m: Method, callerDisables: bool, variant: Option<Variant>): Option<bool>
  {
    if callerDisables then Some(true)
    else
      match GetEntry(entries, m, variant)
      case Found(entry) => Some(ForcesDisable(entry.policy))
      case _ => None
  }

  class Resolver {
    const registry: Registry
    var lastLogged: map<(Method, Option<Variant>), int>
    var warnings: seq<((Method, Option<Variant>), int)>

    constructor (registry: Registry)
      ensures Valid() && this.registry == registry && warnings == []
    {
      this.registry, lastLogged, warnings := registry, map[], [];
    }

    /** The ledger has the last warning of every key, and warnings of one key are at least the interval
        apart. */
    ghost predicate Valid()
      reads this
    {
      && (forall i :: 0 <= i < |warnings| ==>
            warnings[i].0 in lastLogged && warnings[i].1 <= lastLogged[warnings[i].0])
      && forall i, j :: 0 <= i < j < |warnings| && warnings[i].0 == warnings[j].0 ==>
           warnings[j].1 - warnings[i].1 >= 30
    }

    method ResolveEffective(m: Method, callerDisables: bool, variant: Option<Variant>, now: int)
      returns (disable: Option<bool>)
      requires Valid()
      modifies this
      ensures Valid()
      ensures disable == Resolve(registry.entries, m, callerDisables, variant)
      ensures callerDisables ==> disable == Some(true)
      ensures !callerDisables ==>
                match GetEntry(registry.entries, m, variant)
                case Found(entry) => disable == Some(entry.policy in {ProbeThenCreate, NonIdempotentNoRetry})
                case _ => disable == None
      ensures var key := (m, variant);
              var last := if key in old(lastLogged) then Some(old(lastLogged)[key]) else None;
              var found := GetEntry(registry.entries, m, variant);
              if !callerDisables && found.Found? && found.entry.policy == AtLeastOnceAccepted
                 && (last.None? || now - last.value >= 30)
              then warnings == old(warnings) + [(key, now)] && lastLogged == old(lastLogged)[key := now]
              else warnings == old(warnings) && lastLogged == old(lastLogged)
    {
      if callerDisables {
        return Some(true);
      }
      var found := GetEntry(registry.entries, m, variant);
      if !found.Found? {
        return None;
      }
      if ForcesDisable(found.entry.policy) {
        return Some(true);
      }
      if found.entry.policy.AtLeastOnceAccepted? {
        var key := (m, variant);
        if key !in lastLogged || now - lastLogged[key] >= LOG_INTERVAL {
          lastLogged := lastLogged[key := now];
          warnings := warnings + [(key, now)];
        }
      }
      return Some(false);
    }
  }

  /** A method with the probe policy is created at most once whatever its caller asks of the
      transport; and among the methods that are found, only the two forcing policies give that to a
      caller who asks for nothing. */
  lemma {:induction false} PolicyDecidesAtMostOnce(
    entries: map<Method, Table>, m: Method, variant: Option<Variant>, attempts: nat, retries: nat)
    requires attempts > 0 && retries > 0 && GetEntry(entries, m, variant).Found?
    ensures (forall callerDisables: bool, script: Script, probeFails: nat -> bool ::
               |CreateFrom(script, probeFails, Server(0, []), attempts,
                           Resolve(entries, m, callerDisables, variant).value, retries).0.commits| <= 1)
       <==> GetEntry(entries, m, variant).entry.policy in {ProbeThenCreate, NonIdempotentNoRetry}
  {
    AtMostOneExactly(attempts, true, retries);
    AtMostOneExactly(attempts, false, retries);
    var disable := Resolve(entries, m, false, variant).value;
    if !disable {
      var script: Script, probeFails: nat -> bool :|
        |CreateFrom(script, probeFails, Server(0, []), attempts, disable, retries).0.commits| > 1;
      assert |CreateFrom(script, probeFails, Server(0, []), attempts,
                         Resolve(entries, m, false, variant).value, retries).0.commits| > 1;
    }
  }
}
