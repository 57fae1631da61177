/**
 The allowance list of scripts/audit_public_api_compat.py: which breaks it approves, which of its
 entries are stale, and what pruning those leaves.

 `glob(text, pattern)` is the file-name match of the standard library, left abstract.
 */
module Allowances {
  import opened Options
  import opened PyText

  type Glob = (string, string) -> bool

  datatype Break = Break(code: string, obj: string, detail: string)

  datatype Allowance = Allowance(code: string, obj: string, reason: string)

  /** An entry as the file has it, with the fields that the audit does not know. */
  datatype RawEntry = RawEntry(allowance: Allowance, other: string)

  predicate Matches(glob: Glob, a: Allowance, b: Break) {
    glob(b.code, a.code) && glob(b.obj, a.obj)
  }

  predicate MatchesAny(glob: Glob, a: Allowance, breaks: seq<Break>) {
    exists i :: 0 <= i < |breaks| && Matches(glob, a, breaks[i])
  }

  // ---------- Approval ----------

  /** The first allowance that matches, in list order. */
  function FirstMatch(glob: Glob, allowances: seq<Allowance>, b: Break): Option<Allowance> {
    if allowances == [] then None
    else if Matches(glob, allowances[0], b) then Some(allowances[0])
    else FirstMatch(glob, allowances[1..], b)
  }

  function Unapproved(glob: Glob, breaks: seq<Break>, allowances: seq<Allowance>): seq<Break> {
    if breaks == [] then []
    else
      var before, b := Unapproved(glob, breaks[..|breaks| - 1], allowances), breaks[|breaks| - 1];
      if FirstMatch(glob, allowances, b).None? then before + [b] else before
  }

  function Approved(glob: Glob, breaks: seq<Break>, allowances: seq<Allowance>): seq<(Break, Allowance)> {
    if breaks == [] then []
    else
      var before, b := Approved(glob, breaks[..|breaks| - 1], allowances), breaks[|breaks| - 1];
      var found := FirstMatch(glob, allowances, b);
      if found.Some? then before + [(b, found.value)] else before
  }

  predicate RisingBelow(at: seq<nat>, n: nat) {
    && (forall k :: 0 <= k < |at| ==> at[k] < n)
    && forall k, l :: 0 <= k < l < |at| ==> at[k] < at[l]
  }

  /** Both patterns of some allowance match the break. */
  predicate Allowed(glob: Glob, allowances: seq<Allowance>, b: Break) {
    exists i :: 0 <= i < |allowances| && glob(b.code, allowances[i].code) && glob(b.obj, allowances[i].obj)
  }

  /** `a` is the first of them. */
  predicate AllowedFirstBy(glob: Glob, allowances: seq<Allowance>, b: Break, a: Allowance) {
    exists i :: 0 <= i < |allowances| && a == allowances[i]
           && glob(b.code, a.code) && glob(b.obj, a.obj)
           && !Allowed(glob, allowances[..i], b)
  }

  /** The list holds, in order and each time they occur, exactly those of the first `n` breaks that
      nothing allows.  (Contracts compare these two with `true`, to use them as a whole.) */
  ghost predicate HoldsTheUnapproved(
    glob: Glob, breaks: seq<Break>, n: nat, allowances: seq<Allowance>, unapproved: seq<Break>, at: seq<nat>)
  {
    && n <= |breaks| && RisingBelow(at, n) && |at| == |unapproved|
    && (forall k :: 0 <= k < |at| ==> unapproved[k] == breaks[at[k]])
    && forall i: nat :: i in at <==> i < n && !Allowed(glob, allowances, breaks[i])
  }

  /** And this one all others, each with the first allowance that allows it. */
  ghost predicate HoldsTheApproved(
    glob: Glob, breaks: seq<Break>, n: nat, allowances: seq<Allowance>, approved: seq<(Break, Allowance)>,
    at: seq<nat>)
  {
    && n <= |breaks| && RisingBelow(at, n) && |at| == |approved|
    && (forall k :: 0 <= k < |at| ==>
          approved[k].0 == breaks[at[k]] && AllowedFirstBy(glob, allowances, breaks[at[k]], approved[k].1))
    && forall i: nat :: i in at <==> i < n && Allowed(glob, allowances, breaks[i])
  }

  lemma {:induction false} UnapprovedNext(
    glob: Glob, breaks: seq<Break>, n: nat, allowances: seq<Allowance>, unapproved: seq<Break>, at: seq<nat>)
    requires n < |breaks| && HoldsTheUnapproved(glob, breaks, n, allowances, unapproved, at)
    ensures if Allowed(glob, allowances, breaks[n])
            then HoldsTheUnapproved(glob, breaks, n + 1, allowances, unapproved, at) == true
            else HoldsTheUnapproved(glob, breaks, n + 1, allowances, unapproved + [breaks[n]], at + [n]) == true
  {
  }

  lemma {:induction false} ApprovedNext(
    glob: Glob, breaks: seq<Break>, n: nat, allowances: seq<Allowance>, approved: seq<(Break, Allowance)>,
    at: seq<nat>, a: Allowance)
    requires n < |breaks| && HoldsTheApproved(glob, breaks, n, allowances, approved, at)
    ensures !Allowed(glob, allowances, breaks[n]) ==>
              HoldsTheApproved(glob, breaks, n + 1, allowances, approved, at) == true
    ensures AllowedFirstBy(glob, allowances, breaks[n], a) ==>
              HoldsTheApproved(glob, breaks, n + 1, allowances, approved + [(breaks[n], a)], at + [n]) == true
  {
  }

  method PartitionAllowed(glob: Glob, breaks: seq<Break>, allowances: seq<Allowance>)
    returns (unapproved: seq<Break>, approved: seq<(Break, Allowance)>)
    ensures exists at :: HoldsTheUnapproved(glob, breaks, |breaks|, allowances, unapproved, at)
    ensures exists at :: HoldsTheApproved(glob, breaks, |breaks|, allowances, approved, at)
    ensures unapproved == Unapproved(glob, breaks, allowances)
    ensures approved == Approved(glob, breaks, allowances)
  {
    unapproved, approved := [], [];
    ghost var out: seq<nat>, within: seq<nat> := [], [];
    for i := 0 to |breaks|
      invariant HoldsTheUnapproved(glob, breaks, i, allowances, unapproved, out) == true
      invariant HoldsTheApproved(glob, breaks, i, allowances, approved, within) == true
      invariant unapproved == Unapproved(glob, breaks[..i], allowances)
      invariant approved == Approved(glob, breaks[..i], allowances)
    {
      assert breaks[..i + 1][..i] == breaks[..i];
      var found := FirstMatch(glob, allowances, breaks[i]);
      FirstIsAllowed(glob, allowances, breaks[i]);
      UnapprovedNext(glob, breaks, i, allowances, unapproved, out);
      if found.None? {
        ApprovedNext(glob, breaks, i, allowances, approved, within, Allowance("", "", ""));
        unapproved := unapproved + [breaks[i]];
        out := out + [i];
      } else {
        ApprovedNext(glob, breaks, i, allowances, approved, within, found.value);
        approved := approved + [(breaks[i], found.value)];
        within := within + [i];
      }
    }
    assert breaks[..|breaks|] == breaks;
  }

  lemma {:induction false} FirstIsAllowed(glob: Glob, allowances: seq<Allowance>, b: Break)
    ensures FirstMatch(glob, allowances, b).Some? <==> Allowed(glob, allowances, b)
    ensures FirstMatch(glob, allowances, b).Some? ==>
              AllowedFirstBy(glob, allowances, b, FirstMatch(glob, allowances, b).value)
  {
    FirstMatchIsFirst(glob, allowances, b);
    if i :| 0 <= i < |allowances| && glob(b.code, allowances[i].code) && glob(b.obj, allowances[i].obj) {
      assert Matches(glob, allowances[i], b);
    }
  }

  /** Every break is on exactly one side, approved by the earliest allowance that matches it. */
  lemma {:induction false} FirstMatchIsFirst(glob: Glob, allowances: seq<Allowance>, b: Break)
    ensures FirstMatch(glob, allowances, b).None? <==>
              forall i :: 0 <= i < |allowances| ==> !Matches(glob, allowances[i], b)
    ensures FirstMatch(glob, allowances, b).Some? ==>
              exists i :: 0 <= i < |allowances| && FirstMatch(glob, allowances, b) == Some(allowances[i])
                     && Matches(glob, allowances[i], b)
                     && forall j :: 0 <= j < i ==> !Matches(glob, allowances[j], b)
  {
    if allowances != [] && !Matches(glob, allowances[0], b) {
      var rest := allowances[1..];
      FirstMatchIsFirst(glob, rest, b);
      assert forall i :: 0 <= i < |rest| ==> rest[i] == allowances[i + 1];
      if FirstMatch(glob, rest, b).Some? {
        var i :| 0 <= i < |rest| && FirstMatch(glob, rest, b) == Some(rest[i])
              && Matches(glob, rest[i], b) && forall j :: 0 <= j < i ==> !Matches(glob, rest[j], b);
        assert Matches(glob, allowances[i + 1], b);
        forall j | 0 <= j < i + 1 ensures !Matches(glob, allowances[j], b) {
          if j > 0 {
            assert allowances[j] == rest[j - 1];
          }
        }
      } else {
        forall i | 0 <= i < |allowances| ensures !Matches(glob, allowances[i], b) {
          if i > 0 {
            assert allowances[i] == rest[i - 1];
          }
        }
      }
    }
  }

  // ---------- Staleness ----------

  const BARE := "notebooklm."
  const CLIENT := "notebooklm.client."

  /** The other path under which the same callable is recorded. */
  function Sibling(obj: string): Option<string> {
    if StartsWith(obj, CLIENT) then Some(BARE + obj[|CLIENT|..])
    else if StartsWith(obj, BARE) then Some(CLIENT + obj[|BARE|..])
    else None
  }

  predicate ObjectKept(glob: Glob, breaks: seq<Break>, allowances: seq<Allowance>, obj: string) {
    exists i :: 0 <= i < |allowances| && allowances[i].obj == obj && MatchesAny(glob, allowances[i], breaks)
  }

  /** An allowance is live if it, or any allowance of its sibling path, matches a break. */
  predicate Live(glob: Glob, breaks: seq<Break>, allowances: seq<Allowance>, a: Allowance) {
    || MatchesAny(glob, a, breaks)
    || (Sibling(a.obj).Some? && ObjectKept(glob, breaks, allowances, Sibling(a.obj).value))
  }

  function Filter(keep: Allowance -> bool, allowances: seq<Allowance>): (r: seq<Allowance>)
    ensures forall a :: a in r <==> a in allowances && keep(a)
  {
    if allowances == [] then []
    else
      var rest := Filter(keep, allowances[1..]);
      if keep(allowances[0]) then [allowances[0]] + rest else rest
  }

  function IsLive(glob: Glob, breaks: seq<Break>, allowances: seq<Allowance>): Allowance -> bool {
    a => Live(glob, breaks, allowances, a)
  }

  function IsStale(glob: Glob, breaks: seq<Break>, allowances: seq<Allowance>): Allowance -> bool {
    a => !Live(glob, breaks, allowances, a)
  }

  /** What `selfMatched` and `objectKept` hold once `done` allowances have been entered. */
  ghost predicate SelfInv(
    glob: Glob, breaks: seq<Break>, allowances: seq<Allowance>, done: nat, selfMatched: map<(string, string), bool>)
  {
    && done <= |allowances|
    && (forall i :: 0 <= i < done ==> (allowances[i].code, allowances[i].obj) in selfMatched)
    && forall i :: 0 <= i < |allowances| && (allowances[i].code, allowances[i].obj) in selfMatched ==>
         selfMatched[(allowances[i].code, allowances[i].obj)] == MatchesAny(glob, allowances[i], breaks)
  }

  ghost predicate KeptInv(
    glob: Glob, breaks: seq<Break>, allowances: seq<Allowance>, done: nat, objectKept: map<string, bool>)
  {
    && done <= |allowances|
    && forall o :: (o in objectKept && objectKept[o]) <==> ObjectKept(glob, breaks, allowances[..done], o)
  }

  lemma {:induction false} KeptNext(
    glob: Glob, breaks: seq<Break>, allowances: seq<Allowance>, done: nat, kept: map<string, bool>, isMatch: bool)
    requires done < |allowances| && KeptInv(glob, breaks, allowances, done, kept)
    requires isMatch == MatchesAny(glob, allowances[done], breaks)
    ensures var o := allowances[done].obj;
            KeptInv(glob, breaks, allowances, done + 1, kept[o := (o in kept && kept[o]) || isMatch])
  {
    var obj := allowances[done].obj;
    var next := kept[obj := (obj in kept && kept[obj]) || isMatch];
    var less, more := allowances[..done], allowances[..done + 1];
    assert more == less + [allowances[done]];
    forall o ensures (o in next && next[o]) <==> ObjectKept(glob, breaks, more, o) {
      if ObjectKept(glob, breaks, less, o) {
        var i :| 0 <= i < |less| && less[i].obj == o && MatchesAny(glob, less[i], breaks);
        assert more[i] == less[i];
      }
      if ObjectKept(glob, breaks, more, o) {
        var i :| 0 <= i < |more| && more[i].obj == o && MatchesAny(glob, more[i], breaks);
        assert i < done ==> less[i] == more[i];
      }
      if o == obj && isMatch {
        assert more[done].obj == o;
      }
    }
  }

  method SomeMatch(glob: Glob, a: Allowance, breaks: seq<Break>) returns (found: bool)
    ensures found == MatchesAny(glob, a, breaks)
  {
    for i := 0 to |breaks|
      invariant forall j :: 0 <= j < i ==> !Matches(glob, a, breaks[j])
    {
      if Matches(glob, a, breaks[i]) {
        return true;
      }
    }
    return false;
  }

  /** The allowance approves some break by itself. */
  predicate Approves(glob: Glob, a: Allowance, breaks: seq<Break>) {
    exists i :: 0 <= i < |breaks| && glob(breaks[i].code, a.code) && glob(breaks[i].obj, a.obj)
  }

  /** The same callable seen from the package and from its client module. */
  ghost predicate OtherPath(obj: string, other: string) {
    exists rest ::
      || (obj == "notebooklm.client." + rest && other == "notebooklm." + rest)
      || (obj == "notebooklm." + rest && !("notebooklm.client." <= obj) && other == "notebooklm.client." + rest)
  }

  /** The allowance, or one written against the other path of its object, approves some break. */
  ghost predicate Needed(glob: Glob, breaks: seq<Break>, allowances: seq<Allowance>, a: Allowance) {
    || Approves(glob, a, breaks)
    || exists i :: 0 <= i < |allowances| && OtherPath(a.obj, allowances[i].obj) && Approves(glob, allowances[i], breaks)
  }

  lemma {:induction false} SiblingIsOtherPath(obj: string, other: string)
    ensures Sibling(obj) == Some(other) <==> OtherPath(obj, other)
  {
    assert BARE == "notebooklm." && CLIENT == "notebooklm.client.";
    if StartsWith(obj, CLIENT) {
      var rest := obj[|CLIENT|..];
      assert obj == CLIENT + rest;
      if Sibling(obj) == Some(other) {
        assert obj == "notebooklm.client." + rest && other == "notebooklm." + rest;
      }
    } else if StartsWith(obj, BARE) {
      var rest := obj[|BARE|..];
      assert obj == BARE + rest;
      if Sibling(obj) == Some(other) {
        assert obj == "notebooklm." + rest && other == "notebooklm.client." + rest;
      }
    }
    if OtherPath(obj, other) {
      var rest :| || (obj == "notebooklm.client." + rest && other == "notebooklm." + rest)
                  || (obj == "notebooklm." + rest && !("notebooklm.client." <= obj)
                      && other == "notebooklm.client." + rest);
      if "notebooklm.client." <= obj {
        assert obj[|CLIENT|..] == rest;
      } else {
        assert obj[|BARE|..] == rest;
      }
    }
  }

  lemma {:induction false} LiveIsNeeded(glob: Glob, breaks: seq<Break>, allowances: seq<Allowance>, a: Allowance)
    ensures Live(glob, breaks, allowances, a) <==> Needed(glob, breaks, allowances, a)
  {
    forall b: Allowance ensures Approves(glob, b, breaks) <==> MatchesAny(glob, b, breaks) {
      if i :| 0 <= i < |breaks| && glob(breaks[i].code, b.code) && glob(breaks[i].obj, b.obj) {
        assert Matches(glob, b, breaks[i]);
      }
    }
    forall i | 0 <= i < |allowances|
      ensures Sibling(a.obj) == Some(allowances[i].obj) <==> OtherPath(a.obj, allowances[i].obj)
    {
      SiblingIsOtherPath(a.obj, allowances[i].obj);
    }
  }

  /** The list holds, in order and each time they occur, exactly the allowances that nothing needs. */
  ghost predicate HoldsTheStale(
    glob: Glob, breaks: seq<Break>, allowances: seq<Allowance>, stale: seq<Allowance>, at: seq<nat>)
  {
    && RisingBelow(at, |allowances|) && |at| == |stale|
    && (forall k :: 0 <= k < |at| ==> stale[k] == allowances[at[k]])
    && forall i: nat :: i in at <==> i < |allowances| && !Needed(glob, breaks, allowances, allowances[i])
  }

  /** What a filter keeps of the first `n`, by place. */
  ghost predicate FilterSits(
    keep: Allowance -> bool, allowances: seq<Allowance>, n: nat, kept: seq<Allowance>, at: seq<nat>)
  {
    && n <= |allowances| && RisingBelow(at, n) && |at| == |kept|
    && (forall k :: 0 <= k < |at| ==> kept[k] == allowances[at[k]])
    && forall i: nat :: i in at <==> i < n && keep(allowances[i])
  }

  lemma {:induction false} FilterSitsNext(
    keep: Allowance -> bool, allowances: seq<Allowance>, n: nat, kept: seq<Allowance>, at: seq<nat>)
    requires n < |allowances| && FilterSits(keep, allowances, n, kept, at)
    ensures if keep(allowances[n])
            then FilterSits(keep, allowances, n + 1, kept + [allowances[n]], at + [n]) == true
            else FilterSits(keep, allowances, n + 1, kept, at) == true
  {
  }

  lemma {:induction false} StaleSits(
    glob: Glob, breaks: seq<Break>, allowances: seq<Allowance>, stale: seq<Allowance>, at: seq<nat>)
    requires FilterSits(IsStale(glob, breaks, allowances), allowances, |allowances|, stale, at)
    ensures HoldsTheStale(glob, breaks, allowances, stale, at)
  {
    var isStale := IsStale(glob, breaks, allowances);
    forall i | 0 <= i < |allowances|
      ensures isStale(allowances[i]) <==> !Needed(glob, breaks, allowances, allowances[i])
    {
      LiveIsNeeded(glob, breaks, allowances, allowances[i]);
    }
  }

  method StaleAllowances(glob: Glob, breaks: seq<Break>, allowances: seq<Allowance>) returns (stale: seq<Allowance>)
    ensures exists at :: HoldsTheStale(glob, breaks, allowances, stale, at)
    ensures stale == Filter(IsStale(glob, breaks, allowances), allowances)
  {
    var selfMatched: map<(string, string), bool> := map[];
    var objectKept: map<string, bool> := map[];
    for i := 0 to |allowances|
      invariant SelfInv(glob, breaks, allowances, i, selfMatched)
    {
      var found := SomeMatch(glob, allowances[i], breaks);
      selfMatched := selfMatched[(allowances[i].code, allowances[i].obj) := found];
    }
    // The source runs over the keys of `selfMatched`; running over the allowances meets the same keys.
    for i := 0 to |allowances|
      invariant KeptInv(glob, breaks, allowances, i, objectKept)
    {
      var obj := allowances[i].obj;
      var isMatch := selfMatched[(allowances[i].code, obj)];
      KeptNext(glob, breaks, allowances, i, objectKept, isMatch);
      objectKept := objectKept[obj := (obj in objectKept && objectKept[obj]) || isMatch];
    }
    assert allowances[..|allowances|] == allowances;
    ghost var at;
    stale, at := NotLive(glob, breaks, allowances, selfMatched, objectKept);
    StaleSits(glob, breaks, allowances, stale, at);
  }

  /** The allowances before `i` have gone through the filter. */
  ghost predicate Filtered(keep: Allowance -> bool, allowances: seq<Allowance>, i: nat, kept: seq<Allowance>) {
    i <= |allowances| && kept + Filter(keep, allowances[i..]) == Filter(keep, allowances)
  }

  lemma {:induction false} FilteredNext(
    keep: Allowance -> bool, allowances: seq<Allowance>, i: nat, kept: seq<Allowance>, next: seq<Allowance>)
    requires i < |allowances| && Filtered(keep, allowances, i, kept) == true
    requires next == if keep(allowances[i]) then kept + [allowances[i]] else kept
    ensures Filtered(keep, allowances, i + 1, next) == true
  {
    assert allowances[i..][1..] == allowances[i + 1..];
    OneToTheLeft(kept, allowances[i], Filter(keep, allowances[i + 1..]));
  }

  lemma {:induction false} OneToTheLeft(kept: seq<Allowance>, a: Allowance, rest: seq<Allowance>)
    ensures kept + ([a] + rest) == (kept + [a]) + rest
  {
  }

  lemma {:induction false} FilteredAll(keep: Allowance -> bool, allowances: seq<Allowance>, kept: seq<Allowance>)
    ensures Filtered(keep, allowances, 0, []) == true
    ensures Filtered(keep, allowances, |allowances|, kept) == true ==> kept == Filter(keep, allowances)
  {
    assert allowances[0..] == allowances;
  }

  lemma {:induction false} LiveByTables(
    glob: Glob, breaks: seq<Break>, allowances: seq<Allowance>, i: nat,
    selfMatched: map<(string, string), bool>, objectKept: map<string, bool>)
    requires i < |allowances| && SelfInv(glob, breaks, allowances, |allowances|, selfMatched) == true
    requires KeptInv(glob, breaks, allowances, |allowances|, objectKept) == true
    ensures (allowances[i].code, allowances[i].obj) in selfMatched
    ensures var a := allowances[i];
            var sibling := Sibling(a.obj);
            IsStale(glob, breaks, allowances)(a)
            == !(|| selfMatched[(a.code, a.obj)]
                 || (sibling.Some? && sibling.value in objectKept && objectKept[sibling.value]))
  {
    assert allowances[..|allowances|] == allowances;
  }

  /** The final comprehension, by the two tables. */
  method NotLive(
    glob: Glob, breaks: seq<Break>, allowances: seq<Allowance>,
    selfMatched: map<(string, string), bool>, objectKept: map<string, bool>)
    returns (stale: seq<Allowance>, ghost at: seq<nat>)
    requires SelfInv(glob, breaks, allowances, |allowances|, selfMatched) == true
    requires KeptInv(glob, breaks, allowances, |allowances|, objectKept) == true
    ensures stale == Filter(IsStale(glob, breaks, allowances), allowances)
    ensures FilterSits(IsStale(glob, breaks, allowances), allowances, |allowances|, stale, at) == true
  {
    stale, at := [], [];
    ghost var isStale := IsStale(glob, breaks, allowances);
    FilteredAll(isStale, allowances, []);
    for i := 0 to |allowances|
      invariant Filtered(isStale, allowances, i, stale) == true
      invariant FilterSits(isStale, allowances, i, stale, at) == true
    {
      var a := allowances[i];
      LiveByTables(glob, breaks, allowances, i, selfMatched, objectKept);
      ghost var next := if isStale(a) then stale + [a] else stale;
      FilteredNext(isStale, allowances, i, stale, next);
      FilterSitsNext(isStale, allowances, i, stale, at);
      var sibling := Sibling(a.obj);
      var live := selfMatched[(a.code, a.obj)]
                  || (sibling.Some? && sibling.value in objectKept && objectKept[sibling.value]);
      if !live {
        stale := stale + [a];
        at := at + [i];
      }
    }
    FilteredAll(isStale, allowances, stale);
  }

  lemma {:induction false} PrefixCancels(p: string, s: string, t: string)
    ensures StartsWith(p + s, p + t) <==> StartsWith(s, t)
  {
    if StartsWith(s, t) {
      assert p + s == (p + t) + s[|t|..];
    }
    if StartsWith(p + s, p + t) {
      assert t == (p + s)[|p|..|p| + |t|] == s[..|t|];
    }
  }

  /** The other path of the other path is the path itself, unless it nests the client twice. */
  lemma {:induction false} SiblingTwice(obj: string)
    requires Sibling(obj).Some?
    ensures Sibling(Sibling(obj).value) == Some(obj) <==> !StartsWith(obj, CLIENT + "client.")
  {
    assert CLIENT == BARE + "client.";
    if StartsWith(obj, CLIENT) {
      var rest := obj[|CLIENT|..];
      assert obj == CLIENT + rest;
      PrefixCancels(CLIENT, rest, "client.");
      PrefixCancels(BARE, rest, "client.");
      assert (BARE + rest)[|BARE|..] == rest;
    } else {
      var rest := obj[|BARE|..];
      assert obj == BARE + rest;
      assert (CLIENT + rest)[|CLIENT|..] == rest;
      assert StartsWith(CLIENT + "client.", CLIENT);
    }
  }

  // ---------- Pruning ----------

  function Parsed(entries: seq<RawEntry>): (r: seq<Allowance>)
    ensures |r| == |entries| && forall i :: 0 <= i < |r| ==> r[i] == entries[i].allowance
  {
    seq(|entries|, i requires 0 <= i < |entries| => entries[i].allowance)
  }

  /** What is kept and what is removed when each entry may use up one count of its key. */
  function PruneKept(entries: seq<RawEntry>, counts: multiset<Allowance>): seq<RawEntry> {
    if entries == [] then []
    else
      var key := entries[0].allowance;
      if key in counts then PruneKept(entries[1..], counts - multiset{key})
      else [entries[0]] + PruneKept(entries[1..], counts)
  }

  function PruneRemoved(entries: seq<RawEntry>, counts: multiset<Allowance>): seq<Allowance> {
    if entries == [] then []
    else
      var key := entries[0].allowance;
      if key in counts then [key] + PruneRemoved(entries[1..], counts - multiset{key})
      else PruneRemoved(entries[1..], counts)
  }

  /** What the loop has when it comes to entry `i` with `counts` left: its two lists and what the rest
      adds to them make up the whole result.  (Contracts compare such predicates with `true` so that
      they are used as a whole.) */
  ghost predicate Pruning(
    entries: seq<RawEntry>, all: multiset<Allowance>, i: nat, counts: multiset<Allowance>,
    kept: seq<RawEntry>, removed: seq<Allowance>)
  {
    && i <= |entries|
    && kept + PruneKept(entries[i..], counts) == PruneKept(entries, all)
    && removed + PruneRemoved(entries[i..], counts) == PruneRemoved(entries, all)
    && (removed == [] ==> kept == entries[..i])
  }

  lemma {:induction false} PruningStarts(entries: seq<RawEntry>, all: multiset<Allowance>)
    ensures Pruning(entries, all, 0, all, [], []) == true
  {
    assert entries[0..] == entries;
  }

  lemma {:induction false} PruningRemoves(
    entries: seq<RawEntry>, all: multiset<Allowance>, i: nat, counts: multiset<Allowance>,
    kept: seq<RawEntry>, removed: seq<Allowance>)
    requires i < |entries| && Pruning(entries, all, i, counts, kept, removed) == true
    requires counts[entries[i].allowance] > 0
    ensures Pruning(entries, all, i + 1, counts - multiset{entries[i].allowance},
                    kept, removed + [entries[i].allowance]) == true
  {
    assert entries[i..][1..] == entries[i + 1..];
  }

  lemma {:induction false} PruningKeeps(
    entries: seq<RawEntry>, all: multiset<Allowance>, i: nat, counts: multiset<Allowance>,
    kept: seq<RawEntry>, removed: seq<Allowance>)
    requires i < |entries| && Pruning(entries, all, i, counts, kept, removed) == true
    requires counts[entries[i].allowance] == 0
    ensures Pruning(entries, all, i + 1, counts, kept + [entries[i]], removed) == true
  {
    assert entries[i..][1..] == entries[i + 1..];
  }

  lemma {:induction false} PruningEnds(
    entries: seq<RawEntry>, all: multiset<Allowance>, counts: multiset<Allowance>,
    kept: seq<RawEntry>, removed: seq<Allowance>)
    requires Pruning(entries, all, |entries|, counts, kept, removed) == true
    ensures kept == PruneKept(entries, all) && removed == PruneRemoved(entries, all)
    ensures removed == [] ==> kept == entries
  {
  }

  /** What is found at the path: nothing, something that does not load as a policy, or a policy with the
      fields that pruning leaves alone. */
  datatype Content = Gone | Invalid(text: string) | Policy(entries: seq<RawEntry>, others: map<string, string>)

  /** What goes wrong while rewriting, if anything: a file without a write bit, an `OSError` up to the
      rename, or one in the sync of the directory, when the rename has been made. */
  datatype Fault = Smooth | NotWritable | BeforeRename | AfterRename

  datatype Pruned = Removed(allowances: seq<Allowance>) | NotFound | NotAPolicy | RewriteFailed

  function EntriesOf(content: Content): seq<RawEntry> {
    if content.Policy? then content.entries else []
  }

  function WithEntries(content: Content, entries: seq<RawEntry>): Content {
    if content.Policy? then Policy(entries, content.others) else content
  }

  lemma {:induction false} PruneLengths(entries: seq<RawEntry>, counts: multiset<Allowance>)
    ensures |PruneKept(entries, counts)| + |PruneRemoved(entries, counts)| == |entries|
  {
    if entries != [] {
      var key := entries[0].allowance;
      PruneLengths(entries[1..], if key in counts then counts - multiset{key} else counts);
    }
  }

  class PolicyFile {
    var content: Content
    var writes: nat

    constructor (content: Content)
      ensures this.content == content && writes == 0
    {
      this.content, writes := content, 0;
    }

    /** A no-op does not touch the file.  A failure leaves it as it was, except in the sync of the directory,
        which is reported although the file has been rewritten. */
    method PruneAllowlist(stale: seq<Allowance>, fault: Fault) returns (r: Pruned)
      modifies this
      ensures old(content).Gone? <==> r.NotFound?
      ensures old(content).Invalid? <==> r.NotAPolicy?
      ensures r.RewriteFailed? <==>
                !fault.Smooth? && PruneRemoved(EntriesOf(old(content)), multiset(stale)) != []
      ensures r.Removed? ==> r.allowances == PruneRemoved(EntriesOf(old(content)), multiset(stale))
      ensures content ==
                if writes == old(writes) then old(content)
                else WithEntries(old(content), PruneKept(EntriesOf(old(content)), multiset(stale)))
      ensures writes == if (r.Removed? && r.allowances != []) || (r.RewriteFailed? && fault.AfterRename?)
                        then old(writes) + 1 else old(writes)
      ensures r.Removed? ==> EntriesOf(content) == PruneKept(EntriesOf(old(content)), multiset(stale))
      ensures r.RewriteFailed? ==> (content == old(content) <==> !fault.AfterRename?)
    {
      match content {
        case Gone => return NotFound;
        case Invalid(_) => return NotAPolicy;
        case Policy(entries, others) =>
          var kept, removed := Split(entries, stale);
          PruneLengths(entries, multiset(stale));
          if removed == [] {
            return Removed([]);
          }
          if fault.NotWritable? || fault.BeforeRename? {
            return RewriteFailed;
          }
          content := Policy(kept, others);
          writes := writes + 1;
          return if fault.AfterRename? then RewriteFailed else Removed(removed);
      }
    }
  }

  /** The counting loop. */
  method Split(entries: seq<RawEntry>, stale: seq<Allowance>) returns (kept: seq<RawEntry>, removed: seq<Allowance>)
    ensures kept == PruneKept(entries, multiset(stale)) && removed == PruneRemoved(entries, multiset(stale))
    ensures removed == [] ==> kept == entries
  {
    var counts := multiset(stale);
    kept, removed := [], [];
    PruningStarts(entries, counts);
    for i := 0 to |entries|
      invariant Pruning(entries, multiset(stale), i, counts, kept, removed) == true
    {
      var entry := entries[i];
      if counts[entry.allowance] > 0 {
        PruningRemoves(entries, multiset(stale), i, counts, kept, removed);
        counts := counts - multiset{entry.allowance};
        removed := removed + [entry.allowance];
      } else {
        PruningKeeps(entries, multiset(stale), i, counts, kept, removed);
        kept := kept + [entry];
      }
    }
    PruningEnds(entries, multiset(stale), counts, kept, removed);
  }

  function Copies(x: Allowance, s: seq<Allowance>): nat {
    if s == [] then 0
    else
      var rest := Copies(x, s[1..]);
      if s[0] == x then 1 + rest else rest
  }

  function Min(a: nat, b: nat): nat {
    if a < b then a else b
  }

  lemma {:induction false} CopiesNext(x: Allowance, entry: RawEntry, rest: seq<RawEntry>)
    ensures Copies(x, Parsed([entry] + rest)) == if entry.allowance == x then 1 + Copies(x, Parsed(rest))
                                                 else Copies(x, Parsed(rest))
  {
    assert Parsed([entry] + rest)[1..] == Parsed(rest);
  }

  /** Whatever list is given, as many copies of each allowance are removed as the list and the file
      both have, and the rest stays. */
  lemma {:induction false} PruneCounts(entries: seq<RawEntry>, counts: multiset<Allowance>, x: Allowance)
    ensures Copies(x, PruneRemoved(entries, counts)) == Min(Copies(x, Parsed(entries)), counts[x])
    ensures Copies(x, Parsed(PruneKept(entries, counts))) + Copies(x, PruneRemoved(entries, counts))
         == Copies(x, Parsed(entries))
  {
    if entries != [] {
      var entry, rest := entries[0], entries[1..];
      var key := entry.allowance;
      assert entries == [entry] + rest;
      CopiesNext(x, entry, rest);
      if key in counts {
        var fewer := counts - multiset{key};
        PruneCounts(rest, fewer, x);
        var removed := PruneRemoved(rest, fewer);
        assert ([key] + removed)[1..] == removed;
      } else {
        PruneCounts(rest, counts, x);
        CopiesNext(x, entry, PruneKept(rest, counts));
      }
    }
  }

  function FilterRaw(keep: Allowance -> bool, entries: seq<RawEntry>): seq<RawEntry> {
    if entries == [] then []
    else
      var rest := FilterRaw(keep, entries[1..]);
      if keep(entries[0].allowance) then [entries[0]] + rest else rest
  }

  lemma {:induction false} ParsedFilter(keep: Allowance -> bool, entries: seq<RawEntry>)
    ensures Parsed(FilterRaw(keep, entries)) == Filter(keep, Parsed(entries))
  {
    if entries != [] {
      var rest := entries[1..];
      ParsedFilter(keep, rest);
      assert Parsed(entries)[1..] == Parsed(rest);
      var kept := FilterRaw(keep, rest);
      assert Parsed([entries[0]] + kept) == [entries[0].allowance] + Parsed(kept);
    }
  }

  /** Counting down the entries that satisfy a predicate removes those and no others, in order. */
  lemma {:induction false} PruneIsFilter(
    entries: seq<RawEntry>, counts: multiset<Allowance>, stale: Allowance -> bool, live: Allowance -> bool)
    requires forall a :: stale(a) == !live(a)
    requires counts == multiset(Filter(stale, Parsed(entries)))
    ensures PruneKept(entries, counts) == FilterRaw(live, entries)
    ensures PruneRemoved(entries, counts) == Filter(stale, Parsed(entries))
  {
    if entries != [] {
      var key, rest := entries[0].allowance, entries[1..];
      assert Parsed(entries)[1..] == Parsed(rest);
      var more := Filter(stale, Parsed(rest));
      if stale(key) {
        assert multiset([key] + more) == multiset{key} + multiset(more);
        assert counts - multiset{key} == multiset(more);
        PruneIsFilter(rest, counts - multiset{key}, stale, live);
      } else {
        assert key !in Filter(stale, Parsed(entries));
        PruneIsFilter(rest, counts, stale, live);
      }
    }
  }

  // ---------- What pruning the stale entries preserves ----------

  lemma {:induction false} FirstMatchAmongLive(
    glob: Glob, breaks: seq<Break>, all: seq<Allowance>, some: seq<Allowance>, b: Break)
    requires b in breaks && forall a :: a in some ==> a in all
    ensures FirstMatch(glob, Filter(IsLive(glob, breaks, all), some), b) == FirstMatch(glob, some, b)
  {
    if some != [] {
      FirstMatchAmongLive(glob, breaks, all, some[1..], b);
      var rest := Filter(IsLive(glob, breaks, all), some[1..]);
      if Matches(glob, some[0], b) {
        assert MatchesAny(glob, some[0], breaks);
      }
      if Live(glob, breaks, all, some[0]) {
        assert ([some[0]] + rest)[1..] == rest;
      }
    }
  }

  lemma {:induction false} PartitionUnchanged(
    glob: Glob, breaks: seq<Break>, all: seq<Allowance>, some: seq<Break>)
    requires forall b :: b in some ==> b in breaks
    ensures var kept := Filter(IsLive(glob, breaks, all), all);
            && Unapproved(glob, some, kept) == Unapproved(glob, some, all)
            && Approved(glob, some, kept) == Approved(glob, some, all)
  {
    if some != [] {
      PartitionUnchanged(glob, breaks, all, some[..|some| - 1]);
      FirstMatchAmongLive(glob, breaks, all, all, some[|some| - 1]);
    }
  }

  /** What was live because of its sibling still is: the sibling matches by itself, so it stays. */
  lemma {:induction false} StillLive(glob: Glob, breaks: seq<Break>, all: seq<Allowance>, a: Allowance)
    requires Live(glob, breaks, all, a)
    ensures Live(glob, breaks, Filter(IsLive(glob, breaks, all), all), a)
  {
    var kept := Filter(IsLive(glob, breaks, all), all);
    if !MatchesAny(glob, a, breaks) {
      var s := Sibling(a.obj).value;
      var i :| 0 <= i < |all| && all[i].obj == s && MatchesAny(glob, all[i], breaks);
      assert all[i] in kept;
      var j :| 0 <= j < |kept| && kept[j] == all[i];
    }
  }

  lemma {:induction false} FilterNone(keep: Allowance -> bool, allowances: seq<Allowance>)
    requires forall a :: a in allowances ==> !keep(a)
    ensures Filter(keep, allowances) == []
  {
    if allowances != [] {
      FilterNone(keep, allowances[1..]);
    }
  }

  /** Pruning what the staleness check reports removes exactly that, keeps every live entry whole and
      in place, changes neither side of the approval nor any break's allowance, and leaves nothing for
      a second check to report. */
  lemma {:induction false} PruneStale(glob: Glob, breaks: seq<Break>, entries: seq<RawEntry>)
    ensures var all := Parsed(entries);
            var stale := Filter(IsStale(glob, breaks, all), all);
            var kept := PruneKept(entries, multiset(stale));
            && PruneRemoved(entries, multiset(stale)) == stale
            && kept == FilterRaw(IsLive(glob, breaks, all), entries)
            && Unapproved(glob, breaks, Parsed(kept)) == Unapproved(glob, breaks, all)
            && Approved(glob, breaks, Parsed(kept)) == Approved(glob, breaks, all)
            && Filter(IsStale(glob, breaks, Parsed(kept)), Parsed(kept)) == []
  {
    var all := Parsed(entries);
    var live, isStale := IsLive(glob, breaks, all), IsStale(glob, breaks, all);
    PruneIsFilter(entries, multiset(Filter(isStale, all)), isStale, live);
    ParsedFilter(live, entries);
    var kept := Filter(live, all);
    PartitionUnchanged(glob, breaks, all, breaks);
    forall a | a in kept ensures !IsStale(glob, breaks, kept)(a) {
      StillLive(glob, breaks, all, a);
    }
    FilterNone(IsStale(glob, breaks, kept), kept);
  }
}
