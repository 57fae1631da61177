/**
 The signature check of scripts/audit_public_api_compat.py, and what it decides.

 `SignatureBreakage` follows `_signature_breakage` branch by branch.  Its yardstick is
 written independently: Python's own argument binding (Language Reference, section 6.3.4
 "Calls"; PEP 570 for positional-only parameters).  The theorems say, for all well-formed
 signatures, exactly when a clean verdict is right and exactly when a reported break is
 a false alarm.
 */
module Signatures {
  import opened Options

  datatype Kind = PositionalOnly | PositionalOrKeyword | VarPositional | KeywordOnly | VarKeyword

  datatype Param = Param(name: string, kind: Kind, hasDefault: bool, defaultRepr: Option<string>)

  type Signature = seq<Param>

  // ---------- The checker ----------

  datatype Reason =
    | SignatureAppearedOrVanished
    | VarPositionalRemoved(name: string)
    | VarKeywordRemoved(name: string)
    | KeywordParameterRemoved(name: string)
    | NoLongerAcceptsKeyword(name: string)
    | BecameRequired(name: string)
    | DefaultChanged(name: string)
    | TooFewPositional(accepted: nat, wanted: nat)
    | PositionalMoved(name: string, from: nat, to: nat)
    | PositionalReplaced(name: string, at: nat, byName: string)
    | RequiredAdded(name: string)

  predicate IsHex(c: char) {
    '0' <= c <= '9' || 'a' <= c <= 'f' || 'A' <= c <= 'F'
  }

  const SENTINEL_HEAD := "<object object at 0x"

  /** The whole text is the repr of a bare `object()`: head, hex digits, `>`. */
  predicate IsObjectSentinel(text: string) {
    && |text| > |SENTINEL_HEAD| + 1
    && text[..|SENTINEL_HEAD|] == SENTINEL_HEAD
    && text[|text| - 1] == '>'
    && forall i :: |SENTINEL_HEAD| <= i < |text| - 1 ==> IsHex(text[i])
  }

  function NormalizeDefaultRepr(repr: Option<string>): Option<string> {
    match repr
    case None => None
    case Some(text) => if IsObjectSentinel(text) then Some("<object object at 0x...>") else repr
  }

  predicate AcceptsKeyword(p: Param) {
    p.kind in {PositionalOrKeyword, KeywordOnly, VarKeyword}
  }

  predicate AcceptsPositional(p: Param) {
    p.kind in {PositionalOnly, PositionalOrKeyword, VarPositional}
  }

  predicate HasKind(s: Signature, kind: Kind) {
    exists p :: p in s && p.kind == kind
  }

  function Keep(s: Signature, f: Param -> bool): Signature {
    if s == [] then [] else (if f(s[0]) then [s[0]] else []) + Keep(s[1..], f)
  }

  function Positional(s: Signature): Signature {
    Keep(s, AcceptsPositional)
  }

  function Fixed(s: Signature): Signature {
    Keep(Positional(s), (p: Param) => p.kind != VarPositional)
  }

  /** A dictionary built from the list: the last parameter of a name wins. */
  function ByName(s: Signature, name: string): Option<Param> {
    if s == [] then None
    else if s[|s| - 1].name == name then Some(s[|s| - 1])
    else ByName(s[..|s| - 1], name)
  }

  function ParameterBreak(p: Param, new_: Signature): Option<Reason> {
    if p.kind == VarPositional && !HasKind(new_, VarPositional) then Some(VarPositionalRemoved(p.name))
    else if p.kind == VarKeyword && !HasKind(new_, VarKeyword) then Some(VarKeywordRemoved(p.name))
    else if !AcceptsKeyword(p) then None
    else match ByName(new_, p.name)
      case None =>
        if HasKind(new_, VarKeyword) then None else Some(KeywordParameterRemoved(p.name))
      case Some(q) =>
        if !AcceptsKeyword(q) then Some(NoLongerAcceptsKeyword(p.name))
        else if p.hasDefault && !q.hasDefault then Some(BecameRequired(p.name))
        else if p.hasDefault && q.hasDefault
                && NormalizeDefaultRepr(p.defaultRepr) != NormalizeDefaultRepr(q.defaultRepr)
        then Some(DefaultChanged(p.name))
        else None
  }

  function FirstParameterBreak(old_: Signature, new_: Signature): Option<Reason> {
    if old_ == [] then None
    else
      var r := ParameterBreak(old_[0], new_);
      if r.Some? then r else FirstParameterBreak(old_[1..], new_)
  }

  function IndexOfName(s: Signature, name: string): (i: nat)
    requires exists p :: p in s && p.name == name
    ensures i < |s| && s[i].name == name
  {
    if s[0].name == name then 0 else 1 + IndexOfName(s[1..], name)
  }

  function FirstPositionBreak(old_: Signature, new_: Signature, i: nat): Option<Reason>
    decreases |old_| - i
  {
    if i >= |old_| || i >= |new_| then None
    else if old_[i].name == new_[i].name then FirstPositionBreak(old_, new_, i + 1)
    else if exists p :: p in new_ && p.name == old_[i].name
    then Some(PositionalMoved(old_[i].name, i + 1, IndexOfName(new_, old_[i].name) + 1))
    else Some(PositionalReplaced(old_[i].name, i + 1, new_[i].name))
  }

  function FirstRequiredAdded(new_: Signature, old_: Signature): Option<Reason> {
    if new_ == [] then None
    else if IsOrdinary(new_[0]) && !new_[0].hasDefault && ByName(old_, new_[0].name).None?
    then Some(RequiredAdded(new_[0].name))
    else FirstRequiredAdded(new_[1..], old_)
  }

  function ListBreakage(old_: Signature, new_: Signature): Option<Reason> {
    var first := FirstParameterBreak(old_, new_);
    if first.Some? then first
    else if !HasKind(new_, VarPositional) && |Positional(new_)| < |Positional(old_)|
    then Some(TooFewPositional(|Positional(new_)|, |Positional(old_)|))
    else
      var moved := FirstPositionBreak(Fixed(old_), Fixed(new_), 0);
      if moved.Some? then moved else FirstRequiredAdded(new_, old_)
  }

  function SignatureBreakage(old_: Option<Signature>, new_: Option<Signature>): Option<Reason> {
    if old_.None? || new_.None? then
      if old_ != new_ then Some(SignatureAppearedOrVanished) else None
    else ListBreakage(old_.value, new_.value)
  }

  // ---------- Python's binding rules ----------

  predicate IsOrdinary(p: Param) {
    p.kind != VarPositional && p.kind != VarKeyword
  }

  function Rank(kind: Kind): nat {
    match kind
    case PositionalOnly => 0
    case PositionalOrKeyword => 1
    case VarPositional => 2
    case KeywordOnly => 3
    case VarKeyword => 4
  }

  /** What `inspect.Signature` guarantees of every parameter list it builds. */
  ghost predicate WellFormed(s: Signature) {
    && (forall i, j :: 0 <= i < j < |s| ==> Rank(s[i].kind) <= Rank(s[j].kind))
    && (forall i, j :: 0 <= i < j < |s| && s[i].kind == s[j].kind ==> IsOrdinary(s[i]))
    && (forall i, j :: 0 <= i < j < |s| ==> s[i].name != s[j].name)
    && (forall i :: 0 <= i < |s| && !IsOrdinary(s[i]) ==> !s[i].hasDefault)
    && (forall i, j :: 0 <= i < j < |s| && Rank(s[j].kind) <= 1 && s[i].hasDefault ==> s[j].hasDefault)
  }

  /** A call: how many positional arguments, and which keywords. */
  datatype Call = Call(positional: nat, keywords: set<string>)

  datatype Target = Named(name: string) | StarArgs | StarStarKwargs

  ghost predicate IsKeywordName(s: Signature, name: string) {
    exists p :: p in s && p.name == name && (p.kind == PositionalOrKeyword || p.kind == KeywordOnly)
  }

  ghost predicate HasOrdinary(s: Signature, name: string) {
    exists p :: p in s && p.name == name && IsOrdinary(p)
  }

  ghost predicate FilledByPosition(s: Signature, c: Call, name: string) {
    exists i :: 0 <= i < |Fixed(s)| && i < c.positional && Fixed(s)[i].name == name
  }

  ghost predicate KeywordLands(s: Signature, c: Call, name: string) {
    if IsKeywordName(s, name) then !FilledByPosition(s, c, name) else HasKind(s, VarKeyword)
  }

  ghost predicate Filled(s: Signature, c: Call, name: string) {
    FilledByPosition(s, c, name) || (IsKeywordName(s, name) && name in c.keywords)
  }

  ghost predicate Binds(s: Signature, c: Call) {
    && (c.positional <= |Fixed(s)| || HasKind(s, VarPositional))
    && (forall k :: k in c.keywords ==> KeywordLands(s, c, k))
    && (forall p :: p in s && IsOrdinary(p) && !p.hasDefault ==> Filled(s, c, p.name))
  }

  ghost function PositionalTarget(s: Signature, i: nat): Target {
    if i < |Fixed(s)| then Named(Fixed(s)[i].name) else StarArgs
  }

  ghost function KeywordTarget(s: Signature, k: string): Target {
    if IsKeywordName(s, k) then Named(k) else StarStarKwargs
  }

  /** The call still binds, every positional argument reaches the parameter it reached
      before, and no keyword is diverted away from a parameter that still exists. */
  ghost predicate StillFits(old_: Signature, new_: Signature, c: Call) {
    && Binds(new_, c)
    && (forall i: nat :: i < c.positional ==> PositionalTarget(old_, i) == PositionalTarget(new_, i))
    && (forall k :: k in c.keywords && IsKeywordName(old_, k) && HasOrdinary(new_, k)
          ==> KeywordTarget(new_, k) == Named(k))
  }

  ghost predicate DefaultKept(p: Param, q: Param) {
    q.hasDefault && NormalizeDefaultRepr(p.defaultRepr) == NormalizeDefaultRepr(q.defaultRepr)
  }

  /** Every surviving optional parameter keeps its normalised default. */
  ghost predicate DefaultsKept(old_: Signature, new_: Signature) {
    forall p, q :: p in old_ && q in new_ && p.name == q.name && p.hasDefault && IsOrdinary(q)
      ==> DefaultKept(p, q)
  }

  ghost predicate Compatible(old_: Signature, new_: Signature) {
    && (forall c :: Binds(old_, c) ==> StillFits(old_, new_, c))
    && DefaultsKept(old_, new_)
  }

  // ---------- Compatibility read off the parameter lists ----------

  ghost predicate PositionsKept(old_: Signature, new_: Signature) {
    && |Fixed(old_)| <= |Fixed(new_)|
    && (HasKind(old_, VarPositional) ==> HasKind(new_, VarPositional) && |Fixed(old_)| == |Fixed(new_)|)
    && (forall i :: 0 <= i < |Fixed(old_)| ==> Fixed(old_)[i].name == Fixed(new_)[i].name)
  }

  ghost predicate KeywordsKept(old_: Signature, new_: Signature) {
    && (HasKind(old_, VarKeyword) ==> HasKind(new_, VarKeyword))
    && (forall k :: IsKeywordName(old_, k) ==>
          if HasOrdinary(new_, k) then IsKeywordName(new_, k) else HasKind(new_, VarKeyword))
  }

  ghost predicate RequiredKept(old_: Signature, new_: Signature) {
    forall q :: q in new_ && IsOrdinary(q) && !q.hasDefault
      ==> exists p :: p in old_ && p.name == q.name && IsOrdinary(p) && !p.hasDefault
  }

  /** Beside `**kwargs`, a positional-only name may also be passed as a keyword. */
  ghost predicate PositionalOnlyKept(old_: Signature, new_: Signature) {
    HasKind(old_, VarKeyword) ==>
      forall i :: 0 <= i < |Fixed(old_)| && i < |Fixed(new_)| && Fixed(old_)[i].kind == PositionalOnly
        ==> Fixed(new_)[i].kind == PositionalOnly
  }

  ghost predicate ListsCompatible(old_: Signature, new_: Signature) {
    && PositionsKept(old_, new_)
    && KeywordsKept(old_, new_)
    && RequiredKept(old_, new_)
    && PositionalOnlyKept(old_, new_)
    && DefaultsKept(old_, new_)
  }

  // ---------- Shape of a well-formed signature ----------

  /** The kinds up to rank `r` end at some index. */
  lemma {:induction false} Boundary(s: Signature, r: nat) returns (n: nat)
    requires forall i, j :: 0 <= i < j < |s| ==> Rank(s[i].kind) <= Rank(s[j].kind)
    ensures n <= |s| && forall i :: 0 <= i < |s| ==> (i < n <==> Rank(s[i].kind) <= r)
  {
    if s == [] || Rank(s[|s| - 1].kind) <= r {
      n := |s|;
    } else {
      n := Boundary(s[..|s| - 1], r);
    }
  }

  lemma {:induction false} KeepPrefix(s: Signature, f: Param -> bool, n: nat)
    requires n <= |s| && forall i :: 0 <= i < |s| ==> (i < n <==> f(s[i]))
    ensures Keep(s, f) == s[..n]
  {
    if s != [] { KeepPrefix(s[1..], f, if n == 0 then 0 else n - 1); }
  }

  lemma {:induction false} PositionalIsPrefix(s: Signature)
    requires WellFormed(s)
    ensures |Positional(s)| <= |s| && Positional(s) == s[..|Positional(s)|]
    ensures forall i :: 0 <= i < |s| ==> (i < |Positional(s)| <==> Rank(s[i].kind) <= 2)
  {
    var m := Boundary(s, 2);
    KeepPrefix(s, AcceptsPositional, m);
  }

  lemma {:induction false} FixedIsPrefix(s: Signature)
    requires WellFormed(s)
    ensures |Fixed(s)| <= |s| && Fixed(s) == s[..|Fixed(s)|]
    ensures forall i :: 0 <= i < |s| ==> (i < |Fixed(s)| <==> Rank(s[i].kind) <= 1)
    ensures |Positional(s)| == |Fixed(s)| + (if HasKind(s, VarPositional) then 1 else 0)
  {
    var k := Boundary(s, 1);
    var m := |Positional(s)|;
    PositionalIsPrefix(s);
    assert m < |s| ==> (m < k <==> Rank(s[m].kind) <= 1);
    KeepPrefix(s[..m], (p: Param) => p.kind != VarPositional, k);
    assert s[..m][..k] == s[..k];
    if k < m {
      assert s[k].kind == VarPositional && s[k] in s;
      assert k + 1 < |s| ==> s[k + 1].kind != VarPositional;
    } else {
      assert forall i :: 0 <= i < |s| ==> s[i].kind != VarPositional;
    }
  }

  lemma {:induction false} SameNameSameParam(s: Signature, p: Param, q: Param)
    requires WellFormed(s) && p in s && q in s && p.name == q.name
    ensures p == q
  {
    var i :| 0 <= i < |s| && s[i] == p;
    var j :| 0 <= j < |s| && s[j] == q;
  }

  lemma {:induction false} ByNameFinds(s: Signature, name: string)
    ensures match ByName(s, name)
            case None => forall p :: p in s ==> p.name != name
            case Some(q) => q in s && q.name == name
  {
    if s != [] {
      ByNameFinds(s[..|s| - 1], name);
      assert s == s[..|s| - 1] + [s[|s| - 1]];
    }
  }

  lemma {:induction false} ByNameOnly(s: Signature, q: Param)
    requires WellFormed(s) && q in s
    ensures ByName(s, q.name) == Some(q)
  {
    ByNameFinds(s, q.name);
    SameNameSameParam(s, q, ByName(s, q.name).value);
  }

  // ---------- The lists decide compatibility ----------

  lemma {:induction false} PositionalOnlyIsNoKeyword(s: Signature, i: nat)
    requires WellFormed(s) && i < |s| && s[i].kind == PositionalOnly
    ensures !IsKeywordName(s, s[i].name)
  {
    forall q | q in s && q.name == s[i].name
      ensures q == s[i]
    {
      SameNameSameParam(s, q, s[i]);
    }
  }

  /** A keyword of an old call that names a parameter now filled by position was bound
      by **kwargs before, beside a positional-only parameter, and still is. */
  lemma {:induction false} DivertedKeyword(old_: Signature, new_: Signature, c: Call, k: string)
    requires WellFormed(old_) && WellFormed(new_) && ListsCompatible(old_, new_) && Binds(old_, c)
    requires k in c.keywords && FilledByPosition(new_, c, k)
    ensures !IsKeywordName(new_, k) && HasKind(new_, VarKeyword)
  {
    var i :| 0 <= i < |Fixed(new_)| && i < c.positional && Fixed(new_)[i].name == k;
    assert i < |Fixed(old_)| && Fixed(old_)[i].name == k;
    assert FilledByPosition(old_, c, k) && KeywordLands(old_, c, k);
    FixedKind(old_, i);
    FixedKind(new_, i);
    assert Fixed(old_)[i].kind == PositionalOnly;
    PositionalOnlyIsNoKeyword(new_, i);
  }

  lemma {:induction false} FixedKind(s: Signature, i: nat)
    requires WellFormed(s) && i < |Fixed(s)|
    ensures i < |s| && Fixed(s)[i] == s[i] && s[i] in s
    ensures s[i].kind == PositionalOnly || s[i].kind == PositionalOrKeyword
  {
    FixedIsPrefix(s);
  }

  lemma {:induction false} KeywordStillLands(old_: Signature, new_: Signature, c: Call, k: string)
    requires WellFormed(old_) && WellFormed(new_) && ListsCompatible(old_, new_) && Binds(old_, c)
    requires k in c.keywords
    ensures KeywordLands(new_, c, k)
  {
    assert KeywordLands(old_, c, k);
    if FilledByPosition(new_, c, k) {
      DivertedKeyword(old_, new_, c, k);
    } else if IsKeywordName(old_, k) && !IsKeywordName(new_, k) {
      assert !HasOrdinary(new_, k);
    }
  }

  lemma {:induction false} StillFilled(old_: Signature, new_: Signature, c: Call, q: Param)
    requires ListsCompatible(old_, new_) && Binds(old_, c)
    requires q in new_ && IsOrdinary(q) && !q.hasDefault
    ensures Filled(new_, c, q.name)
  {
    var p :| p in old_ && p.name == q.name && IsOrdinary(p) && !p.hasDefault;
    assert Filled(old_, c, p.name);
    if FilledByPosition(old_, c, p.name) {
      var i :| 0 <= i < |Fixed(old_)| && i < c.positional && Fixed(old_)[i].name == p.name;
      assert Fixed(new_)[i].name == q.name;
    } else {
      assert HasOrdinary(new_, q.name);
    }
  }

  lemma {:induction false} ListsSuffice(old_: Signature, new_: Signature, c: Call)
    requires WellFormed(old_) && WellFormed(new_) && ListsCompatible(old_, new_) && Binds(old_, c)
    ensures StillFits(old_, new_, c)
  {
    forall k | k in c.keywords
      ensures KeywordLands(new_, c, k)
    {
      KeywordStillLands(old_, new_, c, k);
    }
    forall q | q in new_ && IsOrdinary(q) && !q.hasDefault
      ensures Filled(new_, c, q.name)
    {
      StillFilled(old_, new_, c, q);
    }
  }

  /** The old call that passes `i` arguments by position, every later required parameter
      by keyword, and the keywords of `extra`. */
  ghost function Probe(s: Signature, i: nat, extra: set<string>): Call
    requires i <= |s|
  {
    Call(i, (set p | p in s[i..] && IsOrdinary(p) && !p.hasDefault :: p.name) + extra)
  }

  lemma {:induction false} ProbeFills(s: Signature, i: nat, extra: set<string>, p: Param)
    requires WellFormed(s) && i <= |Fixed(s)| <= |s|
    requires forall j :: i <= j < |Fixed(s)| ==> s[j].kind == PositionalOrKeyword || s[j].hasDefault
    requires p in s && IsOrdinary(p) && !p.hasDefault
    ensures Filled(s, Probe(s, i, extra), p.name)
  {
    FixedIsPrefix(s);
    var j :| 0 <= j < |s| && s[j] == p;
    if j < i {
      assert Fixed(s)[j].name == p.name;
    } else {
      assert s[i..][j - i] == p;
    }
  }

  /** A keyword that belongs to a parameter from index `i` on is not filled by position. */
  lemma {:induction false} ProbeKeyword(s: Signature, i: nat, c: Call, j: nat)
    requires WellFormed(s) && c.positional == i <= |Fixed(s)| <= |s| && i <= j < |s|
    ensures !FilledByPosition(s, c, s[j].name)
  {
    FixedIsPrefix(s);
  }

  lemma {:induction false} RequiredFromHere(s: Signature, i: nat, extra: set<string>, k: string)
    requires WellFormed(s) && i <= |Fixed(s)| <= |s|
    requires forall j :: i <= j < |Fixed(s)| ==> s[j].kind == PositionalOrKeyword || s[j].hasDefault
    requires k in Probe(s, i, extra).keywords - extra
    ensures KeywordLands(s, Probe(s, i, extra), k)
  {
    var p :| p in s[i..] && IsOrdinary(p) && !p.hasDefault && p.name == k;
    var j :| 0 <= j < |s[i..]| && s[i..][j] == p;
    assert s[i + j] == p && p in s;
    FixedIsPrefix(s);
    ProbeKeyword(s, i, Probe(s, i, extra), i + j);
  }

  lemma {:induction false} ProbeBinds(s: Signature, i: nat, extra: set<string>)
    requires WellFormed(s) && i <= |Fixed(s)| <= |s|
    requires forall j :: i <= j < |Fixed(s)| ==> s[j].kind == PositionalOrKeyword || s[j].hasDefault
    requires forall k :: k in extra ==>
      if IsKeywordName(s, k) then (exists j :: i <= j < |s| && s[j].name == k) else HasKind(s, VarKeyword)
    ensures Binds(s, Probe(s, i, extra))
  {
    var c := Probe(s, i, extra);
    forall k | k in c.keywords
      ensures KeywordLands(s, c, k)
    {
      if k !in extra {
        RequiredFromHere(s, i, extra, k);
      } else if IsKeywordName(s, k) {
        var j :| i <= j < |s| && s[j].name == k;
        ProbeKeyword(s, i, c, j);
      }
    }
    forall p | p in s && IsOrdinary(p) && !p.hasDefault
      ensures Filled(s, c, p.name)
    {
      ProbeFills(s, i, extra, p);
    }
  }

  ghost function TotalLength(names: seq<string>): nat {
    if names == [] then 0 else |names[0]| + TotalLength(names[1..])
  }

  lemma {:induction false} LongerThanAll(names: seq<string>, name: string)
    requires name in names
    ensures |name| <= TotalLength(names)
  {
    if name != names[0] { LongerThanAll(names[1..], name); }
  }

  /** Some keyword is no parameter name of either signature. */
  lemma {:induction false} FreshName(old_: Signature, new_: Signature) returns (name: string)
    ensures forall p :: p in old_ || p in new_ ==> p.name != name
  {
    var names := seq(|old_| + |new_|, i requires 0 <= i < |old_| + |new_| =>
      if i < |old_| then old_[i].name else new_[i - |old_|].name);
    name := seq(TotalLength(names) + 1, _ => 'x');
    forall p | p in old_ || p in new_
      ensures p.name != name
    {
      if p in old_ {
        var i :| 0 <= i < |old_| && old_[i] == p;
        assert names[i] == p.name;
      } else {
        var i :| 0 <= i < |new_| && new_[i] == p;
        assert names[|old_| + i] == p.name;
      }
      LongerThanAll(names, p.name);
    }
  }

  lemma {:induction false} PositionsNecessary(old_: Signature, new_: Signature)
    requires WellFormed(old_) && WellFormed(new_) && Compatible(old_, new_)
    ensures PositionsKept(old_, new_)
  {
    var fo, fn := Fixed(old_), Fixed(new_);
    FixedIsPrefix(old_);
    var c := Probe(old_, |fo|, {});
    ProbeBinds(old_, |fo|, {});
    assert StillFits(old_, new_, c);
    forall i | 0 <= i < |fo|
      ensures i < |fn| && fo[i].name == fn[i].name
    {
      assert PositionalTarget(old_, i) == PositionalTarget(new_, i);
    }
    if |fo| > 0 { assert PositionalTarget(old_, |fo| - 1) == PositionalTarget(new_, |fo| - 1); }
    if HasKind(old_, VarPositional) {
      var wide := Call(|fo| + |fn| + 1, c.keywords);
      forall name | FilledByPosition(old_, wide, name)
        ensures FilledByPosition(old_, c, name)
      {
      }
      forall name | FilledByPosition(old_, c, name)
        ensures FilledByPosition(old_, wide, name)
      {
      }
      forall k | k in wide.keywords
        ensures KeywordLands(old_, wide, k)
      {
        assert KeywordLands(old_, c, k);
      }
      forall p | p in old_ && IsOrdinary(p) && !p.hasDefault
        ensures Filled(old_, wide, p.name)
      {
        assert Filled(old_, c, p.name);
      }
      assert StillFits(old_, new_, wide);
      assert PositionalTarget(old_, |fo|) == PositionalTarget(new_, |fo|);
    }
  }

  lemma {:induction false} StarStarNecessary(old_: Signature, new_: Signature)
    requires WellFormed(old_) && WellFormed(new_) && Compatible(old_, new_) && HasKind(old_, VarKeyword)
    ensures HasKind(new_, VarKeyword)
  {
    FixedIsPrefix(old_);
    var unused := FreshName(old_, new_);
    var c := Probe(old_, |Fixed(old_)|, {unused});
    ProbeBinds(old_, |Fixed(old_)|, {unused});
    assert unused in c.keywords;
    assert Binds(new_, c) by { assert StillFits(old_, new_, c); }
    assert KeywordLands(new_, c, unused);
  }

  /** Passing the old parameter at `j` by keyword is an old call. */
  lemma {:induction false} KeywordProbe(old_: Signature, j: nat) returns (c: Call)
    requires WellFormed(old_) && j < |old_|
    requires old_[j].kind == PositionalOrKeyword || old_[j].kind == KeywordOnly
    ensures Binds(old_, c) && old_[j].name in c.keywords
  {
    FixedIsPrefix(old_);
    var i := if j < |Fixed(old_)| then j else |Fixed(old_)|;
    forall l | i <= l < |Fixed(old_)|
      ensures old_[l].kind == PositionalOrKeyword
    {
      assert Rank(old_[l].kind) <= 1;
    }
    c := Probe(old_, i, {old_[j].name});
    ProbeBinds(old_, i, {old_[j].name});
  }

  lemma {:induction false} KeywordNecessary(old_: Signature, new_: Signature, j: nat)
    requires WellFormed(old_) && Compatible(old_, new_) && j < |old_|
    requires old_[j].kind == PositionalOrKeyword || old_[j].kind == KeywordOnly
    ensures var k := old_[j].name;
            if HasOrdinary(new_, k) then IsKeywordName(new_, k) else HasKind(new_, VarKeyword)
  {
    var c := KeywordProbe(old_, j);
    var k := old_[j].name;
    assert old_[j] in old_ && IsKeywordName(old_, k);
    assert StillFits(old_, new_, c);
    assert KeywordLands(new_, c, k);
  }

  lemma {:induction false} KeywordsNecessary(old_: Signature, new_: Signature)
    requires WellFormed(old_) && WellFormed(new_) && Compatible(old_, new_)
    ensures KeywordsKept(old_, new_)
  {
    if HasKind(old_, VarKeyword) { StarStarNecessary(old_, new_); }
    forall k | IsKeywordName(old_, k)
      ensures if HasOrdinary(new_, k) then IsKeywordName(new_, k) else HasKind(new_, VarKeyword)
    {
      var p :| p in old_ && p.name == k && (p.kind == PositionalOrKeyword || p.kind == KeywordOnly);
      var j :| 0 <= j < |old_| && old_[j] == p;
      KeywordNecessary(old_, new_, j);
    }
  }

  /** Whatever the fullest positional call fills, an ordinary old parameter stood for. */
  lemma {:induction false} OldOwner(old_: Signature, new_: Signature, q: Param) returns (p: Param)
    requires WellFormed(old_) && PositionsKept(old_, new_) && |Fixed(old_)| <= |old_|
    requires Filled(new_, Probe(old_, |Fixed(old_)|, {}), q.name)
    ensures p in old_ && p.name == q.name && IsOrdinary(p)
  {
    var c := Probe(old_, |Fixed(old_)|, {});
    if FilledByPosition(new_, c, q.name) {
      var i :| 0 <= i < |Fixed(new_)| && i < c.positional && Fixed(new_)[i].name == q.name;
      FixedKind(old_, i);
      p := old_[i];
    } else {
      p :| p in old_[|Fixed(old_)|..] && IsOrdinary(p) && !p.hasDefault && p.name == q.name;
    }
  }

  lemma {:induction false} RequiredNecessary(old_: Signature, new_: Signature)
    requires WellFormed(old_) && WellFormed(new_) && Compatible(old_, new_)
    ensures RequiredKept(old_, new_)
  {
    PositionsNecessary(old_, new_);
    FixedIsPrefix(old_);
    var n := |Fixed(old_)|;
    var c := Probe(old_, n, {});
    ProbeBinds(old_, n, {});
    assert Binds(new_, c) by { assert StillFits(old_, new_, c); }
    forall q | q in new_ && IsOrdinary(q) && !q.hasDefault
      ensures exists p :: p in old_ && p.name == q.name && IsOrdinary(p) && !p.hasDefault
    {
      var p := OldOwner(old_, new_, q);
      assert p.hasDefault ==> DefaultKept(p, q);
    }
  }

  lemma {:induction false} PositionalOnlyNecessary(old_: Signature, new_: Signature)
    requires WellFormed(old_) && WellFormed(new_) && Compatible(old_, new_)
    ensures PositionalOnlyKept(old_, new_)
  {
    PositionsNecessary(old_, new_);
    FixedIsPrefix(old_);
    FixedIsPrefix(new_);
    var n := |Fixed(old_)|;
    forall i | HasKind(old_, VarKeyword) && 0 <= i < n && Fixed(old_)[i].kind == PositionalOnly
      ensures Fixed(new_)[i].kind == PositionalOnly
    {
      var k := old_[i].name;
      PositionalOnlyIsNoKeyword(old_, i);
      var c := Probe(old_, n, {k});
      ProbeBinds(old_, n, {k});
      assert StillFits(old_, new_, c);
      assert k in c.keywords;
      assert KeywordLands(new_, c, k);
      assert FilledByPosition(new_, c, k);
      FixedKind(new_, i);
      assert Fixed(new_)[i].kind != PositionalOnly ==> IsKeywordName(new_, k);
    }
  }

  /** Compatibility of all calls, an infinite claim, is decided by the two lists. */
  lemma {:induction false} CompatibleIffLists(old_: Signature, new_: Signature)
    requires WellFormed(old_) && WellFormed(new_)
    ensures Compatible(old_, new_) <==> ListsCompatible(old_, new_)
  {
    if Compatible(old_, new_) {
      PositionsNecessary(old_, new_);
      KeywordsNecessary(old_, new_);
      RequiredNecessary(old_, new_);
      PositionalOnlyNecessary(old_, new_);
    }
    if ListsCompatible(old_, new_) {
      forall c | Binds(old_, c)
        ensures StillFits(old_, new_, c)
      {
        ListsSuffice(old_, new_, c);
      }
    }
  }

  // ---------- What a clean verdict says ----------

  ghost predicate ParametersClean(old_: Signature, new_: Signature) {
    forall p :: p in old_ ==> ParameterBreak(p, new_).None?
  }

  ghost predicate Clean(old_: Signature, new_: Signature) {
    && ParametersClean(old_, new_)
    && (HasKind(new_, VarPositional) || |Positional(old_)| <= |Positional(new_)|)
    && (forall i :: 0 <= i < |Fixed(old_)| && i < |Fixed(new_)| ==> Fixed(old_)[i].name == Fixed(new_)[i].name)
    && (forall q :: q in new_ && IsOrdinary(q) && !q.hasDefault ==> ByName(old_, q.name).Some?)
  }

  lemma {:induction false} ParameterLoop(old_: Signature, new_: Signature)
    ensures FirstParameterBreak(old_, new_).None? <==> ParametersClean(old_, new_)
  {
    if old_ != [] {
      ParameterLoop(old_[1..], new_);
      assert forall p :: p in old_ <==> p == old_[0] || p in old_[1..];
    }
  }

  lemma {:induction false} PositionLoop(old_: Signature, new_: Signature, i: nat)
    ensures FirstPositionBreak(old_, new_, i).None?
      <==> forall j :: i <= j < |old_| && j < |new_| ==> old_[j].name == new_[j].name
    decreases |old_| - i
  {
    if i < |old_| && i < |new_| && old_[i].name == new_[i].name {
      PositionLoop(old_, new_, i + 1);
    }
  }

  lemma {:induction false} RequiredLoop(new_: Signature, old_: Signature)
    ensures FirstRequiredAdded(new_, old_).None?
      <==> forall q :: q in new_ && IsOrdinary(q) && !q.hasDefault ==> ByName(old_, q.name).Some?
  {
    if new_ != [] {
      RequiredLoop(new_[1..], old_);
      assert forall q :: q in new_ <==> q == new_[0] || q in new_[1..];
    }
  }

  lemma {:induction false} VerdictIsClean(old_: Signature, new_: Signature)
    ensures SignatureBreakage(Some(old_), Some(new_)).None? <==> Clean(old_, new_)
  {
    ParameterLoop(old_, new_);
    PositionLoop(Fixed(old_), Fixed(new_), 0);
    RequiredLoop(new_, old_);
  }

  // ---------- What the reported reason says ----------

  /** The reason holds of the two lists. */
  ghost predicate Holds(r: Reason, old_: Signature, new_: Signature) {
    match r
    case SignatureAppearedOrVanished => false
    case VarPositionalRemoved(name) =>
      && (exists p :: p in old_ && p.kind == VarPositional && p.name == name)
      && forall q :: q in new_ ==> q.kind != VarPositional
    case VarKeywordRemoved(name) =>
      && (exists p :: p in old_ && p.kind == VarKeyword && p.name == name)
      && forall q :: q in new_ ==> q.kind != VarKeyword
    case KeywordParameterRemoved(name) =>
      && (exists p :: p in old_ && p.name == name && TakesKeyword(p))
      && forall q :: q in new_ ==> q.name != name && q.kind != VarKeyword
    case NoLongerAcceptsKeyword(name) =>
      exists p, q :: Namesakes(p, q, name, old_, new_) && TakesKeyword(p) && !TakesKeyword(q)
    case BecameRequired(name) =>
      exists p, q :: Namesakes(p, q, name, old_, new_) && TakesKeyword(p) && p.hasDefault && !q.hasDefault
    case DefaultChanged(name) =>
      exists p, q :: Namesakes(p, q, name, old_, new_) && TakesKeyword(p) && p.hasDefault && q.hasDefault
              && NormalizeDefaultRepr(p.defaultRepr) != NormalizeDefaultRepr(q.defaultRepr)
    case TooFewPositional(accepted, wanted) =>
      && accepted == |Positional(new_)| && wanted == |Positional(old_)| && accepted < wanted
      && forall q :: q in new_ ==> q.kind != VarPositional
    case PositionalMoved(name, from, to) =>
      && 1 <= from <= |Fixed(old_)| && Fixed(old_)[from - 1].name == name
      && 1 <= to <= |Fixed(new_)| && Fixed(new_)[to - 1].name == name && from != to
    case PositionalReplaced(name, at, byName) =>
      && 1 <= at <= |Fixed(old_)| && Fixed(old_)[at - 1].name == name
      && at <= |Fixed(new_)| && Fixed(new_)[at - 1].name == byName
      && forall q :: q in Fixed(new_) ==> q.name != name
    case RequiredAdded(name) =>
      && (exists q :: q in new_ && q.name == name && IsOrdinary(q) && !q.hasDefault)
      && forall p :: p in old_ ==> p.name != name
  }

  predicate TakesKeyword(p: Param) {
    p.kind == PositionalOrKeyword || p.kind == KeywordOnly || p.kind == VarKeyword
  }

  predicate Namesakes(p: Param, q: Param, name: string, old_: Signature, new_: Signature) {
    p in old_ && q in new_ && p.name == name && q.name == name
  }

  lemma {:induction false} NamedByName(s: Signature, name: string)
    ensures ByName(s, name).None? <==> forall p :: p in s ==> p.name != name
    ensures ByName(s, name).Some? ==> ByName(s, name).value in s && ByName(s, name).value.name == name
  {
    if s != [] {
      NamedByName(s[..|s| - 1], name);
      assert s == s[..|s| - 1] + [s[|s| - 1]];
    }
  }

  lemma {:induction false} ParameterBreakHolds(p: Param, old_: Signature, new_: Signature)
    requires p in old_ && ParameterBreak(p, new_).Some?
    ensures Holds(ParameterBreak(p, new_).value, old_, new_)
  {
    NamedByName(new_, p.name);
    var q := ByName(new_, p.name);
    if q.Some? {
      assert Namesakes(p, q.value, p.name, old_, new_);
    }
  }

  lemma {:induction false} FirstParameterBreakHolds(rest: Signature, old_: Signature, new_: Signature)
    requires (forall p :: p in rest ==> p in old_) && FirstParameterBreak(rest, new_).Some?
    ensures Holds(FirstParameterBreak(rest, new_).value, old_, new_)
  {
    if ParameterBreak(rest[0], new_).Some? {
      ParameterBreakHolds(rest[0], old_, new_);
    } else {
      FirstParameterBreakHolds(rest[1..], old_, new_);
    }
  }

  lemma {:induction false} PositionBreakHolds(old_: Signature, new_: Signature, i: nat)
    requires FirstPositionBreak(Fixed(old_), Fixed(new_), i).Some?
    ensures Holds(FirstPositionBreak(Fixed(old_), Fixed(new_), i).value, old_, new_)
    decreases |Fixed(old_)| - i
  {
    if Fixed(old_)[i].name == Fixed(new_)[i].name {
      PositionBreakHolds(old_, new_, i + 1);
    }
  }

  lemma {:induction false} RequiredAddedHolds(rest: Signature, old_: Signature, new_: Signature)
    requires (forall q :: q in rest ==> q in new_) && FirstRequiredAdded(rest, old_).Some?
    ensures Holds(FirstRequiredAdded(rest, old_).value, old_, new_)
  {
    NamedByName(old_, rest[0].name);
    if !(IsOrdinary(rest[0]) && !rest[0].hasDefault && ByName(old_, rest[0].name).None?) {
      RequiredAddedHolds(rest[1..], old_, new_);
    } else {
      assert rest[0] in new_;
    }
  }

  /** A break is reported with a reason that holds; a signature that appears or vanishes is one. */
  lemma {:induction false} ReasonHolds(old_: Option<Signature>, new_: Option<Signature>)
    ensures var r := SignatureBreakage(old_, new_);
            if old_.None? || new_.None? then r == if old_ == new_ then None else Some(SignatureAppearedOrVanished)
            else r.Some? ==> Holds(r.value, old_.value, new_.value)
  {
    if old_.Some? && new_.Some? {
      if FirstParameterBreak(old_.value, new_.value).Some? {
        FirstParameterBreakHolds(old_.value, old_.value, new_.value);
      } else if FirstPositionBreak(Fixed(old_.value), Fixed(new_.value), 0).Some? {
        PositionBreakHolds(old_.value, new_.value, 0);
      } else if FirstRequiredAdded(new_.value, old_.value).Some? {
        RequiredAddedHolds(new_.value, old_.value, new_.value);
      }
    }
  }

  // ---------- When the verdict is right ----------

  /** What the checker does not look at: read from the two lists before the call. */
  ghost predicate NoBlindSpot(old_: Signature, new_: Signature) {
    // no required new parameter takes over the name of an old *args or **kwargs
    && (forall q, v :: q in new_ && IsOrdinary(q) && !q.hasDefault && v in old_ && !IsOrdinary(v)
          ==> q.name != v.name)
    // no fixed positional parameter disappears behind *args, none is put before an old *args
    && |Fixed(old_)| <= |Fixed(new_)|
    && (HasKind(old_, VarPositional) ==> |Fixed(old_)| == |Fixed(new_)|)
    // positional-only parameters beside **kwargs stay positional-only
    && PositionalOnlyKept(old_, new_)
    // optional positional-only parameters keep their defaults
    && (forall i :: 0 <= i < |Fixed(old_)| && Fixed(old_)[i].kind == PositionalOnly && Fixed(old_)[i].hasDefault
          ==> DefaultKept(Fixed(old_)[i], Fixed(new_)[i]))
  }

  /** No old keyword parameter or **kwargs shares its name with a new parameter that the
      name lookup finds although it is not the one that receives the keyword. */
  ghost predicate NoFalseAlarm(old_: Signature, new_: Signature) {
    forall p, q :: p in old_ && q in new_ && p.name == q.name && AcceptsKeyword(p)
      ==> AcceptsKeyword(q) && (p.hasDefault ==> q.kind != VarKeyword)
  }

  lemma {:induction false} KeywordSeen(old_: Signature, new_: Signature, p: Param)
    requires WellFormed(new_) && ParametersClean(old_, new_)
    requires p in old_ && (p.kind == PositionalOrKeyword || p.kind == KeywordOnly)
    ensures if HasOrdinary(new_, p.name) then IsKeywordName(new_, p.name) else HasKind(new_, VarKeyword)
  {
    assert ParameterBreak(p, new_).None?;
    ByNameFinds(new_, p.name);
    if HasOrdinary(new_, p.name) {
      var q :| q in new_ && q.name == p.name && IsOrdinary(q);
      ByNameOnly(new_, q);
    }
  }

  lemma {:induction false} RequiredSeen(old_: Signature, new_: Signature, q: Param)
    requires WellFormed(old_) && WellFormed(new_) && Clean(old_, new_) && NoBlindSpot(old_, new_)
    requires q in new_ && IsOrdinary(q) && !q.hasDefault
    ensures exists p :: p in old_ && p.name == q.name && IsOrdinary(p) && !p.hasDefault
  {
    ByNameFinds(old_, q.name);
    var p := ByName(old_, q.name).value;
    assert p in old_ && p.name == q.name;
    if p.hasDefault { OptionalSeen(old_, new_, p, q); }
  }

  lemma {:induction false} CleanAndSeenIsCompatible(old_: Signature, new_: Signature)
    requires WellFormed(old_) && WellFormed(new_) && Clean(old_, new_) && NoBlindSpot(old_, new_)
    ensures ListsCompatible(old_, new_)
  {
    assert PositionsKept(old_, new_) && (HasKind(old_, VarKeyword) ==> HasKind(new_, VarKeyword)) by {
      VariadicsSeen(old_, new_);
    }
    forall k | IsKeywordName(old_, k)
      ensures if HasOrdinary(new_, k) then IsKeywordName(new_, k) else HasKind(new_, VarKeyword)
    {
      var p :| p in old_ && p.name == k && (p.kind == PositionalOrKeyword || p.kind == KeywordOnly);
      KeywordSeen(old_, new_, p);
    }
    forall p, q | p in old_ && q in new_ && p.name == q.name && p.hasDefault && IsOrdinary(q)
      ensures DefaultKept(p, q)
    {
      OptionalSeen(old_, new_, p, q);
    }
    forall q | q in new_ && IsOrdinary(q) && !q.hasDefault
      ensures exists p :: p in old_ && p.name == q.name && IsOrdinary(p) && !p.hasDefault
    {
      RequiredSeen(old_, new_, q);
    }
  }

  lemma {:induction false} VariadicsSeen(old_: Signature, new_: Signature)
    requires Clean(old_, new_) && NoBlindSpot(old_, new_)
    ensures PositionsKept(old_, new_)
    ensures HasKind(old_, VarKeyword) ==> HasKind(new_, VarKeyword)
  {
    forall p | p in old_
      ensures ParameterBreak(p, new_).None?
    {
    }
  }

  lemma {:induction false} OptionalSeen(old_: Signature, new_: Signature, p: Param, q: Param)
    requires WellFormed(old_) && WellFormed(new_) && Clean(old_, new_) && NoBlindSpot(old_, new_)
    requires p in old_ && q in new_ && p.name == q.name && p.hasDefault && IsOrdinary(q)
    ensures DefaultKept(p, q)
  {
    FixedIsPrefix(old_);
    FixedIsPrefix(new_);
    var i :| 0 <= i < |old_| && old_[i] == p;
    if p.kind == PositionalOnly {
      assert Fixed(new_)[i] in new_ && Fixed(new_)[i].name == p.name;
      SameNameSameParam(new_, q, Fixed(new_)[i]);
    } else {
      ByNameOnly(new_, q);
      assert ParameterBreak(p, new_).None?;
    }
  }

  lemma {:induction false} CompatibleIsSeen(old_: Signature, new_: Signature)
    requires WellFormed(old_) && WellFormed(new_) && ListsCompatible(old_, new_)
    ensures NoBlindSpot(old_, new_)
  {
    FixedIsPrefix(old_);
    FixedIsPrefix(new_);
    forall q, v | q in new_ && IsOrdinary(q) && !q.hasDefault && v in old_ && !IsOrdinary(v)
      ensures q.name != v.name
    {
      var p :| p in old_ && p.name == q.name && IsOrdinary(p) && !p.hasDefault;
      if q.name == v.name { SameNameSameParam(old_, p, v); }
    }
    forall i | 0 <= i < |Fixed(old_)| && Fixed(old_)[i].kind == PositionalOnly && Fixed(old_)[i].hasDefault
      ensures DefaultKept(Fixed(old_)[i], Fixed(new_)[i])
    {
      assert Fixed(old_)[i] in old_ && Fixed(new_)[i] in new_;
    }
  }

  /** A compatible parameter draws a report exactly when the name lookup is misled. */
  lemma {:induction false} CompatibleParameter(old_: Signature, new_: Signature, p: Param)
    requires WellFormed(old_) && WellFormed(new_) && ListsCompatible(old_, new_) && p in old_
    ensures ParameterBreak(p, new_).None?
      <==> (AcceptsKeyword(p) ==> forall q :: q in new_ && p.name == q.name
                                    ==> AcceptsKeyword(q) && (p.hasDefault ==> q.kind != VarKeyword))
  {
    ByNameFinds(new_, p.name);
    match ByName(new_, p.name)
    case None =>
      if p.kind == PositionalOrKeyword || p.kind == KeywordOnly { assert IsKeywordName(old_, p.name); }
    case Some(q) =>
      var j :| 0 <= j < |new_| && new_[j] == q;
      var i :| 0 <= i < |old_| && old_[i] == p;
      if p.hasDefault && IsOrdinary(q) { assert DefaultKept(p, q); }
      forall q' | q' in new_ && p.name == q'.name
        ensures q' == q
      {
        SameNameSameParam(new_, q, q');
      }
  }

  lemma {:induction false} CompatibleVerdict(old_: Signature, new_: Signature)
    requires WellFormed(old_) && WellFormed(new_) && ListsCompatible(old_, new_)
    ensures Clean(old_, new_) <==> NoFalseAlarm(old_, new_)
  {
    FixedIsPrefix(old_);
    FixedIsPrefix(new_);
    forall p | p in old_
      ensures ParameterBreak(p, new_).None?
        <==> (AcceptsKeyword(p) ==> forall q :: q in new_ && p.name == q.name
                                      ==> AcceptsKeyword(q) && (p.hasDefault ==> q.kind != VarKeyword))
    {
      CompatibleParameter(old_, new_, p);
    }
    forall q | q in new_ && IsOrdinary(q) && !q.hasDefault
      ensures ByName(old_, q.name).Some?
    {
      var p :| p in old_ && p.name == q.name && IsOrdinary(p) && !p.hasDefault;
      ByNameFinds(old_, q.name);
    }
  }

  /** The verdict, for all well-formed signatures: a clean one is right exactly when the
      lists hold no blind spot, and a compatible change is passed exactly when no name
      lookup is misled. */
  lemma {:induction false} VerdictExact(old_: Signature, new_: Signature)
    requires WellFormed(old_) && WellFormed(new_)
    ensures SignatureBreakage(Some(old_), Some(new_)).None?
      ==> (Compatible(old_, new_) <==> NoBlindSpot(old_, new_))
    ensures Compatible(old_, new_)
      ==> (SignatureBreakage(Some(old_), Some(new_)).None? <==> NoFalseAlarm(old_, new_))
  {
    CompatibleIffLists(old_, new_);
    VerdictIsClean(old_, new_);
    if Compatible(old_, new_) {
      CompatibleIsSeen(old_, new_);
      CompatibleVerdict(old_, new_);
    } else if Clean(old_, new_) && NoBlindSpot(old_, new_) {
      CleanAndSeenIsCompatible(old_, new_);
    }
  }

  /** Neither side uses positional-only parameters or *args, and neither reuses the other's
      ** name for an ordinary parameter. */
  ghost predicate PlainPair(old_: Signature, new_: Signature) {
    && (forall p :: p in old_ || p in new_ ==> p.kind != PositionalOnly && p.kind != VarPositional)
    && (forall p, q :: p in old_ && q in new_ && p.name == q.name ==> (IsOrdinary(p) <==> IsOrdinary(q)))
  }

  /** On plain signatures the checker is a decision procedure. */
  lemma {:induction false} PlainVerdictDecides(old_: Signature, new_: Signature)
    requires WellFormed(old_) && WellFormed(new_) && PlainPair(old_, new_)
    ensures SignatureBreakage(Some(old_), Some(new_)).None? <==> Compatible(old_, new_)
  {
    FixedIsPrefix(old_);
    FixedIsPrefix(new_);
    VerdictExact(old_, new_);
    VerdictIsClean(old_, new_);
    assert !HasKind(old_, VarPositional) && !HasKind(new_, VarPositional);
    assert forall i :: 0 <= i < |Fixed(old_)| ==> Fixed(old_)[i] in old_;
    assert Clean(old_, new_) ==> NoBlindSpot(old_, new_);
    forall p, q | p in old_ && q in new_ && p.name == q.name && AcceptsKeyword(p)
      ensures AcceptsKeyword(q) && (p.hasDefault ==> q.kind != VarKeyword)
    {
      var i :| 0 <= i < |old_| && old_[i] == p;
    }
  }

  // ---------- The hypotheses are needed ----------

  ghost predicate PassedButBroken(old_: Signature, new_: Signature) {
    && WellFormed(old_) && WellFormed(new_)
    && SignatureBreakage(Some(old_), Some(new_)).None? && !Compatible(old_, new_)
  }

  ghost predicate ReportedButFine(old_: Signature, new_: Signature) {
    && WellFormed(old_) && WellFormed(new_)
    && SignatureBreakage(Some(old_), Some(new_)).Some? && Compatible(old_, new_)
  }

  lemma {:induction false} PassedByBlindSpot(old_: Signature, new_: Signature)
    requires WellFormed(old_) && WellFormed(new_) && Clean(old_, new_) && !NoBlindSpot(old_, new_)
    ensures PassedButBroken(old_, new_)
  {
    VerdictIsClean(old_, new_);
    VerdictExact(old_, new_);
  }

  /** `f(a=1, /)` may become `f(a, /)` unnoticed. */
  lemma {:induction false} OptionalPositionalOnlyMissed(p: Param)
    requires p.kind == PositionalOnly && p.hasDefault
    ensures PassedButBroken([p], [p.(hasDefault := false)])
  {
    var old_, new_ := [p], [p.(hasDefault := false)];
    FixedIsPrefix(old_);
    FixedIsPrefix(new_);
    ByNameOnly(old_, p);
    assert Fixed(old_)[0] == p && Fixed(new_)[0] == new_[0];
    PassedByBlindSpot(old_, new_);
  }

  /** `f(**b)` may become `f(b, **c)` unnoticed: the required parameter reuses the name. */
  lemma {:induction false} ReusedNameMissed(kw: Param, required: Param, rest: Param)
    requires kw.kind == VarKeyword && required.kind == PositionalOrKeyword && rest.kind == VarKeyword
    requires !kw.hasDefault && !required.hasDefault && !rest.hasDefault
    requires required.name == kw.name != rest.name
    ensures PassedButBroken([kw], [required, rest])
  {
    var old_, new_ := [kw], [required, rest];
    assert WellFormed(new_);
    assert Clean(old_, new_) by {
      FixedIsPrefix(old_);
      assert rest in new_ && new_[0] == required;
      ByNameOnly(new_, required);
      ByNameOnly(old_, kw);
      assert ParametersClean(old_, new_);
      assert |Positional(old_)| == 0 && |Fixed(old_)| == 0 by { assert old_[0].kind == VarKeyword; }
    }
    assert !NoBlindSpot(old_, new_) by { assert required in new_ && kw in old_; }
    PassedByBlindSpot(old_, new_);
  }

  /** `f(b)` may become `f(*args, b)` unnoticed: the parameter moves behind the star. */
  lemma {:induction false} MovedBehindStarMissed(b: Param, star: Param, last: Param)
    requires b.kind == PositionalOrKeyword && star.kind == VarPositional && last == b.(kind := KeywordOnly)
    requires !b.hasDefault && !star.hasDefault && b.name != star.name
    ensures PassedButBroken([b], [star, last])
  {
    var old_, new_ := [b], [star, last];
    assert WellFormed(new_);
    assert |Fixed(new_)| == 0 by {
      FixedIsPrefix(new_);
      assert new_[0] == star;
    }
    assert |Fixed(old_)| == 1 by {
      FixedIsPrefix(old_);
      assert old_[0] == b;
    }
    assert HasKind(new_, VarPositional) by { assert new_[0] == star && star in new_; }
    assert ParametersClean(old_, new_) by {
      assert new_[1] == last && last in new_;
      ByNameOnly(new_, last);
    }
    assert Clean(old_, new_) by { ByNameOnly(old_, b); }
    PassedByBlindSpot(old_, new_);
  }

  /** `f(*, b=1)` may not become `f(**b)`, although every old call still binds. */
  lemma {:induction false} SwallowedNameReported(b: Param, kw: Param)
    requires b.kind == KeywordOnly && b.hasDefault
    requires kw.kind == VarKeyword && !kw.hasDefault && kw.name == b.name
    ensures ReportedButFine([b], [kw])
  {
    var old_, new_ := [b], [kw];
    assert WellFormed(old_) && WellFormed(new_);
    assert ListsCompatible(old_, new_) by {
      assert kw in new_ && old_[0] == b && new_[0] == kw;
      FixedIsPrefix(old_);
      FixedIsPrefix(new_);
      assert |Fixed(new_)| == 0 && |Fixed(old_)| == 0;
    }
    assert !NoFalseAlarm(old_, new_) by {
      assert b in old_ && kw in new_;
    }
    CompatibleIffLists(old_, new_);
    VerdictExact(old_, new_);
  }

  const CANONICAL := "<object object at 0x...>"

  /** The repr of a bare `object()` at some address. */
  ghost predicate ObjectAt(text: string, digits: string) {
    && text == "<object object at 0x" + digits + ">" && digits != ""
    && forall i :: 0 <= i < |digits| ==>
         '0' <= digits[i] <= '9' || 'a' <= digits[i] <= 'f' || 'A' <= digits[i] <= 'F'
  }

  ghost predicate IsBareObject(repr: Option<string>) {
    repr.Some? && ((exists digits :: ObjectAt(repr.value, digits)) || repr.value == CANONICAL)
  }

  lemma {:induction false} SentinelIsObject(text: string)
    ensures IsObjectSentinel(text) <==> exists digits :: ObjectAt(text, digits)
  {
    if IsObjectSentinel(text) {
      var digits := text[|SENTINEL_HEAD|..|text| - 1];
      assert text == SENTINEL_HEAD + digits + [text[|text| - 1]];
      assert ObjectAt(text, digits);
    }
    if digits :| ObjectAt(text, digits) {
      assert text[..|SENTINEL_HEAD|] == SENTINEL_HEAD;
      forall i | |SENTINEL_HEAD| <= i < |text| - 1 ensures IsHex(text[i]) {
        assert text[i] == digits[i - |SENTINEL_HEAD|];
      }
    }
  }

  /** Normalising merges the bare sentinels and nothing else. */
  lemma {:induction false} NormalizeMergesOnlySentinels(a: Option<string>, b: Option<string>)
    ensures NormalizeDefaultRepr(a) == NormalizeDefaultRepr(b)
      <==> a == b || (IsBareObject(a) && IsBareObject(b))
  {
    assert CANONICAL[|SENTINEL_HEAD|] == '.';
    if a.Some? {
      SentinelIsObject(a.value);
    }
    if b.Some? {
      SentinelIsObject(b.value);
    }
    assert !IsObjectSentinel(CANONICAL);
  }
}
