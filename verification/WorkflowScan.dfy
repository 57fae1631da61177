/**
 The secret-gate scanner of scripts/check_workflow_secret_gates.py.

 The regular expressions are taken as given: a line arrives already classified, with its
 indentation, its guard value and the secrets it mentions.  `Report` is the two-pass
 specification: split the lines into jobs, work out each job's final environment and
 guards and each step's final guard, then judge every secret use.  `ScanWorkflow` is the
 one-pass loop of the source, which tracks block scalars and defers its decisions.
 */
module WorkflowScan {

  /** The value of an `if:` key: the opening of a block scalar, or an expression. */
  datatype Guard = Block | Inline(text: string)

  datatype Shape =
    | JobsKey
    | JobHeader(name: string)
    | Environment(approved: bool)
    | JobIf(job: Guard)
    | StepHeader
    | StepIf(step: Guard)
    | Comment(commentIndent: nat)
    | Blank
    | Other(otherIndent: nat)

  /** A line: its shape, its text as a block-scalar fragment, the secrets it names once
      trailing comments are stripped, whether it is `secrets: inherit`, and whether the raw
      text mentions a secret at all. */
  datatype Line = Line(shape: Shape, fragment: string, secrets: seq<string>, inherits: bool, mentions: bool)

  datatype Hit = Hit(line: nat, secret: string, scope: int)

  datatype Violation = Ungated(line: nat, secret: string, job: string) | NoJobs

  const BENIGN := {"GITHUB_TOKEN"}
  const INHERIT := "<inherit>"
  const JOB_INDENT := 4
  const STEP_INDENT := 6

  function Indent(shape: Shape): nat {
    match shape
    case JobsKey => 0
    case JobHeader(_) => 2
    case Environment(_) => 4
    case JobIf(_) => 4
    case StepHeader => 4
    case StepIf(_) => 6
    case Comment(n) => n
    case Blank => 0
    case Other(n) => n
  }

  /** The line continues a block scalar whose key is indented by `limit`. */
  predicate Soft(line: Line, limit: nat) {
    line.shape.Blank? || Indent(line.shape) > limit
  }

  // ---------- Pass one: jobs ----------

  /** A job: its name, the line number of its header, and the lines that follow it. */
  datatype Job = Job(name: string, header: nat, body: seq<Line>)

  predicate Started(lines: seq<Line>) {
    exists i :: 0 <= i < |lines| && lines[i].shape.JobsKey?
  }

  /** A header opens a job; every other line belongs to the job opened last. */
  function AddLine(jobs: seq<Job>, line: Line, n: nat): seq<Job> {
    if line.shape.JobHeader? then jobs + [Job(line.shape.name, n, [])]
    else if jobs == [] then []
    else
      var current := jobs[|jobs| - 1];
      jobs[..|jobs| - 1] + [Job(current.name, current.header, current.body + [line])]
  }

  /** The jobs of the text, which start below the `jobs:` key. */
  function Jobs(lines: seq<Line>): seq<Job> {
    if lines == [] || !Started(lines[..|lines| - 1]) then []
    else AddLine(Jobs(lines[..|lines| - 1]), lines[|lines| - 1], |lines|)
  }

  // ---------- Pass one: scopes and guards of one job body ----------

  function StepCount(body: seq<Line>): nat {
    if body == [] then 0
    else StepCount(body[..|body| - 1]) + if body[|body| - 1].shape.StepHeader? then 1 else 0
  }

  /** Which step the text before line `j` is in: -1 for the job itself. */
  function ScopeAt(body: seq<Line>, j: nat): int
    requires j <= |body|
  {
    StepCount(body[..j]) - 1
  }

  /** Line `j` sets the guard of its scope.  A job-level `if:` after the first step does not. */
  predicate IsGuard(body: seq<Line>, j: nat)
    requires j < |body|
  {
    || (body[j].shape.JobIf? && ScopeAt(body, j) == -1)
    || (body[j].shape.StepIf? && ScopeAt(body, j) >= 0)
  }

  function GuardOf(line: Line): Guard
    requires line.shape.JobIf? || line.shape.StepIf?
  {
    if line.shape.JobIf? then line.shape.job else line.shape.step
  }

  function LimitOf(line: Line): nat {
    if line.shape.JobIf? then JOB_INDENT else STEP_INDENT
  }

  /** The block scalar opened at line `j` is still open just before line `k`. */
  ghost predicate OpenAt(body: seq<Line>, j: nat, k: nat)
    requires j < k <= |body|
  {
    && IsGuard(body, j)
    && GuardOf(body[j]).Block?
    && forall m :: j < m < k ==> Soft(body[m], LimitOf(body[j]))
  }

  ghost predicate Continuation(body: seq<Line>, k: nat)
    requires k < |body|
  {
    exists j {:trigger OpenAt(body, j, k)} :: 0 <= j < k && OpenAt(body, j, k) && Soft(body[k], LimitOf(body[j]))
  }

  function Gather(body: seq<Line>, m: nat, limit: nat): string
    decreases |body| - m
  {
    if m >= |body| || !Soft(body[m], limit) then ""
    else " " + body[m].fragment + Gather(body, m + 1, limit)
  }

  function GuardText(body: seq<Line>, j: nat): string
    requires j < |body| && IsGuard(body, j)
  {
    match GuardOf(body[j])
    case Inline(text) => text
    case Block => Gather(body, j + 1, LimitOf(body[j]))
  }

  /** The last line below `n` that sets the guard of `scope`, or -1. */
  function LastGuard(body: seq<Line>, scope: int, n: nat): (j: int)
    requires n <= |body|
    ensures -1 <= j < n && (j >= 0 ==> IsGuard(body, j) && ScopeAt(body, j) == scope)
    ensures forall m {:trigger IsGuard(body, m)} :: j < m < n && IsGuard(body, m) ==> ScopeAt(body, m) != scope
  {
    if n == 0 then -1
    else if IsGuard(body, n - 1) && ScopeAt(body, n - 1) == scope then n - 1
    else LastGuard(body, scope, n - 1)
  }

  function FinalGuard(body: seq<Line>, scope: int): string {
    var j := LastGuard(body, scope, |body|);
    if j < 0 then "" else GuardText(body, j)
  }

  predicate Approved(body: seq<Line>) {
    exists j :: 0 <= j < |body| && body[j].shape == Environment(true)
  }

  // ---------- Pass two: secret uses ----------

  ghost predicate Searched(body: seq<Line>, j: nat)
    requires j < |body|
  {
    && !Continuation(body, j)
    && !body[j].shape.Environment?
    && !body[j].shape.Comment?
    && !IsGuard(body, j)
  }

  function NamedHits(n: nat, secrets: seq<string>, scope: int): seq<Hit> {
    if secrets == [] then []
    else
      var last := secrets[|secrets| - 1];
      NamedHits(n, secrets[..|secrets| - 1], scope) + (if last in BENIGN then [] else [Hit(n, last, scope)])
  }

  function LineHits(line: Line, n: nat, scope: int): seq<Hit> {
    if line.inherits then [Hit(n, INHERIT, scope)] else NamedHits(n, line.secrets, scope)
  }

  ghost function Hits(body: seq<Line>, first: nat): seq<Hit> {
    if body == [] then []
    else
      var last := |body| - 1;
      Hits(body[..last], first)
      + if Searched(body, last) then LineHits(body[last], first + last, ScopeAt(body, |body|)) else []
  }

  predicate StepGuarded(hit: Hit, body: seq<Line>, trusted: string -> bool) {
    hit.scope >= 0 && FinalGuard(body, hit.scope) != "" && trusted(FinalGuard(body, hit.scope))
  }

  function Uncovered(hits: seq<Hit>, job: string, body: seq<Line>, trusted: string -> bool): seq<Violation> {
    if hits == [] then []
    else
      var last := hits[|hits| - 1];
      Uncovered(hits[..|hits| - 1], job, body, trusted)
      + (if StepGuarded(last, body, trusted) then [] else [Ungated(last.line, last.secret, job)])
  }

  ghost function JobReport(job: Job, trusted: string -> bool): seq<Violation> {
    if Approved(job.body) || trusted(FinalGuard(job.body, -1)) then []
    else Uncovered(Hits(job.body, job.header + 1), job.name, job.body, trusted)
  }

  ghost function JobReports(jobs: seq<Job>, trusted: string -> bool): seq<Violation> {
    if jobs == [] then []
    else JobReports(jobs[..|jobs| - 1], trusted) + JobReport(jobs[|jobs| - 1], trusted)
  }

  ghost function Report(lines: seq<Line>, trusted: string -> bool): seq<Violation> {
    var silent := Started(lines) && Jobs(lines) == [] && exists i :: 0 <= i < |lines| && lines[i].mentions;
    JobReports(Jobs(lines), trusted) + (if silent then [NoJobs] else [])
  }

  // ---------- One more line ----------

  lemma {:induction false} PrefixStable(body: seq<Line>, x: Line, j: nat)
    requires j < |body|
    ensures (body + [x])[..j] == body[..j] && (body + [x])[..|body|] == body
    ensures ScopeAt(body + [x], j) == ScopeAt(body, j)
    ensures IsGuard(body + [x], j) == IsGuard(body, j)
  {
    assert (body + [x])[..j] == body[..j];
  }

  lemma {:induction false} OpenStable(body: seq<Line>, x: Line, j: nat, k: nat)
    requires j < k <= |body|
    ensures OpenAt(body + [x], j, k) == OpenAt(body, j, k)
  {
    PrefixStable(body, x, j);
    assert forall m :: j < m < k ==> (body + [x])[m] == body[m];
  }

  lemma {:induction false} StepBetween(body: seq<Line>, j: nat, k: nat)
    requires j <= k <= |body|
    ensures ScopeAt(body, j) <= ScopeAt(body, k)
    ensures ScopeAt(body, j) == ScopeAt(body, k) <==> forall m :: j <= m < k ==> !body[m].shape.StepHeader?
    decreases k - j
  {
    if j < k {
      StepBetween(body, j, k - 1);
      assert body[..k][..k - 1] == body[..k - 1];
    }
  }

  /** A block scalar lies in one scope, and no other guard of its job is inside it. */
  lemma {:induction false} OpenScope(body: seq<Line>, j: nat, k: nat)
    requires j < k <= |body| && OpenAt(body, j, k)
    ensures ScopeAt(body, j) == ScopeAt(body, k)
    ensures forall m {:trigger IsGuard(body, m)} :: j < m < k ==> !IsGuard(body, m)
    ensures LimitOf(body[j]) == if ScopeAt(body, j) == -1 then JOB_INDENT else STEP_INDENT
  {
    StepBetween(body, j, k);
    forall m {:trigger IsGuard(body, m)} | j < m < k
      ensures !IsGuard(body, m)
    {
      assert Soft(body[m], LimitOf(body[j]));
      StepBetween(body, j, m);
    }
  }

  lemma {:induction false} OneOpener(body: seq<Line>, i: nat, j: nat, k: nat)
    requires i < k <= |body| && j < k && OpenAt(body, i, k) && OpenAt(body, j, k)
    ensures i == j
  {
    OpenScope(body, i, k);
    OpenScope(body, j, k);
  }

  ghost predicate SoftFrom(body: seq<Line>, m: nat, limit: nat) {
    forall i :: m <= i < |body| ==> Soft(body[i], limit)
  }

  lemma {:induction false} GatherGrows(body: seq<Line>, x: Line, m: nat, limit: nat)
    requires m <= |body|
    ensures Gather(body + [x], m, limit) ==
            Gather(body, m, limit) + if SoftFrom(body, m, limit) && Soft(x, limit) then " " + x.fragment else ""
    decreases |body| - m
  {
    var longer := body + [x];
    var more := if SoftFrom(body, m, limit) && Soft(x, limit) then " " + x.fragment else "";
    if m < |body| {
      assert longer[m] == body[m];
      if Soft(body[m], limit) {
        assert SoftFrom(body, m, limit) == SoftFrom(body, m + 1, limit);
        GatherGrows(body, x, m + 1, limit);
        Associative(" " + body[m].fragment, Gather(body, m + 1, limit), more);
      }
    } else {
      assert longer[m] == x && Gather(longer, m + 1, limit) == "";
    }
  }

  lemma {:induction false} Associative(a: string, b: string, c: string)
    ensures a + (b + c) == (a + b) + c
  {
  }

  lemma {:induction false} LastGuardStable(body: seq<Line>, x: Line, scope: int, n: nat)
    requires n <= |body|
    ensures LastGuard(body + [x], scope, n) == LastGuard(body, scope, n)
  {
    if n > 0 {
      PrefixStable(body, x, n - 1);
      LastGuardStable(body, x, scope, n - 1);
    }
  }

  lemma {:induction false} LastGuardGrows(body: seq<Line>, x: Line, scope: int)
    ensures LastGuard(body + [x], scope, |body| + 1) ==
            if IsGuard(body + [x], |body|) && scope == StepCount(body) - 1 then |body|
            else LastGuard(body, scope, |body|)
  {
    assert (body + [x])[..|body|] == body;
    LastGuardStable(body, x, scope, |body|);
  }

  /** An existing guard's text grows exactly when the new line continues its block. */
  lemma {:induction false} GuardTextGrows(body: seq<Line>, x: Line, j: nat)
    requires j < |body| && IsGuard(body, j)
    ensures IsGuard(body + [x], j)
    ensures GuardText(body + [x], j) ==
            if OpenAt(body, j, |body|) && Soft(x, LimitOf(body[j]))
            then GuardText(body, j) + " " + x.fragment
            else GuardText(body, j)
  {
    PrefixStable(body, x, j);
    if GuardOf(body[j]).Block? {
      GatherGrows(body, x, j + 1, LimitOf(body[j]));
    }
  }

  /** The opener of an open block is the last guard of the current scope. */
  lemma {:induction false} OpenerIsLast(body: seq<Line>, j: nat)
    requires j < |body| && OpenAt(body, j, |body|)
    ensures LastGuard(body, ScopeAt(body, |body|), |body|) == j
  {
    OpenScope(body, j, |body|);
  }

  lemma {:induction false} ApprovedGrows(body: seq<Line>, x: Line)
    ensures Approved(body + [x]) <==> Approved(body) || x.shape == Environment(true)
  {
    var longer := body + [x];
    assert longer[|body|] == x;
    assert forall j :: 0 <= j < |body| ==> longer[j] == body[j];
  }

  lemma {:induction false} GuardHere(body: seq<Line>, x: Line)
    ensures IsGuard(body + [x], |body|) <==> if StepCount(body) == 0 then x.shape.JobIf? else x.shape.StepIf?
  {
    assert (body + [x])[|body|] == x && (body + [x])[..|body|] == body;
  }

  lemma {:induction false} CountGrows(body: seq<Line>, x: Line)
    ensures StepCount(body + [x]) == StepCount(body) + if x.shape.StepHeader? then 1 else 0
  {
    assert (body + [x])[..|body|] == body;
  }

  lemma {:induction false} HitsGrow(body: seq<Line>, x: Line, first: nat)
    ensures Hits(body + [x], first) == Hits(body, first)
      + if Searched(body + [x], |body|)
        then LineHits(x, first + |body|, StepCount(body + [x]) - 1) else []
  {
    assert (body + [x])[..|body|] == body;
    assert (body + [x])[..|body| + 1] == body + [x];
  }

  /** Inside a block scalar, a continuation line extends the guard of the current scope
      and no other, and is not searched for secrets. */
  lemma {:induction false} ContinuationLine(body: seq<Line>, x: Line, opener: nat)
    requires opener < |body| && OpenAt(body, opener, |body|) && Soft(x, LimitOf(body[opener]))
    ensures Continuation(body + [x], |body|) && OpenAt(body + [x], opener, |body| + 1)
    ensures !x.shape.StepHeader? && !x.shape.Environment?
  {
    OpenStable(body, x, opener, |body|);
    assert (body + [x])[opener] == body[opener];
  }

  /** The opener remains the last guard of its scope. */
  lemma {:induction false} OpenerStaysLast(body: seq<Line>, x: Line, opener: nat, scope: int)
    requires opener < |body| && OpenAt(body, opener, |body|) && Soft(x, LimitOf(body[opener]))
    requires scope == StepCount(body) - 1
    ensures LastGuard(body, scope, |body|) == opener
    ensures LastGuard(body + [x], scope, |body + [x]|) == opener
  {
    assert body[..|body|] == body;
    OpenerIsLast(body, opener);
    ContinuationIsNoGuard(body, x, opener);
    LastGuardGrows(body, x, scope);
  }

  lemma {:induction false} FinalGuardIs(body: seq<Line>, scope: int, j: nat)
    requires j < |body| && LastGuard(body, scope, |body|) == j
    ensures FinalGuard(body, scope) == GuardText(body, j)
  {
    var text := GuardText(body, j);
    assert FinalGuard(body, scope) == text;
  }

  /** The guard of the open block's scope grows by the new fragment. */
  lemma {:induction false} GuardContinues(body: seq<Line>, x: Line, opener: nat)
    requires opener < |body| && OpenAt(body, opener, |body|) && Soft(x, LimitOf(body[opener]))
    ensures FinalGuard(body + [x], StepCount(body) - 1) == FinalGuard(body, StepCount(body) - 1) + " " + x.fragment
  {
    var scope := StepCount(body) - 1;
    OpenerStaysLast(body, x, opener, scope);
    FinalGuardIs(body, scope, opener);
    FinalGuardIs(body + [x], scope, opener);
    GuardTextGrows(body, x, opener);
  }

  /** No other guard is touched by it. */
  lemma {:induction false} OtherGuardContinues(body: seq<Line>, x: Line, opener: nat, scope: int)
    requires opener < |body| && OpenAt(body, opener, |body|) && Soft(x, LimitOf(body[opener]))
    requires scope != StepCount(body) - 1
    ensures FinalGuard(body + [x], scope) == FinalGuard(body, scope)
  {
    assert body[..|body|] == body;
    OpenScope(body, opener, |body|);
    ContinuationIsNoGuard(body, x, opener);
    LastGuardGrows(body, x, scope);
    var j := LastGuard(body, scope, |body|);
    if j >= 0 {
      GuardTextGrows(body, x, j);
      assert OpenAt(body, j, |body|) ==> j == opener by {
        if OpenAt(body, j, |body|) { OneOpener(body, opener, j, |body|); }
      }
    }
  }

  lemma {:induction false} ContinuationIsNoGuard(body: seq<Line>, x: Line, opener: nat)
    requires opener < |body| && OpenAt(body, opener, |body|) && Soft(x, LimitOf(body[opener]))
    ensures !IsGuard(body + [x], |body|)
  {
    assert (body + [x])[..|body|] == body && body[..|body|] == body;
    OpenScope(body, opener, |body|);
  }

  /** Outside a block scalar, a line changes at most the guard of the scope it sets. */
  lemma {:induction false} GuardKept(body: seq<Line>, x: Line, scope: int)
    requires !Continuation(body + [x], |body|)
    requires IsGuard(body + [x], |body|) ==> scope != StepCount(body) - 1
    ensures FinalGuard(body + [x], scope) == FinalGuard(body, scope)
  {
    var n := |body|;
    assert (body + [x])[..n] == body;
    LastGuardGrows(body, x, scope);
    var j := LastGuard(body, scope, n);
    if j >= 0 {
      GuardTextGrows(body, x, j);
      NotOpen(body, x, j);
    }
  }

  /** A blank line, or one indented deeper than the `if:` that opened the block, continues it and extends
      its guard; any other ends it. */
  lemma {:induction false} BlockGoesOn(body: seq<Line>, x: Line, opener: nat)
    requires opener < |body| && OpenAt(body, opener, |body|)
    ensures var scope, limit := StepCount(body) - 1, if body[opener].shape.JobIf? then 4 else 6;
            if x.shape.Blank? || Indent(x.shape) > limit
            then FinalGuard(body + [x], scope) == FinalGuard(body, scope) + " " + x.fragment
            else !Continuation(body + [x], |body|)
  {
    var longer := body + [x];
    assert longer[|body|] == x && longer[opener] == body[opener];
    if Soft(x, LimitOf(body[opener])) {
      GuardContinues(body, x, opener);
    } else if j :| 0 <= j < |body| && OpenAt(longer, j, |body|) && Soft(longer[|body|], LimitOf(longer[j])) {
      assert longer[j] == body[j];
      OpenStable(body, x, j, |body|);
      OneOpener(body, opener, j, |body|);
    }
  }

  lemma {:induction false} NotOpen(body: seq<Line>, x: Line, j: nat)
    requires !Continuation(body + [x], |body|) && j < |body|
    ensures !(OpenAt(body, j, |body|) && Soft(x, LimitOf(body[j])))
    ensures !OpenAt(body + [x], j, |body| + 1)
  {
    OpenStable(body, x, j, |body|);
    assert (body + [x])[j] == body[j] && (body + [x])[|body|] == x;
  }

  /** A guard line sets the guard of the current scope, from scratch. */
  lemma {:induction false} GuardLine(body: seq<Line>, x: Line)
    requires if StepCount(body) == 0 then x.shape.JobIf? else x.shape.StepIf?
    ensures FinalGuard(body + [x], StepCount(body) - 1)
         == match x.shape
            case JobIf(Inline(text)) => text
            case StepIf(Inline(text)) => text
            case _ => ""
    ensures GuardOf(x).Block? ==> OpenAt(body + [x], |body|, |body| + 1)
  {
    var longer, n := body + [x], |body|;
    assert longer[n] == x;
    assert ScopeAt(longer, n) == StepCount(body) - 1 by { assert longer[..n] == body; }
    assert LastGuard(longer, StepCount(body) - 1, n + 1) == n by { LastGuardGrows(body, x, StepCount(body) - 1); }
    assert GuardOf(x).Block? ==> GuardText(longer, n) == "";
  }

  // ---------- The one-pass loop ----------

  /** `flush_job`: the verdict on the pending hits of the job that ends. */
  method FlushJob(job: string, approved: bool, jobIf: string, stepIfs: seq<string>, pending: seq<Hit>,
                  trusted: string -> bool, ghost body: seq<Line>)
    returns (violations: seq<Violation>)
    requires forall hit :: hit in pending ==> hit.scope < |stepIfs|
    requires forall i :: 0 <= i < |stepIfs| ==> stepIfs[i] == FinalGuard(body, i)
    ensures violations == if approved || trusted(jobIf) then [] else Uncovered(pending, job, body, trusted)
  {
    violations := [];
    if approved { return; }
    if trusted(jobIf) { return; }
    for i := 0 to |pending|
      invariant violations == Uncovered(pending[..i], job, body, trusted)
    {
      var hit := pending[i];
      assert hit in pending;
      assert pending[..i + 1][..i] == pending[..i];
      if hit.scope >= 0 {
        var stepIf := stepIfs[hit.scope];
        if stepIf != "" && trusted(stepIf) { continue; }
      }
      violations := violations + [Ungated(hit.line, hit.secret, job)];
    }
    assert pending[..|pending|] == pending;
  }

  /** The per-job variables of the loop. */
  datatype JobState = JobState(
    approved: bool, jobIf: string,
    stepIfs: seq<string>, step: int, inStep: bool,
    inBlock: bool, blockLimit: nat, blockIsJob: bool,
    pending: seq<Hit>)

  /** `reset_for_new_job`. */
  const FRESH := JobState(false, "", [], -1, false, false, 0, false, [])

  /** The line whose block scalar is still open at the end of the text, or -1. */
  function OpenBlock(body: seq<Line>): (j: int)
    ensures -1 <= j < |body|
  {
    if body == [] then -1
    else
      var last := |body| - 1;
      var j := OpenBlock(body[..last]);
      if j >= 0 && Soft(body[last], LimitOf(body[j])) then j
      else if IsGuard(body, last) && GuardOf(body[last]).Block? then last
      else -1
  }

  lemma {:induction false} OpenBlockGrows(body: seq<Line>, x: Line)
    ensures OpenBlock(body + [x]) ==
            if OpenBlock(body) >= 0 && Soft(x, LimitOf(body[OpenBlock(body)])) then OpenBlock(body)
            else if IsGuard(body + [x], |body|) && GuardOf(x).Block? then |body| else -1
  {
    assert (body + [x])[..|body|] == body;
  }

  lemma {:induction false} OpenBlockIsOpen(body: seq<Line>)
    requires OpenBlock(body) >= 0
    ensures OpenAt(body, OpenBlock(body), |body|)
  {
    var last := |body| - 1;
    var j := OpenBlock(body[..last]);
    if j >= 0 && Soft(body[last], LimitOf(body[j])) {
      OpenBlockIsOpen(body[..last]);
      OpenStable(body[..last], body[last], j, last);
      assert body == body[..last] + [body[last]];
    }
  }

  lemma {:induction false} OpenIsOpenBlock(body: seq<Line>, j: nat)
    requires j < |body| && OpenAt(body, j, |body|)
    ensures OpenBlock(body) == j
  {
    var last := |body| - 1;
    var x := body[last];
    assert body == body[..last] + [x];
    OpenBlockGrows(body[..last], x);
    if j < last {
      OpenStable(body[..last], x, j, last);
      OpenIsOpenBlock(body[..last], j);
    } else {
      var o := OpenBlock(body[..last]);
      if o >= 0 && Soft(x, LimitOf(body[o])) {
        OpenBlockIsOpen(body);
        OneOpener(body, o, j, |body|);
      }
    }
  }

  /** What the loop knows about the job whose body so far is `body`. */
  ghost predicate Tracks(st: JobState, body: seq<Line>, first: nat) {
    VarsTracked(st, body, first) && BlockTracked(st, body)
  }

  ghost predicate VarsTracked(st: JobState, body: seq<Line>, first: nat) {
    && st.approved == Approved(body)
    && |st.stepIfs| == StepCount(body) && st.step == StepCount(body) - 1 && st.inStep == (StepCount(body) > 0)
    && st.jobIf == FinalGuard(body, -1)
    && (forall i :: 0 <= i < |st.stepIfs| ==> st.stepIfs[i] == FinalGuard(body, i))
    && st.pending == Hits(body, first)
  }

  ghost predicate BlockTracked(st: JobState, body: seq<Line>) {
    && st.inBlock == (OpenBlock(body) >= 0)
    && (st.inBlock ==> st.blockLimit == LimitOf(body[OpenBlock(body)]) && st.blockIsJob == (StepCount(body) == 0))
  }

  lemma {:induction false} FreshTracks(first: nat)
    ensures Tracks(FRESH, [], first)
  {
  }

  lemma {:induction false} ContinuationKeepsRest(body: seq<Line>, x: Line, first: nat)
    requires OpenBlock(body) >= 0 && Soft(x, LimitOf(body[OpenBlock(body)]))
    ensures Approved(body + [x]) == Approved(body) && StepCount(body + [x]) == StepCount(body)
    ensures Hits(body + [x], first) == Hits(body, first) && OpenBlock(body + [x]) == OpenBlock(body)
  {
    OpenBlockIsOpen(body);
    OpenBlockGrows(body, x);
    ContinuationLine(body, x, OpenBlock(body));
    ApprovedGrows(body, x);
    CountGrows(body, x);
    HitsGrow(body, x, first);
  }

  lemma {:induction false} ContinuationTracks(st: JobState, body: seq<Line>, x: Line, first: nat)
    requires Tracks(st, body, first) && st.inBlock && Soft(x, st.blockLimit)
    ensures Tracks(Continued(st, x), body + [x], first)
  {
    var opener := OpenBlock(body);
    assert OpenAt(body, opener, |body|) by { OpenBlockIsOpen(body); }
    ContinuationKeepsRest(body, x, first);
    GuardContinues(body, x, opener);
    if st.inStep { OtherGuardContinues(body, x, opener, -1); }
    forall i | 0 <= i < |st.stepIfs|
      ensures Continued(st, x).stepIfs[i] == FinalGuard(body + [x], i)
    {
      if i != st.step { OtherGuardContinues(body, x, opener, i); }
    }
    assert (body + [x])[opener] == body[opener];
  }

  function Continued(st: JobState, x: Line): JobState
    requires st.blockIsJob || 0 <= st.step < |st.stepIfs|
  {
    if st.blockIsJob then st.(jobIf := st.jobIf + " " + x.fragment)
    else st.(stepIfs := st.stepIfs[st.step := st.stepIfs[st.step] + " " + x.fragment])
  }

  /** Outside a block scalar, or on the line that ends it, nothing continues. */
  lemma {:induction false} NotContinued(st: JobState, body: seq<Line>, x: Line)
    requires BlockTracked(st, body) && !(st.inBlock && Soft(x, st.blockLimit))
    ensures !Continuation(body + [x], |body|)
  {
    var longer := body + [x];
    forall j | 0 <= j < |body| && OpenAt(longer, j, |body|)
      ensures !Soft(longer[|body|], LimitOf(longer[j]))
    {
      OpenStable(body, x, j, |body|);
      assert longer[j] == body[j] && longer[|body|] == x;
      OpenIsOpenBlock(body, j);
    }
  }

  lemma {:induction false} BlockEnds(body: seq<Line>, x: Line)
    requires !Continuation(body + [x], |body|)
    ensures OpenBlock(body + [x])
      == if IsGuard(body + [x], |body|) && GuardOf(x).Block? then |body| else -1
  {
    OpenBlockGrows(body, x);
    var j := OpenBlock(body);
    if j >= 0 {
      OpenBlockIsOpen(body);
      NotOpen(body, x, j);
    }
  }

  /** A new step starts without a guard. */
  lemma {:induction false} NewScopeUnguarded(body: seq<Line>, scope: int)
    requires scope >= StepCount(body)
    ensures FinalGuard(body, scope) == ""
  {
    var j := LastGuard(body, scope, |body|);
    assert body[..|body|] == body;
    if j >= 0 { StepBetween(body, j, |body|); }
  }

  /** A line that sets no guard and continues no block. */
  lemma {:induction false} PlainTracks(st: JobState, after: JobState, body: seq<Line>, x: Line, first: nat)
    requires VarsTracked(st, body, first) && !Continuation(body + [x], |body|) && !IsGuard(body + [x], |body|)
    requires after.approved == (st.approved || x.shape == Environment(true))
    requires after.jobIf == st.jobIf && !after.inBlock
    requires after.stepIfs == if x.shape.StepHeader? then st.stepIfs + [""] else st.stepIfs
    requires after.step == |after.stepIfs| - 1 && after.inStep == (|after.stepIfs| > 0)
    requires after.pending ==
             if x.shape.Environment? || x.shape.Comment? then st.pending
             else st.pending + LineHits(x, first + |body|, after.step)
    ensures Tracks(after, body + [x], first)
  {
    assert (body + [x])[|body|] == x;
    BlockEnds(body, x);
    ApprovedGrows(body, x);
    CountGrows(body, x);
    HitsGrow(body, x, first);
    GuardKept(body, x, -1);
    forall i | 0 <= i < |after.stepIfs|
      ensures after.stepIfs[i] == FinalGuard(body + [x], i)
    {
      GuardKept(body, x, i);
      if i == |st.stepIfs| { NewScopeUnguarded(body, i); }
    }
  }

  function Guarded(st: JobState, x: Line): JobState
    requires if st.inStep then x.shape.StepIf? && 0 <= st.step < |st.stepIfs| else x.shape.JobIf?
  {
    var text := match GuardOf(x) case Inline(text) => text case Block => "";
    var st' := if GuardOf(x).Inline? then st.(inBlock := false)
               else st.(inBlock := true, blockLimit := LimitOf(x), blockIsJob := !st.inStep);
    if st.inStep then st'.(stepIfs := st.stepIfs[st.step := text]) else st'.(jobIf := text)
  }

  /** A line that sets the guard of the current scope. */
  lemma {:induction false} GuardTracks(st: JobState, body: seq<Line>, x: Line, first: nat)
    requires VarsTracked(st, body, first) && !Continuation(body + [x], |body|)
    requires if st.inStep then x.shape.StepIf? else x.shape.JobIf?
    ensures Tracks(Guarded(st, x), body + [x], first)
  {
    var longer := body + [x];
    assert longer[|body|] == x;
    GuardHere(body, x);
    BlockEnds(body, x);
    ApprovedGrows(body, x);
    CountGrows(body, x);
    HitsGrow(body, x, first);
    GuardLine(body, x);
    if st.inStep { GuardKept(body, x, -1); }
    forall i | 0 <= i < |st.stepIfs|
      ensures Guarded(st, x).stepIfs[i] == FinalGuard(longer, i)
    {
      if i != st.step { GuardKept(body, x, i); }
    }
  }

  lemma {:induction false} HitScopes(body: seq<Line>, first: nat, hit: Hit)
    requires hit in Hits(body, first)
    ensures -1 <= hit.scope < StepCount(body) && first <= hit.line < first + |body|
  {
    var last := |body| - 1;
    if hit in Hits(body[..last], first) {
      HitScopes(body[..last], first, hit);
    } else {
      assert body[..|body|] == body;
      NamedHitsAre(first + last, body[last].secrets, ScopeAt(body, |body|), hit);
    }
  }

  lemma {:induction false} NamedHitsAre(n: nat, secrets: seq<string>, scope: int, hit: Hit)
    ensures hit in NamedHits(n, secrets, scope)
      <==> hit.line == n && hit.scope == scope && hit.secret in secrets && hit.secret !in BENIGN
  {
    if secrets != [] {
      NamedHitsAre(n, secrets[..|secrets| - 1], scope, hit);
      assert secrets == secrets[..|secrets| - 1] + [secrets[|secrets| - 1]];
    }
  }

  /** The hits of one line, appended to the pending ones. */
  method CollectHits(line: Line, n: nat, scope: int, pending: seq<Hit>) returns (after: seq<Hit>)
    ensures after == pending + LineHits(line, n, scope)
  {
    if line.inherits {
      return pending + [Hit(n, INHERIT, scope)];
    }
    after := pending;
    for i := 0 to |line.secrets|
      invariant after == pending + NamedHits(n, line.secrets[..i], scope)
    {
      assert line.secrets[..i + 1][..i] == line.secrets[..i];
      if line.secrets[i] in BENIGN { continue; }
      after := after + [Hit(n, line.secrets[i], scope)];
    }
    assert line.secrets[..|line.secrets|] == line.secrets;
  }

  /** One iteration of the loop inside a job, for a line that is no job header (a header
      is indented by two, so it ends any block scalar before it is recognised). */
  method ScanLine(st: JobState, line: Line, n: nat, ghost body: seq<Line>, ghost first: nat)
    returns (after: JobState)
    requires Tracks(st, body, first) == true && n == first + |body|
    ensures Tracks(after, body + [line], first) == true
  {
    after := st;
    if after.inBlock {
      if !line.shape.Blank? && Indent(line.shape) <= after.blockLimit {
        after := after.(inBlock := false);
      } else {
        ContinuationTracks(st, body, line, first);
        if after.blockIsJob {
          after := after.(jobIf := after.jobIf + " " + line.fragment);
        } else {
          after := after.(stepIfs := after.stepIfs[after.step := after.stepIfs[after.step] + " " + line.fragment]);
        }
        return;
      }
    }
    NotContinued(st, body, line);
    after := ScanOutsideBlock(after, line, n, body, first);
  }

  method ScanOutsideBlock(st: JobState, line: Line, n: nat, ghost body: seq<Line>, ghost first: nat)
    returns (after: JobState)
    requires VarsTracked(st, body, first) && !st.inBlock && n == first + |body|
    requires !Continuation(body + [line], |body|)
    ensures Tracks(after, body + [line], first)
  {
    after := st;
    GuardHere(body, line);
    if line.shape.Environment? {
      if line.shape.approved {
        after := after.(approved := true);
      }
      PlainTracks(st, after, body, line, first);
      return;
    }
    if !after.inStep && line.shape.JobIf? {
      GuardTracks(st, body, line, first);
      match line.shape.job {
        case Block => after := after.(inBlock := true, blockLimit := JOB_INDENT, blockIsJob := true, jobIf := "");
        case Inline(text) => after := after.(jobIf := text);
      }
      return;
    }
    if line.shape.StepHeader? {
      after := after.(inStep := true, step := |after.stepIfs|, stepIfs := after.stepIfs + [""]);
    } else if after.inStep && line.shape.StepIf? {
      GuardTracks(st, body, line, first);
      match line.shape.step {
        case Block =>
          after := after.(inBlock := true, blockLimit := STEP_INDENT, blockIsJob := false,
                          stepIfs := after.stepIfs[after.step := ""]);
        case Inline(text) =>
          after := after.(stepIfs := after.stepIfs[after.step := text]);
      }
      return;
    }
    if !line.shape.Comment? {
      var pending := CollectHits(line, n, if after.inStep then after.step else -1, after.pending);
      after := after.(pending := pending);
    }
    PlainTracks(st, after, body, line, first);
  }

  ghost predicate Reported(violations: seq<Violation>, jobs: seq<Job>, trusted: string -> bool) {
    violations == JobReports(jobs, trusted)
  }

  /** The final state of a job decides its report. */
  method Flush(st: JobState, name: string, reported: seq<Violation>, trusted: string -> bool,
               ghost closed: seq<Job>, ghost job: Job)
    returns (violations: seq<Violation>)
    requires Tracks(st, job.body, job.header + 1) == true && name == job.name
    requires Reported(reported, closed, trusted) == true
    ensures Reported(violations, closed + [job], trusted) == true
  {
    forall hit | hit in st.pending
      ensures hit.scope < |st.stepIfs|
    {
      HitScopes(job.body, job.header + 1, hit);
    }
    var flushed := FlushJob(name, st.approved, st.jobIf, st.stepIfs, st.pending, trusted, job.body);
    violations := reported + flushed;
    VerdictOf(st, job, trusted);
    ReportedGrows(reported, flushed, closed, job, trusted);
  }

  lemma {:induction false} VerdictOf(st: JobState, job: Job, trusted: string -> bool)
    requires Tracks(st, job.body, job.header + 1)
    ensures st.approved || trusted(st.jobIf) ==> JobReport(job, trusted) == []
    ensures !st.approved && !trusted(st.jobIf) ==>
              JobReport(job, trusted) == Uncovered(st.pending, job.name, job.body, trusted)
  {
  }

  lemma {:induction false} ReportedGrows(
    reported: seq<Violation>, more: seq<Violation>, closed: seq<Job>, job: Job, trusted: string -> bool)
    requires Reported(reported, closed, trusted) == true && more == JobReport(job, trusted)
    ensures Reported(reported + more, closed + [job], trusted) == true
  {
    JobReportsGrow(closed, job, trusted);
  }

  lemma {:induction false} StartedGrows(lines: seq<Line>, i: nat)
    requires i < |lines|
    ensures Started(lines[..i + 1]) <==> Started(lines[..i]) || lines[i].shape.JobsKey?
  {
    assert lines[..i + 1][i] == lines[i];
    assert forall j :: 0 <= j < i ==> lines[..i + 1][j] == lines[..i][j];
  }

  lemma {:induction false} JobsGrow(lines: seq<Line>, i: nat)
    requires i < |lines|
    ensures Jobs(lines[..i + 1]) == if Started(lines[..i]) then AddLine(Jobs(lines[..i]), lines[i], i + 1) else []
  {
    assert lines[..i + 1][..i] == lines[..i] && lines[..i + 1][i] == lines[i];
  }

  lemma {:induction false} JobGrows(lines: seq<Line>, i: nat, closed: seq<Job>, job: Job)
    requires i < |lines| && Started(lines[..i]) && !lines[i].shape.JobHeader?
    requires Jobs(lines[..i]) == closed + [job]
    ensures Jobs(lines[..i + 1]) == closed + [Job(job.name, job.header, job.body + [lines[i]])]
  {
    JobsGrow(lines, i);
    assert (closed + [job])[..|closed|] == closed;
  }

  lemma {:induction false} JobReportsGrow(closed: seq<Job>, job: Job, trusted: string -> bool)
    ensures JobReports(closed + [job], trusted) == JobReports(closed, trusted) + JobReport(job, trusted)
  {
    assert (closed + [job])[..|closed|] == closed;
  }

  /** What the loop knows of the lines `before`: `job` is the open job, `closed` are the
      jobs before it.  (Contracts compare this predicate and `Tracks` with `true` so that
      they are used as a whole.) */
  ghost predicate Grouped(before: seq<Line>, jobsStarted: bool, sawAnyJob: bool, closed: seq<Job>, job: Job) {
    && jobsStarted == Started(before) && (sawAnyJob ==> jobsStarted)
    && Jobs(before) == (if sawAnyJob then closed + [job] else [])
    && (!sawAnyJob ==> closed == [])
  }

  /** A line above the jobs section, or in it but before the first header. */
  lemma {:induction false} GroupedOutside(lines: seq<Line>, i: nat, jobsStarted: bool, closed: seq<Job>, job: Job)
    requires i < |lines| && (jobsStarted ==> !lines[i].shape.JobHeader?)
    requires Grouped(lines[..i], jobsStarted, false, closed, job) == true
    ensures Grouped(lines[..i + 1], jobsStarted || lines[i].shape.JobsKey?, false, closed, job) == true
  {
    StartedGrows(lines, i);
    JobsGrow(lines, i);
  }

  lemma {:induction false} GroupedHeader(lines: seq<Line>, i: nat, sawAnyJob: bool, closed: seq<Job>, job: Job)
    requires i < |lines| && lines[i].shape.JobHeader?
    requires Grouped(lines[..i], true, sawAnyJob, closed, job) == true
    ensures Grouped(lines[..i + 1], true, true, if sawAnyJob then closed + [job] else closed,
                    Job(lines[i].shape.name, i + 1, [])) == true
  {
    StartedGrows(lines, i);
    JobsGrow(lines, i);
  }

  /** A line of the open job. */
  lemma {:induction false} GroupedLine(lines: seq<Line>, i: nat, closed: seq<Job>, job: Job)
    requires i < |lines| && !lines[i].shape.JobHeader?
    requires Grouped(lines[..i], true, true, closed, job) == true
    ensures Grouped(lines[..i + 1], true, true, closed, Job(job.name, job.header, job.body + [lines[i]])) == true
  {
    StartedGrows(lines, i);
    JobGrows(lines, i, closed, job);
  }

  lemma {:induction false} GroupedAll(
    lines: seq<Line>, jobsStarted: bool, sawAnyJob: bool, closed: seq<Job>, job: Job, all: seq<Job>,
    violations: seq<Violation>, trusted: string -> bool)
    requires Grouped(lines, jobsStarted, sawAnyJob, closed, job) == true
    requires all == (if sawAnyJob then closed + [job] else closed) && Reported(violations, all, trusted) == true
    ensures Report(lines, trusted)
         == if jobsStarted && !sawAnyJob && exists i :: 0 <= i < |lines| && lines[i].mentions
            then violations + [NoJobs] else violations
  {
  }

  /** The variables of the scan. */
  datatype ScanState = ScanState(
    jobsStarted: bool, sawAnyJob: bool, currentJob: string, job: JobState, violations: seq<Violation>)

  ghost predicate Scanning(
    sc: ScanState, before: seq<Line>, n: nat, closed: seq<Job>, current: Job, trusted: string -> bool)
  {
    && Grouped(before, sc.jobsStarted, sc.sawAnyJob, closed, current) == true
    && Reported(sc.violations, closed, trusted) == true
    && sc.currentJob == current.name
    && (sc.sawAnyJob ==> n == current.header + |current.body|)
  }

  lemma {:induction false} ScanningGives(
    sc: ScanState, before: seq<Line>, n: nat, closed: seq<Job>, current: Job, trusted: string -> bool)
    requires Scanning(sc, before, n, closed, current, trusted) == true
    ensures Reported(sc.violations, closed, trusted) == true && sc.currentJob == current.name
    ensures sc.sawAnyJob ==> sc.jobsStarted && n == current.header + |current.body|
  {
  }

  lemma {:induction false} ScanningOutside(
    sc: ScanState, lines: seq<Line>, i: nat, closed: seq<Job>, current: Job, trusted: string -> bool)
    requires i < |lines| && Scanning(sc, lines[..i], i, closed, current, trusted) == true
    requires !sc.sawAnyJob && (sc.jobsStarted ==> !lines[i].shape.JobHeader?)
    ensures Scanning(sc.(jobsStarted := sc.jobsStarted || lines[i].shape.JobsKey?),
                     lines[..i + 1], i + 1, closed, current, trusted) == true
  {
    GroupedOutside(lines, i, sc.jobsStarted, closed, current);
  }

  lemma {:induction false} ScanningLine(
    sc: ScanState, st: JobState, lines: seq<Line>, i: nat, closed: seq<Job>, current: Job, next: Job,
    trusted: string -> bool)
    requires i < |lines| && Scanning(sc, lines[..i], i, closed, current, trusted) == true
    requires sc.jobsStarted && sc.sawAnyJob && !lines[i].shape.JobHeader?
    requires next == Job(current.name, current.header, current.body + [lines[i]])
    ensures Scanning(sc.(job := st), lines[..i + 1], i + 1, closed, next, trusted) == true
  {
    GroupedLine(lines, i, closed, current);
  }

  lemma {:induction false} ScanningHeader(
    sc: ScanState, lines: seq<Line>, i: nat, closed: seq<Job>, current: Job, name: string,
    closedNext: seq<Job>, violations: seq<Violation>, trusted: string -> bool)
    requires i < |lines| && lines[i].shape.JobHeader? && name == lines[i].shape.name && sc.jobsStarted
    requires Scanning(sc, lines[..i], i, closed, current, trusted) == true
    requires closedNext == (if sc.sawAnyJob then closed + [current] else closed)
    requires Reported(violations, closedNext, trusted) == true
    ensures Scanning(ScanState(true, true, name, FRESH, violations),
                     lines[..i + 1], i + 1, closedNext, Job(name, i + 1, []), trusted) == true
  {
    GroupedHeader(lines, i, sc.sawAnyJob, closed, current);
  }

  /** One iteration of the loop. */
  method ScanNext(
    sc: ScanState, lines: seq<Line>, i: nat, trusted: string -> bool, ghost closed: seq<Job>, ghost current: Job)
    returns (next: ScanState, ghost closedNext: seq<Job>, ghost currentNext: Job)
    requires i < |lines| && Scanning(sc, lines[..i], i, closed, current, trusted) == true
    requires Tracks(sc.job, current.body, current.header + 1) == true
    ensures Scanning(next, lines[..i + 1], i + 1, closedNext, currentNext, trusted) == true
    ensures Tracks(next.job, currentNext.body, currentNext.header + 1) == true
  {
    closedNext, currentNext := closed, current;
    ScanningGives(sc, lines[..i], i, closed, current, trusted);
    if !sc.jobsStarted {
      ScanningOutside(sc, lines, i, closed, current, trusted);
      next := sc.(jobsStarted := lines[i].shape.JobsKey?);
    } else if lines[i].shape.JobHeader? {
      next, closedNext, currentNext := StartJob(sc, lines, i, lines[i].shape.name, trusted, closed, current);
    } else if !sc.sawAnyJob {
      ScanningOutside(sc, lines, i, closed, current, trusted);
      next := sc;
    } else {
      next, currentNext := ContinueJob(sc, lines, i, trusted, closed, current);
    }
  }

  /** A line of the current job. */
  method ContinueJob(
    sc: ScanState, lines: seq<Line>, i: nat, trusted: string -> bool, ghost closed: seq<Job>, ghost current: Job)
    returns (next: ScanState, ghost currentNext: Job)
    requires i < |lines| && sc.jobsStarted && sc.sawAnyJob && !lines[i].shape.JobHeader?
    requires Scanning(sc, lines[..i], i, closed, current, trusted) == true
    requires Tracks(sc.job, current.body, current.header + 1) == true
    ensures Scanning(next, lines[..i + 1], i + 1, closed, currentNext, trusted) == true
    ensures Tracks(next.job, currentNext.body, currentNext.header + 1) == true
  {
    ScanningGives(sc, lines[..i], i, closed, current, trusted);
    var st := ScanLine(sc.job, lines[i], i + 1, current.body, current.header + 1);
    currentNext := Job(current.name, current.header, current.body + [lines[i]]);
    ScanningLine(sc, st, lines, i, closed, current, currentNext, trusted);
    next := sc.(job := st);
  }

  /** A job header: the job before it is judged, and its variables start afresh. */
  method StartJob(
    sc: ScanState, lines: seq<Line>, i: nat, name: string, trusted: string -> bool,
    ghost closed: seq<Job>, ghost current: Job)
    returns (next: ScanState, ghost closedNext: seq<Job>, ghost currentNext: Job)
    requires i < |lines| && lines[i].shape.JobHeader? && name == lines[i].shape.name && sc.jobsStarted
    requires Scanning(sc, lines[..i], i, closed, current, trusted) == true
    requires Tracks(sc.job, current.body, current.header + 1) == true
    ensures Scanning(next, lines[..i + 1], i + 1, closedNext, currentNext, trusted) == true
    ensures Tracks(next.job, currentNext.body, currentNext.header + 1) == true
  {
    ScanningGives(sc, lines[..i], i, closed, current, trusted);
    var violations := sc.violations;
    closedNext := closed;
    if sc.sawAnyJob {
      violations := Flush(sc.job, sc.currentJob, sc.violations, trusted, closed, current);
      closedNext := closed + [current];
    }
    currentNext := Job(name, i + 1, []);
    ScanningHeader(sc, lines, i, closed, current, name, closedNext, violations, trusted);
    FreshTracks(i + 2);
    next := ScanState(true, true, name, FRESH, violations);
  }

  /** `_scan_workflow`. */
  method ScanWorkflow(lines: seq<Line>, trusted: string -> bool) returns (violations: seq<Violation>)
    ensures Reports(lines, trusted, violations) == true
    ensures violations == Report(lines, trusted)
  {
    ReportHolds(lines, trusted);
    var sc := ScanState(false, false, "", FRESH, []);
    ghost var closed: seq<Job>, current := [], Job("", 0, []);
    FreshTracks(1);
    for i := 0 to |lines|
      invariant Scanning(sc, lines[..i], i, closed, current, trusted) == true
      invariant Tracks(sc.job, current.body, current.header + 1) == true
    {
      sc, closed, current := ScanNext(sc, lines, i, trusted, closed, current);
    }
    assert lines[..|lines|] == lines;
    violations := sc.violations;
    if sc.sawAnyJob {
      violations := Flush(sc.job, sc.currentJob, sc.violations, trusted, closed, current);
    }
    GroupedAll(lines, sc.jobsStarted, sc.sawAnyJob, closed, current,
               if sc.sawAnyJob then closed + [current] else closed, violations, trusted);
    if sc.jobsStarted && !sc.sawAnyJob && exists i :: 0 <= i < |lines| && lines[i].mentions {
      violations := violations + [NoJobs];
    }
  }

  // ---------- What a report means ----------

  /** The line uses this secret, and the secret needs a gate. */
  ghost predicate Uses(line: Line, secret: string) {
    if line.inherits then secret == INHERIT else secret in line.secrets && secret !in BENIGN
  }

  lemma {:induction false} SearchedStable(body: seq<Line>, x: Line, j: nat)
    requires j < |body|
    ensures ScopeAt(body + [x], j + 1) == ScopeAt(body, j + 1)
    ensures Searched(body + [x], j) == Searched(body, j)
  {
    assert (body + [x])[..j + 1] == body[..j + 1];
    PrefixStable(body, x, j);
    forall i | 0 <= i < j
      ensures OpenAt(body + [x], i, j) == OpenAt(body, i, j) && (body + [x])[i] == body[i]
    {
      OpenStable(body, x, i, j);
    }
  }

  lemma {:induction false} UncoveredAre(
    hits: seq<Hit>, job: string, body: seq<Line>, trusted: string -> bool, v: Violation)
    ensures v in Uncovered(hits, job, body, trusted)
      <==> exists hit :: hit in hits && !StepGuarded(hit, body, trusted) && v == Ungated(hit.line, hit.secret, job)
  {
    if hits != [] {
      UncoveredAre(hits[..|hits| - 1], job, body, trusted, v);
      assert hits == hits[..|hits| - 1] + [hits[|hits| - 1]];
    }
  }

  /** Line `j` yields the hit. */
  ghost predicate HitAt(body: seq<Line>, first: nat, j: nat, hit: Hit)
    requires j < |body|
  {
    && hit.line == first + j && hit.scope == ScopeAt(body, j + 1)
    && Searched(body, j) && Uses(body[j], hit.secret)
  }

  lemma {:induction false} LineHitsAre(line: Line, n: nat, scope: int, hit: Hit)
    ensures hit in LineHits(line, n, scope) <==> hit.line == n && hit.scope == scope && Uses(line, hit.secret)
  {
    NamedHitsAre(n, line.secrets, scope, hit);
  }

  /** The hits of a body with one more line. */
  lemma {:induction false} HitsOfLonger(shorter: seq<Line>, x: Line, first: nat, hit: Hit)
    ensures hit in Hits(shorter + [x], first)
      <==> hit in Hits(shorter, first) || HitAt(shorter + [x], first, |shorter|, hit)
  {
    var body := shorter + [x];
    assert body[..|body|] == body;
    HitsGrow(shorter, x, first);
    LineHitsAre(x, first + |shorter|, StepCount(body) - 1, hit);
  }

  lemma {:induction false} HitsAre(body: seq<Line>, first: nat, hit: Hit)
    ensures hit in Hits(body, first) <==> exists j :: 0 <= j < |body| && HitAt(body, first, j, hit)
  {
    if body != [] {
      var last := |body| - 1;
      var shorter, x := body[..last], body[last];
      assert body == shorter + [x];
      HitsAre(shorter, first, hit);
      HitsOfLonger(shorter, x, first, hit);
      forall j | 0 <= j < last
        ensures HitAt(shorter, first, j, hit) == HitAt(body, first, j, hit)
      {
        SearchedStable(shorter, x, j);
      }
    }
  }

  /** Line `j` of the job yields the hit, and the guard of its step is not trusted. */
  ghost predicate UngatedAt(job: Job, trusted: string -> bool, j: nat, hit: Hit)
    requires j < |job.body|
  {
    HitAt(job.body, job.header + 1, j, hit) && !StepGuarded(hit, job.body, trusted)
  }

  /** A use is reported exactly when it is a searched, non-benign use in a job without an
      approved environment, and neither the job nor its step has a trusted final guard,
      whatever the order of the keys. */
  lemma {:induction false} ReportedExactly(job: Job, trusted: string -> bool, n: nat, secret: string)
    ensures Ungated(n, secret, job.name) in JobReport(job, trusted)
      <==> && !Approved(job.body) && !trusted(FinalGuard(job.body, -1))
           && exists j, scope :: 0 <= j < |job.body| && UngatedAt(job, trusted, j, Hit(n, secret, scope))
  {
    var hits := Hits(job.body, job.header + 1);
    if Ungated(n, secret, job.name) in Uncovered(hits, job.name, job.body, trusted) {
      var j, scope := ReportedIsUngated(job, trusted, n, secret, hits);
    }
    forall j, scope | 0 <= j < |job.body| && UngatedAt(job, trusted, j, Hit(n, secret, scope))
      ensures Ungated(n, secret, job.name) in Uncovered(hits, job.name, job.body, trusted)
    {
      HitsAre(job.body, job.header + 1, Hit(n, secret, scope));
      UncoveredAre(hits, job.name, job.body, trusted, Ungated(n, secret, job.name));
    }
  }

  lemma {:induction false} ReportedIsUngated(job: Job, trusted: string -> bool, n: nat, secret: string, hits: seq<Hit>)
    returns (j: nat, scope: int)
    requires hits == Hits(job.body, job.header + 1)
    requires Ungated(n, secret, job.name) in Uncovered(hits, job.name, job.body, trusted)
    ensures j < |job.body| && UngatedAt(job, trusted, j, Hit(n, secret, scope))
  {
    UncoveredAre(hits, job.name, job.body, trusted, Ungated(n, secret, job.name));
    var hit :| hit in hits && !StepGuarded(hit, job.body, trusted)
               && Ungated(n, secret, job.name) == Ungated(hit.line, hit.secret, job.name);
    HitsAre(job.body, job.header + 1, hit);
    j :| 0 <= j < |job.body| && HitAt(job.body, job.header + 1, j, hit);
    scope := hit.scope;
    assert hit == Hit(n, secret, scope);
  }

  /** A job-level `if:` below the first step changes no guard of the job. */
  lemma {:induction false} LateJobIfIgnored(body: seq<Line>, x: Line)
    requires StepCount(body) > 0 && x.shape.JobIf?
    ensures FinalGuard(body + [x], -1) == FinalGuard(body, -1)
  {
    GuardHere(body, x);
    LastGuardGrows(body, x, -1);
    var j := LastGuard(body, -1, |body|);
    if j >= 0 {
      GuardTextGrows(body, x, j);
      if OpenAt(body, j, |body|) { assert !Soft(x, LimitOf(body[j])); }
    }
  }

  /** A job-level `if:` that says something new sets the job's guard exactly when it stands
      above the first step. */
  lemma {:induction false} JobIfCountsExactly(body: seq<Line>, x: Line)
    requires x.shape.JobIf? && x.shape.job.Inline? && x.shape.job.text != FinalGuard(body, -1)
    ensures FinalGuard(body + [x], -1) == x.shape.job.text <==> StepCount(body) == 0
  {
    if StepCount(body) == 0 {
      GuardHere(body, x);
      LastGuardGrows(body, x, -1);
      FinalGuardIs(body + [x], -1, |body|);
    } else {
      LateJobIfIgnored(body, x);
    }
  }

  // ---------- Where the environment line stands does not matter ----------

  /** The same jobs, except that job `k` may differ in an approved body. */
  ghost predicate SameButApproved(a: seq<Job>, b: seq<Job>, k: nat) {
    && |a| == |b| && k < |a|
    && (forall i :: 0 <= i < |a| && i != k ==> a[i] == b[i])
    && Approved(a[k].body) && Approved(b[k].body) && a[k].name == b[k].name && a[k].header == b[k].header
  }

  ghost predicate ReportsAgree(a: seq<Job>, b: seq<Job>, trusted: string -> bool) {
    JobReports(a, trusted) == JobReports(b, trusted)
  }

  lemma {:induction false} ReportsAgreeNext(a: seq<Job>, b: seq<Job>, n: nat, trusted: string -> bool)
    requires |a| == |b| == n + 1 && ReportsAgree(a[..n], b[..n], trusted) == true
    requires a[n] == b[n] || (Approved(a[n].body) && Approved(b[n].body))
    ensures ReportsAgree(a, b, trusted) == true
  {
    assert JobReport(a[n], trusted) == JobReport(b[n], trusted);
  }

  lemma {:induction false} ApprovedReportsAgree(a: seq<Job>, b: seq<Job>, k: nat, trusted: string -> bool)
    requires SameButApproved(a, b, k)
    ensures ReportsAgree(a, b, trusted) == true
  {
    var n := |a| - 1;
    if k == n {
      assert a[..n] == b[..n];
    } else {
      ApprovedReportsAgree(a[..n], b[..n], k, trusted);
    }
    ReportsAgreeNext(a, b, n, trusted);
  }

  lemma {:induction false} AddLineKeepsApproved(a: seq<Job>, b: seq<Job>, k: nat, line: Line, n: nat)
    requires SameButApproved(a, b, k)
    ensures SameButApproved(AddLine(a, line, n), AddLine(b, line, n), k)
  {
    var last := |a| - 1;
    ApprovedGrows(a[k].body, line);
    ApprovedGrows(b[k].body, line);
    if !line.shape.JobHeader? {
      assert AddLine(a, line, n)[..last] == a[..last] && AddLine(b, line, n)[..last] == b[..last];
    }
  }

  /** The jobs after more lines, the first of them numbered `n + 1`. */
  function AddLines(jobs: seq<Job>, more: seq<Line>, n: nat): seq<Job>
    decreases more
  {
    if more == [] then jobs else AddLines(AddLine(jobs, more[0], n + 1), more[1..], n + 1)
  }

  lemma {:induction false} JobsStep(pre: seq<Line>, x: Line)
    requires Started(pre)
    ensures Started(pre + [x]) && Jobs(pre + [x]) == AddLine(Jobs(pre), x, |pre| + 1)
  {
    var i :| 0 <= i < |pre| && pre[i].shape.JobsKey?;
    assert (pre + [x])[i] == pre[i];
    assert (pre + [x])[..|pre|] == pre;
  }

  ghost predicate AddsUp(whole: seq<Line>, pre: seq<Line>, more: seq<Line>) {
    Jobs(whole) == AddLines(Jobs(pre), more, |pre|)
  }

  lemma {:induction false} AddsUpNext(whole: seq<Line>, pre: seq<Line>, more: seq<Line>)
    requires Started(pre) && more != [] && AddsUp(whole, pre + [more[0]], more[1..]) == true
    ensures AddsUp(whole, pre, more) == true
  {
    JobsStep(pre, more[0]);
  }

  lemma {:induction false} JobsAddUp(whole: seq<Line>, pre: seq<Line>, more: seq<Line>)
    requires Started(pre) && whole == pre + more
    ensures AddsUp(whole, pre, more) == true
    decreases more
  {
    if more == [] {
      assert whole == pre;
    } else {
      JobsStep(pre, more[0]);
      assert whole == (pre + [more[0]]) + more[1..];
      JobsAddUp(whole, pre + [more[0]], more[1..]);
      AddsUpNext(whole, pre, more);
    }
  }

  lemma {:induction false} AddLinesKeepApproved(a: seq<Job>, b: seq<Job>, k: nat, more: seq<Line>, n: nat)
    requires SameButApproved(a, b, k)
    ensures SameButApproved(AddLines(a, more, n), AddLines(b, more, n), k)
    decreases more
  {
    if more != [] {
      AddLineKeepsApproved(a, b, k, more[0], n + 1);
      AddLinesKeepApproved(AddLine(a, more[0], n + 1), AddLine(b, more[0], n + 1), k, more[1..], n + 1);
    }
  }

  ghost function Lengthened(job: Job, more: seq<Line>): Job {
    Job(job.name, job.header, job.body + more)
  }

  /** Adding `lines` to `jobs` gives what adding `post` to `later` gives. */
  ghost predicate LeadsTo(jobs: seq<Job>, lines: seq<Line>, n: nat, later: seq<Job>, post: seq<Line>, m: nat) {
    AddLines(jobs, lines, n) == AddLines(later, post, m)
  }

  lemma {:induction false} LeadsToNext(
    jobs: seq<Job>, lines: seq<Line>, n: nat, later: seq<Job>, post: seq<Line>, m: nat, next: seq<Job>)
    requires lines != [] && next == AddLine(jobs, lines[0], n + 1)
    requires LeadsTo(next, lines[1..], n + 1, later, post, m) == true
    ensures LeadsTo(jobs, lines, n, later, post, m) == true
  {
  }

  lemma {:induction false} LengthenedTwice(job: Job, more: seq<Line>)
    requires more != []
    ensures Lengthened(Lengthened(job, [more[0]]), more[1..]) == Lengthened(job, more)
  {
    assert job.body + [more[0]] + more[1..] == job.body + more;
  }

  lemma {:induction false} LengthenedByOne(closed: seq<Job>, job: Job, line: Line, n: nat)
    requires !line.shape.JobHeader?
    ensures AddLine(closed + [job], line, n) == closed + [Lengthened(job, [line])]
  {
    assert (closed + [job])[..|closed|] == closed;
  }

  /** Lines without a job header all go to the open job; the lines after them are added
      to what that gives. */
  lemma {:induction false} BodyAppend(closed: seq<Job>, job: Job, more: seq<Line>, post: seq<Line>, n: nat)
    requires HeaderFree(more)
    ensures LeadsTo(closed + [job], more + post, n, closed + [Lengthened(job, more)], post, n + |more|) == true
    decreases more
  {
    if more == [] {
      assert more + post == post && Lengthened(job, more) == job;
    } else {
      var next := Lengthened(job, [more[0]]);
      LengthenedByOne(closed, job, more[0], n + 1);
      LengthenedTwice(job, more);
      assert (more + post)[1..] == more[1..] + post;
      BodyAppend(closed, next, more[1..], post, n + 1);
      LeadsToNext(closed + [job], more + post, n, closed + [Lengthened(job, more)], post, n + |more|, closed + [next]);
    }
  }

  /** The jobs of `whole` are `jobs` and what the lines `post` add to them. */
  ghost predicate EndsWith(whole: seq<Line>, jobs: seq<Job>, post: seq<Line>, n: nat) {
    Jobs(whole) == AddLines(jobs, post, n)
  }

  lemma {:induction false} EndsAsItLeads(
    whole: seq<Line>, pre: seq<Line>, lines: seq<Line>, later: seq<Job>, post: seq<Line>, m: nat)
    requires AddsUp(whole, pre, lines) == true && LeadsTo(Jobs(pre), lines, |pre|, later, post, m) == true
    ensures EndsWith(whole, later, post, m) == true
  {
  }

  /** The jobs of a text whose lines `more` go to the job open after `pre`. */
  lemma {:induction false} JobsAround(
    whole: seq<Line>, pre: seq<Line>, more: seq<Line>, post: seq<Line>, closed: seq<Job>, job: Job)
    requires Started(pre) && Jobs(pre) == closed + [job]
    requires HeaderFree(more) && whole == pre + (more + post)
    ensures EndsWith(whole, closed + [Lengthened(job, more)], post, |pre| + |more|) == true
  {
    JobsAddUp(whole, pre, more + post);
    BodyAppend(closed, job, more, post, |pre|);
    EndsAsItLeads(whole, pre, more + post, closed + [Lengthened(job, more)], post, |pre| + |more|);
  }

  /** Moving an approved `environment:` line within its job, even into a block scalar,
      leaves the reports of all jobs as they are. */
  lemma {:induction false} EnvironmentPlacement(pre: seq<Line>, env: Line, mid: seq<Line>, post: seq<Line>,
                                                high: seq<Line>, low: seq<Line>, trusted: string -> bool)
    requires Started(pre) && Jobs(pre) != [] && env.shape == Environment(true)
    requires HeaderFree(mid)
    requires high == pre + (([env] + mid) + post) && low == pre + ((mid + [env]) + post)
    ensures JobReports(Jobs(high), trusted) == JobReports(Jobs(low), trusted)
  {
    var closed, job := LastJob(Jobs(pre));
    NoHeaders(env, mid);
    JobsAround(high, pre, [env] + mid, post, closed, job);
    JobsAround(low, pre, mid + [env], post, closed, job);
    MovedReportsAgree(high, low, closed, job, env, mid, post, |pre| + |mid| + 1, trusted);
  }

  ghost predicate HeaderFree(more: seq<Line>) {
    forall i :: 0 <= i < |more| ==> !more[i].shape.JobHeader?
  }

  lemma {:induction false} NoHeaders(env: Line, mid: seq<Line>)
    requires HeaderFree(mid) && !env.shape.JobHeader?
    ensures HeaderFree([env] + mid) && HeaderFree(mid + [env])
  {
  }

  lemma {:induction false} LastJob(jobs: seq<Job>) returns (closed: seq<Job>, job: Job)
    requires jobs != []
    ensures jobs == closed + [job]
  {
    closed, job := jobs[..|jobs| - 1], jobs[|jobs| - 1];
  }

  lemma {:induction false} MovedReportsAgree(high: seq<Line>, low: seq<Line>, closed: seq<Job>, job: Job, env: Line,
                                             mid: seq<Line>, post: seq<Line>, n: nat, trusted: string -> bool)
    requires env.shape == Environment(true)
    requires EndsWith(high, closed + [Lengthened(job, [env] + mid)], post, n) == true
    requires EndsWith(low, closed + [Lengthened(job, mid + [env])], post, n) == true
    ensures JobReports(Jobs(high), trusted) == JobReports(Jobs(low), trusted)
  {
    var up, down := Lengthened(job, [env] + mid), Lengthened(job, mid + [env]);
    assert up.body[|job.body|] == env && down.body[|job.body| + |mid|] == env;
    AddLinesKeepApproved(closed + [up], closed + [down], |closed|, post, n);
    ApprovedReportsAgree(Jobs(high), Jobs(low), |closed|, trusted);
  }

  // ---------- The whole report, use by use ----------

  /** A place in a text: a line and one of the references in it. */
  type Place = (nat, nat)

  predicate Before(a: Place, b: Place) {
    a.0 < b.0 || (a.0 == b.0 && a.1 < b.1)
  }

  predicate InOrder(at: seq<Place>) {
    forall p, q :: 0 <= p < q < |at| ==> Before(at[p], at[q])
  }

  /** All secrets but one need a gate. */
  predicate Gated(secret: string) {
    secret != "GITHUB_TOKEN"
  }

  /** The `k`th reference of a line is a use that needs a gate; `secrets: inherit` is one. */
  predicate UseAt(line: Line, k: nat) {
    if line.inherits then k == 0 else k < |line.secrets| && Gated(line.secrets[k])
  }

  function SecretAt(line: Line, k: nat): string
    requires UseAt(line, k)
  {
    if line.inherits then INHERIT else line.secrets[k]
  }

  lemma {:induction false} GatedIs(secret: string)
    ensures Gated(secret) <==> secret !in BENIGN
  {
  }

  // The predicates below tie a list to the places of its elements; contracts compare them with
  // `true`, to use each as a whole.

  ghost predicate NamedSits(n: nat, secrets: seq<string>, scope: int, j: nat, hits: seq<Hit>, at: seq<Place>) {
    && |hits| == |at| && InOrder(at)
    && (forall q :: 0 <= q < |at| ==>
          && at[q].0 == j && at[q].1 < |secrets| && Gated(secrets[at[q].1])
          && hits[q] == Hit(n, secrets[at[q].1], scope))
    && forall k :: 0 <= k < |secrets| && Gated(secrets[k]) ==> (j, k) in at
  }

  lemma {:induction false} NamedSitsNext(
    n: nat, secrets: seq<string>, x: string, scope: int, j: nat, hits: seq<Hit>, at: seq<Place>)
    requires NamedSits(n, secrets, scope, j, hits, at)
    ensures Gated(x) ==>
              NamedSits(n, secrets + [x], scope, j, hits + [Hit(n, x, scope)], at + [(j, |secrets|)]) == true
    ensures !Gated(x) ==> NamedSits(n, secrets + [x], scope, j, hits, at) == true
  {
    var longer := secrets + [x];
    assert longer[|secrets|] == x;
    assert forall k :: 0 <= k < |secrets| ==> longer[k] == secrets[k];
    assert Gated(x) ==> (at + [(j, |secrets|)])[|at|] == (j, |secrets|);
  }

  lemma {:induction false} NamedPlaces(n: nat, secrets: seq<string>, scope: int, j: nat) returns (at: seq<Place>)
    ensures NamedSits(n, secrets, scope, j, NamedHits(n, secrets, scope), at) == true
  {
    if secrets == [] {
      at := [];
    } else {
      var last := |secrets| - 1;
      at := NamedPlaces(n, secrets[..last], scope, j);
      NamedSitsNext(n, secrets[..last], secrets[last], scope, j, NamedHits(n, secrets[..last], scope), at);
      GatedIs(secrets[last]);
      assert secrets == secrets[..last] + [secrets[last]];
      if Gated(secrets[last]) {
        at := at + [(j, last)];
      }
    }
  }

  ghost predicate LineSits(line: Line, n: nat, scope: int, j: nat, hits: seq<Hit>, at: seq<Place>) {
    && |hits| == |at| && InOrder(at)
    && (forall q :: 0 <= q < |at| ==>
          at[q].0 == j && UseAt(line, at[q].1) && hits[q] == Hit(n, SecretAt(line, at[q].1), scope))
    && forall k: nat :: UseAt(line, k) ==> (j, k) in at
  }

  lemma {:induction false} LinePlaces(line: Line, n: nat, scope: int, j: nat) returns (at: seq<Place>)
    ensures LineSits(line, n, scope, j, LineHits(line, n, scope), at) == true
  {
    if line.inherits {
      at := [(j, 0)];
      assert (j, 0) in at;
    } else {
      at := NamedPlaces(n, line.secrets, scope, j);
    }
  }

  ghost predicate HitSits(body: seq<Line>, first: nat, p: Place, hit: Hit) {
    && p.0 < |body| && Searched(body, p.0) && UseAt(body[p.0], p.1)
    && hit == Hit(first + p.0, SecretAt(body[p.0], p.1), ScopeAt(body, p.0 + 1))
  }

  /** The hits are the uses at these places of the searched lines of a job. */
  ghost predicate HitsSit(body: seq<Line>, first: nat, hits: seq<Hit>, at: seq<Place>) {
    && |hits| == |at| && InOrder(at)
    && (forall q :: 0 <= q < |at| ==> HitSits(body, first, at[q], hits[q]))
    && forall j: nat, k: nat :: j < |body| && Searched(body, j) && UseAt(body[j], k) ==> (j, k) in at
  }

  lemma {:induction false} HitSitsStill(body: seq<Line>, x: Line, first: nat, p: Place, hit: Hit)
    requires p.0 < |body|
    ensures HitSits(body + [x], first, p, hit) == HitSits(body, first, p, hit)
  {
    SearchedStable(body, x, p.0);
  }

  lemma {:induction false} HitsSitNext(
    body: seq<Line>, x: Line, first: nat, hits: seq<Hit>, at: seq<Place>, more: seq<Hit>, there: seq<Place>)
    requires HitsSit(body, first, hits, at) == true
    requires if Searched(body + [x], |body|)
             then LineSits(x, first + |body|, ScopeAt(body + [x], |body| + 1), |body|, more, there) == true
             else more == [] && there == []
    ensures HitsSit(body + [x], first, hits + more, at + there) == true
  {
    var longer, all, whole := body + [x], hits + more, at + there;
    assert longer[|body|] == x;
    forall q | 0 <= q < |whole| ensures HitSits(longer, first, whole[q], all[q]) {
      if q < |at| {
        HitSitsStill(body, x, first, at[q], hits[q]);
      }
    }
    forall j: nat, k: nat | j < |longer| && Searched(longer, j) && UseAt(longer[j], k)
      ensures (j, k) in whole
    {
      if j < |body| {
        SearchedStable(body, x, j);
        assert (j, k) in at;
      } else {
        assert (j, k) in there;
      }
    }
  }

  /** The hits that the last line of a body adds. */
  ghost function LastHits(body: seq<Line>, first: nat): seq<Hit>
    requires body != []
  {
    var last := |body| - 1;
    if Searched(body, last) then LineHits(body[last], first + last, ScopeAt(body, |body|)) else []
  }

  lemma {:induction false} LastPlaces(body: seq<Line>, x: Line, first: nat) returns (there: seq<Place>)
    ensures var longer := body + [x];
            if Searched(longer, |body|)
            then LineSits(x, first + |body|, ScopeAt(longer, |body| + 1), |body|, LastHits(longer, first), there)
            else LastHits(longer, first) == [] && there == []
  {
    there := [];
    assert (body + [x])[|body|] == x;
    if Searched(body + [x], |body|) {
      there := LinePlaces(x, first + |body|, ScopeAt(body + [x], |body| + 1), |body|);
    }
  }

  ghost predicate HitsAdd(body: seq<Line>, x: Line, first: nat) {
    Hits(body + [x], first) == Hits(body, first) + LastHits(body + [x], first)
  }

  lemma {:induction false} HitsDoAdd(body: seq<Line>, x: Line, first: nat)
    ensures HitsAdd(body, x, first) == true
  {
    assert (body + [x])[..|body|] == body;
  }

  lemma {:induction false} HitPlacesNext(
    body: seq<Line>, x: Line, first: nat, longer: seq<Line>, at: seq<Place>, there: seq<Place>, whole: seq<Place>)
    requires longer == body + [x] && whole == at + there
    requires HitsSit(body, first, Hits(body, first), at) == true
    requires if Searched(longer, |body|)
             then LineSits(x, first + |body|, ScopeAt(longer, |body| + 1), |body|, LastHits(longer, first), there)
             else LastHits(longer, first) == [] && there == []
    ensures HitsSit(longer, first, Hits(longer, first), whole) == true
  {
    HitsDoAdd(body, x, first);
    HitsSitNext(body, x, first, Hits(body, first), at, LastHits(longer, first), there);
  }

  lemma {:induction false} HitPlaces(body: seq<Line>, first: nat) returns (at: seq<Place>)
    ensures HitsSit(body, first, Hits(body, first), at) == true
  {
    if body == [] {
      at := [];
    } else {
      var shorter, x := body[..|body| - 1], body[|body| - 1];
      assert body == shorter + [x];
      var earlier := HitPlaces(shorter, first);
      var there := LastPlaces(shorter, x, first);
      at := earlier + there;
      HitPlacesNext(shorter, x, first, body, earlier, there, at);
    }
  }

  /** The line is read for uses: it is no comment, names no environment, and neither sets the guard of
      its job or step nor continues one. */
  ghost predicate ReadForUses(body: seq<Line>, j: nat)
    requires j < |body|
  {
    && !body[j].shape.Comment? && !body[j].shape.Environment?
    && !(body[j].shape.JobIf? && StepCount(body[..j]) == 0)
    && !(body[j].shape.StepIf? && StepCount(body[..j]) > 0)
    && !Continuation(body, j)
  }

  lemma {:induction false} ReadIsSearched(body: seq<Line>, j: nat)
    requires j < |body|
    ensures ReadForUses(body, j) == Searched(body, j)
  {
  }

  /** The use at this place of a job's body is not gated, neither by the job nor by its step. */
  ghost predicate UngatedPlace(job: Job, trusted: string -> bool, p: Place) {
    && p.0 < |job.body| && ReadForUses(job.body, p.0) && UseAt(job.body[p.0], p.1)
    && (forall j :: 0 <= j < |job.body| ==> job.body[j].shape != Environment(true))
    && !trusted(FinalGuard(job.body, -1))
    && var scope := ScopeAt(job.body, p.0 + 1);
       !(scope >= 0 && FinalGuard(job.body, scope) != "" && trusted(FinalGuard(job.body, scope)))
  }

  function ReportOf(job: Job, p: Place): Violation
    requires p.0 < |job.body| && UseAt(job.body[p.0], p.1)
  {
    Ungated(job.header + 1 + p.0, SecretAt(job.body[p.0], p.1), job.name)
  }

  /** The violations are those of the first `n` hits that no step guards. */
  ghost predicate UncoveredSits(
    hits: seq<Hit>, n: nat, at: seq<Place>, job: Job, trusted: string -> bool, vs: seq<Violation>, kept: seq<Place>)
  {
    && n <= |hits| == |at| && |vs| == |kept| && InOrder(kept)
    && (forall q :: 0 <= q < |kept| ==> KeptFrom(hits, n, at, job, trusted, vs[q], kept[q]))
    && forall i :: 0 <= i < n ==> KeptIfOpen(hits[i], at[i], job, trusted, kept)
  }

  predicate KeptFrom(
    hits: seq<Hit>, n: nat, at: seq<Place>, job: Job, trusted: string -> bool, v: Violation, place: Place)
  {
    exists i :: 0 <= i < n && KeptAt(hits, at, i, job, trusted, v, place)
  }

  predicate KeptAt(
    hits: seq<Hit>, at: seq<Place>, i: nat, job: Job, trusted: string -> bool, v: Violation, place: Place)
  {
    && i < |hits| && i < |at| && !StepGuarded(hits[i], job.body, trusted)
    && place == at[i] && v == Ungated(hits[i].line, hits[i].secret, job.name)
  }

  predicate KeptIfOpen(hit: Hit, p: Place, job: Job, trusted: string -> bool, kept: seq<Place>) {
    StepGuarded(hit, job.body, trusted) || p in kept
  }

  lemma {:induction false} KeptIsBefore(
    hits: seq<Hit>, n: nat, at: seq<Place>, job: Job, trusted: string -> bool, v: Violation, place: Place)
    requires n < |hits| == |at| && InOrder(at) && KeptFrom(hits, n, at, job, trusted, v, place)
    ensures Before(place, at[n])
    ensures KeptFrom(hits, n + 1, at, job, trusted, v, place) == true
  {
    var i :| 0 <= i < n && KeptAt(hits, at, i, job, trusted, v, place);
    assert Before(at[i], at[n]);
  }

  lemma {:induction false} UncoveredSkip(
    hits: seq<Hit>, n: nat, at: seq<Place>, job: Job, trusted: string -> bool, vs: seq<Violation>, kept: seq<Place>)
    requires n < |hits| && InOrder(at) && UncoveredSits(hits, n, at, job, trusted, vs, kept)
    requires StepGuarded(hits[n], job.body, trusted)
    ensures UncoveredSits(hits, n + 1, at, job, trusted, vs, kept) == true
  {
    forall q | 0 <= q < |kept| ensures KeptFrom(hits, n + 1, at, job, trusted, vs[q], kept[q]) == true {
      KeptIsBefore(hits, n, at, job, trusted, vs[q], kept[q]);
    }
    forall i | 0 <= i < n + 1 ensures KeptIfOpen(hits[i], at[i], job, trusted, kept) == true {
      assert i < n ==> KeptIfOpen(hits[i], at[i], job, trusted, kept);
    }
  }

  lemma {:induction false} UncoveredAdd(
    hits: seq<Hit>, n: nat, at: seq<Place>, job: Job, trusted: string -> bool, vs: seq<Violation>, kept: seq<Place>,
    v: Violation)
    requires n < |hits| && InOrder(at) && UncoveredSits(hits, n, at, job, trusted, vs, kept)
    requires !StepGuarded(hits[n], job.body, trusted) && v == Ungated(hits[n].line, hits[n].secret, job.name)
    ensures UncoveredSits(hits, n + 1, at, job, trusted, vs + [v], kept + [at[n]]) == true
  {
    var more, places := vs + [v], kept + [at[n]];
    assert KeptAt(hits, at, n, job, trusted, v, at[n]);
    forall q | 0 <= q < |places|
      ensures KeptFrom(hits, n + 1, at, job, trusted, more[q], places[q]) == true
      ensures q < |kept| ==> Before(places[q], at[n])
    {
      if q < |kept| {
        KeptIsBefore(hits, n, at, job, trusted, vs[q], kept[q]);
      }
    }
    assert places[|kept|] == at[n];
    forall i | 0 <= i < n + 1 ensures KeptIfOpen(hits[i], at[i], job, trusted, places) == true {
      assert i < n ==> KeptIfOpen(hits[i], at[i], job, trusted, kept);
    }
  }

  lemma {:induction false} UncoveredPlaces(
    hits: seq<Hit>, n: nat, at: seq<Place>, job: Job, trusted: string -> bool) returns (kept: seq<Place>)
    requires n <= |hits| == |at| && InOrder(at)
    ensures UncoveredSits(hits, n, at, job, trusted, Uncovered(hits[..n], job.name, job.body, trusted), kept) == true
  {
    if n == 0 {
      kept := [];
    } else {
      kept := UncoveredPlaces(hits, n - 1, at, job, trusted);
      var vs := Uncovered(hits[..n - 1], job.name, job.body, trusted);
      var v := Ungated(hits[n - 1].line, hits[n - 1].secret, job.name);
      assert hits[..n][..n - 1] == hits[..n - 1];
      if StepGuarded(hits[n - 1], job.body, trusted) {
        UncoveredSkip(hits, n - 1, at, job, trusted, vs, kept);
        assert Uncovered(hits[..n], job.name, job.body, trusted) == vs;
      } else {
        UncoveredAdd(hits, n - 1, at, job, trusted, vs, kept, v);
        assert Uncovered(hits[..n], job.name, job.body, trusted) == vs + [v];
        kept := kept + [at[n - 1]];
      }
    }
  }

  /** The report of a job holds its ungated uses, each once and in their order. */
  ghost predicate JobSits(job: Job, trusted: string -> bool, vs: seq<Violation>, at: seq<Place>) {
    && |vs| == |at| && InOrder(at)
    && (forall q :: 0 <= q < |at| ==> UngatedPlace(job, trusted, at[q]) && vs[q] == ReportOf(job, at[q]))
    && forall j: nat, k: nat :: UngatedPlace(job, trusted, (j, k)) ==> (j, k) in at
  }

  predicate JobIsGated(job: Job, trusted: string -> bool) {
    Approved(job.body) || trusted(FinalGuard(job.body, -1))
  }

  lemma {:induction false} GatedSits(job: Job, trusted: string -> bool, vs: seq<Violation>, at: seq<Place>)
    requires JobIsGated(job, trusted) && |vs| == |at| == 0
    ensures IsReport(vs, job, trusted) == true && JobSits(job, trusted, vs, at) == true
  {
  }

  lemma {:induction false} UngatedReport(job: Job, trusted: string -> bool)
    requires !JobIsGated(job, trusted)
    ensures IsReport(Uncovered(Hits(job.body, job.header + 1), job.name, job.body, trusted), job, trusted) == true
  {
  }

  lemma {:induction false} UngatedSits(job: Job, trusted: string -> bool, hits: seq<Hit>)
    returns (vs: seq<Violation>, at: seq<Place>)
    requires !JobIsGated(job, trusted) && hits == Hits(job.body, job.header + 1)
    ensures vs == Uncovered(hits, job.name, job.body, trusted) && JobSits(job, trusted, vs, at) == true
  {
    var all := HitPlaces(job.body, job.header + 1);
    vs := Uncovered(hits, job.name, job.body, trusted);
    at := UncoveredPlaces(hits, |hits|, all, job, trusted);
    assert hits[..|hits|] == hits;
    UngatedKept(job, trusted, hits, all, vs, at);
  }

  lemma {:induction false} JobPlaces(job: Job, trusted: string -> bool) returns (vs: seq<Violation>, at: seq<Place>)
    ensures IsReport(vs, job, trusted) == true && JobSits(job, trusted, vs, at) == true
  {
    if JobIsGated(job, trusted) {
      vs, at := [], [];
      GatedSits(job, trusted, vs, at);
    } else {
      UngatedReport(job, trusted);
      vs, at := UngatedSits(job, trusted, Hits(job.body, job.header + 1));
    }
  }

  lemma {:induction false} KeptIsUngated(
    job: Job, trusted: string -> bool, hits: seq<Hit>, all: seq<Place>, v: Violation, p: Place)
    requires !JobIsGated(job, trusted) && HitsSit(job.body, job.header + 1, hits, all) == true
    requires KeptFrom(hits, |hits|, all, job, trusted, v, p) == true
    ensures UngatedPlace(job, trusted, p) && v == ReportOf(job, p)
  {
    var i :| 0 <= i < |hits| && KeptAt(hits, all, i, job, trusted, v, p);
    assert HitSits(job.body, job.header + 1, all[i], hits[i]);
    ReadIsSearched(job.body, p.0);
  }

  lemma {:induction false} UngatedIsKept(
    job: Job, trusted: string -> bool, hits: seq<Hit>, all: seq<Place>, at: seq<Place>, j: nat, k: nat)
    requires HitsSit(job.body, job.header + 1, hits, all) == true
    requires forall i :: 0 <= i < |hits| ==> KeptIfOpen(hits[i], all[i], job, trusted, at)
    requires UngatedPlace(job, trusted, (j, k))
    ensures (j, k) in at
  {
    ReadIsSearched(job.body, j);
    assert (j, k) in all;
    var i :| 0 <= i < |all| && all[i] == (j, k);
    assert HitSits(job.body, job.header + 1, all[i], hits[i]);
    assert KeptIfOpen(hits[i], all[i], job, trusted, at);
  }

  lemma {:induction false} UngatedKept(
    job: Job, trusted: string -> bool, hits: seq<Hit>, all: seq<Place>, vs: seq<Violation>, at: seq<Place>)
    requires !JobIsGated(job, trusted)
    requires HitsSit(job.body, job.header + 1, hits, all) == true
    requires UncoveredSits(hits, |hits|, all, job, trusted, vs, at) == true
    ensures JobSits(job, trusted, vs, at) == true
  {
    forall q | 0 <= q < |at| ensures UngatedPlace(job, trusted, at[q]) && vs[q] == ReportOf(job, at[q]) {
      assert KeptFrom(hits, |hits|, all, job, trusted, vs[q], at[q]);
      KeptIsUngated(job, trusted, hits, all, vs[q], at[q]);
    }
    forall j: nat, k: nat | UngatedPlace(job, trusted, (j, k)) ensures (j, k) in at {
      UngatedIsKept(job, trusted, hits, all, at, j, k);
    }
  }

  // ---------- The jobs of a text, by its lines ----------

  /** Line `h` opens a job: a header below a `jobs:` line. */
  predicate OpensJob(lines: seq<Line>, h: nat) {
    h < |lines| && lines[h].shape.JobHeader? && exists i :: 0 <= i < h && lines[i].shape.JobsKey?
  }

  /** The job opened at line `h` goes on to line `e`, the next header or the end of the text. */
  predicate JobSpan(lines: seq<Line>, h: nat, e: nat) {
    && OpensJob(lines, h) && h < e <= |lines|
    && (forall m :: h < m < e ==> !lines[m].shape.JobHeader?)
    && (e < |lines| ==> lines[e].shape.JobHeader?)
  }

  /** Lines are numbered from 1. */
  function JobAt(lines: seq<Line>, h: nat, e: nat): Job
    requires JobSpan(lines, h, e)
  {
    Job(lines[h].shape.name, h + 1, lines[h + 1..e])
  }

  ghost predicate IsJobAt(lines: seq<Line>, job: Job, h: nat, e: nat) {
    JobSpan(lines, h, e) && job == JobAt(lines, h, e)
  }

  function EndOf(heads: seq<nat>, i: nat, n: nat): nat {
    if i + 1 < |heads| then heads[i + 1] else n
  }

  /** The jobs are those opened at these lines, and no other line opens one. */
  ghost predicate JobsSit(lines: seq<Line>, jobs: seq<Job>, heads: seq<nat>) {
    && |jobs| == |heads|
    && (forall i, j :: 0 <= i < j < |heads| ==> heads[i] < heads[j])
    && (forall i :: 0 <= i < |heads| ==> IsJobAt(lines, jobs[i], heads[i], EndOf(heads, i, |lines|)))
    && forall h :: 0 <= h < |lines| && OpensJob(lines, h) ==> h in heads
  }

  lemma {:induction false} OpensStill(lines: seq<Line>, x: Line, h: nat)
    requires h < |lines|
    ensures OpensJob(lines + [x], h) == OpensJob(lines, h)
  {
    var longer := lines + [x];
    assert forall m :: 0 <= m < |lines| ==> longer[m] == lines[m];
  }

  lemma {:induction false} OpensLast(lines: seq<Line>, x: Line)
    ensures OpensJob(lines + [x], |lines|) <==> x.shape.JobHeader? && Started(lines)
  {
    var longer := lines + [x];
    assert longer[|lines|] == x && forall m :: 0 <= m < |lines| ==> longer[m] == lines[m];
  }

  /** A job that ends before the new line stays as it is, one that runs up to it grows or ends. */
  lemma {:induction false} JobAtStill(lines: seq<Line>, x: Line, job: Job, h: nat, e: nat)
    requires IsJobAt(lines, job, h, e)
    ensures e < |lines| || x.shape.JobHeader? ==> IsJobAt(lines + [x], job, h, e) == true
    ensures e == |lines| && !x.shape.JobHeader? ==>
              IsJobAt(lines + [x], Job(job.name, job.header, job.body + [x]), h, e + 1) == true
  {
    var longer := lines + [x];
    OpensStill(lines, x, h);
    assert longer[|lines|] == x && forall m :: 0 <= m < |lines| ==> longer[m] == lines[m];
    assert longer[h + 1..e] == lines[h + 1..e];
    assert e == |lines| ==> longer[h + 1..e + 1] == lines[h + 1..e] + [x];
  }

  /** The job that a header opens, before any line follows it. */
  predicate IsNewJob(job: Job, x: Line, n: nat) {
    x.shape.JobHeader? && job == Job(x.shape.name, n + 1, [])
  }

  lemma {:induction false} HeaderIsJob(lines: seq<Line>, x: Line, job: Job)
    requires IsNewJob(job, x, |lines|) && Started(lines)
    ensures IsJobAt(lines + [x], job, |lines|, |lines| + 1) == true
  {
    var longer := lines + [x];
    OpensLast(lines, x);
    assert longer[|lines|] == x && longer[|lines| + 1..|lines| + 1] == [];
  }

  lemma {:induction false} OlderJobStill(
    lines: seq<Line>, x: Line, jobs: seq<Job>, heads: seq<nat>, all: seq<nat>, i: nat, job: Job)
    requires JobsSit(lines, jobs, heads) == true && x.shape.JobHeader? && all == heads + [|lines|]
    requires i < |heads| && i < |jobs| && job == jobs[i]
    ensures IsJobAt(lines + [x], job, all[i], EndOf(all, i, |lines| + 1)) == true
  {
    assert IsJobAt(lines, jobs[i], heads[i], EndOf(heads, i, |lines|));
    JobAtStill(lines, x, job, heads[i], EndOf(heads, i, |lines|));
    assert EndOf(all, i, |lines| + 1) == EndOf(heads, i, |lines|);
  }

  lemma {:induction false} HeadersAreJobs(
    lines: seq<Line>, x: Line, jobs: seq<Job>, heads: seq<nat>, more: seq<Job>, all: seq<nat>, i: nat, job: Job,
    n: nat)
    requires JobsSit(lines, jobs, heads) == true && Started(lines)
    requires all == heads + [|lines|] && i < |all| && n == |lines| + 1
    requires |more| == |jobs| + 1 == |all| && more[..|jobs|] == jobs && IsNewJob(more[|jobs|], x, |lines|)
    requires job == more[i]
    ensures IsJobAt(lines + [x], job, all[i], EndOf(all, i, n)) == true
  {
    if i < |heads| {
      assert more[i] == more[..|jobs|][i];
      OlderJobStill(lines, x, jobs, heads, all, i, job);
    } else {
      HeaderIsJob(lines, x, job);
    }
  }

  lemma {:induction false} HeaderIsIn(lines: seq<Line>, x: Line, jobs: seq<Job>, heads: seq<nat>, all: seq<nat>, h: nat)
    requires JobsSit(lines, jobs, heads) == true && all == heads + [|lines|]
    requires h <= |lines| && OpensJob(lines + [x], h)
    ensures h in all
  {
    if h < |lines| {
      OpensStill(lines, x, h);
    } else {
      assert all[|heads|] == h;
    }
  }

  lemma {:induction false} HeadsBelow(lines: seq<Line>, jobs: seq<Job>, heads: seq<nat>)
    requires JobsSit(lines, jobs, heads) == true
    ensures forall i :: 0 <= i < |heads| ==> heads[i] < |lines|
  {
    forall i | 0 <= i < |heads| ensures heads[i] < |lines| {
      assert IsJobAt(lines, jobs[i], heads[i], EndOf(heads, i, |lines|));
    }
  }

  lemma {:induction false} HeaderSits(
    lines: seq<Line>, x: Line, jobs: seq<Job>, heads: seq<nat>, more: seq<Job>, all: seq<nat>)
    requires JobsSit(lines, jobs, heads) == true && Started(lines) && all == heads + [|lines|]
    requires |more| == |jobs| + 1 && more[..|jobs|] == jobs && IsNewJob(more[|jobs|], x, |lines|)
    ensures JobsSit(lines + [x], more, all) == true
  {
    var longer := lines + [x];
    assert |heads| == |jobs|;
    forall i | 0 <= i < |all| ensures IsJobAt(longer, more[i], all[i], EndOf(all, i, |longer|)) == true {
      HeadersAreJobs(lines, x, jobs, heads, more, all, i, more[i], |longer|);
    }
    HeadsBelow(lines, jobs, heads);
    forall h | 0 <= h < |longer| && OpensJob(longer, h) ensures h in all {
      HeaderIsIn(lines, x, jobs, heads, all, h);
    }
  }

  lemma {:induction false} LineSitsInJob(lines: seq<Line>, x: Line, jobs: seq<Job>, heads: seq<nat>, more: seq<Job>)
    requires JobsSit(lines, jobs, heads) == true && !OpensJob(lines + [x], |lines|)
    requires if jobs == [] then more == []
             else !x.shape.JobHeader?
                  && var last := jobs[|jobs| - 1];
                     more == jobs[..|jobs| - 1] + [Job(last.name, last.header, last.body + [x])]
    ensures JobsSit(lines + [x], more, heads) == true
  {
    var longer := lines + [x];
    forall i | 0 <= i < |heads| ensures IsJobAt(longer, more[i], heads[i], EndOf(heads, i, |longer|)) {
      JobAtStill(lines, x, jobs[i], heads[i], EndOf(heads, i, |lines|));
    }
    forall h | 0 <= h < |longer| && OpensJob(longer, h) ensures h in heads {
      OpensStill(lines, x, h);
    }
  }

  lemma {:induction false} JobPlacesOf(lines: seq<Line>) returns (heads: seq<nat>)
    ensures JobsSit(lines, Jobs(lines), heads) == true
  {
    if lines == [] {
      heads := [];
    } else {
      var n := |lines| - 1;
      var pre, x := lines[..n], lines[n];
      assert lines == pre + [x];
      heads := JobPlacesOf(pre);
      OpensLast(pre, x);
      NotStarted(pre);
      if Started(pre) && x.shape.JobHeader? {
        var all := heads + [n];
        HeaderSits(pre, x, Jobs(pre), heads, Jobs(lines), all);
        heads := all;
      } else {
        LineSitsInJob(pre, x, Jobs(pre), heads, Jobs(lines));
      }
    }
  }

  lemma {:induction false} NotStarted(lines: seq<Line>)
    ensures !Started(lines) ==> Jobs(lines) == []
  {
    if lines != [] && !Started(lines) {
      assert !Started(lines[..|lines| - 1]);
    }
  }

  // ---------- The report of a text ----------

  /** At this place of the text, in the job of lines `h` to `e`, is an ungated use, and this reports it. */
  ghost predicate UseInJob(lines: seq<Line>, trusted: string -> bool, h: nat, e: nat, p: Place, v: Violation) {
    && JobSpan(lines, h, e) && h < p.0 < e
    && UngatedPlace(JobAt(lines, h, e), trusted, (p.0 - h - 1, p.1))
    && v == Ungated(p.0 + 1, SecretAt(lines[p.0], p.1), lines[h].shape.name)
  }

  ghost predicate UseInText(lines: seq<Line>, trusted: string -> bool, p: Place, v: Violation) {
    exists h: nat, e: nat :: UseInJob(lines, trusted, h, e, p, v)
  }

  /** The report holds the ungated uses of the text, each once and in their order, and nothing else. */
  ghost predicate ReportSits(lines: seq<Line>, trusted: string -> bool, vs: seq<Violation>, at: seq<Place>) {
    && |vs| == |at| && InOrder(at)
    && (forall q :: 0 <= q < |at| ==> UseInText(lines, trusted, at[q], vs[q]))
    && forall l: nat, k: nat, v :: UseInText(lines, trusted, (l, k), v) ==> (l, k) in at
  }

  /** The text has a `jobs:` line and mentions a secret, but nothing in it opens a job. */
  predicate FindsNoJobs(lines: seq<Line>) {
    && (exists i :: 0 <= i < |lines| && lines[i].shape.JobsKey?)
    && (exists i :: 0 <= i < |lines| && lines[i].mentions)
    && forall h :: 0 <= h < |lines| ==> !OpensJob(lines, h)
  }

  /** The same of the first `n` jobs. */
  ghost predicate ReportsSit(
    lines: seq<Line>, jobs: seq<Job>, heads: seq<nat>, n: nat, trusted: string -> bool, vs: seq<Violation>,
    at: seq<Place>)
  {
    && n <= |jobs| == |heads| && InOrder(at) && AllUses(lines, heads, n, trusted, vs, at)
    && AllIn(jobs, heads, n, trusted, at)
  }

  ghost predicate AllUses(
    lines: seq<Line>, heads: seq<nat>, n: nat, trusted: string -> bool, vs: seq<Violation>, at: seq<Place>)
  {
    |vs| == |at| && forall q :: 0 <= q < |at| ==> UseOfJobs(lines, heads, n, trusted, at[q], vs[q])
  }

  ghost predicate UseOfJobs(
    lines: seq<Line>, heads: seq<nat>, n: nat, trusted: string -> bool, p: Place, v: Violation)
  {
    exists i :: 0 <= i < n && UseOfJob(lines, heads, i, trusted, p, v)
  }

  ghost predicate UseOfJob(
    lines: seq<Line>, heads: seq<nat>, i: nat, trusted: string -> bool, p: Place, v: Violation)
  {
    i < |heads| && UseInJob(lines, trusted, heads[i], EndOf(heads, i, |lines|), p, v)
  }

  ghost predicate JobIsIn(job: Job, head: nat, trusted: string -> bool, at: seq<Place>) {
    forall j: nat, k: nat :: UngatedPlace(job, trusted, (j, k)) ==> (head + 1 + j, k) in at
  }

  function Shifted(at: seq<Place>, offset: nat): (r: seq<Place>)
    ensures |r| == |at| && forall q :: 0 <= q < |r| ==> r[q] == (offset + at[q].0, at[q].1)
  {
    seq(|at|, q requires 0 <= q < |at| => (offset + at[q].0, at[q].1))
  }

  lemma {:induction false} ShiftedInOrder(at: seq<Place>, offset: nat)
    requires InOrder(at)
    ensures InOrder(Shifted(at, offset))
  {
  }

  lemma {:induction false} ShiftedIsThere(at: seq<Place>, offset: nat, j: nat, k: nat)
    requires (j, k) in at
    ensures (offset + j, k) in Shifted(at, offset)
  {
    var q :| 0 <= q < |at| && at[q] == (j, k);
    assert Shifted(at, offset)[q] == (offset + j, k);
  }

  /** A use of a job's body is one of the text. */
  lemma {:induction false} UseOfBody(
    lines: seq<Line>, job: Job, heads: seq<nat>, i: nat, trusted: string -> bool, p: Place)
    requires i < |heads| && IsJobAt(lines, job, heads[i], EndOf(heads, i, |lines|)) && UngatedPlace(job, trusted, p)
    ensures UseOfJob(lines, heads, i, trusted, (heads[i] + 1 + p.0, p.1), ReportOf(job, p)) == true
  {
    assert job.body[p.0] == lines[heads[i] + 1 + p.0];
  }

  lemma {:induction false} InOrderBoth(a: seq<Place>, b: seq<Place>, n: nat)
    requires InOrder(a) && InOrder(b)
    requires (forall q :: 0 <= q < |a| ==> a[q].0 < n) && forall q :: 0 <= q < |b| ==> n <= b[q].0
    ensures InOrder(a + b)
  {
  }

  lemma {:induction false} UsesEndBefore(
    lines: seq<Line>, jobs: seq<Job>, heads: seq<nat>, n: nat, trusted: string -> bool, p: Place, v: Violation)
    requires JobsSit(lines, jobs, heads) == true && n < |heads| && UseOfJobs(lines, heads, n, trusted, p, v) == true
    ensures p.0 < heads[n] && UseOfJobs(lines, heads, n + 1, trusted, p, v) == true
  {
    var i :| 0 <= i < n && UseOfJob(lines, heads, i, trusted, p, v);
  }

  lemma {:induction false} UsesKept(
    lines: seq<Line>, jobs: seq<Job>, heads: seq<nat>, n: nat, trusted: string -> bool, vs: seq<Violation>,
    at: seq<Place>)
    requires JobsSit(lines, jobs, heads) == true && n < |heads| && AllUses(lines, heads, n, trusted, vs, at) == true
    ensures AllUses(lines, heads, n + 1, trusted, vs, at) == true
    ensures forall q :: 0 <= q < |at| ==> at[q].0 < heads[n]
  {
    forall q | 0 <= q < |at|
      ensures at[q].0 < heads[n] && UseOfJobs(lines, heads, n + 1, trusted, at[q], vs[q]) == true
    {
      UsesEndBefore(lines, jobs, heads, n, trusted, at[q], vs[q]);
    }
  }

  lemma {:induction false} UsesOfNext(
    lines: seq<Line>, job: Job, heads: seq<nat>, n: nat, trusted: string -> bool, more: seq<Violation>,
    there: seq<Place>)
    requires n < |heads| && IsJobAt(lines, job, heads[n], EndOf(heads, n, |lines|)) == true
    requires JobSits(job, trusted, more, there) == true
    ensures AllUses(lines, heads, n + 1, trusted, more, Shifted(there, heads[n] + 1)) == true
  {
    var next := Shifted(there, heads[n] + 1);
    forall q | 0 <= q < |next| ensures UseOfJobs(lines, heads, n + 1, trusted, next[q], more[q]) == true {
      UseOfBody(lines, job, heads, n, trusted, there[q]);
      assert UseOfJob(lines, heads, n, trusted, next[q], more[q]);
    }
  }

  lemma {:induction false} JoinedAt<T>(a: seq<T>, b: seq<T>, q: nat)
    requires q < |a| + |b|
    ensures (a + b)[q] == if q < |a| then a[q] else b[q - |a|]
  {
  }

  lemma {:induction false} UsesBothAt(
    lines: seq<Line>, heads: seq<nat>, n: nat, trusted: string -> bool, vs: seq<Violation>, at: seq<Place>,
    more: seq<Violation>, next: seq<Place>, q: nat, p: Place, v: Violation)
    requires AllUses(lines, heads, n, trusted, vs, at) == true && AllUses(lines, heads, n, trusted, more, next) == true
    requires q < |at| + |next| && p == (at + next)[q] && v == (vs + more)[q]
    ensures UseOfJobs(lines, heads, n, trusted, p, v) == true
  {
    JoinedAt(at, next, q);
    JoinedAt(vs, more, q);
    if q < |at| {
      assert UseOfJobs(lines, heads, n, trusted, at[q], vs[q]) == true;
    } else {
      assert UseOfJobs(lines, heads, n, trusted, next[q - |at|], more[q - |at|]) == true;
    }
  }

  lemma {:induction false} UsesBoth(
    lines: seq<Line>, heads: seq<nat>, n: nat, trusted: string -> bool, vs: seq<Violation>, at: seq<Place>,
    more: seq<Violation>, next: seq<Place>)
    requires AllUses(lines, heads, n, trusted, vs, at) == true && AllUses(lines, heads, n, trusted, more, next) == true
    ensures AllUses(lines, heads, n, trusted, vs + more, at + next) == true
  {
    var places, all := at + next, vs + more;
    forall q: nat | q < |places| ensures UseOfJobs(lines, heads, n, trusted, places[q], all[q]) == true {
      UsesBothAt(lines, heads, n, trusted, vs, at, more, next, q, places[q], all[q]);
    }
  }

  lemma {:induction false} NextJobIsIn(
    job: Job, head: nat, trusted: string -> bool, more: seq<Violation>, there: seq<Place>, at: seq<Place>)
    requires JobSits(job, trusted, more, there) == true
    ensures JobIsIn(job, head, trusted, at + Shifted(there, head + 1)) == true
  {
    forall j: nat, k: nat | UngatedPlace(job, trusted, (j, k)) ensures (head + 1 + j, k) in Shifted(there, head + 1) {
      ShiftedIsThere(there, head + 1, j, k);
    }
  }

  lemma {:induction false} JobStaysIn(job: Job, head: nat, trusted: string -> bool, at: seq<Place>, next: seq<Place>)
    requires JobIsIn(job, head, trusted, at) == true
    ensures JobIsIn(job, head, trusted, at + next) == true
  {
    forall j: nat, k: nat | UngatedPlace(job, trusted, (j, k)) ensures (head + 1 + j, k) in at + next {
      assert (head + 1 + j, k) in at;
    }
  }

  ghost predicate AllIn(jobs: seq<Job>, heads: seq<nat>, n: nat, trusted: string -> bool, at: seq<Place>) {
    n <= |jobs| == |heads| && forall i :: 0 <= i < n ==> JobIsIn(jobs[i], heads[i], trusted, at)
  }

  lemma {:induction false} AllStayIn(
    jobs: seq<Job>, heads: seq<nat>, n: nat, trusted: string -> bool, at: seq<Place>, next: seq<Place>)
    requires AllIn(jobs, heads, n, trusted, at)
    ensures AllIn(jobs, heads, n, trusted, at + next) == true
  {
    forall i | 0 <= i < n ensures JobIsIn(jobs[i], heads[i], trusted, at + next) == true {
      JobStaysIn(jobs[i], heads[i], trusted, at, next);
    }
  }

  lemma {:induction false} JobsAreIn(
    jobs: seq<Job>, heads: seq<nat>, n: nat, trusted: string -> bool, at: seq<Place>, more: seq<Violation>,
    there: seq<Place>)
    requires n < |jobs| && AllIn(jobs, heads, n, trusted, at) == true
    requires JobSits(jobs[n], trusted, more, there) == true
    ensures n < |heads| && AllIn(jobs, heads, n + 1, trusted, at + Shifted(there, heads[n] + 1)) == true
  {
    NextJobIsIn(jobs[n], heads[n], trusted, more, there, at);
    AllStayIn(jobs, heads, n, trusted, at, Shifted(there, heads[n] + 1));
  }

  lemma {:induction false} NextInOrder(
    lines: seq<Line>, jobs: seq<Job>, heads: seq<nat>, n: nat, trusted: string -> bool, vs: seq<Violation>,
    at: seq<Place>, there: seq<Place>)
    requires JobsSit(lines, jobs, heads) == true && n < |heads| && AllUses(lines, heads, n, trusted, vs, at) == true
    requires InOrder(at) == true && InOrder(there) == true
    ensures InOrder(at + Shifted(there, heads[n] + 1)) == true
  {
    UsesKept(lines, jobs, heads, n, trusted, vs, at);
    ShiftedInOrder(there, heads[n] + 1);
    InOrderBoth(at, Shifted(there, heads[n] + 1), heads[n]);
  }

  lemma {:induction false} NextUses(
    lines: seq<Line>, jobs: seq<Job>, heads: seq<nat>, n: nat, trusted: string -> bool, vs: seq<Violation>,
    at: seq<Place>, more: seq<Violation>, there: seq<Place>)
    requires JobsSit(lines, jobs, heads) == true && n < |jobs| == |heads|
    requires AllUses(lines, heads, n, trusted, vs, at) == true && JobSits(jobs[n], trusted, more, there) == true
    ensures AllUses(lines, heads, n + 1, trusted, vs + more, at + Shifted(there, heads[n] + 1)) == true
  {
    assert IsJobAt(lines, jobs[n], heads[n], EndOf(heads, n, |lines|));
    UsesKept(lines, jobs, heads, n, trusted, vs, at);
    UsesOfNext(lines, jobs[n], heads, n, trusted, more, there);
    UsesBoth(lines, heads, n + 1, trusted, vs, at, more, Shifted(there, heads[n] + 1));
  }

  lemma {:induction false} ReportsSitNext(
    lines: seq<Line>, jobs: seq<Job>, heads: seq<nat>, n: nat, trusted: string -> bool, vs: seq<Violation>,
    at: seq<Place>, more: seq<Violation>, there: seq<Place>, all: seq<Violation>)
    returns (whole: seq<Place>)
    requires JobsSit(lines, jobs, heads) == true && n < |jobs| == |heads| && Joins(all, vs, more) == true
    requires ReportsSit(lines, jobs, heads, n, trusted, vs, at) == true
    requires JobSits(jobs[n], trusted, more, there) == true
    ensures ReportsSit(lines, jobs, heads, n + 1, trusted, all, whole) == true
  {
    whole := at + Shifted(there, heads[n] + 1);
    NextInOrder(lines, jobs, heads, n, trusted, vs, at, there);
    NextUses(lines, jobs, heads, n, trusted, vs, at, more, there);
    JobsAreIn(jobs, heads, n, trusted, at, more, there);
  }

  ghost predicate SitsUpTo(
    lines: seq<Line>, jobs: seq<Job>, heads: seq<nat>, n: nat, trusted: string -> bool, at: seq<Place>)
  {
    n <= |jobs| && ReportsSit(lines, jobs, heads, n, trusted, JobReports(jobs[..n], trusted), at)
  }

  lemma {:induction false} SitsUpToNext(
    lines: seq<Line>, jobs: seq<Job>, heads: seq<nat>, n: nat, trusted: string -> bool, at: seq<Place>,
    more: seq<Violation>, there: seq<Place>) returns (whole: seq<Place>)
    requires JobsSit(lines, jobs, heads) == true && n < |jobs| == |heads|
    requires SitsUpTo(lines, jobs, heads, n, trusted, at) == true
    requires IsReport(more, jobs[n], trusted) == true && JobSits(jobs[n], trusted, more, there) == true
    ensures SitsUpTo(lines, jobs, heads, n + 1, trusted, whole) == true
  {
    OneMoreReport(jobs, n + 1, more, trusted);
    whole := ReportsSitNext(lines, jobs, heads, n, trusted, JobReports(jobs[..n], trusted), at, more, there,
                            JobReports(jobs[..n + 1], trusted));
  }

  ghost predicate IsReport(vs: seq<Violation>, job: Job, trusted: string -> bool) {
    vs == JobReport(job, trusted)
  }

  lemma {:induction false} ReportPlaces(
    lines: seq<Line>, jobs: seq<Job>, heads: seq<nat>, n: nat, trusted: string -> bool) returns (at: seq<Place>)
    requires JobsSit(lines, jobs, heads) == true && n <= |jobs| == |heads|
    ensures SitsUpTo(lines, jobs, heads, n, trusted, at) == true
  {
    if n == 0 {
      at := [];
    } else {
      var earlier := ReportPlaces(lines, jobs, heads, n - 1, trusted);
      var more, there := JobPlaces(jobs[n - 1], trusted);
      at := SitsUpToNext(lines, jobs, heads, n - 1, trusted, earlier, more, there);
    }
  }

  predicate Joins(all: seq<Violation>, vs: seq<Violation>, more: seq<Violation>) {
    all == vs + more
  }

  lemma {:induction false} OneMoreReport(jobs: seq<Job>, n: nat, more: seq<Violation>, trusted: string -> bool)
    requires 0 < n <= |jobs| && IsReport(more, jobs[n - 1], trusted)
    ensures Joins(JobReports(jobs[..n], trusted), JobReports(jobs[..n - 1], trusted), more) == true
  {
    assert jobs[..n][..n - 1] == jobs[..n - 1];
  }

  lemma {:induction false} SpanEnd(lines: seq<Line>, h: nat, e: nat, f: nat)
    requires JobSpan(lines, h, e) && JobSpan(lines, h, f)
    ensures e == f
  {
  }

  lemma {:induction false} TextUseIsIn(
    lines: seq<Line>, jobs: seq<Job>, heads: seq<nat>, trusted: string -> bool, at: seq<Place>, h: nat, e: nat,
    p: Place, v: Violation)
    requires JobsSit(lines, jobs, heads) == true && UseInJob(lines, trusted, h, e, p, v)
    requires AllIn(jobs, heads, |jobs|, trusted, at) == true
    ensures p in at
  {
    var i :| 0 <= i < |heads| && heads[i] == h;
    assert IsJobAt(lines, jobs[i], heads[i], EndOf(heads, i, |lines|));
    SpanEnd(lines, h, e, EndOf(heads, i, |lines|));
    assert JobIsIn(jobs[i], heads[i], trusted, at);
    assert UngatedPlace(jobs[i], trusted, (p.0 - h - 1, p.1));
  }

  lemma {:induction false} WholeReportSits(
    lines: seq<Line>, jobs: seq<Job>, heads: seq<nat>, trusted: string -> bool, vs: seq<Violation>, at: seq<Place>)
    requires JobsSit(lines, jobs, heads) == true
    requires ReportsSit(lines, jobs, heads, |jobs|, trusted, vs, at) == true
    ensures ReportSits(lines, trusted, vs, at) == true
  {
    forall q | 0 <= q < |at| ensures UseInText(lines, trusted, at[q], vs[q]) == true {
      assert UseOfJobs(lines, heads, |jobs|, trusted, at[q], vs[q]);
      var i :| 0 <= i < |jobs| && UseOfJob(lines, heads, i, trusted, at[q], vs[q]);
      assert UseInJob(lines, trusted, heads[i], EndOf(heads, i, |lines|), at[q], vs[q]);
    }
    forall l: nat, k: nat, v | UseInText(lines, trusted, (l, k), v) == true ensures (l, k) in at {
      var h: nat, e: nat :| UseInJob(lines, trusted, h, e, (l, k), v);
      TextUseIsIn(lines, jobs, heads, trusted, at, h, e, (l, k), v);
    }
  }

  /** What the report of a text holds. */
  ghost predicate Reports(lines: seq<Line>, trusted: string -> bool, violations: seq<Violation>) {
    if FindsNoJobs(lines) then violations == [NoJobs]
    else exists at :: ReportSits(lines, trusted, violations, at)
  }

  lemma {:induction false} ReportHolds(lines: seq<Line>, trusted: string -> bool)
    ensures Reports(lines, trusted, Report(lines, trusted)) == true
  {
    var jobs := Jobs(lines);
    var heads := JobPlacesOf(lines);
    NoneOpened(lines, jobs, heads);
    SilentOrNot(lines, trusted);
    if !FindsNoJobs(lines) {
      var at := WholeReportPlaces(lines, jobs, heads, trusted);
    }
  }

  lemma {:induction false} WholeReportPlaces(
    lines: seq<Line>, jobs: seq<Job>, heads: seq<nat>, trusted: string -> bool) returns (at: seq<Place>)
    requires JobsSit(lines, jobs, heads) == true
    ensures ReportSits(lines, trusted, JobReports(jobs, trusted), at) == true
  {
    assert jobs[..|jobs|] == jobs;
    at := ReportPlaces(lines, jobs, heads, |jobs|, trusted);
    assert SitsUpTo(lines, jobs, heads, |jobs|, trusted, at);
    WholeReportSits(lines, jobs, heads, trusted, JobReports(jobs, trusted), at);
  }

  lemma {:induction false} SilentOrNot(lines: seq<Line>, trusted: string -> bool)
    requires Jobs(lines) == [] <==> forall h :: 0 <= h < |lines| ==> !OpensJob(lines, h)
    ensures Report(lines, trusted) == if FindsNoJobs(lines) then [NoJobs] else JobReports(Jobs(lines), trusted)
  {
    NotStarted(lines);
  }

  lemma {:induction false} NoneOpened(lines: seq<Line>, jobs: seq<Job>, heads: seq<nat>)
    requires JobsSit(lines, jobs, heads) == true
    ensures jobs == [] <==> forall h :: 0 <= h < |lines| ==> !OpensJob(lines, h)
  {
    if jobs != [] {
      assert IsJobAt(lines, jobs[0], heads[0], EndOf(heads, 0, |lines|));
    }
  }
}
