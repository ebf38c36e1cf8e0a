/**
  The publication journal: one job row, its ordered step rows, and the transactions that change
  them (server/documentation/confluence_publish.py, server/documentation/confluence_jobs.py).

  Every transaction is a total function on journal values; the class JournalStore updates the
  rows in place and is proved to do exactly what these functions say.
 */
module PublicationJournal {
  import opened Basics

  type Key = string
  type RemoteId = nat
  type WorkerId = nat

  const LEASE_SECONDS: int := 180

  /** Page storage: its text, the operation markers and the ownership markers found in it. */
  datatype Body = Body(text: string, ops: set<nat>, owners: set<string>)

  /** sha256 taken as injective: a digest determines the body it was computed from. */
  datatype Digest = Digest(body: Body)

  datatype AssetAction = CreateAsset | UnchangedAsset | ConflictAsset

  datatype AssetPlan = AssetPlan(filename: string, action: AssetAction, remoteId: Option<RemoteId>,
                                 remoteVersion: nat, bytes: Body)

  /** A page of the reviewed plan; remoteId, remoteVersion and remoteDigest are what the preview captured. */
  datatype PagePlan = PagePlan(key: Key, parentKey: Option<Key>, title: string, text: string, ownership: string,
                               remoteId: Option<RemoteId>, remoteVersion: nat, remoteDigest: Option<Digest>,
                               remoteTitle: Option<string>, sameContent: bool, assets: seq<AssetPlan>)

  datatype Plan = Plan(pages: seq<PagePlan>, keep: set<Key>, replace: set<Key>, parentPage: Option<RemoteId>)

  datatype StepKind = PageStep(page: nat) | AssetStep(host: nat, asset: nat) | VerifyStep(verified: nat) | AudienceStep

  datatype StepStatus = Pending | Inflight | Uncertain | Succeeded | Skipped | Kept | Failed | Conflicted

  datatype JobStatus = Waiting | Running | Paused | Interrupted(cause: StepStatus) | Completed | Abandoned

  datatype ErrorCode = ProfileChanged | OtherError

  datatype StepResult = StepResult(id: Option<RemoteId>, version: nat, digest: Option<Digest>, title: string, kept: bool)

  const NoResult := StepResult(None, 0, None, "", false)

  /** The row's operation_id is unique; a step is named here by its ordinal, which serves as that id. */
  datatype Step = Step(kind: StepKind, status: StepStatus, sent: bool, attempts: nat, result: StepResult,
                       error: Option<ErrorCode>)

  datatype Job = Job(status: JobStatus, active: bool, revision: nat, leaseOwner: Option<WorkerId>,
                     leaseUntil: int, retryAt: int, profileVersion: nat)

  datatype Journal = Journal(job: Job, steps: seq<Step>)

  datatype Refusal = StaleRevision | NeedsFreshPreview | Busy | RetryLater | ProfileUnavailable | Incomplete
                   | LeaseLost | AlreadyFinished | UnresolvedWrite | NothingToResolve

  predicate Done(status: StepStatus) {
    status in {Succeeded, Skipped, Kept}
  }

  predicate Terminal(status: JobStatus) {
    status in {Completed, Abandoned}
  }

  predicate Ambiguous(status: StepStatus) {
    status in {Uncertain, Inflight}
  }

  predicate AllDone(steps: seq<Step>) {
    forall i :: 0 <= i < |steps| ==> Done(steps[i].status)
  }

  /** k is the first step that is not done: what ORDER BY ordinal LIMIT 1 selects. */
  predicate IsFirstOpen(steps: seq<Step>, k: int) {
    && 0 <= k < |steps|
    && !Done(steps[k].status)
    && forall i :: 0 <= i < k ==> Done(steps[i].status)
  }

  function FirstOpen(steps: seq<Step>): (r: Option<nat>)
    ensures r.Some? ==> IsFirstOpen(steps, r.value)
    ensures r.None? <==> AllDone(steps)
  {
    if steps == [] then None
    else if !Done(steps[0].status) then Some(0)
    else
      match FirstOpen(steps[1..])
      case None =>
        assert forall i :: 0 < i < |steps| ==> steps[i] == steps[1..][i - 1];
        None
      case Some(k) =>
        assert forall i :: 0 < i <= k + 1 ==> steps[i] == steps[1..][i - 1];
        Some(k + 1)
  }

  /** k is the first step whose write may or may not have happened. */
  predicate IsFirstAmbiguous(steps: seq<Step>, k: int) {
    && 0 <= k < |steps|
    && Ambiguous(steps[k].status)
    && forall i :: 0 <= i < k ==> !Ambiguous(steps[i].status)
  }

  function FirstAmbiguous(steps: seq<Step>): (r: Option<nat>)
    ensures r.Some? ==> IsFirstAmbiguous(steps, r.value)
    ensures r.None? <==> forall i :: 0 <= i < |steps| ==> !Ambiguous(steps[i].status)
  {
    if steps == [] then None
    else if Ambiguous(steps[0].status) then Some(0)
    else
      match FirstAmbiguous(steps[1..])
      case None =>
        assert forall i :: 0 < i < |steps| ==> steps[i] == steps[1..][i - 1];
        None
      case Some(k) =>
        assert forall i :: 0 < i <= k + 1 ==> steps[i] == steps[1..][i - 1];
        Some(k + 1)
  }

  // ------------------------------------------------------------------ transactions

  datatype ClaimOutcome = ClaimRefused(why: Refusal) | NothingLeft | Claimed(ordinal: nat, recover: bool)

  function ClaimResult(j: Journal, expected: nat, now: int, liveProfile: nat): ClaimOutcome {
    if j.job.revision != expected then ClaimRefused(StaleRevision)
    else if Terminal(j.job.status) then NothingLeft
    else if j.job.status == Interrupted(Conflicted) then ClaimRefused(NeedsFreshPreview)
    else if j.job.leaseUntil > now then ClaimRefused(Busy)
    else if j.job.retryAt > now then ClaimRefused(RetryLater)
    else if j.job.profileVersion != liveProfile then ClaimRefused(ProfileUnavailable)
    else
      match FirstOpen(j.steps)
      case None => ClaimRefused(Incomplete)
      case Some(k) => Claimed(k, Ambiguous(j.steps[k].status) && j.steps[k].sent)
  }

  function AfterClaim(j: Journal, expected: nat, now: int, owner: WorkerId, liveProfile: nat): Journal {
    if ClaimResult(j, expected, now, liveProfile).Claimed? then
      j.(job := j.job.(status := Running, leaseOwner := Some(owner), leaseUntil := now + LEASE_SECONDS,
                       revision := j.job.revision + 1))
    else j
  }

  predicate MaySend(j: Journal, owner: WorkerId, now: int) {
    j.job.leaseOwner == Some(owner) && j.job.leaseUntil > now
  }

  function AfterSent(j: Journal, ordinal: nat): Journal
    requires ordinal < |j.steps|
  {
    var step := j.steps[ordinal];
    j.(steps := j.steps[ordinal := step.(status := Inflight, sent := true, attempts := step.attempts + 1, error := None)])
  }

  predicate Holds(j: Journal, owner: WorkerId) {
    j.job.leaseOwner == Some(owner)
  }

  function AfterStash(j: Journal, ordinal: nat, result: StepResult): Journal
    requires ordinal < |j.steps|
  {
    j.(steps := j.steps[ordinal := j.steps[ordinal].(result := result)])
  }

  function JobStatusAfter(status: StepStatus, steps: seq<Step>): JobStatus {
    if Done(status) then (if AllDone(steps) then Completed else Waiting) else Interrupted(status)
  }

  function AfterFinish(j: Journal, ordinal: nat, status: StepStatus, result: StepResult, error: Option<ErrorCode>,
                       retryAt: int): Journal
    requires ordinal < |j.steps|
  {
    var steps := j.steps[ordinal := j.steps[ordinal].(status := status, result := result, error := error)];
    var state := JobStatusAfter(status, steps);
    Journal(j.job.(status := state, active := state != Completed, revision := j.job.revision + 1,
                   leaseOwner := None, leaseUntil := 0, retryAt := retryAt), steps)
  }

  /** The unique index on active jobs refuses a late result that would make a second job of the destination active. */
  predicate MayFinish(j: Journal, owner: WorkerId, ordinal: nat, status: StepStatus, rival: bool)
    requires ordinal < |j.steps|
  {
    Holds(j, owner) && (rival ==> !AfterFinish(j, ordinal, status, NoResult, None, 0).job.active)
  }

  datatype ControlAction = Pause | Abandon

  predicate HasUnresolved(steps: seq<Step>) {
    exists i :: 0 <= i < |steps| && steps[i].sent && !Done(steps[i].status) && steps[i].status !in {Failed, Conflicted}
  }

  function ControlRefusal(j: Journal, expected: nat, now: int, action: ControlAction): Option<Refusal> {
    if j.job.revision != expected then Some(StaleRevision)
    else if j.job.leaseUntil > now then Some(Busy)
    else if Terminal(j.job.status) then Some(AlreadyFinished)
    else if action == Abandon && HasUnresolved(j.steps) then Some(UnresolvedWrite)
    else None
  }

  /** The lease owner is left in place, as in the source. */
  function AfterControl(j: Journal, expected: nat, now: int, action: ControlAction): Journal {
    if ControlRefusal(j, expected, now, action).Some? then j
    else j.(job := j.job.(status := if action == Abandon then Abandoned else Paused,
                          active := action != Abandon, revision := j.job.revision + 1))
  }

  predicate ReviewOpen(j: Journal, expected: nat, now: int) {
    j.job.revision == expected && j.job.leaseUntil <= now && !Terminal(j.job.status)
  }

  predicate ReviewCurrent(j: Journal, expected: nat, now: int) {
    j.job.revision == expected && j.job.leaseUntil <= now
  }

  function ResetStep(step: Step): Step {
    if step.error == Some(ProfileChanged) && step.status == Conflicted then step.(status := Pending, sent := false)
    else step
  }

  function AfterRevalidate(j: Journal, profileVersion: nat): Journal {
    Journal(j.job.(profileVersion := profileVersion, status := Paused, revision := j.job.revision + 1),
            seq(|j.steps|, i requires 0 <= i < |j.steps| => ResetStep(j.steps[i])))
  }

  /** The operator either names the marked remote page or confirms that the write was not applied. */
  function AfterResolve(j: Journal, ordinal: nat, page: Option<RemoteId>): Journal
    requires ordinal < |j.steps|
  {
    var step := j.steps[ordinal];
    var result := if page.Some? then NoResult.(id := page) else NoResult;
    Journal(j.job.(status := Paused, revision := j.job.revision + 1),
            j.steps[ordinal := step.(result := result, status := if page.Some? then Uncertain else Pending,
                                     sent := page.Some?, error := None)])
  }

  // ------------------------------------------------------------------ step order

  function PageSteps(n: nat): (r: seq<Step>)
    ensures |r| == n
    ensures forall i :: 0 <= i < n ==> r[i] == Step(PageStep(i), Pending, false, 0, NoResult, None)
  {
    seq(n, (i: nat) => Step(PageStep(i), Pending, false, 0, NoResult, None))
  }

  function AssetStepsOf(host: nat, n: nat): seq<Step> {
    seq(n, (i: nat) => Step(AssetStep(host, i), Pending, false, 0, NoResult, None))
  }

  function AssetSteps(pages: seq<PagePlan>, from: nat): seq<Step>
    requires from <= |pages|
    decreases |pages| - from
  {
    if from == |pages| then [] else AssetStepsOf(from, |pages[from].assets|) + AssetSteps(pages, from + 1)
  }

  function VerifySteps(n: nat): seq<Step> {
    seq(n, (i: nat) => Step(VerifyStep(i), Pending, false, 0, NoResult, None))
  }

  function InitialSteps(pages: seq<PagePlan>): seq<Step> {
    PageSteps(|pages|) + AssetSteps(pages, 0) + VerifySteps(|pages|)
    + [Step(AudienceStep, Pending, false, 0, NoResult, None)]
  }

  function Fresh(plan: Plan, profileVersion: nat): Journal {
    Journal(Job(Waiting, true, 1, None, 0, 0, profileVersion), InitialSteps(plan.pages))
  }

  /** Step kinds match the plan: page steps come first, in page order. */
  predicate WellKinded(plan: Plan, steps: seq<Step>) {
    && |plan.pages| < |steps|
    && (forall i :: 0 <= i < |plan.pages| ==> steps[i].kind == PageStep(i))
    && (forall i :: |plan.pages| <= i < |steps| ==> !steps[i].kind.PageStep?)
    && (forall i :: 0 <= i < |steps| ==> KindFits(plan, steps[i].kind))
  }

  predicate KindFits(plan: Plan, kind: StepKind) {
    match kind
    case PageStep(p) => p < |plan.pages|
    case AssetStep(p, a) => p < |plan.pages| && a < |plan.pages[p].assets|
    case VerifyStep(p) => p < |plan.pages|
    case AudienceStep => true
  }

  lemma {:induction false} AssetStepsFit(plan: Plan, from: nat)
    requires from <= |plan.pages|
    ensures forall i :: 0 <= i < |AssetSteps(plan.pages, from)| ==>
              var step := AssetSteps(plan.pages, from)[i];
              step.kind.AssetStep? && KindFits(plan, step.kind) && step.status == Pending && !step.sent
    decreases |plan.pages| - from
  {
    if from < |plan.pages| {
      AssetStepsFit(plan, from + 1);
    }
  }

  /** The steps written by start: pages in plan order, then assets, checks and the audience step, all pending. */
  lemma {:induction false} InitialStepsFit(plan: Plan)
    ensures WellKinded(plan, InitialSteps(plan.pages))
    ensures forall i :: 0 <= i < |InitialSteps(plan.pages)| ==>
              InitialSteps(plan.pages)[i].status == Pending && !InitialSteps(plan.pages)[i].sent
    ensures InitialSteps(plan.pages)[|InitialSteps(plan.pages)| - 1].kind == AudienceStep
  {
    AssetStepsFit(plan, 0);
    var n := |plan.pages|;
    var assets := AssetSteps(plan.pages, 0);
    var steps := InitialSteps(plan.pages);
    forall i | 0 <= i < |steps|
      ensures KindFits(plan, steps[i].kind) && steps[i].status == Pending && !steps[i].sent
      ensures i < n ==> steps[i].kind == PageStep(i)
      ensures n <= i ==> !steps[i].kind.PageStep?
    {
      if i < n {
        assert steps[i] == PageSteps(n)[i];
      } else if i < n + |assets| {
        assert steps[i] == assets[i - n];
      } else if i < n + |assets| + n {
        assert steps[i] == VerifySteps(n)[i - n - |assets|];
      }
    }
  }

  // ------------------------------------------------------------------ what every transaction keeps

  predicate DonePrefix(steps: seq<Step>) {
    forall i, j :: 0 <= i < j < |steps| && Done(steps[j].status) ==> Done(steps[i].status)
  }

  /**
    The job is active until it is completed or abandoned, and completed exactly when every step is done;
    steps are done in order; and the lease owner is on the first step that is not done. claims names the
    step that each claim handed out.
   */
  predicate Consistent(plan: Plan, j: Journal, claims: map<WorkerId, nat>) {
    && WellKinded(plan, j.steps)
    && DonePrefix(j.steps)
    && (j.job.status == Completed <==> AllDone(j.steps))
    && (j.job.active <==> !Terminal(j.job.status))
    && (j.job.leaseOwner.Some? ==>
          j.job.leaseOwner.value in claims && IsFirstOpen(j.steps, claims[j.job.leaseOwner.value]))
  }

  lemma FreshConsistent(plan: Plan, profileVersion: nat)
    ensures Consistent(plan, Fresh(plan, profileVersion), map[])
  {
    InitialStepsFit(plan);
    assert !Done(InitialSteps(plan.pages)[0].status);
  }

  lemma ClaimConsistent(plan: Plan, j: Journal, claims: map<WorkerId, nat>, expected: nat, now: int, owner: WorkerId, liveProfile: nat)
    requires Consistent(plan, j, claims)
    ensures var outcome := ClaimResult(j, expected, now, liveProfile);
            outcome != ClaimRefused(Incomplete)
            && Consistent(plan, AfterClaim(j, expected, now, owner, liveProfile),
                          if outcome.Claimed? then claims[owner := outcome.ordinal] else claims)
  {
  }

  /** A step that is not done changes within the statuses that are not done. */
  lemma OpenStepConsistent(plan: Plan, j: Journal, claims: map<WorkerId, nat>, k: nat, step: Step, job: Job)
    requires Consistent(plan, j, claims) && k < |j.steps| && !Done(j.steps[k].status) && !Done(step.status)
    requires step.kind == j.steps[k].kind && job.leaseOwner in {j.job.leaseOwner, None}
    requires job.status != Completed && (job.active <==> !Terminal(job.status))
    ensures Consistent(plan, Journal(job, j.steps[k := step]), claims)
  {
    var steps := j.steps[k := step];
    assert forall i :: 0 <= i < |steps| ==> Done(steps[i].status) == Done(j.steps[i].status);
    assert !AllDone(steps);
  }

  lemma FinishConsistent(plan: Plan, j: Journal, claims: map<WorkerId, nat>, k: nat, status: StepStatus, result: StepResult,
                         error: Option<ErrorCode>, retryAt: int)
    requires Consistent(plan, j, claims) && IsFirstOpen(j.steps, k)
    ensures Consistent(plan, AfterFinish(j, k, status, result, error, retryAt), claims)
    ensures AfterFinish(j, k, status, result, error, retryAt).job.status == AfterFinish(j, k, status, NoResult, None, 0).job.status
  {
    var t, u := AfterFinish(j, k, status, result, error, retryAt), AfterFinish(j, k, status, NoResult, None, 0);
    assert forall i :: 0 <= i < |t.steps| ==> t.steps[i].status == u.steps[i].status;
    assert forall i :: 0 <= i < |t.steps| && i != k ==> t.steps[i] == j.steps[i];
    assert t.steps[k].status == status;
  }

  lemma RevalidateConsistent(plan: Plan, j: Journal, claims: map<WorkerId, nat>, profileVersion: nat)
    requires Consistent(plan, j, claims) && !Terminal(j.job.status)
    ensures Consistent(plan, AfterRevalidate(j, profileVersion), claims)
  {
    var t := AfterRevalidate(j, profileVersion);
    assert forall i :: 0 <= i < |t.steps| ==> t.steps[i].kind == j.steps[i].kind && Done(t.steps[i].status) == Done(j.steps[i].status);
    var k :| 0 <= k < |j.steps| && !Done(j.steps[k].status);
    assert !Done(t.steps[k].status);
  }

  // ------------------------------------------------------------------ the stored rows

  /** SELECT COUNT(*) over the steps that are not done. */
  method CountOpen(steps: seq<Step>) returns (remaining: nat)
    ensures remaining == 0 <==> AllDone(steps)
  {
    remaining := 0;
    for i := 0 to |steps|
      invariant remaining == 0 <==> forall k :: 0 <= k < i ==> Done(steps[k].status)
    {
      if !Done(steps[i].status) { remaining := remaining + 1; }
    }
  }

  method ResetSteps(rows: seq<Step>) returns (steps: seq<Step>)
    ensures steps == seq(|rows|, i requires 0 <= i < |rows| => ResetStep(rows[i]))
  {
    steps := rows;
    for i := 0 to |rows|
      invariant |steps| == |rows|
      invariant forall k :: 0 <= k < i ==> steps[k] == ResetStep(rows[k])
      invariant forall k :: i <= k < |rows| ==> steps[k] == rows[k]
    {
      if steps[i].error == Some(ProfileChanged) && steps[i].status == Conflicted {
        steps := steps[i := steps[i].(status := Pending, sent := false)];
      }
    }
  }

  /** The job row and the step rows of one publication, updated in place by each transaction. */
  class JournalStore {
    var job: Job
    var steps: seq<Step>
    ghost const plan: Plan
    ghost var claims: map<WorkerId, nat>

    ghost function Value(): Journal
      reads this
    {
      Journal(job, steps)
    }

    ghost predicate Valid()
      reads this
    {
      Consistent(plan, Value(), claims)
    }

    /** The worker works on the step that its own claim returned. */
    ghost predicate Claimant(owner: WorkerId, ordinal: nat)
      reads this
    {
      owner in claims && claims[owner] == ordinal && ordinal < |steps|
    }

    /** start writes the steps of a fresh job in order. */
    constructor (plan: Plan, profileVersion: nat)
      ensures Valid() && this.plan == plan && Value() == Fresh(plan, profileVersion)
    {
      job := Job(Waiting, true, 1, None, 0, 0, profileVersion);
      steps := [];
      this.plan, claims := plan, map[];
      new;
      FreshConsistent(plan, profileVersion);
      var pages := plan.pages;
      for i := 0 to |pages|
        invariant job == Job(Waiting, true, 1, None, 0, 0, profileVersion) && claims == map[]
        invariant steps == PageSteps(i)
      {
        steps := steps + [Step(PageStep(i), Pending, false, 0, NoResult, None)];
      }
      for i := 0 to |pages|
        invariant job == Job(Waiting, true, 1, None, 0, 0, profileVersion) && claims == map[]
        invariant steps + AssetSteps(pages, i) == PageSteps(|pages|) + AssetSteps(pages, 0)
      {
        ghost var before := steps;
        for a := 0 to |pages[i].assets|
          invariant job == Job(Waiting, true, 1, None, 0, 0, profileVersion) && claims == map[]
          invariant steps == before + AssetStepsOf(i, a)
        {
          steps := steps + [Step(AssetStep(i, a), Pending, false, 0, NoResult, None)];
        }
        assert before + (AssetStepsOf(i, |pages[i].assets|) + AssetSteps(pages, i + 1)) == steps + AssetSteps(pages, i + 1);
      }
      ghost var before := steps;
      for i := 0 to |pages|
        invariant job == Job(Waiting, true, 1, None, 0, 0, profileVersion) && claims == map[]
        invariant steps == before + VerifySteps(i)
      {
        steps := steps + [Step(VerifyStep(i), Pending, false, 0, NoResult, None)];
      }
      steps := steps + [Step(AudienceStep, Pending, false, 0, NoResult, None)];
    }

    /** owner is a fresh name. The journal always has an open step to hand out. */
    method Claim(expected: nat, now: int, owner: WorkerId, liveProfile: nat) returns (outcome: ClaimOutcome)
      requires Valid() && owner !in claims
      modifies this
      ensures Valid() && outcome != ClaimRefused(Incomplete)
      ensures outcome.Claimed? ==> Holds(Value(), owner) && Claimant(owner, outcome.ordinal) && IsFirstOpen(steps, outcome.ordinal)
      ensures outcome == ClaimResult(old(Value()), expected, now, liveProfile)
      ensures Value() == AfterClaim(old(Value()), expected, now, owner, liveProfile)
    {
      ClaimConsistent(plan, Value(), claims, expected, now, owner, liveProfile);
      if job.revision != expected { return ClaimRefused(StaleRevision); }
      if Terminal(job.status) { return NothingLeft; }
      if job.status == Interrupted(Conflicted) { return ClaimRefused(NeedsFreshPreview); }
      if job.leaseUntil > now { return ClaimRefused(Busy); }
      if job.retryAt > now { return ClaimRefused(RetryLater); }
      if job.profileVersion != liveProfile { return ClaimRefused(ProfileUnavailable); }
      var k := 0;
      while k < |steps| && Done(steps[k].status)
        invariant 0 <= k <= |steps|
        invariant forall i :: 0 <= i < k ==> Done(steps[i].status)
      {
        k := k + 1;
      }
      if k == |steps| { return ClaimRefused(Incomplete); }
      assert IsFirstOpen(steps, k);
      FirstOpenUnique(steps, k);
      var recover := Ambiguous(steps[k].status) && steps[k].sent;
      job := job.(status := Running, leaseOwner := Some(owner), leaseUntil := now + LEASE_SECONDS,
                  revision := job.revision + 1);
      claims := claims[owner := k];
      return Claimed(k, recover);
    }

    method Sent(ordinal: nat, owner: WorkerId, now: int) returns (ok: bool)
      requires Valid() && Claimant(owner, ordinal)
      modifies this`steps
      ensures Valid()
      ensures ok == MaySend(old(Value()), owner, now)
      ensures Value() == if ok then AfterSent(old(Value()), ordinal) else old(Value())
    {
      ok := job.leaseOwner == Some(owner) && now < job.leaseUntil;
      if ok {
        var row := steps[ordinal];
        OpenStepConsistent(plan, Value(), claims, ordinal, AfterSent(Value(), ordinal).steps[ordinal], job);
        steps := steps[ordinal := row.(status := Inflight, sent := true, attempts := row.attempts + 1, error := None)];
      }
    }

    method Stash(ordinal: nat, owner: WorkerId, result: StepResult) returns (ok: bool)
      requires Valid() && Claimant(owner, ordinal)
      modifies this`steps
      ensures Valid()
      ensures ok == Holds(old(Value()), owner)
      ensures Value() == if ok then AfterStash(old(Value()), ordinal, result) else old(Value())
    {
      ok := job.leaseOwner == Some(owner);
      if ok {
        OpenStepConsistent(plan, Value(), claims, ordinal, steps[ordinal].(result := result), job);
        steps := steps[ordinal := steps[ordinal].(result := result)];
      }
    }

    method Finish(ordinal: nat, owner: WorkerId, status: StepStatus, result: StepResult, error: Option<ErrorCode>,
                  retryAt: int, rival: bool)
      returns (ok: bool)
      requires Valid() && Claimant(owner, ordinal)
      modifies this`job, this`steps
      ensures Valid()
      ensures ok == MayFinish(old(Value()), owner, ordinal, status, rival)
      ensures Value() == if ok then AfterFinish(old(Value()), ordinal, status, result, error, retryAt) else old(Value())
    {
      if job.leaseOwner != Some(owner) { return false; }
      FinishConsistent(plan, Value(), claims, ordinal, status, result, error, retryAt);
      var rows := steps;
      steps := steps[ordinal := steps[ordinal].(status := status, result := result, error := error)];
      var remaining := CountOpen(steps);
      var state := if Done(status) then (if remaining == 0 then Completed else Waiting) else Interrupted(status);
      if state != Completed && rival {
        steps := rows;
        return false;
      }
      job := job.(status := state, active := state != Completed, revision := job.revision + 1,
                  leaseOwner := None, leaseUntil := 0, retryAt := retryAt);
      return true;
    }

    method Control(expected: nat, now: int, action: ControlAction) returns (refusal: Option<Refusal>)
      requires Valid()
      modifies this`job
      ensures Valid()
      ensures refusal == ControlRefusal(old(Value()), expected, now, action)
      ensures Value() == AfterControl(old(Value()), expected, now, action)
    {
      if job.revision != expected { return Some(StaleRevision); }
      if job.leaseUntil > now { return Some(Busy); }
      if Terminal(job.status) { return Some(AlreadyFinished); }
      var unresolved := false;
      for i := 0 to |steps|
        invariant unresolved <==> HasUnresolved(steps[..i])
      {
        var row := steps[i];
        unresolved := unresolved || (row.sent && !Done(row.status) && row.status !in {Failed, Conflicted});
        assert steps[..i + 1] == steps[..i] + [row];
      }
      assert steps[..|steps|] == steps;
      if action == Abandon && unresolved { return Some(UnresolvedWrite); }
      job := job.(status := if action == Abandon then Abandoned else Paused, active := action != Abandon,
                  revision := job.revision + 1);
      return None;
    }

    /** Second transaction of revalidate. The first one only reads; it found the job unfinished at the expected revision. */
    method Revalidate(expected: nat, now: int, profileVersion: nat, liveProfile: nat) returns (ok: bool)
      requires Valid() && (ReviewCurrent(Value(), expected, now) ==> ReviewOpen(Value(), expected, now))
      modifies this`job, this`steps
      ensures Valid()
      ensures ok == (ReviewCurrent(old(Value()), expected, now) && liveProfile == profileVersion)
      ensures Value() == if ok then AfterRevalidate(old(Value()), profileVersion) else old(Value())
    {
      if job.revision != expected || job.leaseUntil > now || liveProfile != profileVersion { return false; }
      RevalidateConsistent(plan, Value(), claims, profileVersion);
      job := job.(profileVersion := profileVersion, status := Paused, revision := job.revision + 1);
      steps := ResetSteps(steps);
      assert Value() == AfterRevalidate(old(Value()), profileVersion);
      return true;
    }

    /** First transaction of resolve: it only selects the step to be decided. */
    method Unresolved(expected: nat, now: int) returns (ordinal: Option<nat>)
      ensures ordinal == if ReviewOpen(Value(), expected, now) then FirstAmbiguous(steps) else None
    {
      if job.revision != expected || job.leaseUntil > now || Terminal(job.status) { return None; }
      var k := 0;
      while k < |steps| && !Ambiguous(steps[k].status)
        invariant 0 <= k <= |steps|
        invariant forall i :: 0 <= i < k ==> !Ambiguous(steps[i].status)
      {
        k := k + 1;
      }
      if k == |steps| { return None; }
      assert IsFirstAmbiguous(steps, k);
      FirstAmbiguousUnique(steps, k);
      return Some(k);
    }

    /** Second transaction of resolve, for the step that Unresolved answered at the expected revision. */
    method Resolve(expected: nat, now: int, ordinal: nat, page: Option<RemoteId>) returns (ok: bool)
      requires Valid() && ordinal < |steps|
      requires ReviewCurrent(Value(), expected, now) ==> ReviewOpen(Value(), expected, now) && FirstAmbiguous(steps) == Some(ordinal)
      modifies this`job, this`steps
      ensures Valid()
      ensures ok == ReviewCurrent(old(Value()), expected, now)
      ensures Value() == if ok then AfterResolve(old(Value()), ordinal, page) else old(Value())
    {
      if job.revision != expected || job.leaseUntil > now { return false; }
      OpenStepConsistent(plan, Value(), claims, ordinal, AfterResolve(Value(), ordinal, page).steps[ordinal],
                         AfterResolve(Value(), ordinal, page).job);
      var result := if page.Some? then NoResult.(id := page) else NoResult;
      steps := steps[ordinal := steps[ordinal].(result := result, status := if page.Some? then Uncertain else Pending,
                                                sent := page.Some?, error := None)];
      job := job.(status := Paused, revision := job.revision + 1);
      return true;
    }
  }

  lemma FirstOpenUnique(steps: seq<Step>, k: nat)
    requires IsFirstOpen(steps, k)
    ensures FirstOpen(steps) == Some(k)
  {
    assert !AllDone(steps);
    var r := FirstOpen(steps).value;
    assert !(r < k) && !(k < r);
  }

  lemma FirstAmbiguousUnique(steps: seq<Step>, k: nat)
    requires IsFirstAmbiguous(steps, k)
    ensures FirstAmbiguous(steps) == Some(k)
  {
    assert FirstAmbiguous(steps).Some?;
    var r := FirstAmbiguous(steps).value;
    assert !(r < k) && !(k < r);
  }
}
