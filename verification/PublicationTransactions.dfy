/**
  What each transaction of the journal accepts and writes, and what follows over runs: a lease excludes
  everybody else until it expires or is handed back, and a revision that is read is a version of the job.
 */
module PublicationTransactions {
  import opened Basics
  import opened PublicationJournal
  import opened PublicationSystem
  import opened PublicationLease
  import opened PublicationDecisions
  import opened PublicationFidelity

  // ------------------------------------------------------------------ the steps of a fresh job

  predicate OfAsset(step: Step, host: nat, asset: nat) {
    step.kind == AssetStep(host, asset)
  }

  lemma {:induction false} AssetStepsCover(pages: seq<PagePlan>, from: nat, host: nat, asset: nat) returns (i: nat)
    requires from <= host < |pages| && asset < |pages[host].assets|
    ensures i < |AssetSteps(pages, from)| && OfAsset(AssetSteps(pages, from)[i], host, asset)
    ensures forall j :: 0 <= j < |AssetSteps(pages, from)| && OfAsset(AssetSteps(pages, from)[j], host, asset) ==> j == i
    decreases |pages| - from
  {
    var own, rest := AssetStepsOf(from, |pages[from].assets|), AssetSteps(pages, from + 1);
    assert forall j :: 0 <= j < |rest| ==> AssetSteps(pages, from)[|own| + j] == rest[j];
    assert forall j :: 0 <= j < |own| ==> AssetSteps(pages, from)[j] == own[j];
    if from == host {
      i := asset;
      HostsFollow(pages, from + 1);
      forall j | 0 <= j < |AssetSteps(pages, from)| && OfAsset(AssetSteps(pages, from)[j], host, asset)
        ensures j == i
      {
        assert j < |own|;
      }
    } else {
      var k := AssetStepsCover(pages, from + 1, host, asset);
      i := |own| + k;
      forall j | 0 <= j < |AssetSteps(pages, from)| && OfAsset(AssetSteps(pages, from)[j], host, asset)
        ensures j == i
      {
        assert j >= |own| ==> AssetSteps(pages, from)[j] == rest[j - |own|];
      }
    }
  }

  lemma {:induction false} HostsFollow(pages: seq<PagePlan>, from: nat)
    requires from <= |pages|
    ensures forall j :: 0 <= j < |AssetSteps(pages, from)| ==>
              AssetSteps(pages, from)[j].kind.AssetStep? && from <= AssetSteps(pages, from)[j].kind.host
    decreases |pages| - from
  {
    if from < |pages| { HostsFollow(pages, from + 1); }
  }

  /** Every part of the plan has exactly one step, in the order pages, attachments, checks, audience. */
  lemma EveryPartHasOneStep(plan: Plan, kind: StepKind) returns (i: nat)
    requires KindFits(plan, kind)
    ensures var steps := InitialSteps(plan.pages);
            && i < |steps| && steps[i].kind == kind && (forall j :: 0 <= j < |steps| && steps[j].kind == kind ==> j == i)
            && (kind.PageStep? ==> i < |plan.pages|)
            && (kind.AssetStep? ==> |plan.pages| <= i < |steps| - 1 - |plan.pages|)
            && (kind.VerifyStep? ==> |steps| - 1 - |plan.pages| <= i < |steps| - 1)
            && (kind.AudienceStep? ==> i == |steps| - 1)
  {
    var pages := plan.pages;
    var n, assets, steps := |pages|, AssetSteps(pages, 0), InitialSteps(pages);
    HostsFollow(pages, 0);
    assert forall j :: 0 <= j < n ==> steps[j] == PageSteps(n)[j];
    assert forall j :: n <= j < n + |assets| ==> steps[j] == assets[j - n];
    assert forall j :: n + |assets| <= j < n + |assets| + n ==> steps[j] == VerifySteps(n)[j - n - |assets|];
    match kind
    case PageStep(p) => i := p;
    case AssetStep(p, a) =>
      var k := AssetStepsCover(pages, 0, p, a);
      i := n + k;
      forall j | 0 <= j < |steps| && steps[j].kind == kind ensures j == i {
        assert n <= j < n + |assets| && OfAsset(assets[j - n], p, a);
      }
    case VerifyStep(p) => i := n + |assets| + p;
    case AudienceStep => i := |steps| - 1;
  }

  // ------------------------------------------------------------------ acceptance and effect

  /** The row of the job apart from these fields is unchanged. */
  predicate OnlyStep(j: Journal, j': Journal, k: nat) {
    && j'.job == j.job && |j'.steps| == |j.steps| && k < |j.steps|
    && forall i :: 0 <= i < |j.steps| && i != k ==> j'.steps[i] == j.steps[i]
  }

  /**
    A claim is accepted exactly for an unfinished job without conflict, at the expected revision, with no lease, no
    retry delay, and the connection as planned. It hands out the first open step, and recovers it exactly when its
    write may have happened.
   */
  lemma ClaimAcceptedIff(plan: Plan, j: Journal, claims: map<WorkerId, nat>, expected: nat, now: int, owner: WorkerId, live: nat)
    requires Consistent(plan, j, claims)
    ensures var outcome, j' := ClaimResult(j, expected, now, live), AfterClaim(j, expected, now, owner, live);
            && (outcome.Claimed? <==>
                  && j.job.revision == expected && j.job.status !in {Completed, Abandoned, Interrupted(Conflicted)}
                  && j.job.leaseUntil <= now && j.job.retryAt <= now && j.job.profileVersion == live)
            && (!outcome.Claimed? ==> j' == j)
            && (outcome.Claimed? ==>
                  && outcome.ordinal < |j.steps| && !Done(j.steps[outcome.ordinal].status)
                  && (forall i :: 0 <= i < outcome.ordinal ==> Done(j.steps[i].status))
                  && (outcome.recover <==> j.steps[outcome.ordinal].status in {Inflight, Uncertain} && j.steps[outcome.ordinal].sent)
                  && j'.steps == j.steps && j'.job.leaseOwner == Some(owner) && j'.job.leaseUntil == now + 180
                  && j'.job.status == Running && j'.job.revision == j.job.revision + 1 && j'.job.active == j.job.active
                  && j'.job.retryAt == j.job.retryAt && j'.job.profileVersion == j.job.profileVersion)
  {
    assert j.job.status != Completed ==> !AllDone(j.steps);
  }

  /** A worker marks its send only with an unexpired lease of its own; only its own step changes. */
  lemma SentEffect(s: Sys, id: WorkerId)
    requires Inv(s) && id < |s.workers|
    ensures var t, o := SentEvent(s, id), s.workers[id].ordinal;
            && (|t.sends| == |s.sends| + 1 <==>
                  && s.workers[id].pc == PreSend && WriteOf(s, s.workers[id]).Some?
                  && s.journal.job.leaseOwner == Some(id) && s.now < s.journal.job.leaseUntil)
            && (|t.sends| != |s.sends| + 1 ==> t.sends == s.sends && t.journal == s.journal && t.log == s.log)
            && (|t.sends| == |s.sends| + 1 ==>
                  && OnlyStep(s.journal, t.journal, o) && t.journal.steps[o].sent && t.journal.steps[o].status == Inflight
                  && t.journal.steps[o].attempts == s.journal.steps[o].attempts + 1 && t.journal.steps[o].error.None?
                  && t.journal.steps[o].kind == s.journal.steps[o].kind && t.journal.steps[o].result == s.journal.steps[o].result)
  {
  }

  /** A worker stores a known id only while it owns the lease, expired or not; only the result of its own step changes. */
  lemma StashEffect(s: Sys, id: WorkerId)
    requires Inv(s) && id < |s.workers|
    ensures var t, w := StashEvent(s, id), s.workers[id];
            && (Stashing(w.pc) && s.journal.job.leaseOwner == Some(id) ==>
                  && OnlyStep(s.journal, t.journal, w.ordinal)
                  && t.journal.steps[w.ordinal] == s.journal.steps[w.ordinal].(result := t.journal.steps[w.ordinal].result)
                  && (w.pc.GotId? ==> t.journal.steps[w.ordinal].result == StepResult(Some(w.pc.pageId), 0, None, "", false)
                                      && t.workers[id].pc == Confirm(w.pc.pageId))
                  && t.workers[id].result == t.journal.steps[w.ordinal].result)
            && (!Stashing(w.pc) || s.journal.job.leaseOwner != Some(id) ==> t.journal == s.journal)
  {
  }

  /**
    A report is accepted from the lease owner alone, unless another job now reserves the destination and this one
    would stay active. The step takes the reported status and result, the lease is handed back, and the job is
    completed exactly when this was the last open step.
   */
  lemma FinishEffect(s: Sys, id: WorkerId)
    requires Inv(s) && id < |s.workers| && s.workers[id].pc.Closed?
    ensures var t, o, c := FinishEvent(s, id), s.workers[id].ordinal, s.workers[id].pc.closing;
            var last := Done(c.status) && forall i :: o < i < |s.journal.steps| ==> Done(s.journal.steps[i].status);
            && (t.journal != s.journal <==> s.journal.job.leaseOwner == Some(id) && (s.rival ==> last))
            && (t.journal != s.journal ==>
                  && t.journal.steps == s.journal.steps[o := s.journal.steps[o].(status := c.status, result := c.result, error := c.error)]
                  && t.journal.job.status == (if last then Completed else if Done(c.status) then Waiting else Interrupted(c.status))
                  && t.journal.job.active == !last && t.journal.job.revision == s.journal.job.revision + 1
                  && t.journal.job.leaseOwner.None? && t.journal.job.leaseUntil == 0 && t.journal.job.retryAt == c.retryAt
                  && t.journal.job.profileVersion == s.journal.job.profileVersion)
  {
    var o, c := s.workers[id].ordinal, s.workers[id].pc.closing;
    if s.journal.job.leaseOwner == Some(id) {
      assert IsFirstOpen(s.journal.steps, o);
      LastOpen(s.journal.steps, o, c.status, c.result, c.error);
      LastOpen(s.journal.steps, o, c.status, NoResult, None);
    }
  }

  lemma LastOpen(steps: seq<Step>, o: nat, status: StepStatus, result: StepResult, error: Option<ErrorCode>)
    requires IsFirstOpen(steps, o)
    ensures AllDone(steps[o := steps[o].(status := status, result := result, error := error)])
            <==> Done(status) && forall i :: o < i < |steps| ==> Done(steps[i].status)
  {
    var after := steps[o := steps[o].(status := status, result := result, error := error)];
    assert after[o].status == status && forall i :: 0 <= i < |steps| && i != o ==> after[i] == steps[i];
  }

  lemma OpenStatus(status: StepStatus)
    ensures !Done(status) && status !in {Failed, Conflicted} <==> status in {Pending, Inflight, Uncertain}
  {
    match status {
      case Pending => case Inflight => case Uncertain => case Succeeded => case Skipped => case Kept => case Failed => case Conflicted =>
    }
  }

  /** Pausing and abandoning touch the job alone; abandoning is refused while a write may still have happened. */
  lemma ControlEffect(j: Journal, expected: nat, now: int, action: ControlAction)
    ensures var j' := AfterControl(j, expected, now, action);
            var open := exists i :: 0 <= i < |j.steps| && j.steps[i].sent && j.steps[i].status in {Pending, Inflight, Uncertain};
            && (ControlRefusal(j, expected, now, action).None? <==>
                  && j.job.revision == expected && j.job.leaseUntil <= now && j.job.status !in {Completed, Abandoned}
                  && (action == Abandon ==> !open))
            && (ControlRefusal(j, expected, now, action).Some? ==> j' == j)
            && (ControlRefusal(j, expected, now, action).None? ==>
                  && j'.steps == j.steps && j'.job.status == (if action == Abandon then Abandoned else Paused)
                  && j'.job == j.job.(status := j'.job.status, active := action == Pause, revision := j.job.revision + 1))
  {
    forall i | 0 <= i < |j.steps|
      ensures !Done(j.steps[i].status) && j.steps[i].status !in {Failed, Conflicted} <==> j.steps[i].status in {Pending, Inflight, Uncertain}
    {
      OpenStatus(j.steps[i].status);
    }
  }

  /** Exactly the steps that a changed connection stopped are opened again. */
  lemma RevalidateEffect(s: Sys, op: nat)
    requires Inv(s) && op < |s.operators| && s.operators[op].Revalidating?
    ensures var t, o := RevalidateCommitEvent(s, op), s.operators[op];
            && (t.journal != s.journal <==>
                  s.journal.job.revision == o.expected && s.journal.job.leaseUntil <= s.now && s.profile == o.newProfile)
            && (t.journal != s.journal ==>
                  && t.journal.job == s.journal.job.(status := Paused, profileVersion := o.newProfile, revision := o.expected + 1)
                  && |t.journal.steps| == |s.journal.steps|
                  && forall i :: 0 <= i < |s.journal.steps| ==>
                       var step := s.journal.steps[i];
                       t.journal.steps[i] == (if step.status == Conflicted && step.error == Some(ProfileChanged)
                                              then step.(status := Pending, sent := false) else step))
  {
  }

  /** A resolved step either takes the named page, to be confirmed by recovery, or is open and unsent again. */
  lemma ResolveEffect(s: Sys, op: nat)
    requires Inv(s) && op < |s.operators| && s.operators[op].Resolving? && s.operators[op].checked
    requires s.operators[op].ordinal < |s.journal.steps|
    ensures var t, o := ResolveCommitEvent(s, op), s.operators[op];
            && (t.journal != s.journal <==> s.journal.job.revision == o.expected && s.journal.job.leaseUntil <= s.now)
            && (t.journal != s.journal ==>
                  && t.journal.job == s.journal.job.(status := Paused, revision := o.expected + 1)
                  && t.journal.steps == s.journal.steps[o.ordinal := t.journal.steps[o.ordinal]]
                  && t.journal.steps[o.ordinal].kind == s.journal.steps[o.ordinal].kind
                  && t.journal.steps[o.ordinal].result == StepResult(o.page, 0, None, "", false)
                  && t.journal.steps[o.ordinal].status == (if o.page.Some? then Uncertain else Pending)
                  && t.journal.steps[o.ordinal].sent == o.page.Some?)
  {
  }

  /** The operator may confirm that nothing was applied only where nothing is visible, and name only a marked page. */
  lemma ResolveNeedsEvidence(s: Sys, op: nat)
    requires Inv(s) && op < |s.operators| && s.operators[op].Resolving? && !s.operators[op].checked
    requires ResolveCheckEvent(s, op) != s
    ensures var o := s.operators[op];
            && o.ordinal < |s.journal.steps|
            && var kind := s.journal.steps[o.ordinal].kind;
               && (o.page.Some? ==>
                     && kind.PageStep? && Visible(s.remote, o.page.value)
                     && (s.plan.pages[kind.page].remoteId.Some? ==> s.plan.pages[kind.page].remoteId == o.page)
                     && o.ordinal in Latest(s.remote.pages[o.page.value]).body.ops
                     && s.plan.pages[kind.page].ownership in Latest(s.remote.pages[o.page.value]).body.owners)
               && (o.page.None? ==>
                     && (kind.PageStep? || kind.AssetStep?)
                     && (kind.PageStep? ==>
                           && s.plan.pages[kind.page].remoteId.None?
                           && forall id :: Visible(s.remote, id) ==> Latest(s.remote.pages[id]).title != s.plan.pages[kind.page].title)
                     && (kind.AssetStep? ==>
                           exists host: StepResult :: FromStep(s, s.plan.pages[kind.host].key, host) && host.id.Some?
                             && (host.id.value, AssetOf(s.plan, kind).filename) !in s.remote.files))
  {
    var o := s.operators[op];
    var kind := s.journal.steps[o.ordinal].kind;
    if o.page.None? && kind.PageStep? {
      var title := s.plan.pages[kind.page].title;
      forall id | Visible(s.remote, id) ensures Latest(s.remote.pages[id]).title != title {
        assert Latest(s.remote.pages[id]).title == title ==> id in TitleMatches(s.remote, title);
      }
    }
    if o.page.None? && kind.AssetStep? {
      StepMapFrom(s, |s.journal.steps|, s.plan.pages[kind.host].key);
    }
  }

  // ------------------------------------------------------------------ runs

  /** Every change of the job is counted by its revision. */
  lemma JobChangesAreCounted(s: Sys, e: Event)
    requires Inv(s)
    ensures var t := Next(s, e);
            t.journal.job == s.journal.job || t.journal.job.revision == s.journal.job.revision + 1
  {
  }

  lemma {:induction false} RevisionsGrow(s: Sys, events: seq<Event>)
    requires Inv(s)
    ensures s.journal.job.revision <= Run(s, events).journal.job.revision
    ensures Run(s, events).journal.job.revision == s.journal.job.revision ==> Run(s, events).journal.job == s.journal.job
    decreases |events|
  {
    if events != [] {
      JobChangesAreCounted(s, events[0]);
      NextKeeps(s, events[0]);
      RevisionsGrow(Next(s, events[0]), events[1..]);
    }
  }

  lemma ClockGoesOn(s: Sys, e: Event)
    requires Inv(s)
    ensures s.now <= Next(s, e).now
  {
  }

  lemma {:induction false} ClockRuns(s: Sys, events: seq<Event>)
    requires Inv(s)
    ensures s.now <= Run(s, events).now
    decreases |events|
  {
    if events != [] {
      ClockGoesOn(s, events[0]);
      NextKeeps(s, events[0]);
      ClockRuns(Next(s, events[0]), events[1..]);
    }
  }

  /** id owns an unexpired lease until then. */
  predicate Leased(s: Sys, id: WorkerId, until: int) {
    s.journal.job.leaseOwner == Some(id) && s.journal.job.leaseUntil == until
  }

  /** While a lease runs, only its owner's report changes the job. */
  lemma LeaseShutsOut(s: Sys, e: Event, id: WorkerId, until: int)
    requires Inv(s) && Leased(s, id, until) && s.now < until
    ensures Next(s, e).journal.job == s.journal.job || (e == FinishStep(id) && Next(s, e).journal.job.leaseOwner.None?)
  {
  }

  lemma {:induction false} NeverOwnsAgain(s: Sys, events: seq<Event>, id: WorkerId)
    requires Inv(s) && id < |s.workers| && !Holds(s.journal, id)
    ensures !Holds(Run(s, events).journal, id)
    decreases |events|
  {
    if events != [] {
      LostLeaseStays(s, events[0], id);
      NextKeeps(s, events[0]);
      NeverOwnsAgain(Next(s, events[0]), events[1..], id);
    }
  }

  /** Nobody else's claim, pause, abandonment or review is accepted. */
  ghost predicate ShutOut(t: Sys) {
    && (forall expected, live :: !ClaimResult(t.journal, expected, t.now, live).Claimed?)
    && (forall expected, action :: ControlRefusal(t.journal, expected, t.now, action).Some?)
    && (forall expected :: !ReviewCurrent(t.journal, expected, t.now))
  }

  /**
    A claim reserves the job until its lease runs out: whatever else happens in the meantime, as long as its worker
    has not reported, the job is as the claim left it, and nobody else gets at it.
   */
  lemma {:induction false} LeaseExcludesOthers(s: Sys, events: seq<Event>, id: WorkerId, until: int)
    requires Inv(s) && Leased(s, id, until) && id < |s.workers|
    ensures Inv(Run(s, events))
    ensures var t := Run(s, events);
            t.now < until && t.journal.job.leaseOwner == Some(id) ==> t.journal.job == s.journal.job && ShutOut(t)
    decreases |events|
  {
    if events != [] {
      var n := Next(s, events[0]);
      NextKeeps(s, events[0]);
      LeaseGoesOn(s, events[0], id, until);
      ClockRuns(n, events[1..]);
      RunKeeps(n, events[1..]);
      var t := Run(n, events[1..]);
      if t.now < until && t.journal.job.leaseOwner == Some(id) {
        if n.journal.job.leaseOwner.None? { NeverOwnsAgain(n, events[1..], id); }
        LeaseExcludesOthers(n, events[1..], id, until);
      }
      assert Run(s, events) == t;
    } else {
      LeaseIsShut(s, id, until);
    }
  }

  lemma LeaseIsShut(s: Sys, id: WorkerId, until: int)
    requires Leased(s, id, until)
    ensures s.now < until ==> ShutOut(s)
  {
  }

  lemma LeaseGoesOn(s: Sys, e: Event, id: WorkerId, until: int)
    requires Inv(s) && Leased(s, id, until) && id < |s.workers|
    ensures id < |Next(s, e).workers| && s.now <= Next(s, e).now
    ensures s.now < until ==> Next(s, e).journal.job == s.journal.job || Next(s, e).journal.job.leaseOwner.None?
  {
    WorkersStay(s, e);
    ClockGoesOn(s, e);
    if s.now < until { LeaseShutsOut(s, e, id, until); }
  }

  lemma WorkersStay(s: Sys, e: Event)
    requires Inv(s)
    ensures |s.workers| <= |Next(s, e).workers|
  {
  }
}
