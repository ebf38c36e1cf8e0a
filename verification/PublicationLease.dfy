/**
  What every step of the protocol keeps about the journal, its lease and its operators, and the
  properties of whole runs that follow: done steps form a prefix, a job is completed exactly when
  all its steps are done and then never changes, a worker that lost its lease changes nothing, and
  a step never finds its parent unconfirmed.
 */
module PublicationLease {
  import opened Basics
  import opened PublicationJournal
  import opened PublicationSystem

  /** render creates a parent before its children. */
  predicate ParentFirst(plan: Plan) {
    forall p :: 0 <= p < |plan.pages| && plan.pages[p].parentKey.Some? ==>
      exists q :: 0 <= q < p && plan.pages[q].key == plan.pages[p].parentKey.value
  }

  ghost predicate LeaseKept(s: Sys) {
    s.journal.job.leaseOwner.Some? ==>
      && s.journal.job.leaseOwner.value < |s.workers|
      && IsFirstOpen(s.journal.steps, s.workers[s.journal.job.leaseOwner.value].ordinal)
  }

  /** What a reviewing operator relies on while the revision is the one it read. */
  ghost predicate ReviewKept(s: Sys, o: Operator) {
    && o.expected <= s.journal.job.revision
    && (o.expected == s.journal.job.revision ==>
          && s.journal.job.leaseUntil <= s.now
          && !Terminal(s.journal.job.status)
          && (o.Resolving? ==> o.ordinal < |s.journal.steps| && Ambiguous(s.journal.steps[o.ordinal].status)))
  }

  predicate HostKnown(plan: Plan, kind: StepKind, parents: map<Key, StepResult>)
    requires KindFits(plan, kind)
  {
    match kind
    case PageStep(p) => plan.pages[p].parentKey.Some? ==> plan.pages[p].parentKey.value in parents
    case AssetStep(p, _) => plan.pages[p].key in parents
    case VerifyStep(p) => plan.pages[p].key in parents
    case AudienceStep => true
  }

  ghost predicate Inv(s: Sys) {
    && Wellformed(s)
    && ParentFirst(s.plan)
    && LeaseKept(s)
    && DonePrefix(s.journal.steps)
    && (s.journal.job.status == Completed <==> AllDone(s.journal.steps))
    && (s.journal.job.status == Abandoned ==> s.journal.job.leaseUntil <= s.now)
    && (forall i :: 0 <= i < |s.operators| ==> ReviewKept(s, s.operators[i]))
    && (forall i :: 0 <= i < |s.workers| ==>
          HostKnown(s.plan, s.journal.steps[s.workers[i].ordinal].kind, s.workers[i].parents))
  }

  lemma {:induction false} StepMapHolds(plan: Plan, steps: seq<Step>, n: nat, i: nat)
    requires n <= |steps| && forall k :: 0 <= k < |steps| ==> KindFits(plan, steps[k].kind)
    requires i < n && steps[i].kind.PageStep? && Done(steps[i].status) && KindFits(plan, steps[i].kind)
    ensures plan.pages[steps[i].kind.page].key in StepMap(plan, steps, n)
  {
    if i < n - 1 {
      StepMapHolds(plan, steps, n - 1, i);
    }
  }

  /** A claimed step finds every page it builds on confirmed, because steps are claimed in order. */
  lemma ClaimedHostKnown(plan: Plan, steps: seq<Step>, k: nat)
    requires WellKinded(plan, steps) && ParentFirst(plan) && IsFirstOpen(steps, k)
    ensures HostKnown(plan, steps[k].kind, StepMap(plan, steps, |steps|))
  {
    match steps[k].kind
    case PageStep(p) =>
      if plan.pages[p].parentKey.Some? {
        var q :| 0 <= q < p && plan.pages[q].key == plan.pages[p].parentKey.value;
        assert steps[p].kind == PageStep(p);
        StepMapHolds(plan, steps, |steps|, q);
      }
    case AssetStep(p, _) => StepMapHolds(plan, steps, |steps|, p);
    case VerifyStep(p) => StepMapHolds(plan, steps, |steps|, p);
    case AudienceStep =>
  }

  lemma InitialInv(s: Sys)
    requires Initial(s) && ParentFirst(s.plan)
    ensures Inv(s)
  {
    InitialStepsFit(s.plan);
    assert !Done(s.journal.steps[0].status);
  }

  lemma ClaimKeeps(s: Sys, expected: nat)
    requires Inv(s)
    ensures Inv(ClaimEvent(s, expected))
  {
    match ClaimResult(s.journal, expected, s.now, s.profile)
    case Claimed(k, _) =>
      ClaimedHostKnown(s.plan, s.journal.steps, k);
      assert !AllDone(s.journal.steps);
    case _ =>
  }

  /** The invariant depends on which steps are done, and on which are ambiguous. */
  lemma SameStatusesKeep(s: Sys, t: Sys)
    requires Inv(s) && t.plan == s.plan && t.operators == s.operators && t.now == s.now
    requires t.journal.job == s.journal.job && |t.journal.steps| == |s.journal.steps| && |t.workers| == |s.workers|
    requires forall i :: 0 <= i < |s.journal.steps| ==>
               && t.journal.steps[i].kind == s.journal.steps[i].kind
               && Done(t.journal.steps[i].status) == Done(s.journal.steps[i].status)
               && (Ambiguous(s.journal.steps[i].status) ==> Ambiguous(t.journal.steps[i].status))
    requires forall i :: 0 <= i < |s.workers| ==> OnSameStep(s.workers[i], t.workers[i])
    ensures Inv(t)
  {
    forall i | 0 <= i < |t.operators| ensures ReviewKept(t, t.operators[i]) { assert ReviewKept(s, s.operators[i]); }
  }

  lemma SentKeeps(s: Sys, id: WorkerId)
    requires Inv(s) && id < |s.workers|
    ensures Inv(SentEvent(s, id))
  {
    if Holds(s.journal, id) { assert IsFirstOpen(s.journal.steps, s.workers[id].ordinal); }
    SameStatusesKeep(s, SentEvent(s, id));
  }

  lemma StashKeeps(s: Sys, id: WorkerId)
    requires Inv(s) && id < |s.workers|
    ensures Inv(StashEvent(s, id))
  {
    SameStatusesKeep(s, StashEvent(s, id));
  }

  lemma FinishKeeps(s: Sys, id: WorkerId)
    requires Inv(s) && id < |s.workers|
    ensures Inv(FinishEvent(s, id))
  {
    var t := FinishEvent(s, id);
    var k := s.workers[id].ordinal;
    if t.journal != s.journal {
      assert IsFirstOpen(s.journal.steps, k);
      assert forall i :: 0 <= i < |t.journal.steps| && i != k ==> t.journal.steps[i] == s.journal.steps[i];
      if AllDone(t.journal.steps) {
        assert Done(t.journal.steps[k].status);
      }
    }
  }

  lemma ResolveKeeps(s: Sys, op: nat)
    requires Inv(s) && op < |s.operators|
    ensures Inv(ResolveCommitEvent(s, op))
  {
    assert ReviewKept(s, s.operators[op]);
    var t := ResolveCommitEvent(s, op);
    SameProgressKeeps(s, t);
  }

  lemma RevalidateKeeps(s: Sys, op: nat)
    requires Inv(s) && op < |s.operators|
    ensures Inv(RevalidateCommitEvent(s, op))
  {
    assert ReviewKept(s, s.operators[op]);
    var t := RevalidateCommitEvent(s, op);
    SameProgressKeeps(s, t);
  }

  /** An operator's change bumps the revision and moves no step into or out of the done statuses. */
  lemma SameProgressKeeps(s: Sys, t: Sys)
    requires Inv(s)
    requires t == s.(journal := t.journal, log := t.log)
    requires t.journal == s.journal || (
               && t.journal.job.revision == s.journal.job.revision + 1
               && !Terminal(s.journal.job.status) && !Terminal(t.journal.job.status)
               && t.journal.job.leaseOwner == s.journal.job.leaseOwner
               && |t.journal.steps| == |s.journal.steps|
               && forall i :: 0 <= i < |s.journal.steps| ==>
                    && t.journal.steps[i].kind == s.journal.steps[i].kind
                    && Done(t.journal.steps[i].status) == Done(s.journal.steps[i].status))
    ensures Inv(t)
  {
    if t.journal != s.journal {
      var k :| 0 <= k < |s.journal.steps| && !Done(s.journal.steps[k].status);
      assert !Done(t.journal.steps[k].status);
    }
  }

  predicate OnSameStep(w: Worker, r: Worker) {
    r.ordinal == w.ordinal && r.parents == w.parents
  }

  /** Events that leave the journal alone and every worker on its step keep the invariant. */
  lemma SameJournalKeeps(s: Sys, t: Sys)
    requires Inv(s)
    requires t.plan == s.plan && t.journal == s.journal && s.now <= t.now && |t.workers| == |s.workers|
    requires forall i :: 0 <= i < |s.workers| ==> OnSameStep(s.workers[i], t.workers[i])
    requires forall i :: 0 <= i < |t.operators| ==> ReviewKept(s, t.operators[i])
    ensures Inv(t)
  {
    forall i | 0 <= i < |t.operators|
      ensures ReviewKept(t, t.operators[i])
    {
      assert ReviewKept(s, t.operators[i]);
    }
  }

  lemma OutsideKeeps(s: Sys, e: Event)
    requires Inv(s)
    ensures Inv(OutsideEvent(s, e))
  {
    SameJournalKeeps(s, OutsideEvent(s, e));
  }

  lemma ApplyKeeps(s: Sys, k: nat, stored: Body, newId: RemoteId)
    requires Inv(s) && k < |s.sends|
    ensures Inv(ApplyEvent(s, k, stored, newId))
  {
    SameJournalKeeps(s, ApplyEvent(s, k, stored, newId));
  }

  lemma ActKeeps(s: Sys, id: WorkerId, w: Worker)
    requires Inv(s) && id < |s.workers| && OnSameStep(s.workers[id], w)
    ensures Inv(s.(workers := s.workers[id := w]))
  {
    SameJournalKeeps(s, s.(workers := s.workers[id := w]));
  }

  lemma ControlKeeps(s: Sys, expected: nat, action: ControlAction)
    requires Inv(s)
    ensures Inv(s.(journal := AfterControl(s.journal, expected, s.now, action)))
  {
  }

  lemma OperatorKeeps(s: Sys, e: Event)
    requires Inv(s) && (e.BeginRevalidate? || e.BeginResolve? || e.CheckResolve?)
    ensures Inv(Next(s, e))
  {
    var t := Next(s, e);
    forall i | 0 <= i < |t.operators|
      ensures ReviewKept(s, t.operators[i])
    {
      if i < |s.operators| {
        assert ReviewKept(s, s.operators[i]);
      }
    }
    SameJournalKeeps(s, t);
  }

  lemma WorkerKeeps(s: Sys, e: Event)
    requires Inv(s) && (e.Act? || e.MarkSent? || e.StashId? || e.FinishStep? || e.Crash?)
    ensures Inv(Next(s, e))
  {
    if e.worker < |s.workers| {
      match e
      case Act(id, choice) => ActKeeps(s, id, Advance(s, s.workers[id], choice));
      case MarkSent(id) => SentKeeps(s, id);
      case StashId(id) => StashKeeps(s, id);
      case FinishStep(id) => FinishKeeps(s, id);
      case Crash(id) => ActKeeps(s, id, s.workers[id].(pc := Gone));
    }
  }

  /** Every event keeps the invariant, whoever performs it and however events interleave. */
  lemma NextKeeps(s: Sys, e: Event)
    requires Inv(s)
    ensures Inv(Next(s, e))
  {
    if e.Act? || e.MarkSent? || e.StashId? || e.FinishStep? || e.Crash? {
      WorkerKeeps(s, e);
    } else {
      match e
      case Tick(seconds) => SameJournalKeeps(s, s.(now := s.now + seconds));
      case EditProfile(version) => SameJournalKeeps(s, s.(profile := version));
      case RivalJob(_) => SameJournalKeeps(s, Next(s, e));
      case ClaimNext(expected) => ClaimKeeps(s, expected);
      case ControlJob(expected, action) => ControlKeeps(s, expected, action);
      case BeginRevalidate(_) => OperatorKeeps(s, e);
      case BeginResolve(_, _) => OperatorKeeps(s, e);
      case CheckResolve(_) => OperatorKeeps(s, e);
      case CommitRevalidate(op) => if op < |s.operators| { RevalidateKeeps(s, op); }
      case CommitResolve(op) => if op < |s.operators| { ResolveKeeps(s, op); }
      case RemoteApplies(k, stored, newId) => if k < |s.sends| { ApplyKeeps(s, k, stored, newId); }
      case RemoteDrops(k) => SameJournalKeeps(s, Next(s, e));
      case _ => OutsideKeeps(s, e);
    }
  }

  /** The plan and the kinds of its steps never change. */
  ghost predicate KindsKept(s: Sys, t: Sys) {
    && t.plan == s.plan && |t.journal.steps| == |s.journal.steps|
    && forall o :: 0 <= o < |s.journal.steps| ==> t.journal.steps[o].kind == s.journal.steps[o].kind
  }

  lemma SameKinds(s: Sys, e: Event)
    requires Inv(s)
    ensures KindsKept(s, Next(s, e))
  {
    if e.Act? || e.Crash? || e.MarkSent? || e.StashId? || e.FinishStep? {
      WorkerSameKinds(s, e);
    }
  }

  lemma WorkerSameKinds(s: Sys, e: Event)
    requires Inv(s) && (e.Act? || e.Crash? || e.MarkSent? || e.StashId? || e.FinishStep?)
    ensures KindsKept(s, Next(s, e))
  {
  }

  // ------------------------------------------------------------------ runs

  ghost function Run(s: Sys, events: seq<Event>): Sys
    requires Inv(s)
    decreases |events|
  {
    if events == [] then s
    else
      NextKeeps(s, events[0]);
      Run(Next(s, events[0]), events[1..])
  }

  lemma {:induction false} RunKeeps(s: Sys, events: seq<Event>)
    requires Inv(s)
    ensures Inv(Run(s, events))
    decreases |events|
  {
    if events != [] {
      NextKeeps(s, events[0]);
      RunKeeps(Next(s, events[0]), events[1..]);
    }
  }

  /** In every reachable journal the done steps form a prefix, and completed means exactly all done. */
  lemma ReachableProgress(s: Sys, events: seq<Event>)
    requires Initial(s) && ParentFirst(s.plan)
    ensures Inv(s)
    ensures var journal := Run(s, events).journal;
            DonePrefix(journal.steps) && (journal.job.status == Completed <==> AllDone(journal.steps))
  {
    InitialInv(s);
    RunKeeps(s, events);
  }

  /** No worker ever finds the parent, or the host, of its step unconfirmed. */
  lemma ReachableParents(s: Sys, events: seq<Event>, id: WorkerId)
    requires Initial(s) && ParentFirst(s.plan)
    ensures Inv(s)
    ensures var t := Run(s, events);
            id < |t.workers| && Wellformed(t) && t.journal.steps[t.workers[id].ordinal].kind != AudienceStep ==>
              var kind := t.journal.steps[t.workers[id].ordinal].kind;
              var page := PageOf(t.plan, kind);
              if kind.PageStep? then ParentId(t.plan, page, t.workers[id].parents).Some?
              else page.key in t.workers[id].parents
  {
    InitialInv(s);
    RunKeeps(s, events);
    var t := Run(s, events);
    if id < |t.workers| {
      assert HostKnown(t.plan, t.journal.steps[t.workers[id].ordinal].kind, t.workers[id].parents);
    }
  }

  lemma CompletedStep(s: Sys, e: Event)
    requires Inv(s) && s.journal.job.status == Completed
    ensures Next(s, e).journal == s.journal
  {
    assert s.journal.job.leaseOwner.None?;
    if (e.CommitRevalidate? || e.CommitResolve?) && e.operator < |s.operators| {
      assert ReviewKept(s, s.operators[e.operator]);
    }
  }

  /** A completed publication is final: no event of any run changes its journal again. */
  lemma {:induction false} CompletedIsFinal(s: Sys, events: seq<Event>)
    requires Inv(s) && s.journal.job.status == Completed
    ensures Run(s, events).journal == s.journal
    decreases |events|
  {
    if events != [] {
      CompletedStep(s, events[0]);
      NextKeeps(s, events[0]);
      CompletedIsFinal(Next(s, events[0]), events[1..]);
    }
  }

  predicate ByWorker(e: Event, id: WorkerId) {
    || (e.Act? && e.worker == id)
    || (e.MarkSent? && e.worker == id)
    || (e.StashId? && e.worker == id)
    || (e.FinishStep? && e.worker == id)
    || (e.Crash? && e.worker == id)
  }

  lemma LostLeaseStays(s: Sys, e: Event, id: WorkerId)
    requires Inv(s) && id < |s.workers| && !Holds(s.journal, id)
    ensures id < |Next(s, e).workers| && !Holds(Next(s, e).journal, id)
  {
  }

  lemma LostLeaseActs(s: Sys, e: Event, id: WorkerId)
    requires Inv(s) && id < |s.workers| && !Holds(s.journal, id) && ByWorker(e, id)
    ensures Next(s, e).journal == s.journal && Next(s, e).sends == s.sends && Next(s, e).log == s.log
  {
  }

  /**
    A worker whose lease was taken over never gets it back: nothing it does afterwards changes the journal
    or marks another send. A write that it marked before may still reach the remote.
   */
  lemma {:induction false} LostLeaseIsPowerless(s: Sys, events: seq<Event>, id: WorkerId, e: Event)
    requires Inv(s) && id < |s.workers| && !Holds(s.journal, id) && ByWorker(e, id)
    ensures Inv(Run(s, events))
    ensures Next(Run(s, events), e).journal == Run(s, events).journal
    ensures Next(Run(s, events), e).sends == Run(s, events).sends
    decreases |events|
  {
    if events == [] {
      LostLeaseActs(s, e, id);
    } else {
      LostLeaseStays(s, events[0], id);
      NextKeeps(s, events[0]);
      LostLeaseIsPowerless(Next(s, events[0]), events[1..], id, e);
    }
  }

  lemma {:induction false} RunAppend(s: Sys, events: seq<Event>, e: Event)
    requires Inv(s)
    ensures Inv(Run(s, events)) && Run(s, events + [e]) == Next(Run(s, events), e)
    decreases |events|
  {
    RunKeeps(s, events);
    if events == [] {
      NextKeeps(s, e);
      assert (events + [e])[1..] == [];
      assert Run(Next(s, e), []) == Next(s, e);
    } else {
      NextKeeps(s, events[0]);
      RunAppend(Next(s, events[0]), events[1..], e);
      assert (events + [e])[1..] == events[1..] + [e];
    }
  }
}
