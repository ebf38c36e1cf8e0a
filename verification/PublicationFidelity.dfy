/**
  Publication does what the operator decided, over every run: kept pages are never written, every write
  carries what the plan says, and every confirmed page is a version that the remote stored.
 */
module PublicationFidelity {
  import opened Basics
  import opened PublicationJournal
  import opened PublicationSystem
  import opened PublicationLease
  import opened PublicationEffects
  import opened PublicationDecisions

  // ------------------------------------------------------------------ every event

  lemma StepDecidedLater(s: Sys, t: Sys, o: nat)
    requires Wellformed(s) && Wellformed(t) && Onward(s, t) && o < |s.journal.steps|
    requires t.journal.steps[o] == s.journal.steps[o] && StepDecided(s, o)
    ensures StepDecided(t, o)
  {
    var step := s.journal.steps[o];
    if Done(step.status) { EndsLater(s, t, o, step.kind, step.status, step.result); }
  }

  /** Only what an event changes remains to be shown. */
  lemma DecisionsKept(s: Sys, t: Sys)
    requires DecisionInv(s) && Inv(t) && Onward(s, t)
    requires forall o :: 0 <= o < |t.journal.steps| ==> t.journal.steps[o] == s.journal.steps[o] || StepDecided(t, o)
    requires forall i :: 0 <= i < |t.workers| ==> (i < |s.workers| && t.workers[i] == s.workers[i]) || WorkerFits(s, t.workers[i])
    requires forall k :: 0 <= k < |t.sends| ==> (k < |s.sends| && t.sends[k] == s.sends[k]) || SendFits(s, t.sends[k])
    requires forall i :: 0 <= i < |t.operators| ==> (i < |s.operators| && t.operators[i] == s.operators[i]) || OperatorFits(s, t.operators[i])
    ensures DecisionInv(t)
  {
    forall o | 0 <= o < |t.journal.steps| ensures StepDecided(t, o) {
      if t.journal.steps[o] == s.journal.steps[o] { StepDecidedLater(s, t, o); }
    }
    forall i | 0 <= i < |t.workers| ensures WorkerFits(t, t.workers[i]) { WorkerFitsLater(s, t, t.workers[i]); }
    forall k | 0 <= k < |t.sends| ensures SendFits(t, t.sends[k]) { SendFitsLater(s, t, t.sends[k]); }
    forall i | 0 <= i < |t.operators| ensures OperatorFits(t, t.operators[i]) { assert OperatorFits(s, t.operators[i]); }
  }

  /** An event of worker id on its own step. */
  lemma OneStepKept(s: Sys, t: Sys, id: WorkerId)
    requires DecisionInv(s) && Inv(t) && Onward(s, t) && id < |s.workers| == |t.workers| && t.operators == s.operators
    requires t.workers == s.workers || (t.workers == s.workers[id := t.workers[id]] && WorkerFits(s, t.workers[id]))
    requires t.sends == s.sends || (exists send :: SendFits(s, send) && t.sends == s.sends + [send])
    requires var o := s.workers[id].ordinal;
             t.journal.steps == s.journal.steps
             || (t.journal.steps == s.journal.steps[o := t.journal.steps[o]] && StepDecided(t, o))
    ensures DecisionInv(t)
  {
    DecisionsKept(s, t);
  }

  lemma {:induction false} StepMapFrom(s: Sys, n: nat, key: Key)
    requires Wellformed(s) && n <= |s.journal.steps| && key in StepMap(s.plan, s.journal.steps, n)
    ensures FromStep(s, key, StepMap(s.plan, s.journal.steps, n)[key])
  {
    var step := s.journal.steps[n - 1];
    if step.kind.PageStep? && Done(step.status) && s.plan.pages[step.kind.page].key == key {
      assert Finished(s, n - 1, key, step.result);
    } else {
      StepMapFrom(s, n - 1, key);
    }
  }

  lemma ClaimedFits(s: Sys, k: nat, recover: bool, profile: nat)
    requires Wellformed(s) && k < |s.journal.steps| && StepDecided(s, k)
    requires recover ==> s.journal.steps[k].sent
    ensures WorkerFits(s, Worker(k, recover, s.journal.steps[k].result, StepMap(s.plan, s.journal.steps, |s.journal.steps|),
                                 profile, Begin, None))
  {
    var parents := StepMap(s.plan, s.journal.steps, |s.journal.steps|);
    forall key | key in parents ensures FromStep(s, key, parents[key]) {
      StepMapFrom(s, |s.journal.steps|, key);
    }
  }

  lemma ClaimDecisions(s: Sys, expected: nat)
    requires DecisionInv(s) && Inv(ClaimEvent(s, expected)) && Onward(s, ClaimEvent(s, expected))
    ensures DecisionInv(ClaimEvent(s, expected))
  {
    match ClaimResult(s.journal, expected, s.now, s.profile)
    case Claimed(k, recover) => {
      ClaimedFits(s, k, recover, s.journal.job.profileVersion);
      DecisionsKept(s, ClaimEvent(s, expected));
    }
    case _ =>
  }

  lemma ActDecisions(s: Sys, id: WorkerId, choice: Choice)
    requires EffectInv(s) && DecisionInv(s) && id < |s.workers| && Inv(Next(s, Act(id, choice)))
    requires Onward(s, Next(s, Act(id, choice)))
    ensures DecisionInv(Next(s, Act(id, choice)))
  {
    assert WorkerFits(s, s.workers[id]) && WorkerTruth(s, s.workers[id]);
    AdvanceFits(s, s.workers[id], choice);
    OneStepKept(s, Next(s, Act(id, choice)), id);
  }

  lemma WriteIsPlanned(s: Sys, w: Worker)
    requires Wellformed(s) && w.ordinal < |s.journal.steps| && WorkerFits(s, w) && w.pc == PreSend && WriteOf(s, w).Some?
    ensures SendFits(s, Send(w.ordinal, WriteOf(s, w).value, OnTheWay))
  {
    var kind := s.journal.steps[w.ordinal].kind;
    var page := PageOf(s.plan, kind);
    if kind.PageStep? { ParentFits(s, w.parents, page); }
    else { assert FromStep(s, page.key, w.parents[page.key]); }
  }

  lemma WrittenFits(s: Sys, w: Worker, r: Worker, k: nat)
    requires Wellformed(s) && w.ordinal < |s.journal.steps| && WorkerFits(s, w) && w.pc == PreSend
    requires r == w.(pc := Written(k), lastSend := Some(k)) || r == w.(pc := Gone)
    ensures WorkerFits(s, r)
  {
  }

  lemma SentDecisions(s: Sys, id: WorkerId)
    requires DecisionInv(s) && id < |s.workers| && Inv(SentEvent(s, id)) && Onward(s, SentEvent(s, id))
    ensures DecisionInv(SentEvent(s, id))
  {
    var t, w := SentEvent(s, id), s.workers[id];
    assert WorkerFits(s, w);
    SentFrame(s, id);
    if t != s {
      WriteIsPlanned(s, w);
      WrittenFits(s, w, t.workers[id], |s.sends|);
      if t.journal != s.journal { MarkedDecided(s, t, w.ordinal); }
      OneStepKept(s, t, id);
    }
  }

  lemma SentFrame(s: Sys, id: WorkerId)
    requires Inv(s) && id < |s.workers|
    ensures var t, w := SentEvent(s, id), s.workers[id];
            t == s || (
              && w.pc == PreSend && WriteOf(s, w).Some? && t.plan == s.plan && t.operators == s.operators
              && t.workers == s.workers[id := t.workers[id]]
              && t.workers[id] in {w.(pc := Written(|s.sends|), lastSend := Some(|s.sends|)), w.(pc := Gone)}
              && (t.sends == s.sends || t.sends == s.sends + [Send(w.ordinal, WriteOf(s, w).value, OnTheWay)])
              && (t.journal == s.journal || t.journal.steps == s.journal.steps[w.ordinal := s.journal.steps[w.ordinal].(
                    status := Inflight, sent := true, attempts := s.journal.steps[w.ordinal].attempts + 1, error := None)]))
  {
  }

  lemma MarkedDecided(s: Sys, t: Sys, o: nat)
    requires DecisionInv(s) && Wellformed(t) && t.plan == s.plan && o < |s.journal.steps| == |t.journal.steps|
    requires t.journal.steps[o].kind == s.journal.steps[o].kind && t.journal.steps[o].result == s.journal.steps[o].result
    requires t.journal.steps[o].status == Inflight && Wanted(s.plan, s.journal.steps[o].kind)
    ensures StepDecided(t, o)
  {
    assert StepDecided(s, o);
  }

  lemma StashedFits(s: Sys, w: Worker)
    requires Wellformed(s) && w.ordinal < |s.journal.steps| && WorkerFits(s, w) && Stashing(w.pc)
    ensures WorkerFits(s, w.(pc := Stored(w.pc), result := Stashed(w.pc)))
    ensures WorkerFits(s, w.(pc := Closed(ProfileLost(w))))
    ensures s.journal.steps[w.ordinal].kind.PageStep? ==>
              IdFits(s.plan.pages[s.journal.steps[w.ordinal].kind.page], Stashed(w.pc).id)
  {
  }

  lemma StashFrame(s: Sys, id: WorkerId)
    requires Inv(s) && id < |s.workers|
    ensures var t, w := StashEvent(s, id), s.workers[id];
            && t.plan == s.plan && t.sends == s.sends && t.operators == s.operators
            && (t.journal != s.journal ==>
                  && Stashing(w.pc) && t.workers == s.workers[id := w.(pc := Stored(w.pc), result := Stashed(w.pc))]
                  && !Done(s.journal.steps[w.ordinal].status)
                  && t.journal.steps == s.journal.steps[w.ordinal := s.journal.steps[w.ordinal].(result := Stashed(w.pc))])
            && (t.journal == s.journal ==>
                  || t.workers == s.workers
                  || (Stashing(w.pc) && t.workers[id] in {w.(pc := Stored(w.pc), result := Stashed(w.pc)), w.(pc := Closed(ProfileLost(w)))}
                      && t.workers == s.workers[id := t.workers[id]]))
  {
    if Holds(s.journal, id) { assert !Done(s.journal.steps[s.workers[id].ordinal].status); }
  }

  lemma StashDecisions(s: Sys, id: WorkerId)
    requires DecisionInv(s) && id < |s.workers| && Inv(StashEvent(s, id)) && Onward(s, StashEvent(s, id))
    ensures DecisionInv(StashEvent(s, id))
  {
    var t, w := StashEvent(s, id), s.workers[id];
    assert WorkerFits(s, w) && StepDecided(s, w.ordinal);
    StashFrame(s, id);
    if Stashing(w.pc) { StashedFits(s, w); }
    if t.journal != s.journal { StashDecided(s, t, w); }
    OneStepKept(s, t, id);
  }

  lemma StashDecided(s: Sys, t: Sys, w: Worker)
    requires DecisionInv(s) && Wellformed(t) && t.plan == s.plan && w.ordinal < |s.journal.steps| && Stashing(w.pc) && WorkerFits(s, w)
    requires !Done(s.journal.steps[w.ordinal].status)
    requires t.journal.steps == s.journal.steps[w.ordinal := s.journal.steps[w.ordinal].(result := Stashed(w.pc))]
    ensures StepDecided(t, w.ordinal)
  {
    assert StepDecided(s, w.ordinal);
    StashedFits(s, w);
  }

  lemma FinishDecisions(s: Sys, id: WorkerId)
    requires DecisionInv(s) && id < |s.workers| && Inv(FinishEvent(s, id)) && Onward(s, FinishEvent(s, id))
    ensures DecisionInv(FinishEvent(s, id))
  {
    var t, w := FinishEvent(s, id), s.workers[id];
    assert WorkerFits(s, w) && StepDecided(s, w.ordinal);
    FinishedFrame(s, id);
    GoneFits(s, w);
    if t.journal != s.journal { FinishedDecided(s, t, w); }
    OneStepKept(s, t, id);
  }

  lemma GoneFits(s: Sys, w: Worker)
    requires Wellformed(s) && w.ordinal < |s.journal.steps| && WorkerFits(s, w)
    ensures WorkerFits(s, w.(pc := Gone))
  {
  }

  lemma FinishedFrame(s: Sys, id: WorkerId)
    requires Inv(s) && id < |s.workers|
    ensures var t, w := FinishEvent(s, id), s.workers[id];
            && t.sends == s.sends && t.operators == s.operators
            && t.plan == s.plan && (t == s || t.workers == s.workers[id := w.(pc := Gone)])
            && (t.journal == s.journal || (
                  && w.pc.Closed?
                  && t.journal.steps == s.journal.steps[w.ordinal := s.journal.steps[w.ordinal].(
                       status := w.pc.closing.status, result := w.pc.closing.result, error := w.pc.closing.error)]))
  {
  }

  lemma FinishedDecided(s: Sys, t: Sys, w: Worker)
    requires DecisionInv(s) && Wellformed(t) && Onward(s, t) && w.ordinal < |s.journal.steps| && WorkerFits(s, w) && w.pc.Closed?
    requires t.journal.steps[w.ordinal] == s.journal.steps[w.ordinal].(
               status := w.pc.closing.status, result := w.pc.closing.result, error := w.pc.closing.error)
    ensures StepDecided(t, w.ordinal)
  {
    assert StepDecided(s, w.ordinal);
    PcFitsLater(s, t, w.ordinal, s.journal.steps[w.ordinal].kind, w.pc);
  }

  lemma ResolveDecisions(s: Sys, op: nat)
    requires DecisionInv(s) && op < |s.operators| && Inv(ResolveCommitEvent(s, op)) && Onward(s, ResolveCommitEvent(s, op))
    ensures DecisionInv(ResolveCommitEvent(s, op))
  {
    var t, o := ResolveCommitEvent(s, op), s.operators[op];
    assert ReviewKept(s, o) && OperatorFits(s, o);
    if t.journal != s.journal {
      assert StepDecided(s, o.ordinal);
      assert StepDecided(t, o.ordinal);
      DecisionsKept(s, t);
    }
  }

  lemma RevalidateDecisions(s: Sys, op: nat)
    requires DecisionInv(s) && op < |s.operators| && Inv(RevalidateCommitEvent(s, op)) && Onward(s, RevalidateCommitEvent(s, op))
    ensures DecisionInv(RevalidateCommitEvent(s, op))
  {
    var t := RevalidateCommitEvent(s, op);
    forall o | 0 <= o < |t.journal.steps| && t.journal.steps[o] != s.journal.steps[o] ensures StepDecided(t, o) {
      assert StepDecided(s, o);
    }
    DecisionsKept(s, t);
  }

  lemma CheckDecisions(s: Sys, e: Event)
    requires DecisionInv(s) && (e.BeginRevalidate? || e.BeginResolve? || e.CheckResolve?)
    requires Inv(Next(s, e)) && Onward(s, Next(s, e))
    ensures DecisionInv(Next(s, e))
  {
    CheckFrame(s, e);
    DecisionsKept(s, Next(s, e));
  }

  lemma CheckFrame(s: Sys, e: Event)
    requires Inv(s) && (e.BeginRevalidate? || e.BeginResolve? || e.CheckResolve?)
    ensures var t := Next(s, e);
            && t.plan == s.plan && t.journal == s.journal && t.workers == s.workers && t.sends == s.sends
            && forall i :: 0 <= i < |t.operators| ==> (i < |s.operators| && t.operators[i] == s.operators[i]) || OperatorFits(s, t.operators[i])
  {
    if e.CheckResolve? && e.operator < |s.operators| { ResolvePageIsMapped(s, e.operator); }
  }

  /** The operator cannot rebind a mapped page. */
  lemma ResolvePageIsMapped(s: Sys, op: nat)
    requires Inv(s) && op < |s.operators|
    ensures var t := ResolveCheckEvent(s, op);
            t == s || (t == s.(operators := s.operators[op := t.operators[op]]) && OperatorFits(s, t.operators[op]))
  {
  }

  lemma RemoteDecisions(s: Sys, e: Event)
    requires DecisionInv(s) && (e.RemoteApplies? || e.RemoteDrops?) && Inv(Next(s, e)) && Onward(s, Next(s, e))
    ensures DecisionInv(Next(s, e))
  {
    var t := Next(s, e);
    if e.send < |s.sends| {
      SendSettles(s, e);
      assert SendFits(s, s.sends[e.send]);
      DecisionsKept(s, t);
    }
  }

  /** The remote changes no write; an update it applies stays on its page. */
  lemma SendSettles(s: Sys, e: Event)
    requires Inv(s) && (e.RemoteApplies? || e.RemoteDrops?) && e.send < |s.sends|
    ensures var t, k := Next(s, e), e.send;
            && t.journal == s.journal && t.workers == s.workers && t.operators == s.operators && t.plan == s.plan
            && t.sends == s.sends[k := t.sends[k]]
            && t.sends[k].ordinal == s.sends[k].ordinal && t.sends[k].write == s.sends[k].write
            && (t.sends[k].state == s.sends[k].state || t.sends[k].state == Dead
                || (t.sends[k].state.Applied? && (s.sends[k].write.Put? ==> t.sends[k].state.where == s.sends[k].write.page)))
  {
  }

  lemma QuietDecisions(s: Sys, e: Event)
    requires DecisionInv(s) && Inv(Next(s, e)) && Onward(s, Next(s, e))
    requires e.Tick? || e.EditProfile? || e.RivalJob? || e.ControlJob? || e.OutsideEdit? || e.OutsideCreate? || e.OutsideTrash?
             || e.OutsideFile?
    ensures DecisionInv(Next(s, e))
  {
    QuietFrame(s, e);
    DecisionsKept(s, Next(s, e));
  }

  lemma QuietFrame(s: Sys, e: Event)
    requires Inv(s)
    requires e.Tick? || e.EditProfile? || e.RivalJob? || e.ControlJob? || e.OutsideEdit? || e.OutsideCreate? || e.OutsideTrash?
             || e.OutsideFile?
    ensures var t := Next(s, e);
            t.journal.steps == s.journal.steps && t.workers == s.workers && t.sends == s.sends && t.operators == s.operators
  {
  }

  lemma ActStepDecisions(s: Sys, id: WorkerId, choice: Choice)
    requires EffectInv(s) && DecisionInv(s) && Inv(Next(s, Act(id, choice))) && Onward(s, Next(s, Act(id, choice)))
    ensures DecisionInv(Next(s, Act(id, choice)))
  {
    if id < |s.workers| { ActDecisions(s, id, choice); }
  }

  lemma MarkStepDecisions(s: Sys, id: WorkerId)
    requires EffectInv(s) && DecisionInv(s) && Inv(Next(s, MarkSent(id))) && Onward(s, Next(s, MarkSent(id)))
    ensures DecisionInv(Next(s, MarkSent(id)))
  {
    if id < |s.workers| {
      assert Next(s, MarkSent(id)) == SentEvent(s, id);
      SentDecisions(s, id);
    }
  }

  lemma StashStepDecisions(s: Sys, id: WorkerId)
    requires EffectInv(s) && DecisionInv(s) && Inv(Next(s, StashId(id))) && Onward(s, Next(s, StashId(id)))
    ensures DecisionInv(Next(s, StashId(id)))
  {
    if id < |s.workers| {
      assert Next(s, StashId(id)) == StashEvent(s, id);
      StashDecisions(s, id);
    }
  }

  lemma FinishStepDecisions(s: Sys, id: WorkerId)
    requires EffectInv(s) && DecisionInv(s) && Inv(Next(s, FinishStep(id))) && Onward(s, Next(s, FinishStep(id)))
    ensures DecisionInv(Next(s, FinishStep(id)))
  {
    if id < |s.workers| {
      assert Next(s, FinishStep(id)) == FinishEvent(s, id);
      FinishDecisions(s, id);
    }
  }

  lemma CrashDecisions(s: Sys, id: WorkerId)
    requires EffectInv(s) && DecisionInv(s) && Inv(Next(s, Crash(id))) && Onward(s, Next(s, Crash(id)))
    ensures DecisionInv(Next(s, Crash(id)))
  {
    if id < |s.workers| {
      assert WorkerFits(s, s.workers[id]);
      GoneFits(s, s.workers[id]);
      OneStepKept(s, Next(s, Crash(id)), id);
    }
  }

  lemma WorkerDecisions(s: Sys, e: Event)
    requires EffectInv(s) && DecisionInv(s) && Inv(Next(s, e)) && Onward(s, Next(s, e))
    requires e.Act? || e.Crash? || e.MarkSent? || e.StashId? || e.FinishStep?
    ensures DecisionInv(Next(s, e))
  {
    match e
    case Act(id, choice) => ActStepDecisions(s, id, choice);
    case MarkSent(id) => MarkStepDecisions(s, id);
    case StashId(id) => StashStepDecisions(s, id);
    case FinishStep(id) => FinishStepDecisions(s, id);
    case Crash(id) => CrashDecisions(s, id);
  }

  lemma NextDecisions(s: Sys, e: Event)
    requires EffectInv(s) && DecisionInv(s)
    ensures DecisionInv(Next(s, e))
  {
    NextKeeps(s, e);
    DoneStays(s, e);
    if e.Act? || e.Crash? || e.MarkSent? || e.StashId? || e.FinishStep? {
      WorkerDecisions(s, e);
    } else {
      match e
      case ClaimNext(expected) => ClaimDecisions(s, expected);
      case BeginRevalidate(_) => CheckDecisions(s, e);
      case BeginResolve(_, _) => CheckDecisions(s, e);
      case CheckResolve(_) => CheckDecisions(s, e);
      case CommitRevalidate(op) => if op < |s.operators| { RevalidateDecisions(s, op); }
      case CommitResolve(op) => if op < |s.operators| { ResolveDecisions(s, op); }
      case RemoteApplies(_, _, _) => RemoteDecisions(s, e);
      case RemoteDrops(_) => RemoteDecisions(s, e);
      case _ => QuietDecisions(s, e);
    }
  }

  lemma InitialDecisions(s: Sys)
    requires Initial(s) && ParentFirst(s.plan)
    ensures DecisionInv(s)
  {
    InitialInv(s);
    InitialStepsFit(s.plan);
    assert forall o :: 0 <= o < |s.plan.pages| ==> InitialSteps(s.plan.pages)[o] == PageSteps(|s.plan.pages|)[o];
  }

  lemma {:induction false} RunDecisions(s: Sys, events: seq<Event>)
    requires EffectInv(s) && DecisionInv(s)
    ensures EffectInv(Run(s, events)) && DecisionInv(Run(s, events))
    decreases |events|
  {
    if events != [] {
      NextDecisions(s, events[0]);
      NextEffects(s, events[0]);
      RunDecisions(Next(s, events[0]), events[1..]);
    }
  }

  lemma Reached(s: Sys, events: seq<Event>)
    requires Initial(s) && ParentFirst(s.plan)
    ensures Inv(s) && DecisionInv(Run(s, events))
  {
    InitialEffects(s);
    InitialDecisions(s);
    RunDecisions(s, events);
  }

  // ------------------------------------------------------------------ runs

  /** The page that a step is about. */
  ghost predicate About(t: Sys, o: nat, page: PagePlan)
    requires Wellformed(t)
  {
    o < |t.journal.steps| && t.journal.steps[o].kind != AudienceStep && PageOf(t.plan, t.journal.steps[o].kind) == page
  }

  /**
    Nothing is ever sent for a page the operator keeps, nor for its attachments; nor for a mapped page with the
    same content that is not to be replaced, nor for an attachment that exists already.
   */
  lemma KeptIsNeverWritten(s: Sys, events: seq<Event>, k: nat, page: PagePlan)
    requires Initial(s) && ParentFirst(s.plan)
    ensures Inv(s) && Inv(Run(s, events))
    ensures var t := Run(s, events);
            k < |t.sends| && About(t, t.sends[k].ordinal, page) ==>
              && page.key !in t.plan.keep
              && (t.journal.steps[t.sends[k].ordinal].kind.PageStep? && page.remoteId.Some? && page.sameContent
                  ==> page.key in t.plan.replace)
              && (t.journal.steps[t.sends[k].ordinal].kind.AssetStep? ==>
                    AssetOf(t.plan, t.journal.steps[t.sends[k].ordinal].kind).action == CreateAsset)
  {
    RunFacts(s, events);
    var t := Run(s, events);
    if k < |t.sends| { assert SendFits(t, t.sends[k]); }
  }

  lemma RunFacts(s: Sys, events: seq<Event>)
    requires Initial(s) && ParentFirst(s.plan)
    ensures Inv(s) && Inv(Run(s, events)) && DecisionInv(Run(s, events))
  {
    Reached(s, events);
    RunKeeps(s, events);
  }

  /**
    A finished page step is kept exactly for a page the operator keeps, and skipped exactly when nothing would
    change and no replacement was asked for. Both times the page is the reviewed one, at the reviewed version.
   */
  lemma PageEndsAsDecided(s: Sys, events: seq<Event>, o: nat, page: PagePlan)
    requires Initial(s) && ParentFirst(s.plan)
    ensures Inv(s) && Inv(Run(s, events))
    ensures var t := Run(s, events);
            About(t, o, page) && t.journal.steps[o].kind.PageStep? && Done(t.journal.steps[o].status) ==>
              var step := t.journal.steps[o];
              && (step.status == Kept <==> page.key in t.plan.keep)
              && (step.status == Skipped <==>
                    page.key !in t.plan.keep && page.key !in t.plan.replace && page.remoteId.Some? && page.sameContent)
              && (step.result.kept <==> step.status == Kept)
              && (step.status != Succeeded ==>
                    && page.remoteId.Some? && step.result.id == page.remoteId && step.result.version == page.remoteVersion
                    && (page.remoteDigest.Some? ==> step.result.digest == page.remoteDigest)
                    && (page.remoteTitle.Some? ==> step.result.title == page.remoteTitle.value))
  {
    RunFacts(s, events);
    var t := Run(s, events);
    if o < |t.journal.steps| { assert StepDecided(t, o); }
  }

  /**
    Attachments of a kept page are kept with it; an existing attachment is skipped, as reviewed, and a new one
    succeeds as a first version. A check ends kept exactly for a kept page.
   */
  lemma PartsEndAsDecided(s: Sys, events: seq<Event>, o: nat, page: PagePlan)
    requires Initial(s) && ParentFirst(s.plan)
    ensures Inv(s) && Inv(Run(s, events))
    ensures var t := Run(s, events);
            About(t, o, page) && !t.journal.steps[o].kind.PageStep? && Done(t.journal.steps[o].status) ==>
              var step := t.journal.steps[o];
              && (step.status == Kept <==> page.key in t.plan.keep)
              && (step.kind.VerifyStep? ==> step.status != Skipped)
              && (step.kind.AssetStep? && step.status != Kept ==>
                    var asset := AssetOf(t.plan, step.kind);
                    && (step.status == Skipped <==> asset.action == UnchangedAsset)
                    && (step.status == Skipped ==> step.result.id == asset.remoteId && step.result.version == asset.remoteVersion)
                    && (step.status == Succeeded ==> asset.action == CreateAsset && step.result.id.Some? && step.result.version == 1))
  {
    RunFacts(s, events);
    var t := Run(s, events);
    if o < |t.journal.steps| { assert StepDecided(t, o); }
  }

  /** The finished page step of this key confirmed this page id. */
  ghost predicate ConfirmedAs(t: Sys, key: Key, id: Option<RemoteId>)
    requires Wellformed(t)
  {
    exists q: nat, page: PagePlan :: About(t, q, page) && t.journal.steps[q].kind.PageStep? && page.key == key
                                     && Done(t.journal.steps[q].status) && t.journal.steps[q].result.id == id
  }

  lemma FromStepConfirms(t: Sys, key: Key, result: StepResult)
    requires Wellformed(t) && FromStep(t, key, result)
    ensures ConfirmedAs(t, key, result.id)
  {
    var q: nat :| Finished(t, q, key, result);
    assert About(t, q, t.plan.pages[t.journal.steps[q].kind.page]);
  }

  lemma UnderConfirms(t: Sys, page: PagePlan, parent: Option<RemoteId>)
    requires Wellformed(t) && UnderParent(t, page, parent)
    ensures page.parentKey.None? ==> parent == t.plan.parentPage
    ensures page.parentKey.Some? ==> ConfirmedAs(t, page.parentKey.value, parent)
  {
    if page.parentKey.Some? {
      var result: StepResult :| FromStep(t, page.parentKey.value, result) && result.id == parent;
      FromStepConfirms(t, page.parentKey.value, result);
    }
  }

  /** Every write carries the planned title, text, marker and bytes, to the mapped page or below the confirmed parent. */
  lemma SentAsPlanned(s: Sys, events: seq<Event>, k: nat, page: PagePlan)
    requires Initial(s) && ParentFirst(s.plan)
    ensures Inv(s) && Inv(Run(s, events))
    ensures var t := Run(s, events);
            k < |t.sends| && About(t, t.sends[k].ordinal, page) ==>
              var o := t.sends[k].ordinal;
              match t.sends[k].write
              case Put(id, base, title, _, body) =>
                && t.journal.steps[o].kind.PageStep? && page.remoteId == Some(id) && base == page.remoteVersion
                && title == page.title && body == Body(page.text, {o}, {page.ownership})
              case Create(title, parent, body) =>
                && t.journal.steps[o].kind.PageStep? && page.remoteId.None?
                && title == page.title && body == Body(page.text, {o}, {page.ownership})
                && (page.parentKey.None? ==> parent == t.plan.parentPage)
                && (page.parentKey.Some? ==> ConfirmedAs(t, page.parentKey.value, parent))
              case Upload(host, filename, op, bytes) =>
                && t.journal.steps[o].kind.AssetStep? && op == o && ConfirmedAs(t, page.key, Some(host))
                && filename == AssetOf(t.plan, t.journal.steps[o].kind).filename
                && bytes == AssetOf(t.plan, t.journal.steps[o].kind).bytes
  {
    RunFacts(s, events);
    var t := Run(s, events);
    if k < |t.sends| && About(t, t.sends[k].ordinal, page) {
      assert SendFits(t, t.sends[k]);
      match t.sends[k].write
      case Put(_, _, _, _, _) =>
      case Create(_, parent, _) => UnderConfirms(t, page, parent);
      case Upload(host, _, _, _) =>
        var result: StepResult :| FromStep(t, page.key, result) && result.id == Some(host);
        FromStepConfirms(t, page.key, result);
    }
  }

  /** The version that step o confirmed. */
  ghost predicate ConfirmedVersion(t: Sys, o: nat, page: PagePlan)
    requires Wellformed(t) && o < |t.journal.steps|
  {
    var r := t.journal.steps[o].result;
    && r.id.Some? && r.id.value in t.remote.pages && 1 <= r.version <= |t.remote.pages[r.id.value].history|
    && var stored := t.remote.pages[r.id.value].history[r.version - 1];
       && r.digest == Some(Digest(stored.body)) && r.title == stored.title
       && (page.parentKey.None? ==> stored.parent == t.plan.parentPage)
       && (page.parentKey.Some? ==> ConfirmedAs(t, page.parentKey.value, stored.parent))
       && (t.journal.steps[o].status == Succeeded ==>
             && stored.title == page.title && o in stored.body.ops
             && r.version == (if page.remoteId.Some? then page.remoteVersion + 1 else 1)
             && (page.remoteId.Some? ==> r.id == page.remoteId))
  }

  lemma DecidedStands(t: Sys, o: nat, page: PagePlan)
    requires Wellformed(t) && About(t, o, page) && StepDecided(t, o)
    requires t.journal.steps[o].kind.PageStep? && Done(t.journal.steps[o].status)
    ensures ConfirmedVersion(t, o, page)
  {
    var r := t.journal.steps[o].result;
    UnderConfirms(t, page, t.remote.pages[r.id.value].history[r.version - 1].parent);
  }

  /**
    A finished page step names a version that the remote stored, with the recorded digest and title, below the
    confirmed parent. A written page carries the planned title and the marker of this step, in the version
    right after the reviewed one, or in the first one of a new page.
   */
  lemma ConfirmedPageStands(s: Sys, events: seq<Event>, o: nat, page: PagePlan)
    requires Initial(s) && ParentFirst(s.plan)
    ensures Inv(s) && Inv(Run(s, events))
    ensures var t := Run(s, events);
            About(t, o, page) && t.journal.steps[o].kind.PageStep? && Done(t.journal.steps[o].status) ==>
              ConfirmedVersion(t, o, page)
  {
    RunFacts(s, events);
    var t := Run(s, events);
    if About(t, o, page) && t.journal.steps[o].kind.PageStep? && Done(t.journal.steps[o].status) {
      assert StepDecided(t, o);
      DecidedStands(t, o, page);
    }
  }

  // ------------------------------------------------------------------ single actions

  /**
    A worker goes on to its send mark only when nothing else is in the way: a page finds no other visible page of
    its title, and is found as reviewed when it was mapped (by the read before); an attachment finds no file of its name.
   */
  lemma SendsOnlyWhenClear(s: Sys, w: Worker, choice: Choice)
    requires Wellformed(s) && w.ordinal < |s.journal.steps| && w.pc != PreSend && Advance(s, w, choice).pc == PreSend
    ensures var kind := s.journal.steps[w.ordinal].kind;
            && Writes(kind)
            && (kind.PageStep? ==>
                  w.pc.CheckTitle?
                  && forall id :: Visible(s.remote, id) && Latest(s.remote.pages[id]).title == s.plan.pages[kind.page].title
                                  ==> s.plan.pages[kind.page].remoteId == Some(id))
            && (kind.AssetStep? ==>
                  var key := s.plan.pages[kind.host].key;
                  && key in w.parents && w.parents[key].id.Some? && choice != Mismatch
                  && (w.parents[key].id.value, AssetOf(s.plan, kind).filename) !in s.remote.files)
  {
    var kind := s.journal.steps[w.ordinal].kind;
    OnlyChecksSend(s, w, choice);
    if kind.PageStep? { TitleIsClear(s, w, s.plan.pages[kind.page], choice); }
    else { SlotIsClear(s, w, s.plan.pages[kind.host], AssetOf(s.plan, kind), choice); }
  }

  lemma StartSendsNothing(s: Sys, w: Worker, kind: StepKind, choice: Choice)
    requires KindFits(s.plan, kind)
    ensures w.pc == Begin ==> Open(s, w, kind, choice).pc != PreSend
    ensures w.ordinal < |s.journal.steps| && w.pc == ReadFailed ==> AfterReadFailure(s, w).pc != PreSend
  {
  }

  lemma ReadsSendNothing(s: Sys, w: Worker, page: PagePlan, choice: Choice)
    ensures w.pc == Recovering ==> Recover(s, w, page, choice).pc != PreSend
    ensures w.pc == CheckPage ==> ReadPage(s, w, page, choice).pc != PreSend
    ensures w.pc.Confirm? ==> ReadBack(s, w, page, w.pc.confirmId, choice).pc != PreSend
    ensures w.pc == CheckHost ==> ReadHost(s, w, page, choice).pc != PreSend
    ensures w.pc == Verifying ==> Verify(s, w, page, choice).pc != PreSend
  {
  }

  lemma AnswersSendNothing(s: Sys, w: Worker, isPage: bool, choice: Choice)
    ensures w.pc.Written? && w.pc.send < |s.sends| ==> Response(s, w, w.pc.send, isPage, choice).pc != PreSend
  {
  }

  lemma UploadSendsNothing(s: Sys, w: Worker, page: PagePlan, asset: AssetPlan, choice: Choice)
    ensures w.pc == ReadUploaded ==> ReadUpload(s, w, page, asset, choice).pc != PreSend
  {
  }

  /** Only the last check of a page or of an attachment leads to a send mark. */
  lemma OnlyChecksSend(s: Sys, w: Worker, choice: Choice)
    requires Wellformed(s) && w.ordinal < |s.journal.steps| && w.pc != PreSend && Advance(s, w, choice).pc == PreSend
    ensures var kind := s.journal.steps[w.ordinal].kind;
            && Writes(kind)
            && (kind.PageStep? ==> w.pc.CheckTitle? && ReadTitle(s, w, s.plan.pages[kind.page], w.pc.found, choice).pc == PreSend)
            && (kind.AssetStep? ==> w.pc == CheckFiles && ReadFiles(s, w, s.plan.pages[kind.host], AssetOf(s.plan, kind), choice).pc == PreSend)
  {
    var kind := s.journal.steps[w.ordinal].kind;
    StartSendsNothing(s, w, kind, choice);
    if kind.PageStep? { PageSendsAfterTitle(s, w, choice); }
    else if kind.AssetStep? { AssetSendsAfterFiles(s, w, choice); }
    else if kind.VerifyStep? { ReadsSendNothing(s, w, PageOf(s.plan, kind), choice); }
  }

  lemma PageSendsAfterTitle(s: Sys, w: Worker, choice: Choice)
    requires w.ordinal < |s.journal.steps| && KindFits(s.plan, s.journal.steps[w.ordinal].kind)
    requires s.journal.steps[w.ordinal].kind.PageStep? && w.pc !in {Begin, ReadFailed, PreSend} && Advance(s, w, choice).pc == PreSend
    ensures w.pc.CheckTitle? && ReadTitle(s, w, s.plan.pages[s.journal.steps[w.ordinal].kind.page], w.pc.found, choice).pc == PreSend
  {
    var page := PageOf(s.plan, s.journal.steps[w.ordinal].kind);
    ReadsSendNothing(s, w, page, choice);
    AnswersSendNothing(s, w, true, choice);
  }

  lemma AssetSendsAfterFiles(s: Sys, w: Worker, choice: Choice)
    requires w.ordinal < |s.journal.steps| && KindFits(s.plan, s.journal.steps[w.ordinal].kind)
    requires s.journal.steps[w.ordinal].kind.AssetStep? && w.pc !in {Begin, ReadFailed, PreSend} && Advance(s, w, choice).pc == PreSend
    ensures w.pc == CheckFiles
    ensures var kind := s.journal.steps[w.ordinal].kind;
            ReadFiles(s, w, s.plan.pages[kind.host], AssetOf(s.plan, kind), choice).pc == PreSend
  {
    var kind := s.journal.steps[w.ordinal].kind;
    ReadsSendNothing(s, w, PageOf(s.plan, kind), choice);
    AnswersSendNothing(s, w, false, choice);
    UploadSendsNothing(s, w, PageOf(s.plan, kind), AssetOf(s.plan, kind), choice);
  }

  lemma SlotIsClear(s: Sys, w: Worker, page: PagePlan, asset: AssetPlan, choice: Choice)
    requires w.pc == CheckFiles && ReadFiles(s, w, page, asset, choice).pc == PreSend
    ensures page.key in w.parents && w.parents[page.key].id.Some?
    ensures (w.parents[page.key].id.value, asset.filename) !in s.remote.files && choice != Mismatch
  {
  }

  lemma TitleIsClear(s: Sys, w: Worker, page: PagePlan, choice: Choice)
    requires w.pc.CheckTitle? && ReadTitle(s, w, page, w.pc.found, choice).pc == PreSend
    ensures forall id :: Visible(s.remote, id) && Latest(s.remote.pages[id]).title == page.title ==> page.remoteId == Some(id)
  {
    forall id | Visible(s.remote, id) && Latest(s.remote.pages[id]).title == page.title
      ensures page.remoteId == Some(id)
    {
      assert id in TitleMatches(s.remote, page.title);
      assert page.remoteId.Some? ==> id !in TitleMatches(s.remote, page.title) - {page.remoteId.value};
    }
  }

  /** An attachment is reported as uploaded or skipped only while the remote holds it with the planned bytes. */
  lemma AttachmentWasSeen(s: Sys, w: Worker, choice: Choice)
    requires Wellformed(s) && w.ordinal < |s.journal.steps| && s.journal.steps[w.ordinal].kind.AssetStep?
    requires w.pc == CheckFiles || w.pc == ReadUploaded
    requires HasClosing(Advance(s, w, choice).pc) && Done(ClosingOf(Advance(s, w, choice).pc).status)
    ensures var kind := s.journal.steps[w.ordinal].kind;
            var key, asset, c := s.plan.pages[kind.host].key, AssetOf(s.plan, kind), ClosingOf(Advance(s, w, choice).pc);
            && key in w.parents && w.parents[key].id.Some?
            && var slot := (w.parents[key].id.value, asset.filename);
               && slot in s.remote.files && s.remote.files[slot].bytes == asset.bytes
               && c.result.id == Some(s.remote.files[slot].id) && c.result.version == s.remote.files[slot].version
               && (asset.action == CreateAsset ==> s.remote.files[slot].comment == Some(w.ordinal) && c.result.version == 1)
  {
  }

  /** A page check, or the check of an attachment's host, passes only while the confirmed page is unchanged. */
  lemma HostIsUnchanged(s: Sys, w: Worker, choice: Choice)
    requires Wellformed(s) && w.ordinal < |s.journal.steps|
    requires (w.pc == CheckHost && s.journal.steps[w.ordinal].kind.AssetStep?)
             || (w.pc == Verifying && s.journal.steps[w.ordinal].kind.VerifyStep?)
    requires var pc := Advance(s, w, choice).pc; pc == CheckFiles || (HasClosing(pc) && Done(ClosingOf(pc).status))
    ensures var page := PageOf(s.plan, s.journal.steps[w.ordinal].kind);
            && page.key in w.parents && w.parents[page.key].id.Some?
            && var host := w.parents[page.key];
               && Visible(s.remote, host.id.value) && choice != ReadError
               && var version := Latest(s.remote.pages[host.id.value]);
                  && |s.remote.pages[host.id.value].history| == host.version && version.title == host.title
                  && (host.digest.Some? ==> Digest(version.body) == host.digest.value)
                  && (page.parentKey.None? ==> version.parent == s.plan.parentPage)
                  && (page.parentKey.Some? ==>
                        page.parentKey.value in w.parents && version.parent == w.parents[page.parentKey.value].id)
  {
  }

  /** Whatever is then found out about an uploaded file, its id is stored first. */
  lemma UploadIdIsStored(s: Sys, w: Worker, choice: Choice, host: RemoteId)
    requires Wellformed(s) && w.ordinal < |s.journal.steps| && s.journal.steps[w.ordinal].kind.AssetStep? && w.pc == ReadUploaded
    requires var key := PageOf(s.plan, s.journal.steps[w.ordinal].kind).key; key in w.parents && w.parents[key].id == Some(host)
    requires choice != ReadError && (host, AssetOf(s.plan, s.journal.steps[w.ordinal].kind).filename) in s.remote.files
    ensures var pc := Advance(s, w, choice).pc;
            && Stashing(pc) && Stashed(pc).id == Some(s.remote.files[(host, AssetOf(s.plan, s.journal.steps[w.ordinal].kind).filename)].id)
            && (choice == BytesUnread ==> Stored(pc) == ReadFailed)
  {
  }

  /** A check succeeds only while every attachment of the page is at its host with the id and version that its step confirmed. */
  lemma CheckSeesAttachments(s: Sys, w: Worker, choice: Choice, o: nat)
    requires Wellformed(s) && w.ordinal < |s.journal.steps| && w.pc == Verifying && s.journal.steps[w.ordinal].kind.VerifyStep?
    requires HasClosing(Advance(s, w, choice).pc) && ClosingOf(Advance(s, w, choice).pc).status == Succeeded
    requires o < |s.journal.steps| && s.journal.steps[o].kind.AssetStep? && s.journal.steps[o].status in {Succeeded, Skipped}
    requires PageOf(s.plan, s.journal.steps[o].kind).key == PageOf(s.plan, s.journal.steps[w.ordinal].kind).key
    ensures var key := PageOf(s.plan, s.journal.steps[w.ordinal].kind).key;
            && choice != Mismatch && key in w.parents && w.parents[key].id.Some?
            && var slot := (w.parents[key].id.value, AssetOf(s.plan, s.journal.steps[o].kind).filename);
               && slot in s.remote.files && Some(s.remote.files[slot].id) == s.journal.steps[o].result.id
               && s.remote.files[slot].version == s.journal.steps[o].result.version
  {
    assert AttachmentStands(s, s.journal.steps[o], PageOf(s.plan, s.journal.steps[w.ordinal].kind).key,
                            w.parents[PageOf(s.plan, s.journal.steps[w.ordinal].kind).key].id.value);
  }

  /** A changed connection or audience stops a step before it reads or writes anything of its own. */
  lemma ChangedSettingsStop(s: Sys, w: Worker, choice: Choice)
    requires Wellformed(s) && w.ordinal < |s.journal.steps| && w.pc == Begin && choice in {ProfileBad, AudienceBad}
    ensures var r := Advance(s, w, choice);
            && r.pc.Closed? && r.pc.closing.result == w.result && !Done(r.pc.closing.status)
            && (choice == ProfileBad ==>
                  r.pc.closing.error == Some(ProfileChanged) && r.pc.closing.status == (if w.recover then Uncertain else Conflicted))
            && (choice == AudienceBad ==> r.pc.closing.error != Some(ProfileChanged) && r.pc.closing.status == Conflicted)
  {
  }
}
