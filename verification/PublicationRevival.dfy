/**
  When an abandoned publication comes back. control leaves the lease owner in place, so a worker whose
  lease merely expired can still report its result. An abandoned job is final exactly when no such
  worker is left.
 */
module PublicationRevival {
  import opened Basics
  import opened PublicationJournal
  import opened PublicationSystem
  import opened PublicationLease

  // ------------------------------------------------------------------ where a worker can be

  /** A worker is at a place that belongs to the kind of its step, and has sent what it waits for. */
  predicate Placed(s: Sys, w: Worker)
    requires w.ordinal < |s.journal.steps|
  {
    var kind := s.journal.steps[w.ordinal].kind;
    match w.pc
    case Recovering => kind.PageStep?
    case CheckPage => kind.PageStep?
    case CheckTitle(_) => kind.PageStep?
    case Written(k) => (kind.PageStep? || kind.AssetStep?) && k < |s.sends|
    case GotId(_) => kind.PageStep?
    case Confirm(_) => kind.PageStep?
    case CheckHost => kind.AssetStep?
    case CheckFiles => kind.AssetStep?
    case ReadUploaded => kind.AssetStep?
    case Verifying => kind.VerifyStep?
    case _ => true
  }

  ghost predicate AllPlaced(s: Sys) {
    Inv(s) && forall i :: 0 <= i < |s.workers| ==> Placed(s, s.workers[i])
  }

  predicate PagePc(pc: Pc) {
    pc in {ReadFailed, CheckPage, PreSend} || pc.CheckTitle? || pc.GotId? || HasClosing(pc)
  }

  lemma RecoverGoesOn(s: Sys, w: Worker, page: PagePlan, choice: Choice)
    requires w.pc == Recovering
    ensures PagePc(Recover(s, w, page, choice).pc)
  {
  }

  lemma ChecksGoOn(s: Sys, w: Worker, page: PagePlan, choice: Choice)
    ensures w.pc == CheckPage ==> PagePc(ReadPage(s, w, page, choice).pc)
    ensures w.pc.CheckTitle? ==> PagePc(ReadTitle(s, w, page, w.pc.found, choice).pc)
    ensures w.pc.Confirm? ==> PagePc(ReadBack(s, w, page, w.pc.confirmId, choice).pc)
  {
  }

  lemma PagePlaced(s: Sys, w: Worker, choice: Choice)
    requires Wellformed(s) && w.ordinal < |s.journal.steps| && Placed(s, w)
    requires s.journal.steps[w.ordinal].kind.PageStep? && w.pc != Begin && w.pc != ReadFailed
    ensures Placed(s, Advance(s, w, choice))
  {
    var page := PageOf(s.plan, s.journal.steps[w.ordinal].kind);
    match w.pc
    case Recovering => RecoverGoesOn(s, w, page, choice);
    case CheckPage => ChecksGoOn(s, w, page, choice);
    case CheckTitle(_) => ChecksGoOn(s, w, page, choice);
    case Confirm(_) => ChecksGoOn(s, w, page, choice);
    case _ =>
  }

  lemma AssetPlaced(s: Sys, w: Worker, choice: Choice)
    requires Wellformed(s) && w.ordinal < |s.journal.steps| && Placed(s, w)
    requires s.journal.steps[w.ordinal].kind.AssetStep? && w.pc != Begin && w.pc != ReadFailed
    ensures Placed(s, Advance(s, w, choice))
  {
  }

  lemma AdvancePlaced(s: Sys, w: Worker, choice: Choice)
    requires Wellformed(s) && w.ordinal < |s.journal.steps| && Placed(s, w)
    ensures Placed(s, Advance(s, w, choice))
  {
    if w.pc != Begin && w.pc != ReadFailed {
      if s.journal.steps[w.ordinal].kind.PageStep? {
        PagePlaced(s, w, choice);
      } else if s.journal.steps[w.ordinal].kind.AssetStep? {
        AssetPlaced(s, w, choice);
      }
    }
  }

  lemma PlacedLater(s: Sys, t: Sys, w: Worker)
    requires w.ordinal < |s.journal.steps| && Placed(s, w) && KindsKept(s, t) && |s.sends| <= |t.sends|
    ensures Placed(t, w)
  {
  }

  lemma SendsGrow(s: Sys, e: Event)
    requires Inv(s)
    ensures |s.sends| <= |Next(s, e).sends|
  {
  }

  predicate ByWorkers(e: Event) {
    e.MarkSent? || e.StashId? || e.FinishStep? || e.Crash?
  }

  lemma SentPlaced(s: Sys, id: WorkerId, i: nat)
    requires AllPlaced(s) && id < |s.workers| && i < |s.workers|
    ensures var t := SentEvent(s, id);
            |t.workers| == |s.workers| && t.workers[i].ordinal < |t.journal.steps|
            && (if t.workers[i].pc.Written? then Placed(t, t.workers[i]) else Placed(s, t.workers[i]))
  {
    assert Placed(s, s.workers[i]);
  }

  lemma StashPlaced(s: Sys, id: WorkerId, i: nat)
    requires AllPlaced(s) && id < |s.workers| && i < |s.workers|
    ensures var t := StashEvent(s, id);
            |t.workers| == |s.workers| && t.workers[i].ordinal < |s.journal.steps| && Placed(s, t.workers[i])
  {
    assert Placed(s, s.workers[i]);
  }

  lemma FinishPlaced(s: Sys, id: WorkerId, i: nat)
    requires AllPlaced(s) && id < |s.workers| && i < |s.workers|
    ensures var t := FinishEvent(s, id);
            |t.workers| == |s.workers| && t.workers[i].ordinal < |s.journal.steps| && Placed(s, t.workers[i])
  {
    assert Placed(s, s.workers[i]);
  }

  lemma StepPlaced(s: Sys, e: Event, i: nat)
    requires AllPlaced(s) && ByWorkers(e) && i < |Next(s, e).workers|
    ensures var t := Next(s, e);
            t.workers[i].ordinal < |s.journal.steps| && |s.journal.steps| == |t.journal.steps|
            && (Placed(s, t.workers[i]) || Placed(t, t.workers[i]))
  {
    SameKinds(s, e);
    if e.worker < |s.workers| {
      match e
      case MarkSent(id) => SentPlaced(s, id, i);
      case StashId(id) => StashPlaced(s, id, i);
      case FinishStep(id) => FinishPlaced(s, id, i);
      case Crash(id) => assert Placed(s, s.workers[i]);
    } else {
      assert Placed(s, s.workers[i]);
    }
  }

  lemma OthersPlaced(s: Sys, e: Event, i: nat)
    requires AllPlaced(s) && !ByWorkers(e) && !e.Act? && i < |Next(s, e).workers|
    ensures Next(s, e).workers[i].ordinal < |s.journal.steps| && Placed(s, Next(s, e).workers[i])
  {
    if i < |s.workers| { assert Placed(s, s.workers[i]); }
  }

  lemma NextPlaced(s: Sys, e: Event)
    requires AllPlaced(s)
    ensures AllPlaced(Next(s, e))
  {
    var t := Next(s, e);
    NextKeeps(s, e);
    SameKinds(s, e);
    SendsGrow(s, e);
    forall i | 0 <= i < |t.workers|
      ensures Placed(t, t.workers[i])
    {
      if ByWorkers(e) {
        StepPlaced(s, e, i);
      } else if e.Act? {
        assert Placed(s, s.workers[i]);
        if e.worker == i { AdvancePlaced(s, s.workers[i], e.choice); }
      } else {
        OthersPlaced(s, e, i);
      }
      if Placed(s, t.workers[i]) { PlacedLater(s, t, t.workers[i]); }
    }
  }

  lemma {:induction false} RunPlaced(s: Sys, events: seq<Event>)
    requires AllPlaced(s)
    ensures AllPlaced(Run(s, events))
    decreases |events|
  {
    if events != [] {
      NextPlaced(s, events[0]);
      RunPlaced(Next(s, events[0]), events[1..]);
    }
  }

  // ------------------------------------------------------------------ final or not

  /** The worker that owns the lease can still come to report its result: it has not ended, nor is it about to be refused its send. */
  predicate Live(s: Sys) {
    && s.journal.job.leaseOwner.Some? && s.journal.job.leaseOwner.value < |s.workers|
    && s.workers[s.journal.job.leaseOwner.value].pc !in {Gone, PreSend}
  }

  lemma StuckWorker(s: Sys, e: Event)
    requires Inv(s) && s.journal.job.status == Abandoned && !Live(s) && (ByWorkers(e) || e.Act?)
    ensures Next(s, e).journal == s.journal && !Live(Next(s, e))
  {
    if e.worker < |s.workers| {
      if e.MarkSent? { StuckSent(s, e.worker); } else if e.Act? { StuckAct(s, e.worker, e.choice); }
    }
  }

  lemma StuckSent(s: Sys, id: WorkerId)
    requires Inv(s) && s.journal.job.status == Abandoned && !Live(s) && id < |s.workers|
    ensures SentEvent(s, id).journal == s.journal && !Live(SentEvent(s, id))
  {
  }

  lemma StuckAct(s: Sys, id: WorkerId, choice: Choice)
    requires Inv(s) && !Live(s) && id < |s.workers|
    ensures !Live(s.(workers := s.workers[id := Advance(s, s.workers[id], choice)]))
  {
  }

  lemma StuckStep(s: Sys, e: Event)
    requires Inv(s) && s.journal.job.status == Abandoned && !Live(s)
    ensures Next(s, e).journal == s.journal && !Live(Next(s, e))
  {
    if ByWorkers(e) || e.Act? {
      StuckWorker(s, e);
    } else if (e.CommitRevalidate? || e.CommitResolve?) && e.operator < |s.operators| {
      assert ReviewKept(s, s.operators[e.operator]);
    }
  }

  lemma {:induction false} StuckForever(s: Sys, events: seq<Event>)
    requires Inv(s) && s.journal.job.status == Abandoned && !Live(s)
    ensures Run(s, events).journal == s.journal
    decreases |events|
  {
    if events != [] {
      StuckStep(s, events[0]);
      NextKeeps(s, events[0]);
      StuckForever(Next(s, events[0]), events[1..]);
    }
  }

  /** How many events a live owner needs before it reports. */
  function Distance(pc: Pc): nat {
    if pc.Closed? then 0
    else if pc in {Begin, ReadFailed} || pc.Written? || pc.StashThen? then 1
    else if pc.GotId? then 3
    else 2
  }

  /** The lost response, the failed read or the changed profile that brings a worker to its report. */
  function WayOut(id: WorkerId, pc: Pc): Event {
    if Stashing(pc) then StashId(id)
    else Act(id, if pc == Begin then ProfileBad else if pc.Written? then WriteUnknown else if pc == ReadFailed then Go else ReadError)
  }

  lemma GoesOut(s: Sys)
    requires AllPlaced(s) && s.journal.job.status == Abandoned && Live(s)
    requires !s.workers[s.journal.job.leaseOwner.value].pc.Closed?
    ensures var id := s.journal.job.leaseOwner.value;
            var t := Next(s, WayOut(id, s.workers[id].pc));
            && t.journal.job == s.journal.job && |t.workers| == |s.workers|
            && t.workers[id].pc !in {Gone, PreSend} && Distance(t.workers[id].pc) < Distance(s.workers[id].pc)
  {
    var id := s.journal.job.leaseOwner.value;
    assert Placed(s, s.workers[id]);
  }

  lemma Reports(s: Sys)
    requires Inv(s) && s.journal.job.status == Abandoned && Live(s) && !s.journal.job.active
    requires s.workers[s.journal.job.leaseOwner.value].pc.Closed?
    ensures var t := Next(s, RivalJob(false));
            Inv(t) && Next(t, FinishStep(s.journal.job.leaseOwner.value)).journal.job.status != Abandoned
  {
    NextKeeps(s, RivalJob(false));
  }

  lemma {:induction false} Revives(s: Sys) returns (events: seq<Event>)
    requires AllPlaced(s) && s.journal.job.status == Abandoned && Live(s) && !s.journal.job.active
    ensures Run(s, events).journal.job.status != Abandoned
    decreases Distance(s.workers[s.journal.job.leaseOwner.value].pc)
  {
    var id := s.journal.job.leaseOwner.value;
    if s.workers[id].pc.Closed? {
      Reports(s);
      events := [RivalJob(false), FinishStep(id)];
      RunTwo(s, RivalJob(false), FinishStep(id));
    } else {
      var e := WayOut(id, s.workers[id].pc);
      GoesOut(s);
      NextPlaced(s, e);
      var rest := Revives(Next(s, e));
      events := [e] + rest;
      assert events[1..] == rest;
    }
  }

  lemma RunTwo(s: Sys, a: Event, b: Event)
    requires Inv(s) && Inv(Next(s, a))
    ensures Run(s, [a, b]) == Next(Next(s, a), b)
  {
    NextKeeps(Next(s, a), b);
    assert [a, b][1..] == [b];
    assert [b][1..] == [];
    assert Run(Next(s, a), [b]) == Run(Next(Next(s, a), b), []);
  }

  // ------------------------------------------------------------------ reachable jobs

  ghost predicate Inactive(s: Sys) {
    s.journal.job.active <==> !Terminal(s.journal.job.status)
  }

  lemma InactiveStep(s: Sys, e: Event)
    requires Inv(s) && Inactive(s)
    ensures Inactive(Next(s, e))
  {
    if (e.CommitRevalidate? || e.CommitResolve?) && e.operator < |s.operators| {
      assert ReviewKept(s, s.operators[e.operator]);
    }
  }

  lemma {:induction false} RunInactive(s: Sys, events: seq<Event>)
    requires Inv(s) && Inactive(s)
    ensures Inactive(Run(s, events))
    decreases |events|
  {
    if events != [] {
      InactiveStep(s, events[0]);
      NextKeeps(s, events[0]);
      RunInactive(Next(s, events[0]), events[1..]);
    }
  }

  /**
    In every reachable state an abandoned publication is final exactly when no live worker owns its lease:
    otherwise some continuation makes it active or completed again, and then nothing ever changes its journal.
   */
  lemma AbandonedFinalIff(s: Sys, events: seq<Event>)
    requires Initial(s) && ParentFirst(s.plan)
    ensures Inv(s) && Inv(Run(s, events))
    ensures var t := Run(s, events);
            t.journal.job.status == Abandoned ==>
              && ((exists more :: Run(t, more).journal.job.status != Abandoned) <==> Live(t))
              && (!Live(t) ==> forall more :: Run(t, more).journal == t.journal)
  {
    InitialInv(s);
    RunPlaced(s, events);
    RunInactive(s, events);
    var t := Run(s, events);
    if t.journal.job.status == Abandoned {
      if Live(t) {
        var more := Revives(t);
        assert Run(t, more).journal.job.status != Abandoned;
      } else {
        forall more ensures Run(t, more).journal == t.journal { StuckForever(t, more); }
      }
    }
  }

  // ------------------------------------------------------------------ a run for every plan

  lemma ClaimsFirst(s: Sys)
    requires Initial(s) && Inv(s) && s.profile == s.journal.job.profileVersion && 0 <= s.now
    ensures var c := Next(s, ClaimNext(1));
            && Inv(c) && c.now == s.now && !c.rival && |c.workers| == 1
            && c.workers[0].ordinal == 0 && c.workers[0].pc == Begin && !c.workers[0].recover
            && c.journal.job.status == Running && c.journal.job.revision == 2 && c.journal.job.leaseOwner == Some(0)
            && c.journal.job.leaseUntil == s.now + 180 && !HasUnresolved(c.journal.steps)
  {
    InitialStepsFit(s.plan);
    FirstOpenUnique(s.journal.steps, 0);
    NextKeeps(s, ClaimNext(1));
  }

  /** Its worker finds the connection changed. */
  lemma StopsChanged(c: Sys)
    requires Inv(c) && |c.workers| == 1 && c.workers[0].pc == Begin && !c.workers[0].recover
    ensures var t := Next(c, Act(0, ProfileBad));
            && Inv(t) && t == c.(workers := t.workers) && |t.workers| == 1
            && t.workers[0].pc.Closed? && t.workers[0].pc.closing.status == Conflicted
  {
    NextKeeps(c, Act(0, ProfileBad));
  }

  lemma AbandonedThenReports(t: Sys)
    requires Inv(t) && !t.rival && |t.workers| == 1 && t.workers[0].pc.Closed? && t.workers[0].pc.closing.status == Conflicted
    requires t.journal.job.status == Running && t.journal.job.revision == 2 && t.journal.job.leaseOwner == Some(0)
    requires t.journal.job.leaseUntil <= t.now + 180 && !HasUnresolved(t.journal.steps)
    ensures Inv(Next(t, Tick(180)))
    ensures var a := Next(Next(t, Tick(180)), ControlJob(2, Abandon));
            && Inv(a) && a.journal.job.status == Abandoned && !a.journal.job.active
            && Next(a, FinishStep(0)).journal.job.status == Interrupted(Conflicted) && Next(a, FinishStep(0)).journal.job.active
  {
    NextKeeps(t, Tick(180));
    NextKeeps(Next(t, Tick(180)), ControlJob(2, Abandon));
  }

  /**
    For every plan: the first step is claimed, its worker stalls after finding the connection changed, the
    lease expires, the job is abandoned, and then the worker's report makes it active again.
   */
  lemma AbandonedIsNotFinal(s: Sys)
    requires Initial(s) && ParentFirst(s.plan) && s.profile == s.journal.job.profileVersion && 0 <= s.now
    ensures Inv(s)
    ensures var before := [ClaimNext(1), Act(0, ProfileBad), Tick(180), ControlJob(2, Abandon)];
            && Run(s, before).journal.job.status == Abandoned && !Run(s, before).journal.job.active
            && Run(s, before + [FinishStep(0)]).journal.job.status == Interrupted(Conflicted)
            && Run(s, before + [FinishStep(0)]).journal.job.active
  {
    InitialInv(s);
    ClaimsFirst(s);
    StopsChanged(Next(s, ClaimNext(1)));
    AbandonedThenReports(Next(Next(s, ClaimNext(1)), Act(0, ProfileBad)));
    RunFour(s, ClaimNext(1), Act(0, ProfileBad), Tick(180), ControlJob(2, Abandon));
    RunAppend(s, [ClaimNext(1), Act(0, ProfileBad), Tick(180), ControlJob(2, Abandon)], FinishStep(0));
  }

  lemma RunFour(s: Sys, a: Event, b: Event, c: Event, d: Event)
    requires Inv(s)
    ensures Inv(Next(s, a)) && Inv(Next(Next(s, a), b)) && Inv(Next(Next(Next(s, a), b), c))
    ensures Run(s, [a, b, c, d]) == Next(Next(Next(Next(s, a), b), c), d)
  {
    NextKeeps(s, a);
    NextKeeps(Next(s, a), b);
    NextKeeps(Next(Next(s, a), b), c);
    NextKeeps(Next(Next(Next(s, a), b), c), d);
    RunAppend(s, [], a);
    RunAppend(s, [a], b);
    RunAppend(s, [a, b], c);
    RunAppend(s, [a, b, c], d);
    assert [] + [a] == [a] && [a] + [b] == [a, b] && [a, b] + [c] == [a, b, c] && [a, b, c] + [d] == [a, b, c, d];
  }
}
