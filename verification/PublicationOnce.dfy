/**
  Creates and uploads are never repeated blindly. In every run, two send marks of one such step are
  separated by a definite rejection, a recorded conflict, or an operator's confirmation that the
  write was not applied.
 */
module PublicationOnce {
  import opened Basics
  import opened PublicationJournal
  import opened PublicationSystem
  import opened PublicationLease

  /** A step whose write carries no version check: a new page, or an upload. */
  predicate Blind(plan: Plan, kind: StepKind)
    requires KindFits(plan, kind)
  {
    match kind
    case PageStep(p) => plan.pages[p].remoteId.None?
    case AssetStep(_, _) => true
    case _ => false
  }

  predicate BlindStep(s: Sys, o: int)
    requires Wellformed(s)
  {
    0 <= o < |s.journal.steps| && Blind(s.plan, s.journal.steps[o].kind)
  }

  predicate Settles(e: Entry, o: int) {
    e.ordinal == o && !e.MarkedSent?
  }

  predicate Marks(e: Entry, o: int) {
    e.ordinal == o && e.MarkedSent?
  }

  /** The step was marked sent and nothing has settled that mark yet. */
  predicate Unsettled(log: seq<Entry>, o: int) {
    log != [] && (Marks(log[|log| - 1], o) || (!Settles(log[|log| - 1], o) && Unsettled(log[..|log| - 1], o)))
  }

  predicate Separated(log: seq<Entry>, o: int) {
    forall i, j :: 0 <= i < j < |log| && Marks(log[i], o) && Marks(log[j], o) ==>
      exists k :: i < k < j && Settles(log[k], o)
  }

  lemma UnsettledAppend(log: seq<Entry>, e: Entry, o: int)
    ensures Unsettled(log + [e], o) == (Marks(e, o) || (!Settles(e, o) && Unsettled(log, o)))
  {
    assert (log + [e])[..|log|] == log;
  }

  lemma {:induction false} SettledSince(log: seq<Entry>, o: int, i: int)
    requires !Unsettled(log, o) && 0 <= i < |log| && Marks(log[i], o)
    ensures exists k :: i < k < |log| && Settles(log[k], o)
  {
    var n := |log| - 1;
    if !Settles(log[n], o) {
      SettledSince(log[..n], o, i);
    }
  }

  lemma SeparatedAppend(log: seq<Entry>, e: Entry, o: int)
    requires Separated(log, o) && (Marks(e, o) ==> !Unsettled(log, o))
    ensures Separated(log + [e], o)
  {
    var longer := log + [e];
    forall i, j | 0 <= i < j < |longer| && Marks(longer[i], o) && Marks(longer[j], o)
      ensures exists k :: i < k < j && Settles(longer[k], o)
    {
      if j < |log| {
        assert Marks(log[i], o) && Marks(log[j], o);
        var k :| i < k < j && Settles(log[k], o);
        assert Settles(longer[k], o);
      } else {
        SettledSince(log, o, i);
        var k :| i < k < |log| && Settles(log[k], o);
        assert Settles(longer[k], o);
      }
    }
  }

  // ------------------------------------------------------------------ the invariant

  predicate WorkerOnce(s: Sys, id: WorkerId, w: Worker)
    requires Wellformed(s) && w.ordinal < |s.journal.steps|
  {
    && (BeforeSend(w.pc) ==> w.lastSend.None?)
    && (HasClosing(w.pc) ==> ClosingOf(w.pc).status !in {Pending, Inflight})
    && (BlindStep(s, w.ordinal) ==>
          && ((w.pc in {CheckPage, PreSend} || w.pc.CheckTitle?) ==> !w.recover)
          && (Holds(s.journal, id) && w.lastSend.None? && !w.recover ==> !Unsettled(s.log, w.ordinal))
          && (Holds(s.journal, id) && HasClosing(w.pc) && ClosingOf(w.pc).status == Failed && !ClosingOf(w.pc).rejected
              ==> !Unsettled(s.log, w.ordinal)))
  }

  predicate StepOnce(s: Sys, o: int)
    requires Wellformed(s) && BlindStep(s, o)
  {
    Unsettled(s.log, o) ==>
      var step := s.journal.steps[o];
      Done(step.status) || (Ambiguous(step.status) && step.sent)
  }

  ghost predicate OnceInv(s: Sys) {
    && Inv(s)
    && (forall o :: BlindStep(s, o) ==> StepOnce(s, o) && Separated(s.log, o))
    && (forall i :: 0 <= i < |s.workers| ==> WorkerOnce(s, i, s.workers[i]))
  }

  lemma AdvanceOnce(s: Sys, id: WorkerId, choice: Choice)
    requires OnceInv(s) && id < |s.workers|
    ensures WorkerOnce(s, id, Advance(s, s.workers[id], choice))
  {
    var w := s.workers[id];
    assert WorkerOnce(s, id, w);
    if BlindStep(s, w.ordinal) { assert StepOnce(s, w.ordinal); }
    if w.pc == ReadFailed && Holds(s.journal, id) {
      assert IsFirstOpen(s.journal.steps, w.ordinal);
    }
  }

  /** Events that leave journal and log alone only have to account for the workers they moved. */
  lemma QuietOnce(s: Sys, t: Sys)
    requires OnceInv(s) && Inv(t)
    requires t.plan == s.plan && t.journal == s.journal && t.log == s.log && |t.workers| == |s.workers|
    requires forall i :: 0 <= i < |s.workers| ==> WorkerOnce(s, i, t.workers[i])
    ensures OnceInv(t)
  {
    forall o | BlindStep(t, o)
      ensures StepOnce(t, o) && Separated(t.log, o)
    {
      assert BlindStep(s, o);
      assert StepOnce(s, o);
    }
    forall i | 0 <= i < |t.workers|
      ensures WorkerOnce(t, i, t.workers[i])
    {
      assert WorkerOnce(s, i, t.workers[i]);
    }
  }

  lemma ClaimOnce(s: Sys, expected: nat)
    requires OnceInv(s) && Inv(ClaimEvent(s, expected))
    ensures OnceInv(ClaimEvent(s, expected))
  {
    var t := ClaimEvent(s, expected);
    forall o | BlindStep(t, o)
      ensures StepOnce(t, o) && Separated(t.log, o)
    {
      assert BlindStep(s, o);
      assert StepOnce(s, o);
    }
    forall i | 0 <= i < |t.workers|
      ensures WorkerOnce(t, i, t.workers[i])
    {
      if i < |s.workers| { assert WorkerOnce(s, i, s.workers[i]); }
      var o := t.workers[i].ordinal;
      if BlindStep(s, o) { assert StepOnce(s, o); }
    }
  }

  /** A mark or a recorded result: one entry more, and one worker that goes on. */
  lemma LoggedOnce(s: Sys, t: Sys, id: WorkerId, entries: seq<Entry>)
    requires OnceInv(s) && Inv(t) && id < |s.workers| && t.plan == s.plan && |entries| <= 1 && t.log == s.log + entries
    requires |t.journal.steps| == |s.journal.steps|
    requires forall o :: 0 <= o < |s.journal.steps| ==> t.journal.steps[o].kind == s.journal.steps[o].kind
    requires entries != [] && entries[0].MarkedSent? && BlindStep(s, entries[0].ordinal) ==> !Unsettled(s.log, entries[0].ordinal)
    requires forall o :: BlindStep(s, o) && Unsettled(t.log, o) ==> StepOnce(t, o)
    requires |t.workers| == |s.workers| && forall i :: 0 <= i < |t.workers| ==> WorkerOnce(t, i, t.workers[i])
    ensures OnceInv(t)
  {
    forall o | BlindStep(t, o)
      ensures StepOnce(t, o) && Separated(t.log, o)
    {
      assert BlindStep(s, o);
      if entries != [] {
        assert entries == [entries[0]];
        SeparatedAppend(s.log, entries[0], o);
      } else {
        assert t.log == s.log;
      }
    }
  }

  lemma SentWorkers(s: Sys, id: WorkerId)
    requires OnceInv(s) && id < |s.workers| && Inv(SentEvent(s, id)) && SentEvent(s, id).journal != s.journal
    ensures var t := SentEvent(s, id);
            forall i :: 0 <= i < |t.workers| ==> WorkerOnce(t, i, t.workers[i])
  {
    var t := SentEvent(s, id);
    assert WorkerOnce(s, id, s.workers[id]);
    forall i | 0 <= i < |t.workers|
      ensures WorkerOnce(t, i, t.workers[i])
    {
      assert WorkerOnce(s, i, s.workers[i]);
      UnsettledAppend(s.log, MarkedSent(s.workers[id].ordinal), t.workers[i].ordinal);
    }
  }

  lemma SentSteps(s: Sys, id: WorkerId, o: int)
    requires OnceInv(s) && id < |s.workers| && Inv(SentEvent(s, id)) && SentEvent(s, id).journal != s.journal
    requires BlindStep(s, o) && Unsettled(SentEvent(s, id).log, o)
    ensures BlindStep(SentEvent(s, id), o) && StepOnce(SentEvent(s, id), o)
  {
    assert StepOnce(s, o);
    UnsettledAppend(s.log, MarkedSent(s.workers[id].ordinal), o);
  }

  lemma MarkedOnce(s: Sys, id: WorkerId)
    requires OnceInv(s) && id < |s.workers| && Inv(SentEvent(s, id)) && SentEvent(s, id).journal != s.journal
    ensures OnceInv(SentEvent(s, id))
  {
    var t := SentEvent(s, id);
    assert WorkerOnce(s, id, s.workers[id]);
    SentWorkers(s, id);
    forall o | BlindStep(s, o) && Unsettled(t.log, o) ensures StepOnce(t, o) { SentSteps(s, id, o); }
    LoggedOnce(s, t, id, [MarkedSent(s.workers[id].ordinal)]);
  }

  lemma SentOnce(s: Sys, id: WorkerId)
    requires OnceInv(s) && id < |s.workers| && Inv(SentEvent(s, id))
    ensures OnceInv(SentEvent(s, id))
  {
    var t := SentEvent(s, id);
    if t.journal != s.journal {
      MarkedOnce(s, id);
    } else {
      forall i | 0 <= i < |s.workers| ensures WorkerOnce(s, i, t.workers[i]) {
        assert WorkerOnce(s, i, s.workers[i]);
      }
      QuietOnce(s, t);
    }
  }

  /** The facts about a worker depend on the kind of its step, the lease owner and the history only. */
  lemma WorkerFrame(s: Sys, t: Sys, id: WorkerId, w: Worker)
    requires Wellformed(s) && Wellformed(t) && w.ordinal < |s.journal.steps| == |t.journal.steps| && WorkerOnce(s, id, w)
    requires t.plan == s.plan && t.log == s.log && t.journal.job.leaseOwner == s.journal.job.leaseOwner
    requires t.journal.steps[w.ordinal].kind == s.journal.steps[w.ordinal].kind
    ensures WorkerOnce(t, id, w)
  {
  }

  lemma StashedWorker(s: Sys, id: WorkerId, w: Worker)
    requires Wellformed(s) && w.ordinal < |s.journal.steps| && WorkerOnce(s, id, w) && Stashing(w.pc)
    ensures WorkerOnce(s, id, w.(pc := Stored(w.pc), result := Stashed(w.pc)))
    ensures WorkerOnce(s, id, w.(pc := Closed(ProfileLost(w))))
  {
  }

  lemma StashOnce(s: Sys, id: WorkerId)
    requires OnceInv(s) && id < |s.workers| && Inv(StashEvent(s, id))
    ensures OnceInv(StashEvent(s, id))
  {
    var t, w := StashEvent(s, id), s.workers[id];
    assert WorkerOnce(s, id, w);
    if Stashing(w.pc) {
      StashedWorker(s, id, w);
      StashedOnce(s, t, id);
    }
  }

  lemma StashedOnce(s: Sys, t: Sys, id: WorkerId)
    requires OnceInv(s) && Inv(t) && id < |s.workers| && t.plan == s.plan && t.log == s.log
    requires t.journal.job == s.journal.job && |t.journal.steps| == |s.journal.steps|
    requires forall o :: 0 <= o < |s.journal.steps| ==>
               && t.journal.steps[o].kind == s.journal.steps[o].kind && t.journal.steps[o].status == s.journal.steps[o].status
               && t.journal.steps[o].sent == s.journal.steps[o].sent
    requires |t.workers| == |s.workers| && t.workers == s.workers[id := t.workers[id]] && WorkerOnce(s, id, t.workers[id])
    ensures OnceInv(t)
  {
    forall o | BlindStep(t, o)
      ensures StepOnce(t, o) && Separated(t.log, o)
    {
      assert BlindStep(s, o);
      assert StepOnce(s, o);
    }
    forall i | 0 <= i < |t.workers|
      ensures WorkerOnce(t, i, t.workers[i])
    {
      assert i != id ==> WorkerOnce(s, i, s.workers[i]);
      WorkerFrame(s, t, i, t.workers[i]);
    }
  }

  lemma FinishWorkers(s: Sys, id: WorkerId)
    requires OnceInv(s) && id < |s.workers| && Inv(FinishEvent(s, id)) && FinishEvent(s, id).journal != s.journal
    ensures var t := FinishEvent(s, id);
            forall i :: 0 <= i < |t.workers| ==> WorkerOnce(t, i, t.workers[i])
  {
    var t := FinishEvent(s, id);
    forall i | 0 <= i < |t.workers|
      ensures WorkerOnce(t, i, t.workers[i])
    {
      assert WorkerOnce(s, i, s.workers[i]);
    }
  }

  lemma FinishSteps(s: Sys, id: WorkerId, o: int)
    requires OnceInv(s) && id < |s.workers| && Inv(FinishEvent(s, id)) && FinishEvent(s, id).journal != s.journal
    requires BlindStep(s, o) && Unsettled(FinishEvent(s, id).log, o)
    ensures BlindStep(FinishEvent(s, id), o) && StepOnce(FinishEvent(s, id), o)
  {
    var w := s.workers[id];
    var entries := FinishEntries(w.ordinal, w.pc.closing);
    assert WorkerOnce(s, id, w);
    assert StepOnce(s, o);
    if entries != [] {
      assert s.log + entries == s.log + [entries[0]];
      UnsettledAppend(s.log, entries[0], o);
    } else {
      assert s.log + entries == s.log;
    }
  }

  lemma FinishOnce(s: Sys, id: WorkerId)
    requires OnceInv(s) && id < |s.workers| && Inv(FinishEvent(s, id))
    ensures OnceInv(FinishEvent(s, id))
  {
    var t := FinishEvent(s, id);
    if t.journal != s.journal {
      FinishWorkers(s, id);
      forall o | BlindStep(s, o) && Unsettled(t.log, o) ensures StepOnce(t, o) { FinishSteps(s, id, o); }
      LoggedOnce(s, t, id, FinishEntries(s.workers[id].ordinal, s.workers[id].pc.closing));
    } else {
      forall i | 0 <= i < |s.workers| ensures WorkerOnce(s, i, t.workers[i]) {
        assert WorkerOnce(s, i, s.workers[i]);
      }
      QuietOnce(s, t);
    }
  }

  lemma ResolveOnce(s: Sys, op: nat)
    requires OnceInv(s) && op < |s.operators| && Inv(ResolveCommitEvent(s, op))
    ensures OnceInv(ResolveCommitEvent(s, op))
  {
    var t := ResolveCommitEvent(s, op);
    if t.journal != s.journal {
      var k := s.operators[op].ordinal;
      var settled := s.operators[op].page.None?;
      if !settled { assert t.log == s.log; }
      forall o
        ensures Unsettled(t.log, o) ==> Unsettled(s.log, o) && (settled ==> o != k)
        ensures Separated(s.log, o) ==> Separated(t.log, o)
      {
        UnsettledAppend(s.log, NotAppliedConfirmed(k), o);
        if settled && Separated(s.log, o) { SeparatedAppend(s.log, NotAppliedConfirmed(k), o); }
      }
      forall o | BlindStep(t, o)
        ensures StepOnce(t, o) && Separated(t.log, o)
      {
        assert BlindStep(s, o);
        assert StepOnce(s, o);
      }
      forall i | 0 <= i < |t.workers|
        ensures WorkerOnce(t, i, t.workers[i])
      {
        assert WorkerOnce(s, i, s.workers[i]);
      }
    }
  }

  lemma RevalidateOnce(s: Sys, op: nat)
    requires OnceInv(s) && op < |s.operators| && Inv(RevalidateCommitEvent(s, op))
    ensures OnceInv(RevalidateCommitEvent(s, op))
  {
    var t := RevalidateCommitEvent(s, op);
    forall o | BlindStep(t, o)
      ensures StepOnce(t, o) && Separated(t.log, o)
    {
      assert BlindStep(s, o);
      assert StepOnce(s, o);
    }
    forall i | 0 <= i < |t.workers|
      ensures WorkerOnce(t, i, t.workers[i])
    {
      assert WorkerOnce(s, i, s.workers[i]);
    }
  }

  lemma ControlOnce(s: Sys, expected: nat, action: ControlAction)
    requires OnceInv(s) && Inv(s.(journal := AfterControl(s.journal, expected, s.now, action)))
    ensures OnceInv(s.(journal := AfterControl(s.journal, expected, s.now, action)))
  {
    var t := s.(journal := AfterControl(s.journal, expected, s.now, action));
    forall o | BlindStep(t, o)
      ensures StepOnce(t, o) && Separated(t.log, o)
    {
      assert BlindStep(s, o);
      assert StepOnce(s, o);
    }
    forall i | 0 <= i < |t.workers|
      ensures WorkerOnce(t, i, t.workers[i])
    {
      assert WorkerOnce(s, i, s.workers[i]);
    }
  }

  lemma ActOnce(s: Sys, id: WorkerId, w: Worker)
    requires OnceInv(s) && id < |s.workers| && Inv(s.(workers := s.workers[id := w]))
    requires w.ordinal < |s.journal.steps| && WorkerOnce(s, id, w)
    ensures OnceInv(s.(workers := s.workers[id := w]))
  {
    var t := s.(workers := s.workers[id := w]);
    forall i | 0 <= i < |s.workers|
      ensures WorkerOnce(s, i, t.workers[i])
    {
      assert WorkerOnce(s, i, s.workers[i]);
    }
    QuietOnce(s, t);
  }

  predicate Quiet(e: Event) {
    || e.Tick? || e.EditProfile? || e.RivalJob? || e.BeginRevalidate? || e.BeginResolve? || e.CheckResolve?
    || e.RemoteApplies? || e.RemoteDrops? || e.OutsideEdit? || e.OutsideCreate? || e.OutsideTrash? || e.OutsideFile?
  }

  lemma QuietFrame(s: Sys, e: Event)
    requires Inv(s) && Quiet(e)
    ensures var t := Next(s, e);
            t.plan == s.plan && t.journal == s.journal && t.log == s.log && t.workers == s.workers
  {
  }

  lemma NextOnce(s: Sys, e: Event)
    requires OnceInv(s)
    ensures OnceInv(Next(s, e))
  {
    NextKeeps(s, e);
    if Quiet(e) {
      QuietFrame(s, e);
      forall i | 0 <= i < |s.workers| ensures WorkerOnce(s, i, Next(s, e).workers[i]) {
        assert WorkerOnce(s, i, s.workers[i]);
      }
      QuietOnce(s, Next(s, e));
    } else {
      match e
      case ClaimNext(expected) => ClaimOnce(s, expected);
      case Act(id, choice) =>
        if id < |s.workers| {
          AdvanceOnce(s, id, choice);
          ActOnce(s, id, Advance(s, s.workers[id], choice));
        }
      case Crash(id) =>
        if id < |s.workers| {
          assert WorkerOnce(s, id, s.workers[id]);
          ActOnce(s, id, s.workers[id].(pc := Gone));
        }
      case MarkSent(id) => if id < |s.workers| { SentOnce(s, id); }
      case StashId(id) => if id < |s.workers| { StashOnce(s, id); }
      case FinishStep(id) => if id < |s.workers| { FinishOnce(s, id); }
      case ControlJob(expected, action) => ControlOnce(s, expected, action);
      case CommitRevalidate(op) => if op < |s.operators| { RevalidateOnce(s, op); }
      case CommitResolve(op) => if op < |s.operators| { ResolveOnce(s, op); }
    }
  }

  lemma {:induction false} RunOnce(s: Sys, events: seq<Event>)
    requires OnceInv(s)
    ensures OnceInv(Run(s, events))
    decreases |events|
  {
    if events != [] {
      NextOnce(s, events[0]);
      RunOnce(Next(s, events[0]), events[1..]);
    }
  }

  /** In every run, two send marks of one create or upload are separated by a record that settles the first. */
  lemma SendMarksAreSeparated(s: Sys, events: seq<Event>, o: int)
    requires Initial(s) && ParentFirst(s.plan)
    ensures Inv(s) && Inv(Run(s, events))
    ensures BlindStep(Run(s, events), o) ==> Separated(Run(s, events).log, o)
  {
    InitialInv(s);
    RunOnce(s, events);
  }
}
