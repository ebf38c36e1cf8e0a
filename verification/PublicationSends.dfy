/**
  At most one write of a create or upload takes effect, however late the remote applies it, provided
  that a create or upload is repeated after a conflict or after an operator's confirmation only when
  these records were true: no earlier write of the step can still be applied, and none was. Page
  updates, and repeats after the remote's own rejection, are not restricted.
 */
module PublicationSends {
  import opened Basics
  import opened PublicationJournal
  import opened PublicationSystem
  import opened PublicationLease
  import opened PublicationOnce

  predicate AllDead(sends: seq<Send>, o: int) {
    forall k :: 0 <= k < |sends| && sends[k].ordinal == o ==> sends[k].state == Dead
  }

  /** Only the latest send of a step can still be alive. */
  predicate OnlyLastAlive(sends: seq<Send>, o: int) {
    forall i, j :: 0 <= i < j < |sends| && sends[i].ordinal == o && sends[j].ordinal == o ==> sends[i].state == Dead
  }

  /** Nothing is recorded about the step, or the last record is the remote's own definite rejection. */
  predicate Refused(log: seq<Entry>, o: int) {
    log == [] || (var last := log[|log| - 1];
                  if last.ordinal == o then last.DefiniteRejection? else Refused(log[..|log| - 1], o))
  }

  lemma RefusedAppend(log: seq<Entry>, e: Entry, o: int)
    ensures Refused(log + [e], o) == if e.ordinal == o then e.DefiniteRejection? else Refused(log, o)
  {
    assert (log + [e])[..|log|] == log;
  }

  predicate Sends(s: Sys, id: WorkerId)
    requires Wellformed(s) && id < |s.workers|
  {
    s.workers[id].pc == PreSend && MaySend(s.journal, id, s.now) && WriteOf(s, s.workers[id]).Some?
  }

  /** The last record about the step is a conflict, or an operator's confirmation that nothing was applied. */
  predicate OnRecord(log: seq<Entry>, o: int) {
    log != [] && (var last := log[|log| - 1];
                  if last.ordinal == o then last.ConflictRecorded? || last.NotAppliedConfirmed? else OnRecord(log[..|log| - 1], o))
  }

  lemma {:induction false} RefusedOrOnRecord(log: seq<Entry>, o: int)
    ensures Refused(log, o) || OnRecord(log, o) || Unsettled(log, o)
    decreases |log|
  {
    if log != [] { RefusedOrOnRecord(log[..|log| - 1], o); }
  }

  /** A create or upload repeated after a conflict or a confirmation finds that record true. */
  predicate Truthful(s: Sys, e: Event)
    requires Wellformed(s)
  {
    match e
    case MarkSent(id) =>
      id < |s.workers| && Sends(s, id) && BlindStep(s, s.workers[id].ordinal) && OnRecord(s.log, s.workers[id].ordinal)
      ==> AllDead(s.sends, s.workers[id].ordinal)
    case _ => true
  }

  ghost predicate TruthfulRun(s: Sys, events: seq<Event>)
    requires Inv(s)
    decreases |events|
  {
    events != [] ==>
      && Truthful(s, events[0])
      && (NextKeeps(s, events[0]);
          TruthfulRun(Next(s, events[0]), events[1..]))
  }

  predicate WorkerSends(s: Sys, id: WorkerId, w: Worker) {
    && (w.lastSend.Some? ==>
          && w.lastSend.value < |s.sends|
          && s.sends[w.lastSend.value].ordinal == w.ordinal
          && (Holds(s.journal, id) ==>
                forall j :: w.lastSend.value < j < |s.sends| ==> s.sends[j].ordinal != w.ordinal))
    && (w.pc.Written? ==> w.lastSend == Some(w.pc.send))
    && (HasClosing(w.pc) && ClosingOf(w.pc).rejected ==>
          w.lastSend.Some? && w.lastSend.value < |s.sends| && s.sends[w.lastSend.value].state == Dead)
  }

  predicate StepSends(s: Sys, o: int) {
    OnlyLastAlive(s.sends, o) && (Refused(s.log, o) ==> AllDead(s.sends, o))
  }

  ghost predicate SendsInv(s: Sys) {
    && OnceInv(s)
    && (forall i :: 0 <= i < |s.workers| ==> WorkerSends(s, i, s.workers[i]))
    && (forall o :: BlindStep(s, o) ==> StepSends(s, o))
  }

  lemma AdvanceSends(s: Sys, id: WorkerId, choice: Choice)
    requires SendsInv(s) && id < |s.workers|
    ensures WorkerSends(s, id, Advance(s, s.workers[id], choice))
  {
    assert WorkerSends(s, id, s.workers[id]);
  }

  /** Send states only move from on the way to applied or dead. */
  predicate Resolved(s: Sys, t: Sys) {
    && |t.sends| == |s.sends|
    && forall k :: 0 <= k < |s.sends| ==>
         && t.sends[k].ordinal == s.sends[k].ordinal && t.sends[k].write == s.sends[k].write
         && (s.sends[k].state != OnTheWay ==> t.sends[k].state == s.sends[k].state)
  }

  lemma SameSendsKeep(s: Sys, t: Sys)
    requires SendsInv(s) && OnceInv(t)
    requires t.plan == s.plan && |t.journal.steps| == |s.journal.steps| && Resolved(s, t)
    requires forall o :: 0 <= o < |s.journal.steps| ==> t.journal.steps[o].kind == s.journal.steps[o].kind
    requires forall o :: BlindStep(s, o) && !Refused(s.log, o) && Refused(t.log, o) ==> AllDead(s.sends, o)
    requires forall i :: 0 <= i < |t.workers| ==> WorkerSends(s.(journal := t.journal), i, t.workers[i])
    ensures SendsInv(t)
  {
    forall o | BlindStep(t, o)
      ensures StepSends(t, o)
    {
      assert BlindStep(s, o);
      assert StepSends(s, o);
    }
    forall i | 0 <= i < |t.workers|
      ensures WorkerSends(t, i, t.workers[i])
    {
      assert WorkerSends(s.(journal := t.journal), i, t.workers[i]);
    }
  }

  lemma SentAppends(s: Sys, id: WorkerId)
    requires SendsInv(s) && id < |s.workers|
    requires Sends(s, id)
    ensures var t := SentEvent(s, id);
            var o := s.workers[id].ordinal;
            && t.plan == s.plan && t.workers == s.workers[id := t.workers[id]]
            && t.journal.job == s.journal.job && |t.journal.steps| == |s.journal.steps|
            && (forall i :: 0 <= i < |s.journal.steps| ==> t.journal.steps[i].kind == s.journal.steps[i].kind)
            && t.sends == s.sends + [Send(o, WriteOf(s, s.workers[id]).value, OnTheWay)]
            && t.log == s.log + [MarkedSent(o)]
            && t.workers[id].pc == Written(|s.sends|) && t.workers[id].lastSend == Some(|s.sends|)
            && t.workers[id].ordinal == o
  {
  }

  lemma SentSends(s: Sys, id: WorkerId)
    requires SendsInv(s) && id < |s.workers| && OnceInv(SentEvent(s, id)) && Truthful(s, MarkSent(id))
    ensures SendsInv(SentEvent(s, id))
  {
    var t := SentEvent(s, id);
    var w := s.workers[id];
    assert WorkerSends(s, id, w);
    if Sends(s, id) {
      SentAppends(s, id);
      if BlindStep(s, w.ordinal) {
        assert StepSends(s, w.ordinal);
        assert WorkerOnce(s, id, w);
        RefusedOrOnRecord(s.log, w.ordinal);
      }
      MarkedSendsKeep(s, t, id);
    } else {
      assert t.workers == s.workers || t.workers == s.workers[id := w.(pc := Gone)];
      assert t.journal == s.journal && t.sends == s.sends && t.log == s.log;
      forall i | 0 <= i < |t.workers|
        ensures WorkerSends(s.(journal := t.journal), i, t.workers[i])
      {
        assert WorkerSends(s, i, s.workers[i]);
      }
      SameSendsKeep(s, t);
    }
  }

  lemma MarkedSendsKeep(s: Sys, t: Sys, id: WorkerId)
    requires SendsInv(s) && OnceInv(t) && id < |s.workers| && |t.workers| == |s.workers|
    requires t.plan == s.plan && t.journal.job == s.journal.job && |t.journal.steps| == |s.journal.steps|
    requires forall i :: 0 <= i < |s.journal.steps| ==> t.journal.steps[i].kind == s.journal.steps[i].kind
    requires t.workers == s.workers[id := t.workers[id]]
    requires t.workers[id].pc == Written(|s.sends|) && t.workers[id].lastSend == Some(|s.sends|)
    requires Holds(s.journal, id)
    requires |t.sends| == |s.sends| + 1 && t.sends[..|s.sends|] == s.sends
    requires t.sends[|s.sends|].ordinal == t.workers[id].ordinal
    requires t.log == s.log + [MarkedSent(t.workers[id].ordinal)]
    requires BlindStep(s, t.workers[id].ordinal) ==> AllDead(s.sends, t.workers[id].ordinal)
    ensures SendsInv(t)
  {
    assert forall k :: 0 <= k < |s.sends| ==> t.sends[k] == t.sends[..|s.sends|][k];
    forall i | 0 <= i < |t.workers|
      ensures WorkerSends(t, i, t.workers[i])
    {
      assert WorkerSends(s, i, s.workers[i]);
    }
    forall o | BlindStep(t, o)
      ensures StepSends(t, o)
    {
      assert BlindStep(s, o);
      assert StepSends(s, o);
      RefusedAppend(s.log, MarkedSent(t.workers[id].ordinal), o);
    }
  }

  lemma FinishSends(s: Sys, id: WorkerId)
    requires SendsInv(s) && id < |s.workers| && OnceInv(FinishEvent(s, id))
    ensures SendsInv(FinishEvent(s, id))
  {
    var t := FinishEvent(s, id);
    var w := s.workers[id];
    assert WorkerSends(s, id, w);
    forall o | BlindStep(s, o) && !Refused(s.log, o) && Refused(t.log, o)
      ensures AllDead(s.sends, o)
    {
      assert StepSends(s, o);
      var entries := FinishEntries(w.ordinal, w.pc.closing);
      assert entries == [] ==> t.log == s.log;
      if entries != [] {
        assert t.log == s.log + [entries[0]];
        RefusedAppend(s.log, entries[0], o);
      }
    }
    forall i | 0 <= i < |t.workers|
      ensures WorkerSends(s.(journal := t.journal), i, t.workers[i])
    {
      assert WorkerSends(s, i, s.workers[i]);
    }
    SameSendsKeep(s, t);
  }

  lemma ResolveSends(s: Sys, op: nat)
    requires SendsInv(s) && op < |s.operators| && OnceInv(ResolveCommitEvent(s, op))
    ensures SendsInv(ResolveCommitEvent(s, op))
  {
    var t := ResolveCommitEvent(s, op);
    if t != s {
      var k := s.operators[op].ordinal;
      forall o
        ensures Refused(t.log, o) ==> Refused(s.log, o)
      {
        assert s.operators[op].page.Some? ==> t.log == s.log + [] == s.log;
        if s.operators[op].page.None? {
          RefusedAppend(s.log, NotAppliedConfirmed(k), o);
        }
      }
      forall i | 0 <= i < |t.workers|
        ensures WorkerSends(s.(journal := t.journal), i, t.workers[i])
      {
        assert WorkerSends(s, i, s.workers[i]);
      }
      SameSendsKeep(s, t);
    }
  }

  lemma ApplyResolves(s: Sys, k: nat, stored: Body, newId: RemoteId)
    requires k < |s.sends|
    ensures var t := ApplyEvent(s, k, stored, newId);
            Resolved(s, t) && t == s.(sends := t.sends, remote := t.remote)
  {
  }

  lemma StashSends(s: Sys, id: WorkerId)
    requires SendsInv(s) && id < |s.workers| && OnceInv(StashEvent(s, id))
    ensures SendsInv(StashEvent(s, id))
  {
    var t := StashEvent(s, id);
    forall i | 0 <= i < |t.workers|
      ensures WorkerSends(s.(journal := t.journal), i, t.workers[i])
    {
      assert WorkerSends(s, i, s.workers[i]);
    }
    SameSendsKeep(s, t);
  }

  lemma QuietResolves(s: Sys, e: Event)
    requires Inv(s) && Quiet(e)
    ensures Resolved(s, Next(s, e))
  {
    if e.RemoteApplies? && e.send < |s.sends| { ApplyResolves(s, e.send, e.stored, e.newId); }
  }

  /** Events that mark nothing, settle nothing and leave the journal alone. */
  lemma QuietSends(s: Sys, e: Event)
    requires SendsInv(s) && Quiet(e) && OnceInv(Next(s, e))
    ensures SendsInv(Next(s, e))
  {
    var t := Next(s, e);
    QuietResolves(s, e);
    QuietFrame(s, e);
    forall i | 0 <= i < |t.workers|
      ensures WorkerSends(s.(journal := t.journal), i, t.workers[i])
    {
      assert WorkerSends(s, i, s.workers[i]);
    }
    SameSendsKeep(s, t);
  }

  lemma ClaimSends(s: Sys, expected: nat)
    requires SendsInv(s) && OnceInv(ClaimEvent(s, expected))
    ensures SendsInv(ClaimEvent(s, expected))
  {
    var t := ClaimEvent(s, expected);
    forall i | 0 <= i < |t.workers|
      ensures WorkerSends(s.(journal := t.journal), i, t.workers[i])
    {
      if i < |s.workers| { assert WorkerSends(s, i, s.workers[i]); }
    }
    SameSendsKeep(s, t);
  }

  /** Control, revalidation and a crash keep the lease owner, the sends and the history. */
  lemma ReviewSends(s: Sys, t: Sys)
    requires SendsInv(s) && OnceInv(t)
    requires t.plan == s.plan && t.sends == s.sends && t.log == s.log && |t.workers| == |s.workers|
    requires t.journal.job.leaseOwner == s.journal.job.leaseOwner && |t.journal.steps| == |s.journal.steps|
    requires forall o :: 0 <= o < |s.journal.steps| ==> t.journal.steps[o].kind == s.journal.steps[o].kind
    requires forall i :: 0 <= i < |s.workers| ==>
               t.workers[i] == s.workers[i] || t.workers[i] == s.workers[i].(pc := Gone)
    ensures SendsInv(t)
  {
    forall i | 0 <= i < |t.workers|
      ensures WorkerSends(s.(journal := t.journal), i, t.workers[i])
    {
      assert WorkerSends(s, i, s.workers[i]);
    }
    SameSendsKeep(s, t);
  }

  lemma ActSends(s: Sys, id: WorkerId, choice: Choice)
    requires SendsInv(s)
    ensures SendsInv(Next(s, Act(id, choice)))
  {
    var t := Next(s, Act(id, choice));
    NextOnce(s, Act(id, choice));
    if id < |s.workers| { AdvanceSends(s, id, choice); }
    forall i | 0 <= i < |t.workers|
      ensures WorkerSends(s.(journal := t.journal), i, t.workers[i])
    {
      assert WorkerSends(s, i, s.workers[i]);
    }
    SameSendsKeep(s, t);
  }

  lemma WorkerEventSends(s: Sys, e: Event)
    requires SendsInv(s) && Truthful(s, e) && (e.Act? || e.MarkSent? || e.StashId? || e.FinishStep? || e.Crash?)
    ensures SendsInv(Next(s, e))
  {
    NextOnce(s, e);
    if e.worker < |s.workers| {
      match e
      case MarkSent(id) => {
        assert Next(s, e) == SentEvent(s, id);
        SentSends(s, id);
      }
      case FinishStep(id) => {
        assert Next(s, e) == FinishEvent(s, id);
        FinishSends(s, id);
      }
      case Act(id, choice) => ActSends(s, id, choice);
      case StashId(id) => {
        assert Next(s, e) == StashEvent(s, id);
        StashSends(s, id);
      }
      case Crash(id) => ReviewSends(s, Next(s, e));
    }
  }

  lemma OperatorEventSends(s: Sys, e: Event)
    requires SendsInv(s) && OnceInv(Next(s, e))
    requires e.CommitResolve? || e.ControlJob? || e.CommitRevalidate?
    ensures SendsInv(Next(s, e))
  {
    match e
    case CommitResolve(op) => {
      if op < |s.operators| {
        assert Next(s, e) == ResolveCommitEvent(s, op);
        ResolveSends(s, op);
      }
    }
    case ControlJob(_, _) => ReviewSends(s, Next(s, e));
    case CommitRevalidate(op) => ReviewSends(s, Next(s, e));
  }

  lemma NextSends(s: Sys, e: Event)
    requires SendsInv(s) && Truthful(s, e)
    ensures SendsInv(Next(s, e))
  {
    if e.Act? || e.MarkSent? || e.StashId? || e.FinishStep? || e.Crash? {
      WorkerEventSends(s, e);
    } else {
      NextOnce(s, e);
      if e.ClaimNext? {
        ClaimSends(s, e.expected);
      } else if Quiet(e) {
        QuietSends(s, e);
      } else {
        OperatorEventSends(s, e);
      }
    }
  }

  lemma {:induction false} RunSends(s: Sys, events: seq<Event>)
    requires SendsInv(s) && TruthfulRun(s, events)
    ensures SendsInv(Run(s, events))
    decreases |events|
  {
    if events != [] {
      NextSends(s, events[0]);
      RunSends(Next(s, events[0]), events[1..]);
    }
  }

  /**
    No create and no upload takes effect twice, however late the remote applies a write, as long as a
    write repeated after a conflict or a confirmation finds these records true.
   */
  lemma BlindWritesTakeEffectOnce(s: Sys, events: seq<Event>, o: int, i: int, j: int)
    requires Initial(s) && ParentFirst(s.plan) && Inv(s) && TruthfulRun(s, events)
    ensures Inv(Run(s, events))
    ensures var t := Run(s, events);
            (&& BlindStep(t, o) && 0 <= i < |t.sends| && 0 <= j < |t.sends|
             && t.sends[i].ordinal == o && t.sends[j].ordinal == o
             && t.sends[i].state.Applied? && t.sends[j].state.Applied?) ==> i == j
  {
    RunSends(s, events);
    var t := Run(s, events);
    if BlindStep(t, o) { assert StepSends(t, o); }
  }
}
