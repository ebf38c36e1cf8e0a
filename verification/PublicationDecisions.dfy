/**
  What should happen to a page, by the operator's decisions and the reviewed plan, and what a worker knows
  about it: a writing worker is on a step that is to write, and a worker that ends its step ends it as decided.
 */
module PublicationDecisions {
  import opened Basics
  import opened PublicationJournal
  import opened PublicationSystem
  import opened PublicationLease
  import opened PublicationEffects

  // ------------------------------------------------------------------ what should happen

  /** The status with which a step can end; Conflicted when it cannot end. */
  function Decision(plan: Plan, kind: StepKind): StepStatus
    requires KindFits(plan, kind)
  {
    match kind
    case PageStep(p) =>
      var page := plan.pages[p];
      if page.key in plan.keep then (if page.remoteId.Some? then Kept else Conflicted)
      else if page.remoteId.Some? && page.sameContent && page.key !in plan.replace then Skipped
      else Succeeded
    case AssetStep(p, a) =>
      if plan.pages[p].key in plan.keep then Kept
      else (match plan.pages[p].assets[a].action
            case CreateAsset => Succeeded
            case UnchangedAsset => Skipped
            case ConflictAsset => Conflicted)
    case VerifyStep(p) => if plan.pages[p].key in plan.keep then Kept else Succeeded
    case AudienceStep => Succeeded
  }

  /** Only these steps may write to the remote. */
  predicate Wanted(plan: Plan, kind: StepKind)
    requires KindFits(plan, kind)
  {
    Writes(kind) && Decision(plan, kind) == Succeeded
  }

  /** The step q is a finished page step of this key, with this result. */
  predicate Finished(s: Sys, q: nat, key: Key, result: StepResult) {
    && q < |s.journal.steps| && s.journal.steps[q].kind.PageStep? && Done(s.journal.steps[q].status)
    && KindFits(s.plan, s.journal.steps[q].kind) && s.plan.pages[s.journal.steps[q].kind.page].key == key
    && s.journal.steps[q].result == result
  }

  ghost predicate FromStep(s: Sys, key: Key, result: StepResult) {
    exists q :: Finished(s, q, key, result)
  }

  /** parent is the page that the plan puts this page under. */
  ghost predicate UnderParent(s: Sys, page: PagePlan, parent: Option<RemoteId>) {
    if page.parentKey.None? then parent == s.plan.parentPage
    else exists result: StepResult :: FromStep(s, page.parentKey.value, result) && result.id == parent
  }

  /** A mapped page is never taken for another one. */
  predicate IdFits(page: PagePlan, id: Option<RemoteId>) {
    page.remoteId.Some? && id.Some? ==> id == page.remoteId
  }

  /** The remote stored the version that the result names, below the right parent. */
  ghost predicate Stands(s: Sys, page: PagePlan, r: StepResult) {
    && r.id.Some? && r.id.value in s.remote.pages
    && 1 <= r.version <= |s.remote.pages[r.id.value].history|
    && var stored := s.remote.pages[r.id.value].history[r.version - 1];
       r.digest == Some(Digest(stored.body)) && r.title == stored.title && UnderParent(s, page, stored.parent)
  }

  /** The page is exactly as the preview saw it. */
  ghost predicate AsReviewed(s: Sys, page: PagePlan, r: StepResult) {
    && Stands(s, page, r) && page.remoteId == r.id && r.version == page.remoteVersion
    && (page.remoteDigest.Some? ==> r.digest == page.remoteDigest)
    && (page.remoteTitle.Some? ==> r.title == page.remoteTitle.value)
  }

  /** The page carries the planned title and the marker of step o, in the version that its write makes. */
  ghost predicate AsPlanned(s: Sys, o: nat, page: PagePlan, r: StepResult) {
    && Stands(s, page, r) && IdFits(page, r.id) && !r.kept
    && r.version == (if page.remoteId.Some? then page.remoteVersion + 1 else 1) && r.title == page.title
    && o in s.remote.pages[r.id.value].history[r.version - 1].body.ops
  }

  /** Step o of this kind may end with this status and result. */
  ghost predicate Ends(s: Sys, o: nat, kind: StepKind, status: StepStatus, r: StepResult)
    requires KindFits(s.plan, kind)
  {
    && status == Decision(s.plan, kind)
    && match kind
       case PageStep(p) =>
         if status == Succeeded then AsPlanned(s, o, s.plan.pages[p], r)
         else AsReviewed(s, s.plan.pages[p], r) && (r.kept <==> status == Kept)
       case AssetStep(p, a) =>
         && (status == Kept <==> r.kept)
         && (status == Skipped ==> r.id == s.plan.pages[p].assets[a].remoteId && r.version == s.plan.pages[p].assets[a].remoteVersion)
         && (status == Succeeded ==> r.id.Some? && r.version == 1)
       case VerifyStep(p) => FromStep(s, s.plan.pages[p].key, r)
       case AudienceStep => true
  }

  ghost predicate StepDecided(s: Sys, o: nat)
    requires Wellformed(s) && o < |s.journal.steps|
  {
    var step := s.journal.steps[o];
    && (step.sent || Ambiguous(step.status) ==> Wanted(s.plan, step.kind))
    && (Done(step.status) ==> Ends(s, o, step.kind, step.status, step.result))
    && (step.kind.PageStep? ==> IdFits(s.plan.pages[step.kind.page], step.result.id))
  }

  ghost predicate ParentsFit(s: Sys, parents: map<Key, StepResult>) {
    forall key :: key in parents ==> FromStep(s, key, parents[key])
  }

  /** The pcs of a worker that writes, or has written. */
  predicate Writing(pc: Pc) {
    pc in {Recovering, PreSend, ReadUploaded} || pc.Written? || pc.GotId? || pc.Confirm? || pc.StashThen? || pc.StashUnread?
  }

  ghost predicate ClosingFits(s: Sys, o: nat, kind: StepKind, c: Closing)
    requires KindFits(s.plan, kind)
  {
    && (Ambiguous(c.status) ==> Wanted(s.plan, kind))
    && (Done(c.status) ==> Ends(s, o, kind, c.status, c.result))
    && (kind.PageStep? ==> IdFits(s.plan.pages[kind.page], c.result.id))
  }

  /** What a worker on page p knows at this pc. */
  ghost predicate PageFits(s: Sys, o: nat, page: PagePlan, pc: Pc) {
    match pc
    case CheckTitle(found) => page.key !in s.plan.keep && (page.remoteId.Some? ==> AsReviewed(s, page, found) && !found.kept)
    case GotId(id) => IdFits(page, Some(id))
    case Confirm(id) => IdFits(page, Some(id))
    case StashThen(stashed, _) => IdFits(page, stashed.id)
    case StashUnread(unread) => IdFits(page, unread.id)
    case _ => true
  }

  ghost predicate PcFits(s: Sys, o: nat, kind: StepKind, pc: Pc)
    requires KindFits(s.plan, kind)
  {
    && (Writing(pc) ==> Wanted(s.plan, kind))
    && (HasClosing(pc) ==> ClosingFits(s, o, kind, ClosingOf(pc)))
    && (kind.PageStep? ==> PageFits(s, o, s.plan.pages[kind.page], pc))
    && (kind.AssetStep? && pc == CheckFiles ==> s.plan.pages[kind.host].key !in s.plan.keep)
  }

  ghost predicate WorkerFits(s: Sys, w: Worker)
    requires Wellformed(s) && w.ordinal < |s.journal.steps|
  {
    var kind := s.journal.steps[w.ordinal].kind;
    && ParentsFit(s, w.parents)
    && (w.recover ==> Wanted(s.plan, kind))
    && (kind.PageStep? ==> IdFits(s.plan.pages[kind.page], w.result.id))
    && PcFits(s, w.ordinal, kind, w.pc)
  }

  /** A write is sent only for a step that is to write, and carries what the plan says. */
  ghost predicate SendFits(s: Sys, send: Send)
    requires Wellformed(s)
  {
    && send.ordinal < |s.journal.steps|
    && var kind := s.journal.steps[send.ordinal].kind;
       Wanted(s.plan, kind) &&
       match send.write
       case Put(id, base, title, parent, body) =>
         && kind.PageStep?
         && var page := s.plan.pages[kind.page];
            && page.remoteId == Some(id) && base == page.remoteVersion && title == page.title
            && body == Body(page.text, {send.ordinal}, {page.ownership}) && UnderParent(s, page, parent)
            && (send.state.Applied? ==> send.state.where == id)
       case Create(title, parent, body) =>
         && kind.PageStep?
         && var page := s.plan.pages[kind.page];
            && page.remoteId.None? && title == page.title
            && body == Body(page.text, {send.ordinal}, {page.ownership}) && UnderParent(s, page, parent)
       case Upload(host, filename, op, bytes) =>
         && kind.AssetStep? && op == send.ordinal
         && var asset := s.plan.pages[kind.host].assets[kind.asset];
            filename == asset.filename && bytes == asset.bytes && HostIs(s, s.plan.pages[kind.host].key, host)
  }

  /** host is the confirmed page of this key. */
  ghost predicate HostIs(s: Sys, key: Key, host: RemoteId) {
    exists result: StepResult :: FromStep(s, key, result) && result.id == Some(host)
  }

  /** The page that an operator has checked is the mapped one. */
  predicate OperatorFits(s: Sys, o: Operator)
    requires Wellformed(s)
  {
    o.Resolving? && o.checked && o.ordinal < |s.journal.steps| && o.page.Some? && s.journal.steps[o.ordinal].kind.PageStep? ==>
      IdFits(s.plan.pages[s.journal.steps[o.ordinal].kind.page], o.page)
  }

  ghost predicate DecisionInv(s: Sys) {
    && Inv(s)
    && (forall o :: 0 <= o < |s.journal.steps| ==> StepDecided(s, o))
    && (forall i :: 0 <= i < |s.workers| ==> WorkerFits(s, s.workers[i]))
    && (forall k :: 0 <= k < |s.sends| ==> SendFits(s, s.sends[k]))
    && (forall i :: 0 <= i < |s.operators| ==> OperatorFits(s, s.operators[i]))
  }

  // ------------------------------------------------------------------ what stays true

  /** Kinds, finished steps and stored versions stay. */
  ghost predicate Onward(s: Sys, t: Sys) {
    && KindsKept(s, t) && Extends(s.remote, t.remote)
    && forall o :: 0 <= o < |s.journal.steps| && Done(s.journal.steps[o].status) ==> t.journal.steps[o] == s.journal.steps[o]
  }

  lemma FromStepLater(s: Sys, t: Sys, key: Key, result: StepResult)
    requires Onward(s, t) && FromStep(s, key, result)
    ensures FromStep(t, key, result)
  {
    var q :| Finished(s, q, key, result);
    assert Finished(t, q, key, result);
  }

  lemma UnderParentLater(s: Sys, t: Sys, page: PagePlan, parent: Option<RemoteId>)
    requires Onward(s, t) && UnderParent(s, page, parent)
    ensures UnderParent(t, page, parent)
  {
    if page.parentKey.Some? {
      var result: StepResult :| FromStep(s, page.parentKey.value, result) && result.id == parent;
      FromStepLater(s, t, page.parentKey.value, result);
    }
  }

  lemma StandsLater(s: Sys, t: Sys, page: PagePlan, r: StepResult)
    requires Onward(s, t) && Stands(s, page, r)
    ensures Stands(t, page, r)
    ensures t.remote.pages[r.id.value].history[r.version - 1] == s.remote.pages[r.id.value].history[r.version - 1]
  {
    assert s.remote.pages[r.id.value].history <= t.remote.pages[r.id.value].history;
    UnderParentLater(s, t, page, s.remote.pages[r.id.value].history[r.version - 1].parent);
  }

  lemma EndsLater(s: Sys, t: Sys, o: nat, kind: StepKind, status: StepStatus, r: StepResult)
    requires Onward(s, t) && KindFits(s.plan, kind) && Ends(s, o, kind, status, r)
    ensures Ends(t, o, kind, status, r)
  {
    match kind
    case PageStep(p) => StandsLater(s, t, s.plan.pages[p], r);
    case VerifyStep(p) => FromStepLater(s, t, s.plan.pages[p].key, r);
    case _ =>
  }

  lemma PcFitsLater(s: Sys, t: Sys, o: nat, kind: StepKind, pc: Pc)
    requires Onward(s, t) && KindFits(s.plan, kind) && PcFits(s, o, kind, pc)
    ensures PcFits(t, o, kind, pc)
  {
    if HasClosing(pc) && Done(ClosingOf(pc).status) {
      EndsLater(s, t, o, kind, ClosingOf(pc).status, ClosingOf(pc).result);
    }
    if kind.PageStep? && pc.CheckTitle? && s.plan.pages[kind.page].remoteId.Some? {
      StandsLater(s, t, s.plan.pages[kind.page], pc.found);
    }
  }

  lemma WorkerFitsLater(s: Sys, t: Sys, w: Worker)
    requires Wellformed(s) && Wellformed(t) && Onward(s, t) && w.ordinal < |s.journal.steps| && WorkerFits(s, w)
    ensures WorkerFits(t, w)
  {
    forall key | key in w.parents ensures FromStep(t, key, w.parents[key]) {
      FromStepLater(s, t, key, w.parents[key]);
    }
    PcFitsLater(s, t, w.ordinal, s.journal.steps[w.ordinal].kind, w.pc);
  }

  lemma SendFitsLater(s: Sys, t: Sys, send: Send)
    requires Wellformed(s) && Wellformed(t) && Onward(s, t) && SendFits(s, send)
    ensures SendFits(t, send)
  {
    var kind := s.journal.steps[send.ordinal].kind;
    match send.write
    case Put(_, _, _, parent, _) => UnderParentLater(s, t, s.plan.pages[kind.page], parent);
    case Create(_, parent, _) => UnderParentLater(s, t, s.plan.pages[kind.page], parent);
    case Upload(host, _, _, _) =>
      var result: StepResult :| FromStep(s, s.plan.pages[kind.host].key, result) && result.id == Some(host);
      FromStepLater(s, t, s.plan.pages[kind.host].key, result);
  }

  /** Nothing that is finished is ever written again. */
  lemma DoneStays(s: Sys, e: Event)
    requires Inv(s)
    ensures Onward(s, Next(s, e))
  {
    SameKinds(s, e);
    GrowOneStep(s, e);
    var t := Next(s, e);
    forall o | 0 <= o < |s.journal.steps| && Done(s.journal.steps[o].status)
      ensures t.journal.steps[o] == s.journal.steps[o]
    {
      if e.MarkSent? || e.StashId? || e.FinishStep? { DoneStaysByWorker(s, e, o); }
      else if e.CommitResolve? && e.operator < |s.operators| { assert ReviewKept(s, s.operators[e.operator]); }
      else if e.CommitRevalidate? && e.operator < |s.operators| { assert ReviewKept(s, s.operators[e.operator]); }
    }
  }

  lemma DoneStaysByWorker(s: Sys, e: Event, o: nat)
    requires Inv(s) && (e.MarkSent? || e.StashId? || e.FinishStep?)
    requires o < |s.journal.steps| && Done(s.journal.steps[o].status)
    ensures Next(s, e).journal.steps[o] == s.journal.steps[o]
  {
  }

  // ------------------------------------------------------------------ a worker's reads

  ghost predicate AllDecided(s: Sys)
    requires Wellformed(s)
  {
    forall o :: 0 <= o < |s.journal.steps| ==> StepDecided(s, o)
  }

  lemma ParentFits(s: Sys, parents: map<Key, StepResult>, page: PagePlan)
    requires ParentsFit(s, parents) && ParentId(s.plan, page, parents).Some?
    ensures UnderParent(s, page, ParentId(s.plan, page, parents).value)
  {
    if page.parentKey.Some? {
      assert FromStep(s, page.parentKey.value, parents[page.parentKey.value]);
    }
  }

  /** The pages confirmed as kept are exactly those the operator keeps. */
  lemma KeptHost(s: Sys, key: Key, result: StepResult)
    requires Wellformed(s) && AllDecided(s) && FromStep(s, key, result)
    ensures result.kept <==> key in s.plan.keep
  {
    var q :| Finished(s, q, key, result);
    assert StepDecided(s, q);
  }

  lemma GuardStands(s: Sys, parents: map<Key, StepResult>, page: PagePlan, id: RemoteId, version: nat, digest: Option<Digest>,
                    title: Option<string>, kept: bool)
    requires ParentsFit(s, parents) && ParentId(s.plan, page, parents).Some?
    requires Guard(s.remote, id, ParentId(s.plan, page, parents).value, version, digest, title)
    ensures Visible(s.remote, id) && Stands(s, page, PageResult(s.remote, id, kept))
    ensures var r := PageResult(s.remote, id, kept);
            && r.id == Some(id) && r.version == version && (digest.Some? ==> r.digest == digest)
            && (title.Some? ==> r.title == title.value) && r.kept == kept
            && s.remote.pages[id].history[r.version - 1] == Latest(s.remote.pages[id])
  {
    ParentFits(s, parents, page);
  }

  /** The facts about a worker on page p that its reads rest on. */
  ghost predicate OnPage(s: Sys, w: Worker, p: nat)
    requires p < |s.plan.pages|
  {
    && ParentsFit(s, w.parents) && (w.recover ==> Wanted(s.plan, PageStep(p))) && IdFits(s.plan.pages[p], w.result.id)
    && PcFits(s, w.ordinal, PageStep(p), w.pc)
  }

  lemma {:induction false} FilteredIsCandidate(r: Remote, ids: seq<RemoteId>, op: nat, ownership: string)
    ensures forall i :: 0 <= i < |FilterMarked(r, ids, op, ownership)| ==> FilterMarked(r, ids, op, ownership)[i] in ids
    decreases |ids|
  {
    if ids != [] { FilteredIsCandidate(r, ids[1..], op, ownership); }
  }

  /** The read-back of a page that this step wrote. */
  lemma ConfirmedEnds(s: Sys, w: Worker, p: nat, id: RemoteId)
    requires p < |s.plan.pages| && ParentsFit(s, w.parents) && Wanted(s.plan, PageStep(p)) && IdFits(s.plan.pages[p], Some(id))
    requires ParentId(s.plan, s.plan.pages[p], w.parents).Some?
    requires Guard(s.remote, id, ParentId(s.plan, s.plan.pages[p], w.parents).value, ResultVersion(s.plan.pages[p]), None,
                   Some(s.plan.pages[p].title))
    requires w.ordinal in Latest(s.remote.pages[id]).body.ops
    ensures Ends(s, w.ordinal, PageStep(p), Succeeded, PageResult(s.remote, id, false))
  {
    var page := s.plan.pages[p];
    GuardStands(s, w.parents, page, id, ResultVersion(page), None, Some(page.title), false);
  }

  /** The first guarded read. */
  lemma ReadIsReviewed(s: Sys, w: Worker, p: nat, kept: bool)
    requires p < |s.plan.pages| && ParentsFit(s, w.parents) && s.plan.pages[p].remoteId.Some?
    requires ParentId(s.plan, s.plan.pages[p], w.parents).Some?
    requires Guard(s.remote, s.plan.pages[p].remoteId.value, ParentId(s.plan, s.plan.pages[p], w.parents).value,
                   s.plan.pages[p].remoteVersion, s.plan.pages[p].remoteDigest, s.plan.pages[p].remoteTitle)
    ensures AsReviewed(s, s.plan.pages[p], PageResult(s.remote, s.plan.pages[p].remoteId.value, kept))
  {
    var page := s.plan.pages[p];
    GuardStands(s, w.parents, page, page.remoteId.value, page.remoteVersion, page.remoteDigest, page.remoteTitle, kept);
  }

  /** Recovery adopts a page only by its marker, and a mapped page or a known one only as itself. */
  lemma RecoverAdopts(s: Sys, w: Worker, page: PagePlan, choice: Choice)
    requires w.pc == Recovering && IdFits(page, w.result.id) && Recover(s, w, page, choice).pc.StashThen?
    ensures var pc := Recover(s, w, page, choice).pc;
            && pc.stashed.id.Some? && IdFits(page, pc.stashed.id) && ParentId(s.plan, page, w.parents).Some?
            && Marked(s.remote, pc.stashed.id.value, w.ordinal, page.ownership)
            && pc.next.result.id == pc.stashed.id && pc.next.status in {Succeeded, Conflicted}
            && (pc.next.status == Succeeded ==>
                  && Guard(s.remote, pc.stashed.id.value, ParentId(s.plan, page, w.parents).value, ResultVersion(page), None,
                           Some(page.title))
                  && pc.next.result == PageResult(s.remote, pc.stashed.id.value, false))
  {
    var fixed := if w.result.id.Some? then w.result.id else page.remoteId;
    var ids := if fixed.Some? then [fixed.value] else if choice.Candidates? then choice.ids else [];
    FilteredIsCandidate(s.remote, ids, w.ordinal, page.ownership);
    assert FilterMarked(s.remote, ids, w.ordinal, page.ownership)[0] in ids;
  }

  lemma RecoveredPage(s: Sys, w: Worker, p: nat, choice: Choice)
    requires p < |s.plan.pages| && ParentsFit(s, w.parents) && w.pc == Recovering && Wanted(s.plan, PageStep(p))
    requires IdFits(s.plan.pages[p], w.result.id)
    ensures var r := Recover(s, w, s.plan.pages[p], choice);
            r.pc.StashThen? ==>
              && IdFits(s.plan.pages[p], r.pc.stashed.id) && IdFits(s.plan.pages[p], r.pc.next.result.id)
              && r.pc.next.status in {Succeeded, Conflicted}
              && (r.pc.next.status == Succeeded ==> Ends(s, w.ordinal, PageStep(p), Succeeded, r.pc.next.result))
  {
    var pc := Recover(s, w, s.plan.pages[p], choice).pc;
    if pc.StashThen? {
      RecoverAdopts(s, w, s.plan.pages[p], choice);
      if pc.next.status == Succeeded { ConfirmedEnds(s, w, p, pc.stashed.id.value); }
    }
  }

  lemma RecoverStops(s: Sys, w: Worker, page: PagePlan, choice: Choice)
    requires w.pc == Recovering
    ensures var r := Recover(s, w, page, choice);
            && r.parents == w.parents && r.ordinal == w.ordinal && r.result == w.result && (r.recover ==> w.recover)
            && (r.pc in {ReadFailed, CheckPage} || r.pc.StashThen?
                || (r.pc.Closed? && r.pc.closing.result == w.result && r.pc.closing.status in {Conflicted, Uncertain}))
  {
  }

  lemma RecoverFits(s: Sys, w: Worker, p: nat, choice: Choice)
    requires p < |s.plan.pages| && OnPage(s, w, p) && w.pc == Recovering
    ensures OnPage(s, Recover(s, w, s.plan.pages[p], choice), p)
  {
    RecoverStops(s, w, s.plan.pages[p], choice);
    RecoveredPage(s, w, p, choice);
    StoppedFits(s, w, Recover(s, w, s.plan.pages[p], choice), p);
  }

  lemma StoppedFits(s: Sys, w: Worker, r: Worker, p: nat)
    requires p < |s.plan.pages| && OnPage(s, w, p) && Wanted(s.plan, PageStep(p))
    requires r.parents == w.parents && r.ordinal == w.ordinal && r.result == w.result && (r.recover ==> w.recover)
    requires || r.pc in {ReadFailed, CheckPage}
             || (r.pc.Closed? && r.pc.closing.result == w.result && r.pc.closing.status in {Conflicted, Uncertain})
             || (r.pc.StashThen?
                 && IdFits(s.plan.pages[p], r.pc.stashed.id) && IdFits(s.plan.pages[p], r.pc.next.result.id)
                 && r.pc.next.status in {Succeeded, Conflicted}
                 && (r.pc.next.status == Succeeded ==> Ends(s, w.ordinal, PageStep(p), Succeeded, r.pc.next.result)))
    ensures OnPage(s, r, p)
  {
  }

  /** Where the first guarded read leads. */
  lemma ReadPageGoesOn(s: Sys, w: Worker, page: PagePlan, choice: Choice)
    requires w.pc == CheckPage
    ensures var r, parent := ReadPage(s, w, page, choice), ParentId(s.plan, page, w.parents);
            && r.parents == w.parents && r.ordinal == w.ordinal && r.result == w.result && (r.recover ==> w.recover)
            && (|| r.pc == ReadFailed
                || (r.pc.Closed? && r.pc.closing.status == Conflicted && r.pc.closing.result == w.result)
                || (page.remoteId.None? && page.key !in s.plan.keep && r.pc == CheckTitle(NoResult))
                || (&& page.remoteId.Some? && parent.Some?
                    && Guard(s.remote, page.remoteId.value, parent.value, page.remoteVersion, page.remoteDigest, page.remoteTitle)
                    && r.pc == (if page.key in s.plan.keep then Closed(Closing(Kept, PageResult(s.remote, page.remoteId.value, true), None, 0, false))
                                else CheckTitle(PageResult(s.remote, page.remoteId.value, false)))))
  {
  }

  lemma ReadPageFits(s: Sys, w: Worker, p: nat, choice: Choice)
    requires p < |s.plan.pages| && OnPage(s, w, p) && w.pc == CheckPage
    ensures OnPage(s, ReadPage(s, w, s.plan.pages[p], choice), p)
  {
    ReadPageGoesOn(s, w, s.plan.pages[p], choice);
    CheckedFits(s, w, ReadPage(s, w, s.plan.pages[p], choice), p);
  }

  lemma CheckedFits(s: Sys, w: Worker, r: Worker, p: nat)
    requires p < |s.plan.pages| && OnPage(s, w, p)
    requires r.parents == w.parents && r.ordinal == w.ordinal && r.result == w.result && (r.recover ==> w.recover)
    requires var page, parent := s.plan.pages[p], ParentId(s.plan, s.plan.pages[p], w.parents);
             || r.pc == ReadFailed
             || (r.pc.Closed? && r.pc.closing.status == Conflicted && r.pc.closing.result == w.result)
             || (page.remoteId.None? && page.key !in s.plan.keep && r.pc == CheckTitle(NoResult))
             || (&& page.remoteId.Some? && parent.Some?
                 && Guard(s.remote, page.remoteId.value, parent.value, page.remoteVersion, page.remoteDigest, page.remoteTitle)
                 && r.pc == (if page.key in s.plan.keep then Closed(Closing(Kept, PageResult(s.remote, page.remoteId.value, true), None, 0, false))
                             else CheckTitle(PageResult(s.remote, page.remoteId.value, false))))
    ensures OnPage(s, r, p)
  {
    var page, parent := s.plan.pages[p], ParentId(s.plan, s.plan.pages[p], w.parents);
    if && page.remoteId.Some? && parent.Some?
       && Guard(s.remote, page.remoteId.value, parent.value, page.remoteVersion, page.remoteDigest, page.remoteTitle)
    {
      ReadIsReviewed(s, w, p, page.key in s.plan.keep);
    }
  }

  lemma ReadTitleFits(s: Sys, w: Worker, p: nat, choice: Choice)
    requires p < |s.plan.pages| && OnPage(s, w, p) && w.pc.CheckTitle?
    ensures OnPage(s, ReadTitle(s, w, s.plan.pages[p], w.pc.found, choice), p)
  {
  }

  lemma PageResponseFits(s: Sys, w: Worker, p: nat, choice: Choice)
    requires p < |s.plan.pages| && OnPage(s, w, p) && w.pc.Written? && w.pc.send < |s.sends|
    requires s.sends[w.pc.send].write.Put? && s.sends[w.pc.send].state.Applied? ==>
               IdFits(s.plan.pages[p], Some(s.sends[w.pc.send].state.where))
    requires s.sends[w.pc.send].write.Put? || s.plan.pages[p].remoteId.None?
    ensures OnPage(s, Response(s, w, w.pc.send, true, choice), p)
  {
  }

  lemma ReadBackFits(s: Sys, w: Worker, p: nat, choice: Choice)
    requires p < |s.plan.pages| && OnPage(s, w, p) && w.pc.Confirm?
    ensures OnPage(s, ReadBack(s, w, s.plan.pages[p], w.pc.confirmId, choice), p)
  {
    var page, id := s.plan.pages[p], w.pc.confirmId;
    var parent := ParentId(s.plan, page, w.parents);
    if parent.Some? && Guard(s.remote, id, parent.value, ResultVersion(page), None, Some(page.title)) {
      if w.ordinal in Latest(s.remote.pages[id]).body.ops { ConfirmedEnds(s, w, p, id); }
    }
  }

  lemma AdvancePageFits(s: Sys, w: Worker, choice: Choice)
    requires Wellformed(s) && w.ordinal < |s.journal.steps| && WorkerFits(s, w) && WorkerTruth(s, w)
    requires s.journal.steps[w.ordinal].kind.PageStep? && w.pc != Begin && w.pc != ReadFailed
    requires w.pc.Written? && w.pc.send < |s.sends| ==> SendFits(s, s.sends[w.pc.send])
    ensures OnPage(s, Advance(s, w, choice), s.journal.steps[w.ordinal].kind.page)
  {
    var p := s.journal.steps[w.ordinal].kind.page;
    match w.pc
    case Recovering => RecoverFits(s, w, p, choice);
    case CheckPage => ReadPageFits(s, w, p, choice);
    case CheckTitle(_) => ReadTitleFits(s, w, p, choice);
    case Written(_) => PageResponseFits(s, w, p, choice);
    case Confirm(_) => ReadBackFits(s, w, p, choice);
    case _ =>
  }

  /** The facts about a worker on asset a of page p. */
  ghost predicate OnAsset(s: Sys, w: Worker, p: nat, a: nat)
    requires KindFits(s.plan, AssetStep(p, a))
  {
    ParentsFit(s, w.parents) && (w.recover ==> Wanted(s.plan, AssetStep(p, a))) && PcFits(s, w.ordinal, AssetStep(p, a), w.pc)
  }

  lemma ReadHostFits(s: Sys, w: Worker, p: nat, a: nat, choice: Choice)
    requires Wellformed(s) && AllDecided(s) && KindFits(s.plan, AssetStep(p, a)) && OnAsset(s, w, p, a) && w.pc == CheckHost
    ensures OnAsset(s, ReadHost(s, w, s.plan.pages[p], choice), p, a)
  {
    var key := s.plan.pages[p].key;
    if key in w.parents { KeptHost(s, key, w.parents[key]); }
  }

  lemma ReadFilesFits(s: Sys, w: Worker, p: nat, a: nat, choice: Choice)
    requires KindFits(s.plan, AssetStep(p, a)) && OnAsset(s, w, p, a) && w.pc == CheckFiles
    ensures OnAsset(s, ReadFiles(s, w, s.plan.pages[p], s.plan.pages[p].assets[a], choice), p, a)
  {
  }

  lemma ReadUploadFits(s: Sys, w: Worker, p: nat, a: nat, choice: Choice)
    requires KindFits(s.plan, AssetStep(p, a)) && OnAsset(s, w, p, a) && w.pc == ReadUploaded
    ensures OnAsset(s, ReadUpload(s, w, s.plan.pages[p], s.plan.pages[p].assets[a], choice), p, a)
  {
  }

  lemma AssetResponseFits(s: Sys, w: Worker, p: nat, a: nat, choice: Choice)
    requires KindFits(s.plan, AssetStep(p, a)) && OnAsset(s, w, p, a) && w.pc.Written? && w.pc.send < |s.sends|
    ensures OnAsset(s, Response(s, w, w.pc.send, false, choice), p, a)
  {
  }

  lemma AdvanceAssetFits(s: Sys, w: Worker, choice: Choice)
    requires Wellformed(s) && AllDecided(s) && w.ordinal < |s.journal.steps| && WorkerFits(s, w) && WorkerTruth(s, w)
    requires s.journal.steps[w.ordinal].kind.AssetStep? && w.pc != Begin && w.pc != ReadFailed
    ensures OnAsset(s, Advance(s, w, choice), s.journal.steps[w.ordinal].kind.host, s.journal.steps[w.ordinal].kind.asset)
  {
    var kind := s.journal.steps[w.ordinal].kind;
    match w.pc
    case CheckHost => ReadHostFits(s, w, kind.host, kind.asset, choice);
    case CheckFiles => ReadFilesFits(s, w, kind.host, kind.asset, choice);
    case Written(_) => AssetResponseFits(s, w, kind.host, kind.asset, choice);
    case ReadUploaded => ReadUploadFits(s, w, kind.host, kind.asset, choice);
    case _ =>
  }

  lemma VerifyFits(s: Sys, w: Worker, p: nat, choice: Choice)
    requires Wellformed(s) && AllDecided(s) && p < |s.plan.pages| && w.pc == Verifying && ParentsFit(s, w.parents)
    ensures PcFits(s, w.ordinal, VerifyStep(p), Verify(s, w, s.plan.pages[p], choice).pc)
  {
    var key := s.plan.pages[p].key;
    if key in w.parents { KeptHost(s, key, w.parents[key]); }
  }

  lemma OpenFits(s: Sys, w: Worker, choice: Choice)
    requires Wellformed(s) && w.ordinal < |s.journal.steps| && WorkerFits(s, w) && w.pc == Begin
    ensures WorkerFits(s, Advance(s, w, choice))
  {
  }

  lemma FailureFits(s: Sys, w: Worker, choice: Choice)
    requires Wellformed(s) && w.ordinal < |s.journal.steps| && WorkerFits(s, w) && w.pc == ReadFailed
    requires StepDecided(s, w.ordinal)
    ensures WorkerFits(s, Advance(s, w, choice))
  {
  }

  lemma AdvanceFits(s: Sys, w: Worker, choice: Choice)
    requires Wellformed(s) && AllDecided(s) && w.ordinal < |s.journal.steps| && WorkerFits(s, w) && WorkerTruth(s, w)
    requires w.pc.Written? && w.pc.send < |s.sends| ==> SendFits(s, s.sends[w.pc.send])
    ensures WorkerFits(s, Advance(s, w, choice))
  {
    var kind := s.journal.steps[w.ordinal].kind;
    if w.pc == Begin { OpenFits(s, w, choice); }
    else if w.pc == ReadFailed { assert StepDecided(s, w.ordinal); FailureFits(s, w, choice); }
    else if kind.PageStep? { AdvancePageFits(s, w, choice); }
    else if kind.AssetStep? { AdvanceAssetFits(s, w, choice); }
    else if kind.VerifyStep? && w.pc == Verifying { VerifyFits(s, w, kind.verified, choice); }
  }
}
