/**
  What publication does to the remote. An accepted page update replaces exactly the version and the
  content captured in the preview, each update is accepted at most once, so no outside edit is
  overwritten; and a step recorded as succeeded really had its own write applied.
 */
module PublicationEffects {
  import opened Basics
  import opened PublicationJournal
  import opened PublicationSystem
  import opened PublicationLease

  /** The reviewed version of a page exists remotely, with the reviewed content. */
  predicate Reviewed(r: Remote, page: PagePlan) {
    && page.remoteId.Some?
    && page.remoteId.value in r.pages
    && 1 <= page.remoteVersion <= |r.pages[page.remoteId.value].history|
    && (page.remoteDigest.Some? ==>
          Digest(r.pages[page.remoteId.value].history[page.remoteVersion - 1].body) == page.remoteDigest.value)
  }

  /** Page histories only grow. */
  ghost predicate Extends(r: Remote, r': Remote) {
    forall id :: id in r.pages ==> id in r'.pages && r.pages[id].history <= r'.pages[id].history
  }

  predicate AppliedStep(sends: seq<Send>, o: int) {
    exists k :: 0 <= k < |sends| && sends[k].ordinal == o && sends[k].state.Applied?
  }

  predicate WriteFits(s: Sys, send: Send)
    requires Wellformed(s)
  {
    && send.ordinal < |s.journal.steps|
    && var kind := s.journal.steps[send.ordinal].kind;
       match send.write
       case Put(id, base, title, _, body) =>
         && kind.PageStep? && Reviewed(s.remote, s.plan.pages[kind.page])
         && id == s.plan.pages[kind.page].remoteId.value && base == s.plan.pages[kind.page].remoteVersion
         && body.ops == {send.ordinal} && title == s.plan.pages[kind.page].title
         && (send.state.Applied? ==>
               && base < |s.remote.pages[id].history|
               && s.remote.pages[id].history[base].author == Some(send.ordinal))
       case Create(_, _, body) =>
         kind.PageStep? && s.plan.pages[kind.page].remoteId.None? && body.ops == {send.ordinal}
       case Upload(_, _, op, _) => kind.AssetStep? && op == send.ordinal
  }

  /** A version written by a page step: the one after the reviewed version, or the first of a new page. */
  predicate AuthorFits(s: Sys, id: RemoteId, n: nat, o: nat)
    requires Wellformed(s)
  {
    && o < |s.journal.steps| && s.journal.steps[o].kind.PageStep?
    && var page := s.plan.pages[s.journal.steps[o].kind.page];
       if page.remoteId.Some? then Reviewed(s.remote, page) && id == page.remoteId.value && n == page.remoteVersion
       else n == 0
  }

  predicate Writes(kind: StepKind) {
    kind.PageStep? || kind.AssetStep?
  }

  predicate WorkerTruth(s: Sys, w: Worker)
    requires Wellformed(s) && w.ordinal < |s.journal.steps|
  {
    var kind := s.journal.steps[w.ordinal].kind;
    && (kind.PageStep? && s.plan.pages[kind.page].remoteId.Some? && (w.pc == PreSend || w.pc.CheckTitle?)
        ==> Reviewed(s.remote, s.plan.pages[kind.page]))
    && (w.pc.Written? ==> w.pc.send < |s.sends| && s.sends[w.pc.send].ordinal == w.ordinal)
    && (w.pc.GotId? || w.pc.Confirm? || w.pc == ReadUploaded ==> AppliedStep(s.sends, w.ordinal))
    && (HasClosing(w.pc) && ClosingOf(w.pc).status == Succeeded && Writes(kind) ==> AppliedStep(s.sends, w.ordinal))
  }

  ghost predicate OpsTrue(s: Sys) {
    forall o :: 0 <= o < |s.journal.steps| && KnownOp(s.remote, o) ==> AppliedStep(s.sends, o)
  }

  ghost predicate AuthorsTrue(s: Sys)
    requires Wellformed(s)
  {
    forall id, n :: id in s.remote.pages && 0 <= n < |s.remote.pages[id].history| ==>
      (s.remote.pages[id].history[n].author.Some? ==> AuthorFits(s, id, n, s.remote.pages[id].history[n].author.value))
  }

  ghost predicate EffectInv(s: Sys) {
    && Inv(s)
    && (forall i :: 0 <= i < |s.workers| ==> WorkerTruth(s, s.workers[i]))
    && (forall k :: 0 <= k < |s.sends| ==> WriteFits(s, s.sends[k]))
    && AuthorsTrue(s) && OpsTrue(s)
    && (forall o :: 0 <= o < |s.journal.steps| && s.journal.steps[o].status == Succeeded && Writes(s.journal.steps[o].kind)
          ==> AppliedStep(s.sends, o))
  }

  // ------------------------------------------------------------------ a worker's reads

  /** An operation marker that a page carries proves that the write was applied. */
  lemma MarkedMeansApplied(s: Sys, id: RemoteId, o: nat)
    requires OpsTrue(s) && o < |s.journal.steps| && Visible(s.remote, id) && o in Latest(s.remote.pages[id]).body.ops
    ensures AppliedStep(s.sends, o)
  {
    var history := s.remote.pages[id].history;
    assert o in history[|history| - 1].body.ops;
    assert KnownOp(s.remote, o);
  }

  lemma CommentMeansApplied(s: Sys, slot: (RemoteId, string), o: nat)
    requires OpsTrue(s) && o < |s.journal.steps| && slot in s.remote.files && s.remote.files[slot].comment == Some(o)
    ensures AppliedStep(s.sends, o)
  {
    assert KnownOp(s.remote, o);
  }

  lemma RecoverTruth(s: Sys, w: Worker, page: PagePlan, choice: Choice)
    requires OpsTrue(s) && w.ordinal < |s.journal.steps| && w.pc == Recovering
    ensures var r := Recover(s, w, page, choice);
            HasClosing(r.pc) && ClosingOf(r.pc).status == Succeeded ==> AppliedStep(s.sends, w.ordinal)
  {
    var r := Recover(s, w, page, choice);
    if HasClosing(r.pc) && ClosingOf(r.pc).status == Succeeded {
      MarkedMeansApplied(s, r.pc.stashed.id.value, w.ordinal);
    }
  }

  lemma FilesTruth(s: Sys, w: Worker, page: PagePlan, asset: AssetPlan, choice: Choice)
    requires OpsTrue(s) && w.ordinal < |s.journal.steps| && w.pc == CheckFiles
    ensures var r := ReadFiles(s, w, page, asset, choice);
            HasClosing(r.pc) && ClosingOf(r.pc).status == Succeeded ==> AppliedStep(s.sends, w.ordinal)
  {
    var r := ReadFiles(s, w, page, asset, choice);
    if HasClosing(r.pc) && ClosingOf(r.pc).status == Succeeded {
      CommentMeansApplied(s, (w.parents[page.key].id.value, asset.filename), w.ordinal);
    }
  }

  /** The read before an update has seen the reviewed version and content. */
  lemma ReadPageReviewed(s: Sys, w: Worker, page: PagePlan, choice: Choice)
    requires w.pc == CheckPage
    ensures var r := ReadPage(s, w, page, choice);
            && (r.pc.CheckTitle? && page.remoteId.Some? ==> Reviewed(s.remote, page))
            && (HasClosing(r.pc) ==> ClosingOf(r.pc).status != Succeeded)
            && r.pc != PreSend
  {
  }

  /** What is known of a worker on a page step at pc; its last conjunct is about a recorded success. */
  predicate PageTruth(r: Remote, sends: seq<Send>, o: nat, page: PagePlan, pc: Pc) {
    && (page.remoteId.Some? && (pc == PreSend || pc.CheckTitle?) ==> Reviewed(r, page))
    && (pc.Written? ==> pc.send < |sends| && sends[pc.send].ordinal == o)
    && (pc.GotId? || pc.Confirm? || pc == ReadUploaded ==> AppliedStep(sends, o))
    && (HasClosing(pc) && ClosingOf(pc).status == Succeeded ==> AppliedStep(sends, o))
  }

  lemma TitleTruth(s: Sys, w: Worker, page: PagePlan, choice: Choice)
    requires w.pc.CheckTitle? && PageTruth(s.remote, s.sends, w.ordinal, page, w.pc)
    ensures PageTruth(s.remote, s.sends, w.ordinal, page, ReadTitle(s, w, page, w.pc.found, choice).pc)
  {
  }

  lemma ResponseTruth(s: Sys, w: Worker, page: PagePlan, choice: Choice)
    requires w.pc.Written? && w.pc.send < |s.sends| && PageTruth(s.remote, s.sends, w.ordinal, page, w.pc)
    ensures PageTruth(s.remote, s.sends, w.ordinal, page, Response(s, w, w.pc.send, true, choice).pc)
  {
  }

  lemma ReadBackTruth(s: Sys, w: Worker, page: PagePlan, choice: Choice)
    requires w.pc.Confirm? && PageTruth(s.remote, s.sends, w.ordinal, page, w.pc)
    ensures PageTruth(s.remote, s.sends, w.ordinal, page, ReadBack(s, w, page, w.pc.confirmId, choice).pc)
  {
  }

  lemma AdvancePageTruth(s: Sys, w: Worker, choice: Choice)
    requires Wellformed(s) && OpsTrue(s) && w.ordinal < |s.journal.steps|
    requires s.journal.steps[w.ordinal].kind.PageStep? && w.pc != Begin && w.pc != ReadFailed
    requires PageTruth(s.remote, s.sends, w.ordinal, PageOf(s.plan, s.journal.steps[w.ordinal].kind), w.pc)
    ensures PageTruth(s.remote, s.sends, w.ordinal, PageOf(s.plan, s.journal.steps[w.ordinal].kind), Advance(s, w, choice).pc)
  {
    var page := PageOf(s.plan, s.journal.steps[w.ordinal].kind);
    match w.pc
    case Recovering => RecoverTruth(s, w, page, choice);
    case CheckPage => ReadPageReviewed(s, w, page, choice);
    case CheckTitle(_) => TitleTruth(s, w, page, choice);
    case Written(_) => ResponseTruth(s, w, page, choice);
    case Confirm(_) => ReadBackTruth(s, w, page, choice);
    case _ =>
  }

  lemma AdvanceAssetTruth(s: Sys, w: Worker, choice: Choice)
    requires Wellformed(s) && OpsTrue(s) && w.ordinal < |s.journal.steps| && WorkerTruth(s, w)
    requires s.journal.steps[w.ordinal].kind.AssetStep? && w.pc != Begin && w.pc != ReadFailed
    ensures WorkerTruth(s, Advance(s, w, choice))
  {
    var kind := s.journal.steps[w.ordinal].kind;
    match w.pc
    case CheckFiles => FilesTruth(s, w, PageOf(s.plan, kind), AssetOf(s.plan, kind), choice);
    case _ =>
  }

  lemma AdvanceRestTruth(s: Sys, w: Worker, choice: Choice)
    requires Wellformed(s) && OpsTrue(s) && w.ordinal < |s.journal.steps| && WorkerTruth(s, w)
    requires w.pc == Begin || w.pc == ReadFailed || !Writes(s.journal.steps[w.ordinal].kind)
    ensures WorkerTruth(s, Advance(s, w, choice))
  {
  }

  lemma AdvanceTruth(s: Sys, w: Worker, choice: Choice)
    requires Wellformed(s) && OpsTrue(s) && w.ordinal < |s.journal.steps| && WorkerTruth(s, w)
    ensures WorkerTruth(s, Advance(s, w, choice))
  {
    if w.pc == Begin || w.pc == ReadFailed || !Writes(s.journal.steps[w.ordinal].kind) {
      AdvanceRestTruth(s, w, choice);
    } else if s.journal.steps[w.ordinal].kind.PageStep? {
      AdvancePageTruth(s, w, choice);
    } else {
      AdvanceAssetTruth(s, w, choice);
    }
  }

  // ------------------------------------------------------------------ preservation

  /** Growth of the remote and resolution of sends keep every fact the invariant states. */
  ghost predicate Later(s: Sys, t: Sys) {
    && t.plan == s.plan
    && |t.journal.steps| == |s.journal.steps|
    && (forall o :: 0 <= o < |s.journal.steps| ==> t.journal.steps[o].kind == s.journal.steps[o].kind)
    && Extends(s.remote, t.remote)
    && |s.sends| <= |t.sends|
    && (forall k :: 0 <= k < |s.sends| ==>
          t.sends[k].ordinal == s.sends[k].ordinal && (s.sends[k].state.Applied? ==> t.sends[k].state.Applied?))
  }

  lemma ReviewedLater(r: Remote, r': Remote, page: PagePlan)
    requires Reviewed(r, page) && Extends(r, r')
    ensures Reviewed(r', page)
  {
    assert r.pages[page.remoteId.value].history <= r'.pages[page.remoteId.value].history;
  }

  lemma AppliedLater(s: Sys, t: Sys, o: int)
    requires Later(s, t) && AppliedStep(s.sends, o)
    ensures AppliedStep(t.sends, o)
  {
    var k :| 0 <= k < |s.sends| && s.sends[k].ordinal == o && s.sends[k].state.Applied?;
    assert t.sends[k].ordinal == o && t.sends[k].state.Applied?;
  }

  lemma WorkerLater(s: Sys, t: Sys, w: Worker)
    requires Wellformed(s) && Wellformed(t) && Later(s, t) && w.ordinal < |s.journal.steps| && WorkerTruth(s, w)
    ensures WorkerTruth(t, w)
  {
    var kind := s.journal.steps[w.ordinal].kind;
    if AppliedStep(s.sends, w.ordinal) { AppliedLater(s, t, w.ordinal); }
    if kind.PageStep? && Reviewed(s.remote, s.plan.pages[kind.page]) {
      ReviewedLater(s.remote, t.remote, s.plan.pages[kind.page]);
    }
  }

  lemma WriteLater(s: Sys, t: Sys, send: Send)
    requires Wellformed(s) && Wellformed(t) && Later(s, t) && WriteFits(s, send)
    ensures WriteFits(t, send)
  {
    if send.write.Put? {
      ReviewedLater(s.remote, t.remote, s.plan.pages[s.journal.steps[send.ordinal].kind.page]);
      assert s.remote.pages[send.write.page].history <= t.remote.pages[send.write.page].history;
    }
  }

  lemma AuthorLater(s: Sys, t: Sys, id: RemoteId, n: nat, o: nat)
    requires Wellformed(s) && Wellformed(t) && Later(s, t) && AuthorFits(s, id, n, o)
    ensures AuthorFits(t, id, n, o)
  {
    var page := s.plan.pages[s.journal.steps[o].kind.page];
    if page.remoteId.Some? { ReviewedLater(s.remote, t.remote, page); }
  }

  /** Events that write neither to the remote nor to the sends, and record no success. */
  lemma RemoteUntouched(s: Sys, t: Sys)
    requires EffectInv(s) && Inv(t) && Later(s, t) && t.remote == s.remote && t.sends == s.sends
    requires forall i :: 0 <= i < |t.workers| ==> WorkerTruth(s, t.workers[i])
    requires forall o :: 0 <= o < |s.journal.steps| && t.journal.steps[o].status == Succeeded && Writes(s.journal.steps[o].kind)
               ==> AppliedStep(s.sends, o)
    ensures EffectInv(t)
  {
    forall i | 0 <= i < |t.workers| ensures WorkerTruth(t, t.workers[i]) { WorkerLater(s, t, t.workers[i]); }
    forall k | 0 <= k < |t.sends| ensures WriteFits(t, t.sends[k]) { WriteLater(s, t, s.sends[k]); }
    forall id, n | id in t.remote.pages && 0 <= n < |t.remote.pages[id].history|
      ensures t.remote.pages[id].history[n].author.Some? ==> AuthorFits(t, id, n, t.remote.pages[id].history[n].author.value)
    {
      var author := s.remote.pages[id].history[n].author;
      if author.Some? { AuthorLater(s, t, id, n, author.value); }
    }
  }

  lemma ActEffects(s: Sys, id: WorkerId, w: Worker)
    requires EffectInv(s) && id < |s.workers| && Inv(s.(workers := s.workers[id := w]))
    requires w.ordinal < |s.journal.steps| && WorkerTruth(s, w)
    ensures EffectInv(s.(workers := s.workers[id := w]))
  {
    var t := s.(workers := s.workers[id := w]);
    forall i | 0 <= i < |t.workers| ensures WorkerTruth(s, t.workers[i]) { assert i != id ==> WorkerTruth(s, s.workers[i]); }
    RemoteUntouched(s, t);
  }

  lemma ClaimEffects(s: Sys, expected: nat)
    requires EffectInv(s) && Inv(ClaimEvent(s, expected))
    ensures EffectInv(ClaimEvent(s, expected))
  {
    var t := ClaimEvent(s, expected);
    forall i | 0 <= i < |t.workers| ensures WorkerTruth(s, t.workers[i]) { assert i < |s.workers| ==> WorkerTruth(s, s.workers[i]); }
    RemoteUntouched(s, t);
  }

  lemma StashEffects(s: Sys, id: WorkerId)
    requires EffectInv(s) && id < |s.workers| && Inv(StashEvent(s, id))
    ensures EffectInv(StashEvent(s, id))
  {
    var t := StashEvent(s, id);
    assert WorkerTruth(s, s.workers[id]);
    forall i | 0 <= i < |t.workers| ensures WorkerTruth(s, t.workers[i]) { assert WorkerTruth(s, s.workers[i]); }
    RemoteUntouched(s, t);
  }

  lemma FinishFrame(s: Sys, id: WorkerId)
    requires Inv(s) && id < |s.workers|
    ensures var t := FinishEvent(s, id);
            && t.plan == s.plan && t.remote == s.remote && t.sends == s.sends && |t.journal.steps| == |s.journal.steps|
            && (t.workers == s.workers || t.workers == s.workers[id := s.workers[id].(pc := Gone)])
            && (forall o :: 0 <= o < |s.journal.steps| ==> t.journal.steps[o].kind == s.journal.steps[o].kind)
            && (forall o :: 0 <= o < |s.journal.steps| && t.journal.steps[o].status == Succeeded ==>
                  || s.journal.steps[o].status == Succeeded
                  || (o == s.workers[id].ordinal && s.workers[id].pc.Closed? && s.workers[id].pc.closing.status == Succeeded))
  {
  }

  lemma FinishEffects(s: Sys, id: WorkerId)
    requires EffectInv(s) && id < |s.workers| && Inv(FinishEvent(s, id))
    ensures EffectInv(FinishEvent(s, id))
  {
    FinishFrame(s, id);
    FinishedEffects(s, FinishEvent(s, id), id);
  }

  lemma FinishedEffects(s: Sys, t: Sys, id: WorkerId)
    requires EffectInv(s) && Inv(t) && id < |s.workers| && t.plan == s.plan && t.remote == s.remote && t.sends == s.sends
    requires t.workers == s.workers || t.workers == s.workers[id := s.workers[id].(pc := Gone)]
    requires |t.journal.steps| == |s.journal.steps|
    requires forall o :: 0 <= o < |s.journal.steps| ==> t.journal.steps[o].kind == s.journal.steps[o].kind
    requires forall o :: 0 <= o < |s.journal.steps| && t.journal.steps[o].status == Succeeded ==>
               || s.journal.steps[o].status == Succeeded
               || (o == s.workers[id].ordinal && s.workers[id].pc.Closed? && s.workers[id].pc.closing.status == Succeeded)
    ensures EffectInv(t)
  {
    assert WorkerTruth(s, s.workers[id]);
    forall i | 0 <= i < |t.workers| ensures WorkerTruth(s, t.workers[i]) { assert WorkerTruth(s, s.workers[i]); }
    RemoteUntouched(s, t);
  }

  /** Transactions of operators change neither workers nor remote, and record no success. */
  lemma JournalEffects(s: Sys, t: Sys)
    requires EffectInv(s) && Inv(t) && t.plan == s.plan && t.workers == s.workers && t.remote == s.remote
    requires t.sends == s.sends && |t.journal.steps| == |s.journal.steps|
    requires forall o :: 0 <= o < |s.journal.steps| ==>
               && t.journal.steps[o].kind == s.journal.steps[o].kind
               && (t.journal.steps[o].status == Succeeded ==> s.journal.steps[o].status == Succeeded)
    ensures EffectInv(t)
  {
    forall i | 0 <= i < |t.workers| ensures WorkerTruth(s, t.workers[i]) { assert WorkerTruth(s, s.workers[i]); }
    RemoteUntouched(s, t);
  }

  lemma MarkedEffects(s: Sys, t: Sys, id: WorkerId, send: Send)
    requires EffectInv(s) && Inv(t) && id < |s.workers| == |t.workers| && Later(s, t) && t.remote == s.remote
    requires t.workers == s.workers[id := t.workers[id]] && t.workers[id].ordinal == s.workers[id].ordinal
    requires t.workers[id].pc == Written(|s.sends|) && send.ordinal == s.workers[id].ordinal
    requires t.sends == s.sends + [send] && WriteFits(t, send)
    requires forall o :: 0 <= o < |s.journal.steps| ==>
               t.journal.steps[o].status == Succeeded ==> s.journal.steps[o].status == Succeeded
    ensures EffectInv(t)
  {
    forall i | 0 <= i < |t.workers| ensures WorkerTruth(t, t.workers[i]) {
      assert WorkerTruth(s, s.workers[i]);
      if i != id { WorkerLater(s, t, s.workers[i]); }
    }
    forall k | 0 <= k < |t.sends| ensures WriteFits(t, t.sends[k]) {
      if k < |s.sends| { WriteLater(s, t, s.sends[k]); }
    }
    forall id, n | id in t.remote.pages && 0 <= n < |t.remote.pages[id].history|
      ensures t.remote.pages[id].history[n].author.Some? ==> AuthorFits(t, id, n, t.remote.pages[id].history[n].author.value)
    {
      var author := s.remote.pages[id].history[n].author;
      if author.Some? { AuthorLater(s, t, id, n, author.value); }
    }
    forall o | 0 <= o < |s.journal.steps| && AppliedStep(s.sends, o) ensures AppliedStep(t.sends, o) { AppliedLater(s, t, o); }
  }

  lemma RefusedSendEffects(s: Sys, id: WorkerId)
    requires EffectInv(s) && id < |s.workers| && Inv(SentEvent(s, id))
    requires !(s.workers[id].pc == PreSend && WriteOf(s, s.workers[id]).Some? && MaySend(s.journal, id, s.now))
    ensures EffectInv(SentEvent(s, id))
  {
    var t, w := SentEvent(s, id), s.workers[id];
    assert WorkerTruth(s, w);
    assert t == s || t == s.(workers := s.workers[id := w.(pc := Gone)]);
    assert s.workers == s.workers[id := w];
    ActEffects(s, id, t.workers[id]);
  }

  lemma SentEffects(s: Sys, id: WorkerId)
    requires EffectInv(s) && id < |s.workers| && Inv(SentEvent(s, id))
    ensures EffectInv(SentEvent(s, id))
  {
    var t := SentEvent(s, id);
    var w := s.workers[id];
    if w.pc == PreSend && WriteOf(s, w).Some? && MaySend(s.journal, id, s.now) {
      assert t.remote == s.remote && t.plan == s.plan;
      MarkedEffects(s, t, id, Send(w.ordinal, WriteOf(s, w).value, OnTheWay));
    } else {
      RefusedSendEffects(s, id);
    }
  }

  /** The remote changed: what remains to be shown concerns only the new versions, markers and sends. */
  lemma RemoteChanged(s: Sys, t: Sys)
    requires EffectInv(s) && Inv(t) && Later(s, t) && t.journal == s.journal && t.workers == s.workers
    requires |t.sends| == |s.sends|
    requires forall k :: 0 <= k < |t.sends| ==> (t.sends[k] == s.sends[k] || WriteFits(t, t.sends[k]))
    requires forall id, n :: id in t.remote.pages && 0 <= n < |t.remote.pages[id].history| ==>
               || (id in s.remote.pages && n < |s.remote.pages[id].history|)
               || t.remote.pages[id].history[n].author.None?
               || AuthorFits(t, id, n, t.remote.pages[id].history[n].author.value)
    requires forall o :: 0 <= o < |t.journal.steps| && KnownOp(t.remote, o) && !KnownOp(s.remote, o) ==> AppliedStep(t.sends, o)
    ensures EffectInv(t)
  {
    forall i | 0 <= i < |t.workers| ensures WorkerTruth(t, t.workers[i]) { WorkerLater(s, t, s.workers[i]); }
    forall k | 0 <= k < |t.sends| ensures WriteFits(t, t.sends[k]) {
      if t.sends[k] == s.sends[k] { WriteLater(s, t, s.sends[k]); }
    }
    forall id, n | id in t.remote.pages && 0 <= n < |t.remote.pages[id].history|
      ensures t.remote.pages[id].history[n].author.Some? ==> AuthorFits(t, id, n, t.remote.pages[id].history[n].author.value)
    {
      if id in s.remote.pages && n < |s.remote.pages[id].history| {
        assert s.remote.pages[id].history <= t.remote.pages[id].history;
        var author := s.remote.pages[id].history[n].author;
        if author.Some? { AuthorLater(s, t, id, n, author.value); }
      }
    }
    forall o | 0 <= o < |s.journal.steps| && AppliedStep(s.sends, o) ensures AppliedStep(t.sends, o) { AppliedLater(s, t, o); }
  }

  lemma PutEffects(s: Sys, k: nat, stored: Body, newId: RemoteId)
    requires EffectInv(s) && k < |s.sends| && s.sends[k].write.Put? && Inv(ApplyEvent(s, k, stored, newId))
    ensures EffectInv(ApplyEvent(s, k, stored, newId))
  {
    var t := ApplyEvent(s, k, stored, newId);
    var send := s.sends[k];
    assert WriteFits(s, send);
    if t.remote != s.remote {
      var id := send.write.page;
      assert Later(s, t);
      assert t.sends[k].state.Applied? && t.sends[k].ordinal == send.ordinal;
      assert AppliedStep(t.sends, send.ordinal);
      ReviewedLater(s.remote, t.remote, s.plan.pages[s.journal.steps[send.ordinal].kind.page]);
      forall o | 0 <= o < |t.journal.steps| && KnownOp(t.remote, o)
        ensures KnownOp(s.remote, o) || AppliedStep(t.sends, o)
      {
        if o != send.ordinal { NewMarker(s.remote, t.remote, o, id, send.ordinal); }
      }
      RemoteChanged(s, t);
    } else if t != s {
      RemoteChanged(s, t);
    }
  }

  /** A marker other than the author's own was there before the one version that was added. */
  lemma NewMarker(r: Remote, r': Remote, o: nat, id: RemoteId, own: nat)
    requires KnownOp(r', o) && o != own && r'.files == r.files && id in r'.pages && r'.pages[id].history != []
    requires r'.pages == r.pages[id := r'.pages[id]]
    requires Latest(r'.pages[id]).body.ops <= {own}
    requires if id in r.pages then r'.pages[id].history == r.pages[id].history + [Latest(r'.pages[id])]
             else r'.pages[id].history == [Latest(r'.pages[id])]
    ensures KnownOp(r, o)
  {
    if f :| f in r'.files && r'.files[f].comment == Some(o) {
      assert r.files[f].comment == Some(o);
    } else {
      var p, i :| p in r'.pages && 0 <= i < |r'.pages[p].history| && o in r'.pages[p].history[i].body.ops;
      assert p in r.pages && i < |r.pages[p].history| && r'.pages[p].history[i] == r.pages[p].history[i];
    }
  }

  lemma CreateEffects(s: Sys, k: nat, stored: Body, newId: RemoteId)
    requires EffectInv(s) && k < |s.sends| && s.sends[k].write.Create? && Inv(ApplyEvent(s, k, stored, newId))
    ensures EffectInv(ApplyEvent(s, k, stored, newId))
  {
    var t := ApplyEvent(s, k, stored, newId);
    var send := s.sends[k];
    assert WriteFits(s, send);
    if t != s {
      assert Later(s, t);
      assert t.sends[k].state.Applied? && t.sends[k].ordinal == send.ordinal;
      assert AppliedStep(t.sends, send.ordinal);
      forall o | 0 <= o < |t.journal.steps| && KnownOp(t.remote, o)
        ensures KnownOp(s.remote, o) || AppliedStep(t.sends, o)
      {
        if o != send.ordinal { NewMarker(s.remote, t.remote, o, newId, send.ordinal); }
      }
      RemoteChanged(s, t);
    }
  }

  lemma UploadEffects(s: Sys, k: nat, stored: Body, newId: RemoteId)
    requires EffectInv(s) && k < |s.sends| && s.sends[k].write.Upload? && Inv(ApplyEvent(s, k, stored, newId))
    ensures EffectInv(ApplyEvent(s, k, stored, newId))
  {
    var t := ApplyEvent(s, k, stored, newId);
    var send := s.sends[k];
    assert WriteFits(s, send);
    if t != s {
      assert Later(s, t);
      forall o | 0 <= o < |t.journal.steps| && KnownOp(t.remote, o) && !KnownOp(s.remote, o)
        ensures AppliedStep(t.sends, o)
      {
        assert o == send.ordinal;
        assert t.sends[k].state.Applied? && t.sends[k].ordinal == o;
      }
      RemoteChanged(s, t);
    }
  }

  lemma OutsideEffects(s: Sys, e: Event)
    requires EffectInv(s) && (e.OutsideEdit? || e.OutsideCreate? || e.OutsideTrash? || e.OutsideFile?)
    requires Inv(OutsideEvent(s, e))
    ensures EffectInv(OutsideEvent(s, e))
  {
    var t := OutsideEvent(s, e);
    forall o | KnownOp(t.remote, o)
      ensures KnownOp(s.remote, o)
    {
      OutsideMarkers(s, e, o);
    }
    RemoteChanged(s, t);
  }

  /** Outsiders only copy markers. */
  lemma OutsideMarkers(s: Sys, e: Event, o: nat)
    requires KnownOp(OutsideEvent(s, e).remote, o)
    ensures KnownOp(s.remote, o)
  {
    var t := OutsideEvent(s, e);
    if f :| f in t.remote.files && t.remote.files[f].comment == Some(o) {
      assert (f in s.remote.files && s.remote.files[f].comment == Some(o)) || KnownOp(s.remote, o);
    } else {
      var p, i :| p in t.remote.pages && 0 <= i < |t.remote.pages[p].history| && o in t.remote.pages[p].history[i].body.ops;
      if p in s.remote.pages && i < |s.remote.pages[p].history| {
        assert o in s.remote.pages[p].history[i].body.ops;
      }
    }
  }

  lemma ActStepEffects(s: Sys, id: WorkerId, choice: Choice)
    requires EffectInv(s) && Inv(Next(s, Act(id, choice)))
    ensures EffectInv(Next(s, Act(id, choice)))
  {
    if id < |s.workers| {
      AdvanceTruth(s, s.workers[id], choice);
      ActEffects(s, id, Advance(s, s.workers[id], choice));
    }
  }

  lemma CrashEffects(s: Sys, id: WorkerId)
    requires EffectInv(s) && Inv(Next(s, Crash(id)))
    ensures EffectInv(Next(s, Crash(id)))
  {
    if id < |s.workers| {
      assert WorkerTruth(s, s.workers[id]);
      ActEffects(s, id, s.workers[id].(pc := Gone));
    }
  }

  lemma MarkStepEffects(s: Sys, id: WorkerId)
    requires EffectInv(s) && Inv(Next(s, MarkSent(id)))
    ensures EffectInv(Next(s, MarkSent(id)))
  {
    if id < |s.workers| {
      assert Next(s, MarkSent(id)) == SentEvent(s, id);
      SentEffects(s, id);
    }
  }

  lemma StashStepEffects(s: Sys, id: WorkerId)
    requires EffectInv(s) && Inv(Next(s, StashId(id)))
    ensures EffectInv(Next(s, StashId(id)))
  {
    if id < |s.workers| {
      assert Next(s, StashId(id)) == StashEvent(s, id);
      StashEffects(s, id);
    }
  }

  lemma FinishStepEffects(s: Sys, id: WorkerId)
    requires EffectInv(s) && Inv(Next(s, FinishStep(id)))
    ensures EffectInv(Next(s, FinishStep(id)))
  {
    if id < |s.workers| {
      assert Next(s, FinishStep(id)) == FinishEvent(s, id);
      FinishEffects(s, id);
    }
  }

  lemma WorkerEffects(s: Sys, e: Event)
    requires EffectInv(s) && Inv(Next(s, e))
    requires e.Act? || e.Crash? || e.MarkSent? || e.StashId? || e.FinishStep?
    ensures EffectInv(Next(s, e))
  {
    match e
    case Act(id, choice) => ActStepEffects(s, id, choice);
    case Crash(id) => CrashEffects(s, id);
    case MarkSent(id) => MarkStepEffects(s, id);
    case StashId(id) => StashStepEffects(s, id);
    case FinishStep(id) => FinishStepEffects(s, id);
  }

  lemma RemoteEffects(s: Sys, e: Event)
    requires EffectInv(s) && Inv(Next(s, e))
    requires e.RemoteApplies? || e.RemoteDrops?
    ensures EffectInv(Next(s, e))
  {
    match e
    case RemoteDrops(k) => DropEffects(s, k);
    case RemoteApplies(k, stored, newId) =>
      if k < |s.sends| {
        if s.sends[k].write.Put? { PutEffects(s, k, stored, newId); }
        else if s.sends[k].write.Create? { CreateEffects(s, k, stored, newId); }
        else { UploadEffects(s, k, stored, newId); }
      }
  }

  lemma NextEffects(s: Sys, e: Event)
    requires EffectInv(s)
    ensures EffectInv(Next(s, e))
  {
    NextKeeps(s, e);
    if e.Act? || e.Crash? || e.MarkSent? || e.StashId? || e.FinishStep? {
      WorkerEffects(s, e);
    } else if e.RemoteApplies? || e.RemoteDrops? {
      RemoteEffects(s, e);
    } else if e.OutsideEdit? || e.OutsideCreate? || e.OutsideTrash? || e.OutsideFile? {
      OutsideEffects(s, e);
    } else if e.ClaimNext? {
      ClaimEffects(s, e.expected);
    } else if e.Tick? || e.EditProfile? || e.RivalJob? {
      JournalEffects(s, Next(s, e));
    } else {
      OperatorEffects(s, e);
    }
  }

  lemma OperatorEffects(s: Sys, e: Event)
    requires EffectInv(s) && Inv(Next(s, e))
    requires e.ControlJob? || e.BeginRevalidate? || e.CommitRevalidate? || e.BeginResolve? || e.CheckResolve? || e.CommitResolve?
    ensures EffectInv(Next(s, e))
  {
    var t := Next(s, e);
    OperatorSteps(s, e);
    JournalEffects(s, t);
  }

  /** No operator turns a step into a success. */
  lemma OperatorSteps(s: Sys, e: Event)
    requires Inv(s)
    requires e.ControlJob? || e.BeginRevalidate? || e.CommitRevalidate? || e.BeginResolve? || e.CheckResolve? || e.CommitResolve?
    ensures var t := Next(s, e);
            && t.plan == s.plan && t.workers == s.workers && t.remote == s.remote && t.sends == s.sends
            && |t.journal.steps| == |s.journal.steps|
            && forall o :: 0 <= o < |s.journal.steps| ==>
                 && t.journal.steps[o].kind == s.journal.steps[o].kind
                 && (t.journal.steps[o].status == Succeeded ==> s.journal.steps[o].status == Succeeded)
  {
  }

  lemma DropEffects(s: Sys, k: nat)
    requires EffectInv(s) && Inv(Next(s, RemoteDrops(k)))
    ensures EffectInv(Next(s, RemoteDrops(k)))
  {
    var t := Next(s, RemoteDrops(k));
    if t != s {
      assert WriteFits(s, s.sends[k]);
      RemoteChanged(s, t);
    }
  }

  // ------------------------------------------------------------------ runs

  lemma InitialEffects(s: Sys)
    requires Initial(s) && ParentFirst(s.plan)
    ensures EffectInv(s) && PutsOnce(s)
  {
    InitialInv(s);
    InitialStepsFit(s.plan);
  }

  /** Of the updates sent for one step, at most one was applied. */
  predicate PutsOnce(s: Sys) {
    forall i, j | 0 <= i < j < |s.sends| && s.sends[i].write.Put? && s.sends[j].write.Put? ::
      s.sends[i].ordinal == s.sends[j].ordinal ==> !(s.sends[i].state.Applied? && s.sends[j].state.Applied?)
  }

  /** Only the remote applies a write. */
  lemma AppliedBefore(s: Sys, e: Event, k: int)
    requires Inv(s) && !e.RemoteApplies? && 0 <= k < |Next(s, e).sends| && Next(s, e).sends[k].state.Applied?
    ensures k < |s.sends| && Next(s, e).sends[k] == s.sends[k]
  {
    if !e.RemoteDrops? && !e.MarkSent? { SendsUntouched(s, e); }
  }

  lemma SendsUntouched(s: Sys, e: Event)
    requires Inv(s) && !e.RemoteApplies? && !e.RemoteDrops? && !e.MarkSent?
    ensures Next(s, e).sends == s.sends
  {
  }

  lemma NextPutsOnce(s: Sys, e: Event)
    requires EffectInv(s) && PutsOnce(s)
    ensures PutsOnce(Next(s, e))
  {
    var t := Next(s, e);
    if e.RemoteApplies? {
      if e.send < |s.sends| { ApplyOnce(s, e.send, e.stored, e.newId); }
    } else {
      forall k | 0 <= k < |t.sends| && t.sends[k].state.Applied?
        ensures k < |s.sends| && t.sends[k] == s.sends[k]
      {
        AppliedBefore(s, e, k);
      }
    }
  }

  /** A second acceptance would need the page to be back at the reviewed version. */
  lemma ApplyOnce(s: Sys, k: nat, stored: Body, newId: RemoteId)
    requires EffectInv(s) && PutsOnce(s) && k < |s.sends|
    ensures PutsOnce(ApplyEvent(s, k, stored, newId))
  {
    assert WriteFits(s, s.sends[k]);
    assert forall i :: 0 <= i < |s.sends| ==> WriteFits(s, s.sends[i]);
  }

  lemma {:induction false} RunEffects(s: Sys, events: seq<Event>)
    requires EffectInv(s) && PutsOnce(s)
    ensures EffectInv(Run(s, events)) && PutsOnce(Run(s, events))
    decreases |events|
  {
    if events != [] {
      NextEffects(s, events[0]);
      NextPutsOnce(s, events[0]);
      RunEffects(Next(s, events[0]), events[1..]);
    }
  }

  /** The remote keeps every version. */
  lemma {:induction false} HistoriesOnlyGrow(s: Sys, events: seq<Event>)
    requires Inv(s)
    ensures Extends(s.remote, Run(s, events).remote)
    decreases |events|
  {
    if events != [] {
      NextKeeps(s, events[0]);
      GrowOneStep(s, events[0]);
      HistoriesOnlyGrow(Next(s, events[0]), events[1..]);
    }
  }

  lemma GrowOneStep(s: Sys, e: Event)
    requires Inv(s)
    ensures Extends(s.remote, Next(s, e).remote)
  {
    if !e.RemoteApplies? && !e.OutsideEdit? && !e.OutsideCreate? && !e.OutsideTrash? && !e.OutsideFile? {
      RemoteUnchanged(s, e);
    }
  }

  lemma RemoteUnchanged(s: Sys, e: Event)
    requires Inv(s) && !e.RemoteApplies? && !e.OutsideEdit? && !e.OutsideCreate? && !e.OutsideTrash? && !e.OutsideFile?
    ensures Next(s, e).remote == s.remote
  {
  }

  /** The send k is an update, and applying it now writes on top of exactly what its page step reviewed. */
  ghost predicate ReplacesReviewed(t: Sys, k: nat, stored: Body, newId: RemoteId)
    requires Wellformed(t) && k < |t.sends|
  {
    && t.sends[k].ordinal < |t.journal.steps| && t.journal.steps[t.sends[k].ordinal].kind.PageStep?
    && var page := PageOf(t.plan, t.journal.steps[t.sends[k].ordinal].kind);
       && page.remoteId.Some? && page.remoteId.value in t.remote.pages
       && var history := t.remote.pages[page.remoteId.value].history;
          && |history| == page.remoteVersion >= 1
          && (page.remoteDigest.Some? ==> Digest(history[|history| - 1].body) == page.remoteDigest.value)
          && ApplyEvent(t, k, stored, newId).remote
             == t.remote.(pages := t.remote.pages[page.remoteId.value := t.remote.pages[page.remoteId.value].(
                  history := history + [Revision(stored, page.title, history[|history| - 1].parent, Some(t.sends[k].ordinal))])])
  }

  lemma AcceptedReplaces(t: Sys, k: nat, stored: Body, newId: RemoteId)
    requires EffectInv(t) && k < |t.sends| && t.sends[k].write.Put? && t.sends[k].state == OnTheWay
    requires ApplyEvent(t, k, stored, newId).sends[k].state.Applied?
    ensures ReplacesReviewed(t, k, stored, newId)
  {
    assert WriteFits(t, t.sends[k]);
  }

  /**
    Whatever happened before, a page update that the remote accepts replaces exactly the version and
    the content the preview captured.
   */
  lemma AcceptedUpdateReplacesReviewed(s: Sys, events: seq<Event>, k: nat, stored: Body, newId: RemoteId)
    requires Initial(s) && ParentFirst(s.plan)
    ensures Inv(s) && Inv(Run(s, events))
    ensures var t := Run(s, events);
            (&& k < |t.sends| && t.sends[k].write.Put? && t.sends[k].state == OnTheWay
             && ApplyEvent(t, k, stored, newId).sends[k].state.Applied?) ==> ReplacesReviewed(t, k, stored, newId)
  {
    InitialEffects(s);
    RunEffects(s, events);
    var t := Run(s, events);
    if && k < |t.sends| && t.sends[k].write.Put? && t.sends[k].state == OnTheWay
       && ApplyEvent(t, k, stored, newId).sends[k].state.Applied?
    {
      AcceptedReplaces(t, k, stored, newId);
    }
  }

  /** A page step has at most one accepted update, even when recovery sent it again. */
  lemma UpdateAcceptedOnce(s: Sys, events: seq<Event>, i: int, j: int)
    requires Initial(s) && ParentFirst(s.plan)
    ensures Inv(s)
    ensures var t := Run(s, events);
            (&& 0 <= i < |t.sends| && 0 <= j < |t.sends| && t.sends[i].write.Put? && t.sends[j].write.Put?
             && t.sends[i].ordinal == t.sends[j].ordinal
             && t.sends[i].state.Applied? && t.sends[j].state.Applied?) ==> i == j
  {
    InitialEffects(s);
    RunEffects(s, events);
  }

  /**
    A page or upload recorded as succeeded had its own write applied; for an update, the version after
    the reviewed one was written by this very step.
   */
  lemma SuccessIsOwnWrite(s: Sys, events: seq<Event>, o: nat)
    requires Initial(s) && ParentFirst(s.plan)
    ensures Inv(s) && Inv(Run(s, events))
    ensures var t := Run(s, events);
            o < |t.journal.steps| && t.journal.steps[o].status == Succeeded && Writes(t.journal.steps[o].kind) ==>
              && AppliedStep(t.sends, o)
              && (t.journal.steps[o].kind.PageStep? ==>
                    var page := PageOf(t.plan, t.journal.steps[o].kind);
                    page.remoteId.Some? ==>
                      && page.remoteId.value in t.remote.pages
                      && page.remoteVersion < |t.remote.pages[page.remoteId.value].history|
                      && t.remote.pages[page.remoteId.value].history[page.remoteVersion].author == Some(o))
  {
    InitialEffects(s);
    RunEffects(s, events);
    var t := Run(s, events);
    if o < |t.journal.steps| && t.journal.steps[o].status == Succeeded && Writes(t.journal.steps[o].kind) {
      var k :| 0 <= k < |t.sends| && t.sends[k].ordinal == o && t.sends[k].state.Applied?;
      assert WriteFits(t, t.sends[k]);
    }
  }

  // ------------------------------------------------------------------ edits of others

  lemma {:induction false} RunSameKinds(s: Sys, events: seq<Event>)
    requires Inv(s)
    ensures KindsKept(s, Run(s, events))
    decreases |events|
  {
    if events != [] {
      SameKinds(s, events[0]);
      NextKeeps(s, events[0]);
      RunSameKinds(Next(s, events[0]), events[1..]);
    }
  }

  /** Every version that this job wrote directly follows the reviewed one, or is the first of a page it created. */
  lemma WritesFollowReview(s: Sys, events: seq<Event>, id: RemoteId, n: nat)
    requires Initial(s) && ParentFirst(s.plan)
    ensures Inv(s) && Inv(Run(s, events))
    ensures var t := Run(s, events);
            id in t.remote.pages && n < |t.remote.pages[id].history| && t.remote.pages[id].history[n].author.Some? ==>
              AuthorFits(t, id, n, t.remote.pages[id].history[n].author.value)
  {
    InitialEffects(s);
    RunEffects(s, events);
  }

  /** Somebody else wrote the version after the one that page step o reviewed. */
  predicate EditedAfterReview(t: Sys, o: nat)
    requires Wellformed(t) && o < |t.journal.steps| && t.journal.steps[o].kind.PageStep?
  {
    var page := PageOf(t.plan, t.journal.steps[o].kind);
    && page.remoteId.Some? && page.remoteId.value in t.remote.pages
    && page.remoteVersion < |t.remote.pages[page.remoteId.value].history|
    && t.remote.pages[page.remoteId.value].history[page.remoteVersion].author != Some(o)
  }

  /** Page step o has written nothing to the remote. */
  ghost predicate NeverWrote(t: Sys, o: nat) {
    && (forall k :: 0 <= k < |t.sends| && t.sends[k].ordinal == o && t.sends[k].write.Put? ==> !t.sends[k].state.Applied?)
    && (forall id, n :: id in t.remote.pages && 0 <= n < |t.remote.pages[id].history| ==>
          t.remote.pages[id].history[n].author != Some(o))
  }

  lemma EditedMeansUnwritten(t: Sys, o: nat)
    requires EffectInv(t) && o < |t.journal.steps| && t.journal.steps[o].kind.PageStep? && EditedAfterReview(t, o)
    ensures NeverWrote(t, o)
  {
    forall k | 0 <= k < |t.sends| && t.sends[k].ordinal == o && t.sends[k].write.Put?
      ensures !t.sends[k].state.Applied?
    {
      assert WriteFits(t, t.sends[k]);
    }
    forall id, n | id in t.remote.pages && 0 <= n < |t.remote.pages[id].history|
      ensures t.remote.pages[id].history[n].author != Some(o)
    {
      var author := t.remote.pages[id].history[n].author;
      assert author.Some? ==> AuthorFits(t, id, n, author.value);
    }
  }

  /**
    Once somebody else wrote the version after the reviewed one, the step that reviewed the page neither
    has written to it nor ever will, whatever the job, its workers and its operators do.
   */
  lemma OutsideEditStopsUpdate(s: Sys, events: seq<Event>, more: seq<Event>, o: nat)
    requires Initial(s) && ParentFirst(s.plan)
    ensures Inv(s) && Inv(Run(s, events))
    ensures var t := Run(s, events);
            o < |t.journal.steps| && t.journal.steps[o].kind.PageStep? && EditedAfterReview(t, o) ==>
              NeverWrote(t, o) && NeverWrote(Run(t, more), o) && Extends(t.remote, Run(t, more).remote)
  {
    InitialEffects(s);
    RunEffects(s, events);
    var t := Run(s, events);
    if o < |t.journal.steps| && t.journal.steps[o].kind.PageStep? && EditedAfterReview(t, o) {
      EditedMeansUnwritten(t, o);
      RunEffects(t, more);
      RunSameKinds(t, more);
      HistoriesOnlyGrow(t, more);
      var u, id := Run(t, more), PageOf(t.plan, t.journal.steps[o].kind).remoteId.value;
      assert t.remote.pages[id].history <= u.remote.pages[id].history;
      EditedMeansUnwritten(u, o);
    }
  }
}
