/**
  What a worker answers when nothing disturbs it: the remote is as reviewed, every read succeeds, and its
  write is applied. Each step then ends as it should, and recovery decides by the operation marker.
 */
module PublicationProgress {
  import opened Basics
  import opened PublicationJournal
  import opened PublicationSystem

  /** The worker's next action, with nothing going wrong. */
  function NextOf(s: Sys, w: Worker): Worker
    requires w.ordinal < |s.journal.steps| && KindFits(s.plan, s.journal.steps[w.ordinal].kind)
  {
    Advance(s, w, Go)
  }

  /** A worker that starts on page p with its parent confirmed as this page. */
  predicate StartsPage(s: Sys, w: Worker, p: nat, parent: Option<RemoteId>) {
    && Wellformed(s) && w.ordinal < |s.journal.steps| && s.journal.steps[w.ordinal].kind == PageStep(p) && p < |s.plan.pages|
    && w.pc == Begin && ParentIs(s, w, s.plan.pages[p], parent)
  }

  predicate ParentIs(s: Sys, w: Worker, page: PagePlan, parent: Option<RemoteId>) {
    if page.parentKey.None? then parent == s.plan.parentPage
    else page.parentKey.value in w.parents && w.parents[page.parentKey.value].id == parent
  }

  /** The page's latest version. */
  predicate Holding(r: Remote, id: RemoteId, version: nat, body: Body, title: string, parent: Option<RemoteId>) {
    && id in r.pages && r.pages[id].live && r.pages[id].history != [] && |r.pages[id].history| == version
    && var latest := r.pages[id].history[version - 1];
       latest.body == body && latest.title == title && latest.parent == parent
  }

  /** No visible page other than this one has the title. */
  ghost predicate TitleFree(r: Remote, title: string, own: Option<RemoteId>) {
    forall id :: Visible(r, id) && Latest(r.pages[id]).title == title ==> own == Some(id)
  }

  lemma NoMatches(r: Remote, title: string, own: Option<RemoteId>)
    requires TitleFree(r, title, own)
    ensures own.None? ==> TitleMatches(r, title) == {}
    ensures own.Some? ==> TitleMatches(r, title) - {own.value} == {}
  {
  }

  /** A mapped page that is as reviewed is kept, skipped or updated, as decided. */
  lemma ReviewedPageGoesOn(s: Sys, w: Worker, p: nat, parent: Option<RemoteId>, body: Body, title: string)
    requires StartsPage(s, w, p, parent) && !w.recover && s.plan.pages[p].remoteId.Some?
    requires var page := s.plan.pages[p];
             && Holding(s.remote, page.remoteId.value, page.remoteVersion, body, title, parent)
             && (page.remoteDigest.Some? ==> page.remoteDigest.value == Digest(body))
             && (page.remoteTitle.Some? ==> page.remoteTitle.value == title)
             && TitleFree(s.remote, page.title, page.remoteId)
    ensures var page := s.plan.pages[p];
            var read := NextOf(s, NextOf(s, w));
            var found := StepResult(page.remoteId, page.remoteVersion, Some(Digest(body)), title, page.key in s.plan.keep);
            if page.key in s.plan.keep then read.pc == Closed(Closing(Kept, found, None, 0, false))
            else if page.sameContent && page.key !in s.plan.replace then
              NextOf(s, read).pc == Closed(Closing(Skipped, found, None, 0, false))
            else
              && NextOf(s, read).pc == PreSend
              && WriteOf(s, NextOf(s, read)) == Some(Put(page.remoteId.value, page.remoteVersion, page.title, parent,
                                                        Body(page.text, {w.ordinal}, {page.ownership})))
  {
    NoMatches(s.remote, s.plan.pages[p].title, s.plan.pages[p].remoteId);
  }

  /** A new page is created when its title is free. */
  lemma NewPageGoesOn(s: Sys, w: Worker, p: nat, parent: Option<RemoteId>)
    requires StartsPage(s, w, p, parent) && !w.recover && s.plan.pages[p].remoteId.None?
    requires s.plan.pages[p].key !in s.plan.keep && TitleFree(s.remote, s.plan.pages[p].title, None)
    ensures var page := s.plan.pages[p];
            var ready := NextOf(s, NextOf(s, NextOf(s, w)));
            && ready.pc == PreSend
            && WriteOf(s, ready) == Some(Create(page.title, parent, Body(page.text, {w.ordinal}, {page.ownership})))
  {
    NoMatches(s.remote, s.plan.pages[p].title, None);
  }

  /** A page whose write was applied is confirmed with the version that it made. */
  lemma WrittenPageEnds(s: Sys, w: Worker, p: nat, parent: Option<RemoteId>, k: nat, id: RemoteId, body: Body)
    requires Wellformed(s) && w.ordinal < |s.journal.steps| && s.journal.steps[w.ordinal].kind == PageStep(p) && p < |s.plan.pages|
    requires w.pc == Written(k) && k < |s.sends| && s.sends[k].state == Applied(id) && ParentIs(s, w, s.plan.pages[p], parent)
    requires var page := s.plan.pages[p];
             && Holding(s.remote, id, if page.remoteId.Some? then page.remoteVersion + 1 else 1, body, page.title, parent)
             && w.ordinal in body.ops
    ensures var page := s.plan.pages[p];
            && NextOf(s, w).pc == GotId(id)
            && NextOf(s, w.(pc := Confirm(id))).pc
               == Closed(Closing(Succeeded, StepResult(Some(id), if page.remoteId.Some? then page.remoteVersion + 1 else 1,
                                                       Some(Digest(body)), page.title, false), None, 0, false))
  {
  }

  /** A lost response leaves the result open; a definite rejection is reported as such, a conflict as a conflict. */
  lemma AnswersAreTakenAsGiven(s: Sys, w: Worker, k: nat, conflict: bool, retryAt: int)
    requires Wellformed(s) && w.ordinal < |s.journal.steps| && k < |s.sends| && w.pc == Written(k)
    requires s.journal.steps[w.ordinal].kind.PageStep? || s.journal.steps[w.ordinal].kind.AssetStep?
    ensures Advance(s, w, WriteUnknown).pc == Closed(Closing(Uncertain, w.result, Some(OtherError), 0, false))
    ensures s.sends[k].state == Dead ==>
              Advance(s, w, WriteRejected(conflict, retryAt)).pc
              == Closed(Closing(if conflict then Conflicted else Failed, w.result, Some(OtherError), retryAt, true))
    ensures s.sends[k].state.Applied? && s.journal.steps[w.ordinal].kind.PageStep? ==>
              Advance(s, w, ResponseWithoutId).pc == Closed(Closing(Uncertain, w.result, Some(OtherError), 0, false))
  {
  }

  // ------------------------------------------------------------------ recovery

  /** The candidates that carry both markers of the step. */
  ghost predicate OnlyMarked(s: Sys, w: Worker, page: PagePlan, ids: seq<RemoteId>, i: nat) {
    && i < |ids| && Marked(s.remote, ids[i], w.ordinal, page.ownership)
    && forall j :: 0 <= j < |ids| && j != i ==> !Marked(s.remote, ids[j], w.ordinal, page.ownership)
  }

  lemma {:induction false} FilterFindsOne(s: Sys, w: Worker, page: PagePlan, ids: seq<RemoteId>, i: nat)
    requires OnlyMarked(s, w, page, ids, i)
    ensures FilterMarked(s.remote, ids, w.ordinal, page.ownership) == [ids[i]]
    decreases |ids|
  {
    if i == 0 {
      FilterFindsNone(s, w, page, ids[1..]);
    } else {
      assert !Marked(s.remote, ids[0], w.ordinal, page.ownership);
      FilterFindsOne(s, w, page, ids[1..], i - 1);
    }
  }

  lemma {:induction false} FilterFindsNone(s: Sys, w: Worker, page: PagePlan, ids: seq<RemoteId>)
    requires forall j :: 0 <= j < |ids| ==> !Marked(s.remote, ids[j], w.ordinal, page.ownership)
    ensures FilterMarked(s.remote, ids, w.ordinal, page.ownership) == []
    decreases |ids|
  {
    if ids != [] { FilterFindsNone(s, w, page, ids[1..]); }
  }

  lemma {:induction false} FilterCounts(s: Sys, w: Worker, page: PagePlan, ids: seq<RemoteId>)
    ensures |FilterMarked(s.remote, ids, w.ordinal, page.ownership)| == 1 <==> exists i :: OnlyMarked(s, w, page, ids, i)
  {
    if i :| OnlyMarked(s, w, page, ids, i) {
      FilterFindsOne(s, w, page, ids, i);
    } else if |FilterMarked(s.remote, ids, w.ordinal, page.ownership)| == 1 {
      var i := OneIsOnly(s, w, page, ids);
      assert OnlyMarked(s, w, page, ids, i);
    }
  }

  lemma {:induction false} OneIsOnly(s: Sys, w: Worker, page: PagePlan, ids: seq<RemoteId>) returns (i: nat)
    requires |FilterMarked(s.remote, ids, w.ordinal, page.ownership)| == 1
    ensures OnlyMarked(s, w, page, ids, i)
    decreases |ids|
  {
    if Marked(s.remote, ids[0], w.ordinal, page.ownership) {
      i := 0;
      forall j | 0 < j < |ids| ensures !Marked(s.remote, ids[j], w.ordinal, page.ownership) {
        if Marked(s.remote, ids[j], w.ordinal, page.ownership) { MarkedIsFound(s, w, page, ids[1..], j - 1); }
      }
    } else {
      var k := OneIsOnly(s, w, page, ids[1..]);
      i := k + 1;
      assert forall j :: 0 < j < |ids| ==> ids[j] == ids[1..][j - 1];
    }
  }

  lemma {:induction false} MarkedIsFound(s: Sys, w: Worker, page: PagePlan, ids: seq<RemoteId>, j: nat)
    requires j < |ids| && Marked(s.remote, ids[j], w.ordinal, page.ownership)
    ensures FilterMarked(s.remote, ids, w.ordinal, page.ownership) != []
    decreases |ids|
  {
    if j > 0 { MarkedIsFound(s, w, page, ids[1..], j - 1); }
  }

  /** An interrupted update is repeated only from exactly the reviewed page; a changed page without the marker is a conflict. */
  lemma RecoveryOfUpdate(s: Sys, w: Worker, p: nat, parent: Option<RemoteId>, version: nat, body: Body, title: string)
    requires StartsPage(s, w, p, parent) && w.recover && s.plan.pages[p].remoteId.Some? && w.result.id.None?
    requires Holding(s.remote, s.plan.pages[p].remoteId.value, version, body, title, parent)
    ensures var page := s.plan.pages[p];
            var r := NextOf(s, NextOf(s, w));
            var reviewed := && version == page.remoteVersion
                            && (page.remoteDigest.Some? ==> page.remoteDigest.value == Digest(body))
                            && (page.remoteTitle.Some? ==> page.remoteTitle.value == title);
            if w.ordinal in body.ops && page.ownership in body.owners then
              && r.pc.StashThen? && r.pc.stashed == StepResult(page.remoteId, 0, None, "", false)
              && r.pc.next == (if version == page.remoteVersion + 1 && title == page.title
                               then Closing(Succeeded, StepResult(page.remoteId, version, Some(Digest(body)), title, false), None, 0, false)
                               else Closing(Conflicted, r.pc.stashed, Some(OtherError), 0, false))
            else if reviewed then r == w.(recover := false, pc := CheckPage)
            else r.pc == Closed(Closing(Conflicted, w.result, Some(OtherError), 0, false))
  {
    var page := s.plan.pages[p];
    var ids := [page.remoteId.value];
    if Marked(s.remote, ids[0], w.ordinal, page.ownership) { FilterFindsOne(s, w, page, ids, 0); }
    else { FilterFindsNone(s, w, page, ids); }
  }

  /**
    An interrupted create is never repeated: the page that alone carries both markers among the pages of the
    title is adopted, and without exactly one such page the result stays uncertain.
   */
  lemma RecoveryOfCreate(s: Sys, w: Worker, p: nat, parent: Option<RemoteId>, ids: seq<RemoteId>)
    requires StartsPage(s, w, p, parent) && w.recover && s.plan.pages[p].remoteId.None? && w.result.id.None?
    ensures var page := s.plan.pages[p];
            var r := Advance(s, NextOf(s, w), Candidates(ids));
            && ((exists i :: OnlyMarked(s, w, page, ids, i)) <==> r.pc.StashThen?)
            && (r.pc.StashThen? ==> r.pc.stashed.id.Some? && Marked(s.remote, r.pc.stashed.id.value, w.ordinal, page.ownership)
                                    && r.pc.stashed.id.value in ids
                                    && (r.pc.next.status == Succeeded <==>
                                          var version := Latest(s.remote.pages[r.pc.stashed.id.value]);
                                          && |s.remote.pages[r.pc.stashed.id.value].history| == 1
                                          && version.title == page.title && version.parent == parent))
            && (!r.pc.StashThen? ==> r.pc == Closed(Closing(Uncertain, w.result, Some(OtherError), 0, false)))
  {
    var page := s.plan.pages[p];
    FilterCounts(s, w, page, ids);
    if i :| OnlyMarked(s, w, page, ids, i) { FilterFindsOne(s, w, page, ids, i); }
  }

  // ------------------------------------------------------------------ attachments and checks

  /** A worker on asset a of page p whose confirmed page is unchanged. */
  predicate HostHolds(s: Sys, w: Worker, p: nat, parent: Option<RemoteId>, host: StepResult, body: Body) {
    && Wellformed(s) && w.ordinal < |s.journal.steps| && p < |s.plan.pages| && ParentIs(s, w, s.plan.pages[p], parent)
    && s.plan.pages[p].key in w.parents && w.parents[s.plan.pages[p].key] == host && host.id.Some?
    && Holding(s.remote, host.id.value, host.version, body, host.title, parent)
    && (host.digest.Some? ==> host.digest.value == Digest(body))
  }

  /** Attachments of a kept page are kept; a new one is uploaded when its name is free; an existing one is compared. */
  lemma AttachmentGoesOn(s: Sys, w: Worker, p: nat, a: nat, parent: Option<RemoteId>, host: StepResult, body: Body)
    requires HostHolds(s, w, p, parent, host, body) && s.journal.steps[w.ordinal].kind == AssetStep(p, a) && !w.recover && w.pc == Begin
    ensures var asset := s.plan.pages[p].assets[a];
            var slot := (host.id.value, asset.filename);
            var read := NextOf(s, NextOf(s, w));
            if host.kept then read.pc == Closed(Closing(Kept, StepResult(None, 0, None, "", true), None, 0, false))
            else
              && (asset.action == CreateAsset && slot !in s.remote.files ==>
                    && NextOf(s, read).pc == PreSend
                    && WriteOf(s, NextOf(s, read)) == Some(Upload(host.id.value, asset.filename, w.ordinal, asset.bytes)))
              && (asset.action == UnchangedAsset && slot in s.remote.files && Some(s.remote.files[slot].id) == asset.remoteId
                  && s.remote.files[slot].version == asset.remoteVersion && s.remote.files[slot].bytes == asset.bytes ==>
                    NextOf(s, read).pc == Closed(Closing(Skipped, StepResult(asset.remoteId, asset.remoteVersion, None, "", false), None, 0, false)))
              && (asset.action == ConflictAsset || (asset.action == CreateAsset && slot in s.remote.files) ==>
                    NextOf(s, read).pc == Closed(Closing(Conflicted, w.result, Some(OtherError), 0, false)))
  {
  }

  /** An upload that was applied and is seen with its comment and bytes succeeds. */
  lemma UploadEnds(s: Sys, w: Worker, p: nat, a: nat, host: RemoteId)
    requires Wellformed(s) && w.ordinal < |s.journal.steps| && s.journal.steps[w.ordinal].kind == AssetStep(p, a) && w.pc == ReadUploaded
    requires KindFits(s.plan, AssetStep(p, a)) && s.plan.pages[p].key in w.parents && w.parents[s.plan.pages[p].key].id == Some(host)
    requires (host, s.plan.pages[p].assets[a].filename) in s.remote.files
    requires var asset, file := s.plan.pages[p].assets[a], s.remote.files[(host, s.plan.pages[p].assets[a].filename)];
             asset.action == CreateAsset && file.version == 1 && file.comment == Some(w.ordinal) && file.bytes == asset.bytes
    ensures var file := s.remote.files[(host, s.plan.pages[p].assets[a].filename)];
            NextOf(s, w).pc == StashThen(StepResult(Some(file.id), 0, None, "", false),
                                        Closing(Succeeded, StepResult(Some(file.id), 1, None, "", false), None, 0, false))
  {
  }

  /** A page that is still as confirmed, with its attachments, passes its check; the audience step ends the publication. */
  lemma CheckEnds(s: Sys, w: Worker, p: nat, parent: Option<RemoteId>, host: StepResult, body: Body)
    requires HostHolds(s, w, p, parent, host, body) && s.journal.steps[w.ordinal].kind == VerifyStep(p) && w.pc == Begin
    requires !host.kept ==> forall o :: 0 <= o < |s.journal.steps| ==> AttachmentStands(s, s.journal.steps[o], s.plan.pages[p].key, host.id.value)
    ensures NextOf(s, NextOf(s, w)).pc == Closed(Closing(if host.kept then Kept else Succeeded, host, None, 0, false))
  {
  }

  lemma AudienceEnds(s: Sys, w: Worker)
    requires Wellformed(s) && w.ordinal < |s.journal.steps| && s.journal.steps[w.ordinal].kind == AudienceStep && w.pc == Begin
    ensures NextOf(s, w).pc.Closed? && NextOf(s, w).pc.closing.status == Succeeded
  {
  }
}
