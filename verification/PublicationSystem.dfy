/**
  Publication as a distributed protocol: workers that may stall or crash between any two of their
  actions, a remote that may apply a write long after its sender gave up on it, outside editors,
  operators, and a clock. A run is any sequence of events; an event that is not possible in the
  current state changes nothing.
 */
module PublicationSystem {
  import opened Basics
  import opened PublicationJournal

  // ------------------------------------------------------------------ the remote

  /** One stored version of a page. author is the publication step that wrote it, if one did. */
  datatype Revision = Revision(body: Body, title: string, parent: Option<RemoteId>, author: Option<nat>)

  /** Version n of a page is history[n - 1]; a page that is not live is in the trash. */
  datatype RemotePage = RemotePage(history: seq<Revision>, live: bool)

  datatype Attachment = Attachment(id: RemoteId, version: nat, comment: Option<nat>, bytes: Body)

  datatype Remote = Remote(pages: map<RemoteId, RemotePage>, files: map<(RemoteId, string), Attachment>)

  predicate Visible(r: Remote, id: RemoteId) {
    id in r.pages && r.pages[id].live && r.pages[id].history != []
  }

  function Latest(page: RemotePage): Revision
    requires page.history != []
  {
    page.history[|page.history| - 1]
  }

  function TitleMatches(r: Remote, title: string): set<RemoteId> {
    set id | id in r.pages && Visible(r, id) && Latest(r.pages[id]).title == title
  }

  /** Operation markers that occur anywhere in the remote, in any version. */
  ghost predicate KnownOp(r: Remote, op: nat) {
    || (exists id, i :: id in r.pages && 0 <= i < |r.pages[id].history| && op in r.pages[id].history[i].body.ops)
    || (exists f :: f in r.files && r.files[f].comment == Some(op))
  }

  // ------------------------------------------------------------------ writes on their way

  datatype Write = Put(page: RemoteId, base: nat, title: string, parent: Option<RemoteId>, body: Body)
                 | Create(newTitle: string, newParent: Option<RemoteId>, newBody: Body)
                 | Upload(host: RemoteId, filename: string, op: nat, bytes: Body)

  /**
    A send exists from its mark on. OnTheWay covers every delay from then until the remote decides,
    also that of a worker which stalls between its mark and the request.
   */
  datatype SendState = OnTheWay | Applied(where: RemoteId) | Dead

  datatype Send = Send(ordinal: nat, write: Write, state: SendState)

  // ------------------------------------------------------------------ workers

  /** How a worker will call finish; rejected says that a definite rejection of its write is the reason. */
  datatype Closing = Closing(status: StepStatus, result: StepResult, error: Option<ErrorCode>, retryAt: int, rejected: bool)

  datatype Pc = Begin | Recovering | CheckPage | CheckTitle(found: StepResult) | PreSend | Written(send: nat)
              | GotId(pageId: RemoteId) | Confirm(confirmId: RemoteId) | CheckHost | CheckFiles | ReadUploaded
              | StashThen(stashed: StepResult, next: Closing) | StashUnread(unread: StepResult) | Verifying | ReadFailed
              | Closed(closing: Closing) | Gone

  datatype Worker = Worker(ordinal: nat, recover: bool, result: StepResult, parents: map<Key, StepResult>,
                           profileVersion: nat, pc: Pc, lastSend: Option<nat>)

  datatype Operator = Revalidating(expected: nat, newProfile: nat)
                    | Resolving(expected: nat, ordinal: nat, page: Option<RemoteId>, checked: bool)

  /** Entries of the history of one job that matter for repeating a write. */
  datatype Entry = MarkedSent(ordinal: nat) | DefiniteRejection(ordinal: nat) | ConflictRecorded(ordinal: nat)
                 | NotAppliedConfirmed(ordinal: nat)

  /** rival: another active job reserves the same destination. */
  datatype Sys = Sys(plan: Plan, now: int, profile: nat, rival: bool, journal: Journal, workers: seq<Worker>, operators: seq<Operator>,
                     sends: seq<Send>, log: seq<Entry>, remote: Remote)

  // ------------------------------------------------------------------ plan lookups

  function PageOf(plan: Plan, kind: StepKind): PagePlan
    requires KindFits(plan, kind) && kind != AudienceStep
  {
    match kind
    case PageStep(p) => plan.pages[p]
    case AssetStep(p, _) => plan.pages[p]
    case VerifyStep(p) => plan.pages[p]
  }

  function AssetOf(plan: Plan, kind: StepKind): AssetPlan
    requires KindFits(plan, kind) && kind.AssetStep?
  {
    plan.pages[kind.host].assets[kind.asset]
  }

  /** step_map: results of the page steps that are done, by page key. */
  function StepMap(plan: Plan, steps: seq<Step>, n: nat): map<Key, StepResult>
    requires n <= |steps| && forall i :: 0 <= i < |steps| ==> KindFits(plan, steps[i].kind)
  {
    if n == 0 then map[]
    else
      var rest := StepMap(plan, steps, n - 1);
      var step := steps[n - 1];
      if step.kind.PageStep? && Done(step.status) then rest[plan.pages[step.kind.page].key := step.result] else rest
  }

  /** The parent page id, or none when the parent page step is not confirmed. */
  function ParentId(plan: Plan, page: PagePlan, parents: map<Key, StepResult>): Option<Option<RemoteId>> {
    if page.parentKey.None? then Some(plan.parentPage)
    else if page.parentKey.value in parents then Some(parents[page.parentKey.value].id)
    else None
  }

  /** guard_page on the current version; an omitted check passes. */
  predicate Guard(r: Remote, id: RemoteId, parent: Option<RemoteId>, version: nat, digest: Option<Digest>,
                  title: Option<string>)
  {
    && Visible(r, id)
    && Latest(r.pages[id]).parent == parent
    && |r.pages[id].history| == version
    && (digest.Some? ==> Digest(Latest(r.pages[id]).body) == digest.value)
    && (title.Some? ==> Latest(r.pages[id]).title == title.value)
  }

  predicate Marked(r: Remote, id: RemoteId, op: nat, ownership: string) {
    && Visible(r, id)
    && op in Latest(r.pages[id]).body.ops
    && ownership in Latest(r.pages[id]).body.owners
  }

  function PageResult(r: Remote, id: RemoteId, kept: bool): StepResult
    requires Visible(r, id)
  {
    var page := r.pages[id];
    StepResult(Some(id), |page.history|, Some(Digest(Latest(page).body)), Latest(page).title, kept)
  }

  function ExpectedBody(page: PagePlan, op: nat): Body {
    Body(page.text, {op}, {page.ownership})
  }

  /** The version a confirmed write must have produced. */
  function ResultVersion(page: PagePlan): nat {
    if page.remoteId.Some? then page.remoteVersion + 1 else 1
  }

  // ------------------------------------------------------------------ one action of a worker

  /**
    What the environment decides in a worker's action. Mismatch stands for the checks whose data is not modelled: the
    checksum of a frozen attachment, the read restrictions of a new page, the references that survive in its storage format.
   */
  datatype Choice = Go | ReadError | ProfileBad | AudienceBad | Mismatch | Candidates(ids: seq<RemoteId>)
                  | WriteUnknown | WriteRejected(conflict: bool, retryAt: int) | ResponseWithoutId | BytesUnread

  predicate BeforeSend(pc: Pc) {
    pc in {Begin, Recovering, CheckPage, CheckHost, CheckFiles, PreSend} || pc.CheckTitle?
  }

  predicate HasClosing(pc: Pc) {
    pc.Closed? || pc.StashThen?
  }

  function ClosingOf(pc: Pc): Closing
    requires HasClosing(pc)
  {
    if pc.Closed? then pc.closing else pc.next
  }

  /** The pcs of a page step between its first guarded read and its send mark. */
  predicate Checking(pc: Pc) {
    pc in {CheckPage, PreSend} || pc.CheckTitle?
  }

  /** A read changes neither the step a worker is on nor what it was given, and never goes back before a send. */
  predicate SameTask(w: Worker, r: Worker) {
    && r.ordinal == w.ordinal && r.parents == w.parents && r.lastSend == w.lastSend && r.result == w.result
    && (BeforeSend(r.pc) ==> BeforeSend(w.pc))
    && (r.recover != w.recover ==> w.pc == Recovering && !r.recover)
    && (Checking(r.pc) && r.recover ==> Checking(w.pc))
    && (HasClosing(r.pc) && r.pc != w.pc ==>
          && ClosingOf(r.pc).status !in {Pending, Inflight}
          && (ClosingOf(r.pc).status == Failed ==> ClosingOf(r.pc).rejected || w.pc == ReadFailed)
          && (ClosingOf(r.pc).rejected ==> w.pc.Written?))
    && (r.pc.Written? ==> r.pc == w.pc)
  }

  function Stop(w: Worker, status: StepStatus): (r: Worker)
    requires status in {Uncertain, Conflicted} || (status == Failed && w.pc == ReadFailed)
    ensures SameTask(w, r)
  {
    w.(pc := Closed(Closing(status, w.result, Some(OtherError), 0, false)))
  }

  function Success(w: Worker, status: StepStatus, result: StepResult): (r: Worker)
    requires Done(status)
    ensures SameTask(w, r)
  {
    w.(pc := Closed(Closing(status, result, None, 0, false)))
  }

  function ProfileLost(w: Worker): Closing {
    Closing(if w.recover then Uncertain else Conflicted, w.result, Some(ProfileChanged), 0, false)
  }

  /** advance up to the dispatch on the step's kind: profile and audience are checked first. */
  function Open(s: Sys, w: Worker, kind: StepKind, choice: Choice): (r: Worker)
    requires KindFits(s.plan, kind)
    requires w.pc == Begin
    ensures SameTask(w, r)
  {
    match choice
    case ProfileBad => w.(pc := Closed(ProfileLost(w)))
    case AudienceBad => Stop(w, Conflicted)
    case ReadError => w.(pc := ReadFailed)
    case _ =>
      match kind
      case PageStep(_) =>
        if ParentId(s.plan, PageOf(s.plan, kind), w.parents).None? then Stop(w, Conflicted)
        else w.(pc := if w.recover then Recovering else CheckPage)
      case AssetStep(_, _) => w.(pc := CheckHost)
      case VerifyStep(_) => w.(pc := Verifying)
      case AudienceStep => Success(w, Succeeded, NoResult)
  }

  function FilterMarked(r: Remote, ids: seq<RemoteId>, op: nat, ownership: string): (m: seq<RemoteId>)
    ensures forall i :: 0 <= i < |m| ==> Marked(r, m[i], op, ownership)
  {
    if ids == [] then []
    else (if Marked(r, ids[0], op, ownership) then [ids[0]] else []) + FilterMarked(r, ids[1..], op, ownership)
  }

  /** page_step when the previous result is ambiguous. Candidates stands for the pages a title search returned. */
  function Recover(s: Sys, w: Worker, page: PagePlan, choice: Choice): (r: Worker)
    requires w.pc == Recovering
    ensures SameTask(w, r)
  {
    if choice == ReadError then w.(pc := ReadFailed)
    else
      var fixed := if w.result.id.Some? then w.result.id else page.remoteId;
      var ids := if fixed.Some? then [fixed.value] else if choice.Candidates? then choice.ids else [];
      var matches := FilterMarked(s.remote, ids, w.ordinal, page.ownership);
      var parent := ParentId(s.plan, page, w.parents);
      if parent.None? then Stop(w, Conflicted)
      else if matches == [] && page.remoteId.Some? && |ids| == 1 && Visible(s.remote, ids[0]) then
        if Guard(s.remote, ids[0], parent.value, page.remoteVersion, page.remoteDigest, page.remoteTitle)
        then w.(recover := false, pc := CheckPage)
        else Stop(w, Conflicted)
      else if |matches| != 1 then Stop(w, Uncertain)
      else
        var id := matches[0];
        var known := NoResult.(id := Some(id));
        var next :=
          if Guard(s.remote, id, parent.value, ResultVersion(page), None, Some(page.title))
          then Closing(Succeeded, PageResult(s.remote, id, false), None, 0, false)
          else Closing(Conflicted, known, Some(OtherError), 0, false);
        w.(pc := StashThen(known, next))
  }

  /** The first guarded read of page_step, before anything is written. */
  function ReadPage(s: Sys, w: Worker, page: PagePlan, choice: Choice): (r: Worker)
    requires w.pc == CheckPage
    ensures SameTask(w, r)
  {
    var parent := ParentId(s.plan, page, w.parents);
    if choice == ReadError then w.(pc := ReadFailed)
    else if parent.None? then Stop(w, Conflicted)
    else if page.remoteId.Some? then
      if !Guard(s.remote, page.remoteId.value, parent.value, page.remoteVersion, page.remoteDigest, page.remoteTitle)
      then Stop(w, Conflicted)
      else if page.key in s.plan.keep then Success(w, Kept, PageResult(s.remote, page.remoteId.value, true))
      else w.(pc := CheckTitle(PageResult(s.remote, page.remoteId.value, false)))
    else if page.key in s.plan.keep then Stop(w, Conflicted)
    else w.(pc := CheckTitle(NoResult))
  }

  function ReadTitle(s: Sys, w: Worker, page: PagePlan, found: StepResult, choice: Choice): (r: Worker)
    requires w.pc.CheckTitle?
    ensures SameTask(w, r)
  {
    var matches := TitleMatches(s.remote, page.title);
    if choice == ReadError then w.(pc := ReadFailed)
    else if page.remoteId.Some? then
      if matches - {page.remoteId.value} != {} then Stop(w, Conflicted)
      else if page.sameContent && page.key !in s.plan.replace then Success(w, Skipped, found)
      else w.(pc := PreSend)
    else if matches != {} then Stop(w, Conflicted)
    else w.(pc := PreSend)
  }

  /** The response to a write, or its absence. A definite rejection is only reported for a write that is dead. */
  function Response(s: Sys, w: Worker, k: nat, isPage: bool, choice: Choice): (r: Worker)
    requires k < |s.sends|
    requires w.pc.Written?
    ensures HasClosing(r.pc) && ClosingOf(r.pc).rejected ==> s.sends[k].state == Dead
    ensures SameTask(w, r)
  {
    match choice
    case WriteUnknown => Stop(w, Uncertain)
    case WriteRejected(conflict, retryAt) =>
      if s.sends[k].state != Dead then w
      else w.(pc := Closed(Closing(if conflict then Conflicted else Failed, w.result, Some(OtherError), retryAt, true)))
    case ResponseWithoutId => if s.sends[k].state.Applied? && isPage then Stop(w, Uncertain) else w
    case _ =>
      if !s.sends[k].state.Applied? then w
      else if isPage then w.(pc := GotId(s.sends[k].state.where))
      else w.(pc := ReadUploaded)
  }

  function ReadBack(s: Sys, w: Worker, page: PagePlan, id: RemoteId, choice: Choice): (r: Worker)
    requires w.pc.Confirm?
    ensures SameTask(w, r)
  {
    var parent := ParentId(s.plan, page, w.parents);
    if choice == ReadError || !Visible(s.remote, id) then w.(pc := ReadFailed)
    else if parent.None? || !Guard(s.remote, id, parent.value, ResultVersion(page), None, Some(page.title))
    then Stop(w, Conflicted)
    else if w.ordinal !in Latest(s.remote.pages[id]).body.ops then Stop(w, Uncertain)
    else Success(w, Succeeded, PageResult(s.remote, id, false))
  }

  /** The host page of an asset must still be the confirmed one; a kept page keeps its attachments. */
  function ReadHost(s: Sys, w: Worker, page: PagePlan, choice: Choice): (r: Worker)
    requires w.pc == CheckHost
    ensures SameTask(w, r)
  {
    var parent := ParentId(s.plan, page, w.parents);
    if choice == ReadError || page.key !in w.parents || w.parents[page.key].id.None? then w.(pc := ReadFailed)
    else
      var host := w.parents[page.key];
      if parent.None? || !Guard(s.remote, host.id.value, parent.value, host.version, host.digest, Some(host.title))
      then Stop(w, Conflicted)
      else if host.kept then Success(w, Kept, NoResult.(kept := true))
      else w.(pc := CheckFiles)
  }

  function AssetResult(file: Attachment): StepResult {
    NoResult.(id := Some(file.id), version := file.version)
  }

  /** Checks on the attachment that was found: version, upload comment, bytes. */
  function AssetOutcome(w: Worker, asset: AssetPlan, file: Attachment): Closing {
    if asset.action == CreateAsset && file.version != 1 then Closing(Conflicted, w.result, Some(OtherError), 0, false)
    else if asset.action == CreateAsset && file.comment != Some(w.ordinal)
    then Closing(Uncertain, w.result, Some(OtherError), 0, false)
    else if file.bytes != asset.bytes then Closing(Conflicted, w.result, Some(OtherError), 0, false)
    else Closing(if asset.action == UnchangedAsset then Skipped else Succeeded, AssetResult(file), None, 0, false)
  }

  function ReadFiles(s: Sys, w: Worker, page: PagePlan, asset: AssetPlan, choice: Choice): (r: Worker)
    requires w.pc == CheckFiles
    ensures SameTask(w, r)
  {
    if choice == ReadError || page.key !in w.parents || w.parents[page.key].id.None? then w.(pc := ReadFailed)
    else
      var slot := (w.parents[page.key].id.value, asset.filename);
      var present := slot in s.remote.files;
      if asset.action == UnchangedAsset && !w.recover then
        if !present || Some(s.remote.files[slot].id) != asset.remoteId || s.remote.files[slot].version != asset.remoteVersion
        then Stop(w, Conflicted)
        else w.(pc := Closed(AssetOutcome(w, asset, s.remote.files[slot])))
      else if w.recover then
        if !present || s.remote.files[slot].comment != Some(w.ordinal) then Stop(w, Uncertain)
        else if s.remote.files[slot].version != 1 then Stop(w, Conflicted)
        else w.(pc := Closed(AssetOutcome(w, asset, s.remote.files[slot])))
      else if asset.action != CreateAsset || present || choice == Mismatch then Stop(w, Conflicted)
      else w.(pc := PreSend)
  }

  function ReadUpload(s: Sys, w: Worker, page: PagePlan, asset: AssetPlan, choice: Choice): (r: Worker)
    requires w.pc == ReadUploaded
    ensures SameTask(w, r)
  {
    if choice == ReadError || page.key !in w.parents || w.parents[page.key].id.None? then w.(pc := ReadFailed)
    else
      var slot := (w.parents[page.key].id.value, asset.filename);
      if slot !in s.remote.files then Stop(w, Uncertain)
      else
        var file := s.remote.files[slot];
        var known := NoResult.(id := Some(file.id));
        if choice == BytesUnread then w.(pc := StashUnread(known))
        else w.(pc := StashThen(known, AssetOutcome(w.(result := known), asset, file)))
  }

  /** Every attachment that was uploaded or found for the page is there as it was confirmed. */
  predicate AttachmentsStand(s: Sys, key: Key, host: RemoteId) {
    forall o :: 0 <= o < |s.journal.steps| ==> AttachmentStands(s, s.journal.steps[o], key, host)
  }

  predicate AttachmentStands(s: Sys, step: Step, key: Key, host: RemoteId) {
    step.kind.AssetStep? && KindFits(s.plan, step.kind) && PageOf(s.plan, step.kind).key == key && step.status in {Succeeded, Skipped} ==>
      var slot := (host, AssetOf(s.plan, step.kind).filename);
      && slot in s.remote.files && Some(s.remote.files[slot].id) == step.result.id
      && s.remote.files[slot].version == step.result.version
  }

  function Verify(s: Sys, w: Worker, page: PagePlan, choice: Choice): (r: Worker)
    requires w.pc == Verifying
    ensures SameTask(w, r)
  {
    var parent := ParentId(s.plan, page, w.parents);
    if choice == ReadError || page.key !in w.parents || w.parents[page.key].id.None? then w.(pc := ReadFailed)
    else
      var host := w.parents[page.key];
      if parent.None? || !Guard(s.remote, host.id.value, parent.value, host.version, host.digest, Some(host.title))
      then Stop(w, Conflicted)
      else if host.kept then Success(w, Kept, host)
      else if choice == Mismatch || !AttachmentsStand(s, page.key, host.id.value) then Stop(w, Conflicted)
      else Success(w, Succeeded, host)
  }

  /** After a failed read the durable send marker decides between uncertain and failed. */
  function AfterReadFailure(s: Sys, w: Worker): (r: Worker)
    requires w.ordinal < |s.journal.steps|
    requires w.pc == ReadFailed
    ensures SameTask(w, r)
  {
    Stop(w, if s.journal.steps[w.ordinal].sent then Uncertain else Failed)
  }

  /** A worker action that reads the remote or the journal but writes neither. */
  function Advance(s: Sys, w: Worker, choice: Choice): (r: Worker)
    requires w.ordinal < |s.journal.steps|
    requires KindFits(s.plan, s.journal.steps[w.ordinal].kind)
    ensures HasClosing(r.pc) && ClosingOf(r.pc).rejected && r.pc != w.pc ==>
              w.pc.Written? && w.pc.send < |s.sends| && s.sends[w.pc.send].state == Dead
    ensures SameTask(w, r)
  {
    var kind := s.journal.steps[w.ordinal].kind;
    if w.pc == Begin then Open(s, w, kind, choice)
    else if w.pc == ReadFailed then AfterReadFailure(s, w)
    else if kind.PageStep? then
      var page := PageOf(s.plan, kind);
      match w.pc
      case Recovering => Recover(s, w, page, choice)
      case CheckPage => ReadPage(s, w, page, choice)
      case CheckTitle(found) => ReadTitle(s, w, page, found, choice)
      case Written(k) => if k < |s.sends| then Response(s, w, k, true, choice) else w
      case Confirm(id) => ReadBack(s, w, page, id, choice)
      case _ => w
    else if kind.AssetStep? then
      var page := PageOf(s.plan, kind);
      var asset := AssetOf(s.plan, kind);
      match w.pc
      case CheckHost => ReadHost(s, w, page, choice)
      case CheckFiles => ReadFiles(s, w, page, asset, choice)
      case Written(k) => if k < |s.sends| then Response(s, w, k, false, choice) else w
      case ReadUploaded => ReadUpload(s, w, page, asset, choice)
      case _ => w
    else if kind.VerifyStep? && w.pc == Verifying then Verify(s, w, PageOf(s.plan, kind), choice)
    else w
  }

  /** The write a worker is about to send. */
  function WriteOf(s: Sys, w: Worker): Option<Write>
    requires w.ordinal < |s.journal.steps|
    requires KindFits(s.plan, s.journal.steps[w.ordinal].kind)
  {
    var kind := s.journal.steps[w.ordinal].kind;
    match kind
    case PageStep(_) =>
      var page := PageOf(s.plan, kind);
      var parent := ParentId(s.plan, page, w.parents);
      if parent.None? then None
      else if page.remoteId.Some? then
        Some(Put(page.remoteId.value, page.remoteVersion, page.title, parent.value, ExpectedBody(page, w.ordinal)))
      else Some(Create(page.title, parent.value, ExpectedBody(page, w.ordinal)))
    case AssetStep(_, _) =>
      var page := PageOf(s.plan, kind);
      var asset := AssetOf(s.plan, kind);
      if page.key in w.parents && w.parents[page.key].id.Some?
      then Some(Upload(w.parents[page.key].id.value, asset.filename, w.ordinal, asset.bytes))
      else None
    case _ => None
  }

  // ------------------------------------------------------------------ events

  datatype Event =
    | Tick(seconds: nat)
    | EditProfile(version: nat)
    | RivalJob(active: bool)
    | ClaimNext(expected: nat)
    | Act(worker: WorkerId, choice: Choice)
    | MarkSent(worker: WorkerId)
    | StashId(worker: WorkerId)
    | FinishStep(worker: WorkerId)
    | Crash(worker: WorkerId)
    | ControlJob(expected: nat, action: ControlAction)
    | BeginRevalidate(expected: nat)
    | CommitRevalidate(operator: nat)
    | BeginResolve(expected: nat, page: Option<RemoteId>)
    | CheckResolve(operator: nat)
    | CommitResolve(operator: nat)
    | RemoteApplies(send: nat, stored: Body, newId: RemoteId)
    | RemoteDrops(send: nat)
    | OutsideEdit(id: RemoteId, revision: Revision)
    | OutsideCreate(id: RemoteId, revision: Revision)
    | OutsideTrash(id: RemoteId, live: bool)
    | OutsideFile(host: RemoteId, filename: string, file: Option<Attachment>)

  predicate Wellformed(s: Sys) {
    && WellKinded(s.plan, s.journal.steps)
    && (forall i :: 0 <= i < |s.workers| ==> s.workers[i].ordinal < |s.journal.steps|)
  }

  function ClaimEvent(s: Sys, expected: nat): Sys
    requires Wellformed(s)
  {
    match ClaimResult(s.journal, expected, s.now, s.profile)
    case Claimed(k, recover) =>
      var w := Worker(k, recover, s.journal.steps[k].result, StepMap(s.plan, s.journal.steps, |s.journal.steps|),
                      s.journal.job.profileVersion, Begin, None);
      s.(journal := AfterClaim(s.journal, expected, s.now, |s.workers|, s.profile), workers := s.workers + [w])
    case _ => s
  }

  function SentEvent(s: Sys, id: WorkerId): Sys
    requires Wellformed(s) && id < |s.workers|
  {
    var w := s.workers[id];
    var write := WriteOf(s, w);
    if w.pc != PreSend || write.None? then s
    else if !MaySend(s.journal, id, s.now) then s.(workers := s.workers[id := w.(pc := Gone)])
    else s.(journal := AfterSent(s.journal, w.ordinal),
            workers := s.workers[id := w.(pc := Written(|s.sends|), lastSend := Some(|s.sends|))],
            sends := s.sends + [Send(w.ordinal, write.value, OnTheWay)],
            log := s.log + [MarkedSent(w.ordinal)])
  }

  predicate Stashing(pc: Pc) {
    pc.GotId? || pc.StashThen? || pc.StashUnread?
  }

  /** What a worker stores before it goes on, and where it then goes on. */
  function Stashed(pc: Pc): StepResult
    requires Stashing(pc)
  {
    if pc.GotId? then NoResult.(id := Some(pc.pageId)) else if pc.StashThen? then pc.stashed else pc.unread
  }

  function Stored(pc: Pc): (r: Pc)
    requires Stashing(pc)
    ensures r.Confirm? || r.Closed? || r == ReadFailed
    ensures HasClosing(r) ==> HasClosing(pc) && ClosingOf(r) == ClosingOf(pc)
    ensures r.Confirm? ==> pc.GotId?
  {
    if pc.GotId? then Confirm(pc.pageId) else if pc.StashThen? then Closed(pc.next) else ReadFailed
  }

  function StashEvent(s: Sys, id: WorkerId): Sys
    requires Wellformed(s) && id < |s.workers|
  {
    var w := s.workers[id];
    if !Stashing(w.pc) then s
    else if !Holds(s.journal, id) then s.(workers := s.workers[id := w.(pc := Closed(ProfileLost(w)))])
    else s.(journal := AfterStash(s.journal, w.ordinal, Stashed(w.pc)),
            workers := s.workers[id := w.(pc := Stored(w.pc), result := Stashed(w.pc))])
  }

  function FinishEntries(ordinal: nat, c: Closing): seq<Entry> {
    if c.rejected then [DefiniteRejection(ordinal)]
    else if c.status == Conflicted then [ConflictRecorded(ordinal)]
    else []
  }

  function FinishEvent(s: Sys, id: WorkerId): Sys
    requires Wellformed(s) && id < |s.workers|
  {
    var w := s.workers[id];
    if !w.pc.Closed? then s
    else
      var c := w.pc.closing;
      var gone := s.workers[id := w.(pc := Gone)];
      if !MayFinish(s.journal, id, w.ordinal, c.status, s.rival) then s.(workers := gone)
      else s.(journal := AfterFinish(s.journal, w.ordinal, c.status, c.result, c.error, c.retryAt),
              workers := gone, log := s.log + FinishEntries(w.ordinal, c))
  }

  function ResolveBeginEvent(s: Sys, expected: nat, page: Option<RemoteId>): Sys {
    if !ReviewOpen(s.journal, expected, s.now) then s
    else
      match FirstAmbiguous(s.journal.steps)
      case None => s
      case Some(k) => s.(operators := s.operators + [Resolving(expected, k, page, false)])
  }

  /** The remote checks between the two transactions of resolve. */
  predicate ResolveAllowed(s: Sys, ordinal: nat, page: Option<RemoteId>)
    requires Wellformed(s) && ordinal < |s.journal.steps|
  {
    var kind := s.journal.steps[ordinal].kind;
    if kind == AudienceStep then false
    else
      var plan := PageOf(s.plan, kind);
      var parents := StepMap(s.plan, s.journal.steps, |s.journal.steps|);
      match page
      case Some(id) =>
        && kind.PageStep?
        && (plan.remoteId.Some? ==> plan.remoteId.value == id)
        && Marked(s.remote, id, ordinal, plan.ownership)
      case None =>
        match kind
        case PageStep(_) => plan.remoteId.None? && TitleMatches(s.remote, plan.title) == {}
        case AssetStep(_, _) =>
          && plan.key in parents && parents[plan.key].id.Some?
          && (parents[plan.key].id.value, AssetOf(s.plan, kind).filename) !in s.remote.files
        case _ => false
  }

  function ResolveCheckEvent(s: Sys, op: nat): Sys
    requires Wellformed(s) && op < |s.operators|
  {
    match s.operators[op]
    case Resolving(expected, k, page, false) =>
      if k < |s.journal.steps| && ResolveAllowed(s, k, page)
      then s.(operators := s.operators[op := Resolving(expected, k, page, true)])
      else s
    case _ => s
  }

  function ResolveCommitEvent(s: Sys, op: nat): Sys
    requires op < |s.operators|
  {
    match s.operators[op]
    case Resolving(expected, k, page, true) =>
      if k < |s.journal.steps| && ReviewCurrent(s.journal, expected, s.now)
      then s.(journal := AfterResolve(s.journal, k, page),
              log := s.log + (if page.None? then [NotAppliedConfirmed(k)] else []))
      else s
    case _ => s
  }

  function RevalidateCommitEvent(s: Sys, op: nat): Sys
    requires op < |s.operators|
  {
    match s.operators[op]
    case Revalidating(expected, version) =>
      if ReviewCurrent(s.journal, expected, s.now) && s.profile == version
      then s.(journal := AfterRevalidate(s.journal, version))
      else s
    case _ => s
  }

  /** The stored body may be normalised by the remote, but gains no operation marker it was not given. */
  function ApplyEvent(s: Sys, k: nat, stored: Body, newId: RemoteId): Sys
    requires k < |s.sends|
  {
    var send := s.sends[k];
    if send.state != OnTheWay then s
    else
      match send.write
      case Put(id, base, title, parent, body) =>
        if !(stored.ops <= body.ops) then s
        else if Visible(s.remote, id) && |s.remote.pages[id].history| == base then
          var page := s.remote.pages[id];
          var revision := Revision(stored, title, Latest(page).parent, Some(send.ordinal));
          s.(remote := s.remote.(pages := s.remote.pages[id := page.(history := page.history + [revision])]),
             sends := s.sends[k := send.(state := Applied(id))])
        else s.(sends := s.sends[k := send.(state := Dead)])
      case Create(title, parent, body) =>
        if !(stored.ops <= body.ops) || newId in s.remote.pages then s
        else
          var page := RemotePage([Revision(stored, title, parent, Some(send.ordinal))], true);
          s.(remote := s.remote.(pages := s.remote.pages[newId := page]),
             sends := s.sends[k := send.(state := Applied(newId))])
      case Upload(host, filename, op, bytes) =>
        if (host, filename) in s.remote.files then s.(sends := s.sends[k := send.(state := Dead)])
        else
          var file := Attachment(newId, 1, Some(op), bytes);
          s.(remote := s.remote.(files := s.remote.files[(host, filename) := file]),
             sends := s.sends[k := send.(state := Applied(host))])
  }

  ghost predicate OutsideOps(s: Sys, ops: set<nat>) {
    forall op :: op in ops ==> KnownOp(s.remote, op)
  }

  /** Outside editors may copy markers that are already visible, but cannot invent an operation id. */
  ghost function OutsideEvent(s: Sys, e: Event): Sys {
    match e
    case OutsideEdit(id, revision) =>
      if id in s.remote.pages && revision.author.None? && OutsideOps(s, revision.body.ops) then
        var page := s.remote.pages[id];
        s.(remote := s.remote.(pages := s.remote.pages[id := page.(history := page.history + [revision])]))
      else s
    case OutsideCreate(id, revision) =>
      if id !in s.remote.pages && revision.author.None? && OutsideOps(s, revision.body.ops)
      then s.(remote := s.remote.(pages := s.remote.pages[id := RemotePage([revision], true)]))
      else s
    case OutsideTrash(id, live) =>
      if id in s.remote.pages
      then s.(remote := s.remote.(pages := s.remote.pages[id := s.remote.pages[id].(live := live)]))
      else s
    case OutsideFile(host, filename, None) => s.(remote := s.remote.(files := s.remote.files - {(host, filename)}))
    case OutsideFile(host, filename, Some(file)) =>
      if file.comment.Some? && !KnownOp(s.remote, file.comment.value) then s
      else s.(remote := s.remote.(files := s.remote.files[(host, filename) := file]))
    case _ => s
  }

  ghost function Next(s: Sys, e: Event): Sys
    requires Wellformed(s)
  {
    match e
    case Tick(seconds) => s.(now := s.now + seconds)
    case EditProfile(version) => s.(profile := version)
    case RivalJob(active) => if active && s.journal.job.active then s else s.(rival := active)
    case ClaimNext(expected) => ClaimEvent(s, expected)
    case Act(id, choice) =>
      if id < |s.workers| then s.(workers := s.workers[id := Advance(s, s.workers[id], choice)]) else s
    case MarkSent(id) => if id < |s.workers| then SentEvent(s, id) else s
    case StashId(id) => if id < |s.workers| then StashEvent(s, id) else s
    case FinishStep(id) => if id < |s.workers| then FinishEvent(s, id) else s
    case Crash(id) => if id < |s.workers| then s.(workers := s.workers[id := s.workers[id].(pc := Gone)]) else s
    case ControlJob(expected, action) => s.(journal := AfterControl(s.journal, expected, s.now, action))
    case BeginRevalidate(expected) =>
      if ReviewOpen(s.journal, expected, s.now)
      then s.(operators := s.operators + [Revalidating(expected, s.profile)])
      else s
    case CommitRevalidate(op) => if op < |s.operators| then RevalidateCommitEvent(s, op) else s
    case BeginResolve(expected, page) => ResolveBeginEvent(s, expected, page)
    case CheckResolve(op) => if op < |s.operators| then ResolveCheckEvent(s, op) else s
    case CommitResolve(op) => if op < |s.operators| then ResolveCommitEvent(s, op) else s
    case RemoteApplies(k, stored, newId) => if k < |s.sends| then ApplyEvent(s, k, stored, newId) else s
    case RemoteDrops(k) =>
      if k < |s.sends| && s.sends[k].state == OnTheWay
      then s.(sends := s.sends[k := s.sends[k].(state := Dead)])
      else s
    case _ => OutsideEvent(s, e)
  }

  /** A fresh job: nobody works on it and no page or file carries one of its operation markers. */
  ghost predicate Initial(s: Sys) {
    && s.journal == Fresh(s.plan, s.journal.job.profileVersion)
    && s.workers == [] && s.operators == [] && s.sends == [] && s.log == [] && !s.rival
    && (forall op :: 0 <= op < |s.journal.steps| ==> !KnownOp(s.remote, op))
    && (forall id, i :: id in s.remote.pages && 0 <= i < |s.remote.pages[id].history|
                        ==> s.remote.pages[id].history[i].author.None?)
  }
}
