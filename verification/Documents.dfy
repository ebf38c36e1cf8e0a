/**
  Documents with reviewed publication (server/documentation/repository.py): a draft under optimistic
  locking, its review transitions, and frozen versions that only grow.
 */
module Documents {
  import opened Basics

  /** What a document is about, in which template, and its text. */
  datatype Form = Form(scope: string, template: string, text: string)

  /** The collected infrastructure data; two snapshots with one digest are the same snapshot. */
  datatype Snapshot = Snapshot(data: string)

  datatype Status = Draft | Review | Published

  datatype Kind = SavedKind | PublishedKind

  datatype Version = Version(number: nat, draft: nat, form: Form, snapshot: Snapshot, kind: Kind)

  datatype Document = Document(form: Form, snapshot: Snapshot, version: nat, status: Status, published: Option<nat>,
                               versions: seq<Version>)

  datatype Refusal = Missing | Conflict | NotDraft | WrongStatus | NotReady | OtherTemplate | SourceChanged | VersionExists

  type Outcome = Result<Document, Refusal>

  datatype Op =
    | Save(form: Form, collected: Snapshot, expected: nat)
    | Refresh(collected: Snapshot, digest: Snapshot, expected: nat)
    | Restore(number: nat, expected: nat)
    | CreateVersion(expected: nat)
    | Submit(ready: bool, expected: nat)
    | ReturnToDraft(expected: nat)
    | Publish(ready: bool, expected: nat)

  /** Inserting a document. */
  function Create(form: Form, collected: Snapshot): Document {
    Document(form, collected, 1, Draft, None, [])
  }

  function Stored(d: Document, form: Form, snapshot: Snapshot): Document {
    d.(form := form, snapshot := snapshot, version := d.version + 1)
  }

  predicate Frozen(d: Document) {
    exists i :: 0 <= i < |d.versions| && d.versions[i].draft == d.version
  }

  function Numbers(versions: seq<Version>): seq<nat> {
    seq(|versions|, i requires 0 <= i < |versions| => versions[i].number)
  }

  function MaxNumber(versions: seq<Version>): nat {
    MaxOf(Numbers(versions))
  }

  /** _freeze. */
  function Freeze(d: Document, kind: Kind): Outcome {
    if Frozen(d) then Err(VersionExists)
    else Ok(d.(versions := d.versions + [Version(MaxNumber(d.versions) + 1, d.version, d.form, d.snapshot, kind)]))
  }

  function Perform(d: Document, op: Op): Outcome {
    if op.expected != d.version then Err(Conflict)
    else
      match op
      case Save(form, collected, _) =>
        if d.status != Draft then Err(NotDraft)
        else if form.template != d.form.template then Err(OtherTemplate)
        else Ok(Stored(d, form, if form.scope == d.form.scope then d.snapshot else collected))
      case Refresh(collected, digest, _) =>
        if d.status != Draft then Err(NotDraft)
        else if collected != digest then Err(SourceChanged)
        else Ok(Stored(d, d.form, collected))
      case Restore(number, _) =>
        if d.status != Draft then Err(NotDraft)
        else
          (match Find(d.versions, number)
           case None => Err(Missing)
           case Some(v) => Ok(Stored(d, v.form, v.snapshot)))
      case CreateVersion(_) => if d.status != Draft then Err(NotDraft) else Freeze(d, SavedKind)
      case Submit(ready, _) =>
        if d.status != Draft then Err(NotDraft)
        else if !ready then Err(NotReady)
        else Ok(d.(status := Review, version := d.version + 1))
      case ReturnToDraft(_) =>
        if d.status == Draft then Err(WrongStatus) else Ok(d.(status := Draft, version := d.version + 1))
      case Publish(ready, _) =>
        if d.status != Review then Err(WrongStatus)
        else if !ready then Err(NotReady)
        else
          match Freeze(d, PublishedKind)
          case Err(why) => Err(why)
          case Ok(frozen) =>
            Ok(frozen.(status := Published, version := d.version + 1, published := Some(MaxNumber(d.versions) + 1)))
  }

  function Find(versions: seq<Version>, number: nat): (r: Option<Version>)
    ensures r.Some? ==> r.value in versions && r.value.number == number
    ensures r.None? ==> forall i :: 0 <= i < |versions| ==> versions[i].number != number
  {
    if versions == [] then None
    else if versions[|versions| - 1].number == number then Some(versions[|versions| - 1])
    else Find(versions[..|versions| - 1], number)
  }

  // ------------------------------------------------------------------ what every state satisfies

  /** Numbers are 1..n, draft revisions grow with them, and all belong to the document's template. */
  predicate Numbered(d: Document) {
    && (forall i :: 0 <= i < |d.versions| ==> d.versions[i].number == i + 1)
    && (forall i, j :: 0 <= i < j < |d.versions| ==> d.versions[i].draft < d.versions[j].draft)
    && (forall i :: 0 <= i < |d.versions| ==> d.versions[i].form.template == d.form.template)
    && (forall i :: 0 <= i < |d.versions| ==> if d.status == Draft then d.versions[i].draft <= d.version else d.versions[i].draft < d.version)
  }

  /** publishedVersion names the latest published version, if there is one. */
  predicate PublishedNamed(d: Document) {
    && (d.published.Some? ==>
          1 <= d.published.value <= |d.versions| && d.versions[d.published.value - 1].kind == PublishedKind)
    && (forall i :: 0 <= i < |d.versions| && d.versions[i].kind == PublishedKind ==> d.published.Some? && i + 1 <= d.published.value)
  }

  predicate Inv(d: Document) {
    Numbered(d) && PublishedNamed(d)
  }

  lemma FreezeAppends(d: Document, kind: Kind)
    requires Numbered(d) && Freeze(d, kind).Ok?
    ensures Freeze(d, kind).value == d.(versions := d.versions + [Version(|d.versions| + 1, d.version, d.form, d.snapshot, kind)])
  {
    MaxOfCounting(Numbers(d.versions));
  }

  /** One more version, frozen at the present revision, which moves on to next. */
  lemma AppendKeepsNumbers(d: Document, kind: Kind, status: Status, next: nat)
    requires Numbered(d) && !Frozen(d) && d.version <= next && (status != Draft ==> d.version < next)
    ensures Numbered(d.(status := status, version := next,
                        versions := d.versions + [Version(|d.versions| + 1, d.version, d.form, d.snapshot, kind)]))
  {
    forall i | 0 <= i < |d.versions|
      ensures d.versions[i].draft < d.version
    {
      assert d.versions[i].draft != d.version;
    }
  }

  lemma CreateVersionKeeps(d: Document, expected: nat)
    requires Inv(d) && Perform(d, CreateVersion(expected)).Ok?
    ensures Inv(Perform(d, CreateVersion(expected)).value)
  {
    FreezeAppends(d, SavedKind);
    AppendKeepsNumbers(d, SavedKind, Draft, d.version);
  }

  lemma PublishKeeps(d: Document, ready: bool, expected: nat)
    requires Inv(d) && Perform(d, Publish(ready, expected)).Ok?
    ensures Inv(Perform(d, Publish(ready, expected)).value)
  {
    FreezeAppends(d, PublishedKind);
    MaxOfCounting(Numbers(d.versions));
    AppendKeepsNumbers(d, PublishedKind, Published, d.version + 1);
  }

  lemma RestoreKeeps(d: Document, number: nat, expected: nat)
    requires Inv(d) && Perform(d, Restore(number, expected)).Ok?
    ensures Inv(Perform(d, Restore(number, expected)).value)
  {
    var v := Find(d.versions, number).value;
    var i :| 0 <= i < |d.versions| && d.versions[i] == v;
  }

  lemma PerformKeeps(d: Document, op: Op)
    requires Inv(d) && Perform(d, op).Ok?
    ensures Inv(Perform(d, op).value)
  {
    match op
    case CreateVersion(expected) => CreateVersionKeeps(d, expected);
    case Publish(ready, expected) => PublishKeeps(d, ready, expected);
    case Restore(number, expected) => RestoreKeeps(d, number, expected);
    case _ =>
  }

  /** A document under review has no version for its present revision, so publishing always finds room. */
  lemma PublishNeverExists(d: Document, ready: bool, expected: nat)
    requires Inv(d)
    ensures Perform(d, Publish(ready, expected)) != Err(VersionExists)
    ensures Perform(d, Publish(ready, expected)).Ok? <==> expected == d.version && d.status == Review && ready
  {
  }

  // ------------------------------------------------------------------ runs

  predicate IsRun(states: seq<Document>, ops: seq<Op>) {
    && |states| == |ops| + 1
    && forall i :: 0 <= i < |ops| ==>
         states[i + 1] == if Perform(states[i], ops[i]).Ok? then Perform(states[i], ops[i]).value else states[i]
  }

  predicate Fresh(d: Document) {
    d == Create(d.form, d.snapshot)
  }

  lemma {:induction false} RunKeeps(states: seq<Document>, ops: seq<Op>, n: nat)
    requires IsRun(states, ops) && Fresh(states[0]) && n <= |ops|
    ensures Inv(states[n])
  {
    if n > 0 {
      RunKeeps(states, ops, n - 1);
      if Perform(states[n - 1], ops[n - 1]).Ok? { PerformKeeps(states[n - 1], ops[n - 1]); }
    }
  }

  /** Versions are only appended. */
  lemma {:induction false} VersionsOnlyGrow(states: seq<Document>, ops: seq<Op>, m: nat, n: nat)
    requires IsRun(states, ops) && m <= n <= |ops|
    ensures states[m].versions <= states[n].versions
    decreases n - m
  {
    if m < n {
      VersionsOnlyGrow(states, ops, m, n - 1);
      assert states[n - 1].versions <= states[n].versions;
    }
  }

  predicate SameContent(a: Document, b: Document) {
    a.form == b.form && a.snapshot == b.snapshot
  }

  /** Under review since the submission at step j, with the submitted content. */
  predicate ReviewedSince(states: seq<Document>, ops: seq<Op>, j: nat, n: nat)
    requires |states| == |ops| + 1
  {
    && j < n <= |ops| && ops[j].Submit? && Perform(states[j], ops[j]).Ok?
    && forall i :: j < i <= n ==> states[i].status == Review && SameContent(states[i], states[j])
  }

  lemma {:induction false} ReviewHasSubmission(states: seq<Document>, ops: seq<Op>, n: nat) returns (j: nat)
    requires IsRun(states, ops) && Fresh(states[0]) && n <= |ops| && states[n].status == Review
    ensures ReviewedSince(states, ops, j, n)
  {
    if ops[n - 1].Submit? && Perform(states[n - 1], ops[n - 1]).Ok? {
      j := n - 1;
    } else {
      assert states[n - 1].status == Review && SameContent(states[n - 1], states[n]);
      j := ReviewHasSubmission(states, ops, n - 1);
    }
  }

  /**
    What publish freezes is exactly the form and the source snapshot that were submitted: nothing could
    change them between the submission and the publication.
   */
  lemma PublishedIsSubmitted(states: seq<Document>, ops: seq<Op>, n: nat) returns (j: nat)
    requires IsRun(states, ops) && Fresh(states[0]) && n < |ops|
    requires ops[n].Publish? && Perform(states[n], ops[n]).Ok?
    ensures ReviewedSince(states, ops, j, n)
    ensures |states[n + 1].versions| == |states[n].versions| + 1
    ensures var v := states[n + 1].versions[|states[n].versions|];
            && v.kind == PublishedKind && v.form == states[j].form && v.snapshot == states[j].snapshot
            && states[n + 1].published == Some(v.number)
  {
    j := ReviewHasSubmission(states, ops, n);
    RunKeeps(states, ops, n);
    FreezeAppends(states[n], PublishedKind);
    MaxOfCounting(Numbers(states[n].versions));
  }

  /** Restoring a version brings back the content that was frozen in it, whatever happened in between. */
  lemma RestoreBringsBackFrozen(states: seq<Document>, ops: seq<Op>, m: nat, n: nat)
    requires IsRun(states, ops) && Fresh(states[0]) && m < n < |ops|
    requires (ops[m].CreateVersion? || ops[m].Publish?) && Perform(states[m], ops[m]).Ok?
    requires ops[n].Restore? && ops[n].number == |states[m].versions| + 1 && Perform(states[n], ops[n]).Ok?
    ensures SameContent(states[n + 1], states[m])
  {
    RunKeeps(states, ops, m);
    RunKeeps(states, ops, n);
    FreezeAppends(states[m], if ops[m].Publish? then PublishedKind else SavedKind);
    VersionsOnlyGrow(states, ops, m + 1, n);
    var k, v := |states[m].versions|, Find(states[n].versions, ops[n].number).value;
    assert states[m + 1].versions[k] == states[n].versions[k];
    var i :| 0 <= i < |states[n].versions| && states[n].versions[i] == v;
    assert i == k;
  }
}
