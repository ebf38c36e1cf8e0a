/**
  When each operation on a document is accepted and what it writes, field by field; and the revision of a
  draft guards its content: while it is the one that was read, form, sources and status are what was read.
 */
module DocumentEffects {
  import opened Basics
  import opened Documents

  /** Neither the content nor its revision changed. */
  predicate SameDraft(a: Document, b: Document) {
    b.form == a.form && b.snapshot == a.snapshot && b.version == a.version
  }

  /** The draft has this content now, one revision later; status and versions are as before. */
  predicate Rewritten(a: Document, form: Form, snapshot: Snapshot, b: Document) {
    && b.form == form && b.snapshot == snapshot && b.version == a.version + 1
    && b.status == a.status && b.published == a.published && b.versions == a.versions
  }

  /** A save takes the sent form; the collected sources stay exactly when the scope is the same. */
  lemma SaveEffect(d: Document, form: Form, collected: Snapshot, expected: nat)
    ensures var r := Perform(d, Save(form, collected, expected));
            && (r.Ok? <==> expected == d.version && d.status == Draft && form.template == d.form.template)
            && (r.Ok? && form.scope == d.form.scope ==> Rewritten(d, form, d.snapshot, r.value))
            && (r.Ok? && form.scope != d.form.scope ==> Rewritten(d, form, collected, r.value))
  {
  }

  /** A refresh takes the sources collected now, if they are those of the preview, and keeps the form. */
  lemma RefreshEffect(d: Document, collected: Snapshot, digest: Snapshot, expected: nat)
    ensures var r := Perform(d, Refresh(collected, digest, expected));
            && (r.Ok? <==> expected == d.version && d.status == Draft && collected == digest)
            && (r.Ok? ==> Rewritten(d, d.form, collected, r.value))
  {
  }

  /** A restore takes form and sources of the version with this number, and keeps all versions. */
  lemma RestoreEffect(d: Document, number: nat, expected: nat)
    requires Inv(d)
    ensures var r := Perform(d, Restore(number, expected));
            && (r.Ok? <==> expected == d.version && d.status == Draft && 1 <= number <= |d.versions|)
            && (r.Ok? ==> Rewritten(d, d.versions[number - 1].form, d.versions[number - 1].snapshot, r.value))
  {
    if Find(d.versions, number).Some? {
      var i :| 0 <= i < |d.versions| && d.versions[i] == Find(d.versions, number).value;
      assert i == number - 1;
    }
    NumberStored(d, number);
  }

  lemma NumberStored(d: Document, number: nat)
    requires Numbered(d)
    ensures (exists i :: 0 <= i < |d.versions| && d.versions[i].number == number) <==> 1 <= number <= |d.versions|
  {
    if 1 <= number <= |d.versions| { assert d.versions[number - 1].number == number; }
  }

  /** No version was frozen at this revision. */
  predicate Unfrozen(d: Document) {
    forall i :: 0 <= i < |d.versions| ==> d.versions[i].draft != d.version
  }

  /** The last version holds the present content, under the next number. */
  predicate FrozenNow(a: Document, kind: Kind, b: Document) {
    && |b.versions| == |a.versions| + 1 && b.versions[..|a.versions|] == a.versions
    && b.versions[|a.versions|] == Version(|a.versions| + 1, a.version, a.form, a.snapshot, kind)
  }

  lemma CreateVersionEffect(d: Document, expected: nat)
    requires Inv(d)
    ensures var r := Perform(d, CreateVersion(expected));
            && (r.Ok? <==> expected == d.version && d.status == Draft && Unfrozen(d))
            && (r.Ok? ==> SameDraft(d, r.value) && r.value.status == Draft && r.value.published == d.published
                          && FrozenNow(d, SavedKind, r.value))
  {
    if expected == d.version && d.status == Draft && Unfrozen(d) { FreezeAppends(d, SavedKind); }
  }

  /** A transition changes the status and the revision alone. */
  predicate Moved(a: Document, status: Status, b: Document) {
    && b.form == a.form && b.snapshot == a.snapshot && b.versions == a.versions && b.published == a.published
    && b.status == status && b.version == a.version + 1
  }

  lemma SubmitEffect(d: Document, ready: bool, expected: nat)
    ensures var r := Perform(d, Submit(ready, expected));
            && (r.Ok? <==> expected == d.version && d.status == Draft && ready)
            && (r.Ok? ==> Moved(d, Review, r.value))
  {
  }

  lemma ReturnEffect(d: Document, expected: nat)
    ensures var r := Perform(d, ReturnToDraft(expected));
            && (r.Ok? <==> expected == d.version && d.status in {Review, Published})
            && (r.Ok? ==> Moved(d, Draft, r.value))
  {
  }

  lemma PublishEffect(d: Document, ready: bool, expected: nat)
    requires Inv(d)
    ensures var r := Perform(d, Publish(ready, expected));
            && (r.Ok? <==> expected == d.version && d.status == Review && ready)
            && (r.Ok? ==> && FrozenNow(d, PublishedKind, r.value) && r.value.published == Some(|d.versions| + 1)
                          && r.value.status == Published && r.value.version == d.version + 1
                          && r.value.form == d.form && r.value.snapshot == d.snapshot)
  {
    PublishNeverExists(d, ready, expected);
    if expected == d.version && d.status == Review && ready {
      FreezeAppends(d, PublishedKind);
      MaxOfCounting(Numbers(d.versions));
    }
  }

  // ------------------------------------------------------------------ the revision guards the draft

  lemma RevisionStep(d: Document, op: Op)
    requires Perform(d, op).Ok?
    ensures var n := Perform(d, op).value;
            && d.version <= n.version
            && (n.version == d.version ==> SameDraft(d, n) && n.status == d.status && n.published == d.published)
  {
  }

  /** Whatever ran in between: while the revision is the one that was read, so are form, sources, status and publication. */
  lemma {:induction false} SameRevisionSameDraft(states: seq<Document>, ops: seq<Op>, m: nat, n: nat)
    requires IsRun(states, ops) && m <= n <= |ops|
    ensures states[m].version <= states[n].version
    ensures states[m].version == states[n].version ==>
              SameDraft(states[m], states[n]) && states[n].status == states[m].status && states[n].published == states[m].published
    decreases n - m
  {
    if m < n {
      SameRevisionSameDraft(states, ops, m, n - 1);
      if Perform(states[n - 1], ops[n - 1]).Ok? { RevisionStep(states[n - 1], ops[n - 1]); }
    }
  }
}
