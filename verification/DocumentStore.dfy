/** One document row and its version rows as the operations change them in place. */
module DocumentStore {
  import opened Basics
  import opened Documents

  ghost predicate Performed(before: Document, op: Op, after: Document, refusal: Option<Refusal>) {
    match Perform(before, op)
    case Err(why) => refusal == Some(why) && after == before
    case Ok(next) => refusal == None && after == next
  }

  class DocumentRow {
    var form: Form
    var snapshot: Snapshot
    var version: nat
    var status: Status
    var published: Option<nat>
    var versions: seq<Version>

    function Value(): Document
      reads this
    {
      Document(form, snapshot, version, status, published, versions)
    }

    ghost predicate Valid()
      reads this
    {
      Inv(Value())
    }

    constructor (form: Form, collected: Snapshot)
      ensures Valid() && Fresh(Value()) && this.form == form && snapshot == collected
    {
      this.form, snapshot, version, status, published, versions := form, collected, 1, Draft, None, [];
    }

    method Store(newForm: Form, newSnapshot: Snapshot)
      modifies this`form, this`snapshot, this`version
      ensures Value() == Stored(old(Value()), newForm, newSnapshot)
    {
      form, snapshot, version := newForm, newSnapshot, version + 1;
    }

    /** _freeze: the next number is one more than the largest. */
    method FreezeDraft(kind: Kind) returns (number: Option<nat>)
      modifies this`versions
      ensures match Freeze(old(Value()), kind)
              case Err(why) => why == VersionExists && number == None && Value() == old(Value())
              case Ok(frozen) => Value() == frozen && number == Some(MaxNumber(old(versions)) + 1)
    {
      if exists i :: 0 <= i < |versions| && versions[i].draft == version {
        return None;
      }
      var last := 0;
      for i := 0 to |versions|
        invariant last == MaxOf(Numbers(versions)[..i])
      {
        assert Numbers(versions)[..i + 1][..i] == Numbers(versions)[..i];
        if versions[i].number > last {
          last := versions[i].number;
        }
      }
      assert Numbers(versions)[..|versions|] == Numbers(versions);
      versions := versions + [Version(last + 1, version, form, snapshot, kind)];
      number := Some(last + 1);
    }

    method SaveForm(newForm: Form, collected: Snapshot, expected: nat) returns (refusal: Option<Refusal>)
      requires Valid()
      modifies this
      ensures Valid() && Performed(old(Value()), Save(newForm, collected, expected), Value(), refusal)
    {
      if expected != version {
        return Some(Conflict);
      }
      if status != Draft {
        return Some(NotDraft);
      }
      if newForm.template != form.template {
        return Some(OtherTemplate);
      }
      PerformKeeps(Value(), Save(newForm, collected, expected));
      Store(newForm, if newForm.scope == form.scope then snapshot else collected);
      refusal := None;
    }

    method RefreshSources(collected: Snapshot, digest: Snapshot, expected: nat) returns (refusal: Option<Refusal>)
      requires Valid()
      modifies this
      ensures Valid() && Performed(old(Value()), Refresh(collected, digest, expected), Value(), refusal)
    {
      if expected != version {
        return Some(Conflict);
      }
      if status != Draft {
        return Some(NotDraft);
      }
      if collected != digest {
        return Some(SourceChanged);
      }
      PerformKeeps(Value(), Refresh(collected, digest, expected));
      Store(form, collected);
      refusal := None;
    }

    method RestoreVersion(number: nat, expected: nat) returns (refusal: Option<Refusal>)
      requires Valid()
      modifies this
      ensures Valid() && Performed(old(Value()), Restore(number, expected), Value(), refusal)
    {
      if expected != version {
        return Some(Conflict);
      }
      if status != Draft {
        return Some(NotDraft);
      }
      var found := Find(versions, number);
      if found.None? {
        return Some(Missing);
      }
      PerformKeeps(Value(), Restore(number, expected));
      Store(found.value.form, found.value.snapshot);
      refusal := None;
    }

    method SaveVersion(expected: nat) returns (refusal: Option<Refusal>)
      requires Valid()
      modifies this
      ensures Valid() && Performed(old(Value()), CreateVersion(expected), Value(), refusal)
    {
      if expected != version {
        return Some(Conflict);
      }
      if status != Draft {
        return Some(NotDraft);
      }
      ghost var before := Value();
      var number := FreezeDraft(SavedKind);
      if number.None? {
        return Some(VersionExists);
      }
      PerformKeeps(before, CreateVersion(expected));
      refusal := None;
    }

    method Move(target: Status)
      modifies this`status, this`version
      ensures Value() == old(Value()).(status := target, version := old(version) + 1)
    {
      status, version := target, version + 1;
    }

    method SubmitForReview(ready: bool, expected: nat) returns (refusal: Option<Refusal>)
      requires Valid()
      modifies this
      ensures Valid() && Performed(old(Value()), Submit(ready, expected), Value(), refusal)
    {
      if expected != version {
        return Some(Conflict);
      }
      if status != Draft {
        return Some(NotDraft);
      }
      if !ready {
        return Some(NotReady);
      }
      PerformKeeps(Value(), Submit(ready, expected));
      Move(Review);
      refusal := None;
    }

    method BackToDraft(expected: nat) returns (refusal: Option<Refusal>)
      requires Valid()
      modifies this
      ensures Valid() && Performed(old(Value()), ReturnToDraft(expected), Value(), refusal)
    {
      if expected != version {
        return Some(Conflict);
      }
      if status == Draft {
        return Some(WrongStatus);
      }
      PerformKeeps(Value(), ReturnToDraft(expected));
      Move(Draft);
      refusal := None;
    }

    method PublishReviewed(ready: bool, expected: nat) returns (refusal: Option<Refusal>)
      requires Valid()
      modifies this
      ensures Valid() && Performed(old(Value()), Publish(ready, expected), Value(), refusal)
      ensures refusal != Some(VersionExists)
    {
      if expected != version {
        return Some(Conflict);
      }
      if status != Review {
        return Some(WrongStatus);
      }
      if !ready {
        return Some(NotReady);
      }
      ghost var before := Value();
      PublishNeverExists(before, ready, expected);
      PerformKeeps(before, Publish(ready, expected));
      var number := FreezeDraft(PublishedKind);
      Move(Published);
      published := number;
      refusal := None;
    }
  }
}
