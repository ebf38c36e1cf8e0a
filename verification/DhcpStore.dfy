/** One DHCP configuration row and its version rows as the requests change them in place. */
module DhcpStore {
  import opened Basics
  import opened DhcpDrafts

  ghost predicate Performed(before: State, op: Op, after: State, refusal: Option<Refusal>) {
    match Perform(before, op)
    case Err(why) => refusal == Some(why) && after == before
    case Ok(next) => refusal == None && after == next
  }

  class DhcpConfiguration {
    var revision: nat
    var configuration: Configuration
    var versions: seq<Version>
    /** Requests that have read the draft and generated their artifact, but not committed. */
    var pending: seq<Pending>

    function Value(): State
      reads this
    {
      State(revision, configuration, versions, pending)
    }

    ghost predicate Valid()
      reads this
    {
      Inv(Value())
    }

    constructor (configuration: Configuration)
      ensures Valid() && Value() == Create(configuration)
    {
      this.configuration, revision, versions, pending := configuration, 1, [], [];
    }

    method SaveDraft(newConfiguration: Configuration, expected: nat) returns (refusal: Option<Refusal>)
      requires Valid()
      modifies this`revision, this`configuration
      ensures Valid() && Performed(old(Value()), Save(newConfiguration, expected), Value(), refusal)
    {
      if expected != revision {
        return Some(RevisionConflict);
      }
      PerformKeeps(Value(), Save(newConfiguration, expected));
      if newConfiguration != configuration {
        configuration, revision := newConfiguration, revision + 1;
      }
      refusal := None;
    }

    method RestoreDraft(version: VersionId, expected: nat) returns (refusal: Option<Refusal>)
      requires Valid()
      modifies this`revision, this`configuration
      ensures Valid() && Performed(old(Value()), Restore(version, expected), Value(), refusal)
    {
      if expected != revision {
        return Some(RevisionConflict);
      }
      var found := Find(versions, version);
      if found.None? {
        return Some(Missing);
      }
      PerformKeeps(Value(), Restore(version, expected));
      configuration, revision := found.value.configuration, revision + 1;
      refusal := None;
    }

    /** service.publish up to the generated artifact: a read, then work outside any transaction. */
    method PrepareVersion(id: VersionId, syntaxOk: bool, expected: nat) returns (refusal: Option<Refusal>)
      requires Valid()
      modifies this`pending
      ensures Valid() && Performed(old(Value()), Prepare(id, syntaxOk, expected), Value(), refusal)
    {
      if expected != revision {
        return Some(RevisionConflict);
      }
      if !syntaxOk {
        return Some(CheckFailed);
      }
      PerformKeeps(Value(), Prepare(id, syntaxOk, expected));
      pending := pending + [Pending(expected, id, Artifact(configuration, id))];
      refusal := None;
    }

    /** repository.publish: the revision is checked again in the transaction that stores the version. */
    method CommitVersion(request: nat) returns (refusal: Option<Refusal>)
      requires Valid()
      modifies this`versions
      ensures Valid() && Performed(old(Value()), Commit(request), Value(), refusal)
    {
      if request >= |pending| {
        return Some(Missing);
      }
      var p := pending[request];
      if p.expected != revision {
        return Some(RevisionConflict);
      }
      if exists i :: 0 <= i < |versions| && versions[i].revision == p.expected {
        return Some(AlreadyPublished);
      }
      var last := 0;
      for i := 0 to |versions|
        invariant last == MaxOf(Numbers(versions)[..i])
      {
        assert Numbers(versions)[..i + 1][..i] == Numbers(versions)[..i];
        if versions[i].number > last {
          last := versions[i].number;
        }
      }
      assert Numbers(versions)[..|versions|] == Numbers(versions);
      CommitKeeps(Value(), request);
      versions := versions + [Version(p.id, last + 1, p.expected, configuration, p.content)];
      refusal := None;
    }
  }
}
