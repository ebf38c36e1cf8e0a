/**
  Versioned DHCP configurations (server/dhcp_generator/repository.py and service.py). Publishing reads the
  draft, generates the artifact outside any transaction, and commits only if the revision is still the same.
  The generator is not part of this model: an artifact is identified by what it was generated from.
 */
module DhcpDrafts {
  import opened Basics

  type VersionId = nat

  datatype Configuration = Configuration(text: string)

  datatype Artifact = Artifact(source: Configuration, version: VersionId)

  datatype Version = Version(id: VersionId, number: nat, revision: nat, configuration: Configuration, content: Artifact)

  /** A request between reading the draft and committing the version. */
  datatype Pending = Pending(expected: nat, id: VersionId, content: Artifact)

  datatype State = State(revision: nat, configuration: Configuration, versions: seq<Version>, pending: seq<Pending>)

  datatype Refusal = RevisionConflict | AlreadyPublished | Missing | CheckFailed

  type Outcome = Result<State, Refusal>

  datatype Op =
    | Save(configuration: Configuration, expected: nat)
    | Restore(version: VersionId, expected: nat)
    | Prepare(id: VersionId, syntaxOk: bool, expected: nat)
    | Commit(request: nat)

  function Create(configuration: Configuration): State {
    State(1, configuration, [], [])
  }

  predicate PublishedAt(versions: seq<Version>, revision: nat) {
    exists i :: 0 <= i < |versions| && versions[i].revision == revision
  }

  function Numbers(versions: seq<Version>): seq<nat> {
    seq(|versions|, i requires 0 <= i < |versions| => versions[i].number)
  }

  function MaxNumber(versions: seq<Version>): nat {
    MaxOf(Numbers(versions))
  }

  function Find(versions: seq<Version>, id: VersionId): (r: Option<Version>)
    ensures r.Some? ==> r.value in versions && r.value.id == id
    ensures r.None? ==> forall i :: 0 <= i < |versions| ==> versions[i].id != id
  {
    if versions == [] then None
    else if versions[|versions| - 1].id == id then Some(versions[|versions| - 1])
    else Find(versions[..|versions| - 1], id)
  }

  function Stored(s: State, configuration: Configuration): State {
    s.(configuration := configuration, revision := s.revision + 1)
  }

  function Perform(s: State, op: Op): Outcome {
    match op
    case Save(configuration, expected) =>
      if expected != s.revision then Err(RevisionConflict)
      else if configuration == s.configuration then Ok(s)
      else Ok(Stored(s, configuration))
    case Restore(version, expected) =>
      if expected != s.revision then Err(RevisionConflict)
      else
        (match Find(s.versions, version)
         case None => Err(Missing)
         case Some(v) => Ok(Stored(s, v.configuration)))
    case Prepare(id, syntaxOk, expected) =>
      if expected != s.revision then Err(RevisionConflict)
      else if !syntaxOk then Err(CheckFailed)
      else Ok(s.(pending := s.pending + [Pending(expected, id, Artifact(s.configuration, id))]))
    case Commit(request) =>
      if request >= |s.pending| then Err(Missing)
      else
        var p := s.pending[request];
        if p.expected != s.revision then Err(RevisionConflict)
        else if PublishedAt(s.versions, p.expected) then Err(AlreadyPublished)
        else Ok(s.(versions := s.versions + [Version(p.id, MaxNumber(s.versions) + 1, p.expected, s.configuration, p.content)]))
  }

  // ------------------------------------------------------------------ what every state satisfies

  /** Numbers are 1..n and revisions grow with them, so each revision is published at most once. */
  predicate Numbered(s: State) {
    && (forall i :: 0 <= i < |s.versions| ==> s.versions[i].number == i + 1)
    && (forall i, j :: 0 <= i < j < |s.versions| ==> s.versions[i].revision < s.versions[j].revision)
    && (forall i :: 0 <= i < |s.versions| ==> s.versions[i].revision <= s.revision)
  }

  /** Each stored artifact was generated from the configuration stored beside it. */
  predicate Faithful(s: State) {
    forall i :: 0 <= i < |s.versions| ==> s.versions[i].content == Artifact(s.versions[i].configuration, s.versions[i].id)
  }

  /** A prepared artifact of the present revision was generated from the present configuration. */
  predicate Timely(s: State) {
    forall i :: 0 <= i < |s.pending| ==>
      s.pending[i].expected <= s.revision
      && (s.pending[i].expected == s.revision ==> s.pending[i].content == Artifact(s.configuration, s.pending[i].id))
  }

  predicate Inv(s: State) {
    Numbered(s) && Faithful(s) && Timely(s)
  }

  lemma CommitKeeps(s: State, request: nat)
    requires Inv(s) && Perform(s, Commit(request)).Ok?
    ensures Inv(Perform(s, Commit(request)).value)
  {
    MaxOfCounting(Numbers(s.versions));
    assert forall i :: 0 <= i < |s.versions| ==> s.versions[i].revision != s.revision;
  }

  lemma PerformKeeps(s: State, op: Op)
    requires Inv(s) && Perform(s, op).Ok?
    ensures Inv(Perform(s, op).value)
  {
    match op
    case Commit(request) => CommitKeeps(s, request);
    case _ =>
  }

  // ------------------------------------------------------------------ runs

  function Next(s: State, op: Op): State {
    if Perform(s, op).Ok? then Perform(s, op).value else s
  }

  predicate IsRun(states: seq<State>, ops: seq<Op>) {
    |states| == |ops| + 1 && forall i :: 0 <= i < |ops| ==> states[i + 1] == Next(states[i], ops[i])
  }

  /**
    However saves, restores and publications interleave: every stored artifact was generated from the
    configuration stored beside it, numbers are 1..n, and each draft revision was published at most once.
   */
  lemma {:induction false} VersionsAreFaithful(states: seq<State>, ops: seq<Op>, n: nat)
    requires IsRun(states, ops) && states[0] == Create(states[0].configuration) && n <= |ops|
    ensures Inv(states[n])
    ensures forall i, j :: 0 <= i < j < |states[n].versions| ==>
              states[n].versions[i].number < states[n].versions[j].number && states[n].versions[i].revision < states[n].versions[j].revision
  {
    if n > 0 {
      VersionsAreFaithful(states, ops, n - 1);
      if Perform(states[n - 1], ops[n - 1]).Ok? { PerformKeeps(states[n - 1], ops[n - 1]); }
    }
  }

  /** Restoring a version yields its configuration at a new revision, which can be published again. */
  lemma RestoreYieldsVersion(s: State, id: VersionId, expected: nat)
    requires Inv(s) && Perform(s, Restore(id, expected)).Ok?
    ensures var r := Perform(s, Restore(id, expected)).value;
            && r.revision == s.revision + 1 && !PublishedAt(r.versions, r.revision) && r.versions == s.versions
            && exists i :: 0 <= i < |s.versions| && s.versions[i].id == id && s.versions[i].configuration == r.configuration
  {
    var v := Find(s.versions, id).value;
    var i :| 0 <= i < |s.versions| && s.versions[i] == v;
    assert s.versions[i].configuration == v.configuration;
  }

  /** A commit goes through exactly when nothing was saved or published since its preparation read the draft. */
  lemma CommitIff(s: State, request: nat)
    requires Inv(s) && request < |s.pending|
    ensures Perform(s, Commit(request)).Ok? <==>
              s.pending[request].expected == s.revision && (s.versions != [] ==> s.versions[|s.versions| - 1].revision < s.revision)
  {
    if s.versions != [] && s.versions[|s.versions| - 1].revision < s.revision {
      forall i | 0 <= i < |s.versions| ensures s.versions[i].revision < s.revision {
        if i < |s.versions| - 1 { assert s.versions[i].revision < s.versions[|s.versions| - 1].revision; }
      }
    }
  }
}
