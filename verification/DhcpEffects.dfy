/**
  When each operation on a DHCP configuration is accepted and what it writes; and the revision guards the
  configuration, which is why a commit at the prepared revision stores what was prepared.
 */
module DhcpEffects {
  import opened Basics
  import opened DhcpDrafts

  /** Versions and requests under way are as before. */
  predicate OnlyDraft(a: State, b: State) {
    b.versions == a.versions && b.pending == a.pending
  }

  /** A save stores the sent configuration one revision later, and does nothing when it is the present one. */
  lemma SaveEffect(s: State, configuration: Configuration, expected: nat)
    ensures var r := Perform(s, Save(configuration, expected));
            && (r.Ok? <==> expected == s.revision)
            && (r.Ok? ==> && OnlyDraft(s, r.value) && r.value.configuration == configuration
                          && r.value.revision == (if configuration == s.configuration then s.revision else s.revision + 1))
  {
  }

  /** Version ids are unique. */
  predicate IdsUnique(versions: seq<Version>) {
    forall i, j :: 0 <= i < j < |versions| ==> versions[i].id != versions[j].id
  }

  /** A restore stores the configuration of exactly the named version, always at a new revision. */
  lemma RestoreEffect(s: State, id: VersionId, expected: nat)
    ensures var r := Perform(s, Restore(id, expected));
            && (r.Ok? <==> expected == s.revision && exists i :: 0 <= i < |s.versions| && s.versions[i].id == id)
            && (r.Ok? ==> OnlyDraft(s, r.value) && r.value.revision == s.revision + 1)
            && (r.Ok? && IdsUnique(s.versions) ==>
                  forall i :: 0 <= i < |s.versions| && s.versions[i].id == id ==> r.value.configuration == s.versions[i].configuration)
  {
    if Find(s.versions, id).Some? {
      var k :| 0 <= k < |s.versions| && s.versions[k] == Find(s.versions, id).value;
      assert IdsUnique(s.versions) ==> forall i :: 0 <= i < |s.versions| && s.versions[i].id == id ==> i == k;
    }
  }

  /** A preparation only remembers what it generated, from the present configuration. */
  lemma PrepareEffect(s: State, id: VersionId, syntaxOk: bool, expected: nat)
    ensures var r := Perform(s, Prepare(id, syntaxOk, expected));
            && (r.Ok? <==> expected == s.revision && syntaxOk)
            && (r.Ok? ==> && r.value == s.(pending := r.value.pending) && |r.value.pending| == |s.pending| + 1
                          && r.value.pending[..|s.pending|] == s.pending
                          && r.value.pending[|s.pending|] == Pending(expected, id, Artifact(s.configuration, id)))
  {
  }

  /** A commit appends the prepared artifact with the present configuration under the next number; the draft stays. */
  lemma CommitEffect(s: State, request: nat)
    requires Inv(s) && Perform(s, Commit(request)).Ok?
    ensures var after, p := Perform(s, Commit(request)).value, s.pending[request];
            && request < |s.pending| && p.expected == s.revision
            && after == s.(versions := s.versions + [Version(p.id, |s.versions| + 1, s.revision, s.configuration, p.content)])
            && p.content == Artifact(s.configuration, p.id)
  {
    MaxOfCounting(Numbers(s.versions));
  }

  /** Whatever ran in between: while the revision is the one that was read, so is the configuration. */
  lemma {:induction false} SameRevisionSameConfiguration(states: seq<State>, ops: seq<Op>, m: nat, n: nat)
    requires IsRun(states, ops) && m <= n <= |ops|
    ensures states[m].revision <= states[n].revision
    ensures states[m].revision == states[n].revision ==> states[n].configuration == states[m].configuration
    ensures states[m].versions <= states[n].versions
    decreases n - m
  {
    if m < n {
      SameRevisionSameConfiguration(states, ops, m, n - 1);
    }
  }
}
