/** What a gateway holds after an import: what the file says, as it says it,
    and everything else as it was. */
module ConfigImported {
  import opened Basics
  import opened Strings
  import opened ConfigIO
  import opened ConfigProofs
  import opened ConfigApply
  import opened ConfigConverge
  import opened ConfigWhole
  import opened ConfigPlan

  ghost predicate AsWritten(s: State, d: Document) {
    && (forall i | 0 <= i < |d.groups| :: GroupAsWritten(s, d.groups[i]))
    && (forall i | 0 <= i < |d.targets| :: TargetAsWritten(s, d.targets[i]))
    && (forall i | 0 <= i < |d.policies| :: PolicyAsWritten(s, d.policies[i]))
  }

  /** A file plans as unchanged exactly when nothing stops it and all of it is stored as written. */
  lemma UnchangedIs(s: State, d: Document)
    requires Whole(s)
    ensures AllUnchanged(PlanOf(s, d)) <==> FileStands(s, d) && AsWritten(s, d)
  {
    PlanStands(s, d);
    PlanActions(s, d);
    var plan := PlanOf(s, d);
    SameIs(plan.groups);
    SameIs(plan.targets);
    SameIs(plan.policies);
  }

  lemma SameIs(changes: seq<Change>)
    ensures Same(changes) <==> Quiet(changes) && forall i | 0 <= i < |changes| :: changes[i].action == Unchanged
  {
  }

  ghost predicate GroupsAsBefore(s0: State, s: State, names: set<string>) {
    && s.groups.Keys == s0.groups.Keys + names
    && (forall n | n in s0.groups :: s.groups[n].id == s0.groups[n].id)
    && (forall n | n in s0.groups && n !in names :: s.groups[n] == s0.groups[n] && SameMembers(s0, s, s0.groups[n].id))
  }

  ghost predicate TargetsAsBefore(s0: State, s: State, names: set<string>) {
    && s.targets.Keys == s0.targets.Keys + names
    && (forall n | n in s0.targets :: s.targets[n].id == s0.targets[n].id)
    && (forall n | n in s0.targets && n !in names :: s.targets[n] == s0.targets[n])
  }

  ghost predicate PoliciesAsBefore(s0: State, s: State, names: set<string>) {
    && s.policies.Keys == s0.policies.Keys + names
    && (forall n | n in s0.policies :: s.policies[n].id == s0.policies[n].id)
    && (forall n | n in s0.policies && n !in names :: s.policies[n] == s0.policies[n])
  }

  /** What the file does not name is as it was, and what was there keeps its id. */
  ghost predicate OthersAsBefore(s0: State, s: State, d: Document) {
    && s.users == s0.users && s.credentials == s0.credentials && s.asgs == s0.asgs
    && GroupsAsBefore(s0, s, GroupNames(d.groups))
    && TargetsAsBefore(s0, s, TargetNames(d.targets))
    && PoliciesAsBefore(s0, s, PolicyNames(d.policies))
  }

  lemma {:induction false} PolicyIdsKept(s0: State, now: State, ps: seq<PolicyDoc>, ids: Ids)
    ensures var r := PoliciesApplied(s0, now, ps, ids);
            r.Ok? ==>
              && (forall n | n in now.policies :: n in r.value.policies && r.value.policies[n].id == now.policies[n].id)
  {
    if ps != [] { PolicyIdsKept(s0, now, ps[..|ps| - 1], ids); }
  }

  lemma PolicyKeys(now: State, s: State, ps: seq<PolicyDoc>)
    requires PoliciesDone(now, s, ps)
    ensures s.policies.Keys == now.policies.Keys + PolicyNames(ps)
  {
    forall n | n in PolicyNames(ps) ensures n in s.policies {
      var p :| p in ps && p.name == n;
      var i :| 0 <= i < |ps| && ps[i] == p;
      assert PolicySet(now, s, ps[i]);
    }
    forall n | n in now.policies ensures n in s.policies {}
  }

  /** An import that nothing stops leaves the file stored as written, and everything else as it was. */
  lemma ImportGives(s0: State, d: Document, ids: Ids)
    requires Whole(s0) && Supply(s0, ids) && FileStands(s0, d) && forall i | 0 <= i < |d.groups| :: NoDuplicates(d.groups[i].members)
    ensures Imported(s0, d, ids).Ok? && AsWritten(Imported(s0, d, ids).value, d) && OthersAsBefore(s0, Imported(s0, d, ids).value, d)
  {
    PlanStands(s0, d);
    ImportConverges(s0, d, ids);
    ImportKeepsWhole(s0, d, ids);
    UnchangedIs(Imported(s0, d, ids).value, d);
    ImportLeaves(s0, d, ids);
  }

  lemma HostsLeave(s0: State, s1: State, s2: State, s3: State, d: Document)
    requires GroupsOnly(s0, s1, GroupNames(d.groups)) && TargetsOnly(s1, s2, TargetNames(d.targets))
    requires s3 == s2.(policies := s3.policies)
    ensures GroupsAsBefore(s0, s3, GroupNames(d.groups)) && TargetsAsBefore(s0, s3, TargetNames(d.targets))
    ensures s3.users == s0.users && s3.credentials == s0.credentials && s3.asgs == s0.asgs && s2.policies == s0.policies
  {
    forall n | n in s0.groups && n !in GroupNames(d.groups) ensures SameMembers(s0, s3, s0.groups[n].id) {
      assert SameMembers(s0, s1, s0.groups[n].id);
    }
  }

  lemma PoliciesLeave(s0: State, s2: State, ps: seq<PolicyDoc>, ids: Ids)
    requires s2.policies == s0.policies && PoliciesApplied(s0, s2, ps, ids).Ok?
    requires PoliciesDone(s2, PoliciesApplied(s0, s2, ps, ids).value, ps)
    ensures PoliciesAsBefore(s0, PoliciesApplied(s0, s2, ps, ids).value, PolicyNames(ps))
  {
    PolicyIdsKept(s0, s2, ps, ids);
    PolicyKeys(s2, PoliciesApplied(s0, s2, ps, ids).value, ps);
  }

  lemma ImportLeaves(s0: State, d: Document, ids: Ids)
    requires Whole(s0) && Importable(s0, d, ids)
    ensures Imported(s0, d, ids).Ok? && OthersAsBefore(s0, Imported(s0, d, ids).value, d)
  {
    var s1 := GroupsApplied(s0, d.groups, ids);
    var s2 := TargetsApplied(s0, s1, d.targets, ids);
    HostsImported(s0, d, ids);
    PlannedNames(s0, s1, s2, d);
    PoliciesConverge(s0, s2, d, ids);
    HostsLeave(s0, s1, s2, Imported(s0, d, ids).value, d);
    PoliciesLeave(s0, s2, d.policies, ids);
  }

  // ---- the ids of grants

  /** A grant of the file that takes the place of a stored one of its kind keeps that one's id. */
  ghost predicate GrantIdsKept(prior: Policy, stored: Policy) {
    forall i | 0 <= i < |stored.grants| && i < |prior.grants| && prior.grants[i].id != "" ::
      stored.grants[i].kind == prior.grants[i].kind ==> stored.grants[i].id == prior.grants[i].id
  }

  lemma WriteKeepsGrantIds(s: State, now: State, name: string, p: PolicyDoc, ids: Ids)
    requires Linked(now) && name in now.policies && WritePolicy(now, p, Some(now.policies[name])).Ok?
    ensures var body := WritePolicy(now, p, Some(now.policies[name])).value;
            GrantIdsKept(now.policies[name], PutPolicy(s, now.policies[name].id, name, body, ids).policies[name])
  {
    var prior := now.policies[name];
    PolicyReadsBack(now, p, Some(prior));
    var body := WritePolicy(now, p, Some(prior)).value;
    forall i | 0 <= i < |p.grants| ensures body.grants[i].kind == p.grants[i].kind {
      assert ShowPolicy(now, p.name, body).grants[i] == p.grants[i];
    }
  }

  lemma {:induction false} PoliciesKeepGrantIds(s0: State, now: State, ps: seq<PolicyDoc>, ids: Ids, name: string)
    requires Linked(now) && now.policies == s0.policies && name in now.policies && PoliciesApplied(s0, now, ps, ids).Ok?
    ensures var s := PoliciesApplied(s0, now, ps, ids).value;
            name in s.policies && GrantIdsKept(now.policies[name], s.policies[name])
  {
    if ps != [] {
      var n := |ps| - 1;
      PoliciesKeepGrantIds(s0, now, ps[..n], ids, name);
      var s, p := PoliciesApplied(s0, now, ps[..n], ids).value, ps[n];
      if p.name == name && !PolicyAction(s0, p).Unchanged? { WriteKeepsGrantIds(s, now, name, p, ids); }
    }
  }

  /** Access requests point at grants by id: over an import every grant that is
      still of its kind at its place keeps its id. */
  lemma ImportKeepsGrantIds(s0: State, d: Document, ids: Ids, name: string)
    requires Whole(s0) && Importable(s0, d, ids) && name in s0.policies
    ensures Imported(s0, d, ids).Ok?
    ensures var s := Imported(s0, d, ids).value; name in s.policies && GrantIdsKept(s0.policies[name], s.policies[name])
  {
    var s1 := GroupsApplied(s0, d.groups, ids);
    var s2 := TargetsApplied(s0, s1, d.targets, ids);
    HostsImported(s0, d, ids);
    PlannedNames(s0, s1, s2, d);
    PoliciesConverge(s0, s2, d, ids);
    PoliciesKeepGrantIds(s0, s2, d.policies, ids, name);
  }
}
