/** The import converges: what it has applied plans as unchanged. */
module ConfigConverge {
  import opened Basics
  import opened Strings
  import opened ConfigIO
  import opened ConfigProofs
  import opened ConfigApply

  // ---- policies

  /** What a policy shows does not change when new ids get names. */
  lemma ShowPolicySame(s: State, r: State, name: string, p: Policy)
    requires PolicyOk(s, p) && Extends(s.byID, r.byID)
    ensures ShowPolicy(r, name, p) == ShowPolicy(s, name, p)
  {
    forall i | 0 <= i < |p.subjects| ensures ShowSubject(r, p.subjects[i]) == ShowSubject(s, p.subjects[i]) {
      assert SubjectOk(s, p.subjects[i]);
    }
    forall i | 0 <= i < |p.grants| ensures ShowGrant(r, p.grants[i]) == ShowGrant(s, p.grants[i]) {
      assert GrantOk(s, p.grants[i]);
      ShowGrantSame(s, r, p.grants[i]);
    }
  }

  lemma ShowGrantSame(s: State, r: State, g: Grant)
    requires GrantOk(s, g) && Extends(s.byID, r.byID)
    ensures ShowGrant(r, g) == ShowGrant(s, g)
  {
    forall i | 0 <= i < |g.targets| ensures ShowGrantTarget(r, g.targets[i]) == ShowGrantTarget(s, g.targets[i]) {
      assert GrantTargetOk(s, g.kind, g.targets[i]);
    }
  }

  /** Only the table of policies differs, so a policy shows the same. */
  lemma ShowPolicyOnly(s: State, r: State, name: string, p: Policy)
    requires r.byID == s.byID
    ensures ShowPolicy(r, name, p) == ShowPolicy(s, name, p)
  {
    forall i | 0 <= i < |p.grants| ensures ShowGrant(r, p.grants[i]) == ShowGrant(s, p.grants[i]) {
      var g := p.grants[i];
      forall k | 0 <= k < |g.targets| ensures ShowGrantTarget(r, g.targets[k]) == ShowGrantTarget(s, g.targets[k]) {}
    }
  }

  /** The ids the API gives do not show. */
  lemma ShowIgnoresIds(s: State, now: State, id: string, name: string, body: Policy, ids: Ids)
    ensures ShowPolicy(now, name, PutPolicy(s, id, name, body, ids).policies[name]) == ShowPolicy(now, name, body)
  {
    var stored := PutPolicy(s, id, name, body, ids).policies[name];
    forall i | 0 <= i < |body.grants| ensures ShowGrant(now, stored.grants[i]) == ShowGrant(now, body.grants[i]) {}
  }

  lemma OkIgnoresIds(s: State, now: State, id: string, name: string, body: Policy, ids: Ids)
    requires PolicyOk(now, body)
    ensures PolicyOk(now, PutPolicy(s, id, name, body, ids).policies[name])
  {
    var stored := PutPolicy(s, id, name, body, ids).policies[name];
    forall i | 0 <= i < |body.grants| ensures GrantOk(now, stored.grants[i]) { assert GrantOk(now, body.grants[i]); }
  }

  /** References that held before still hold. */
  lemma PolicyStays(s0: State, now: State, p: Policy)
    requires BeforePolicies(s0, now) && PolicyOk(s0, p)
    ensures PolicyOk(now, p)
  {
    forall i | 0 <= i < |p.subjects| ensures SubjectOk(now, p.subjects[i]) { assert SubjectOk(s0, p.subjects[i]); }
    forall i | 0 <= i < |p.grants| ensures GrantOk(now, p.grants[i]) {
      var g := p.grants[i];
      assert GrantOk(s0, g);
      forall k | 0 <= k < |g.targets| ensures GrantTargetOk(now, g.kind, g.targets[k]) { assert GrantTargetOk(s0, g.kind, g.targets[k]); }
    }
  }

  ghost predicate PolicySet(now: State, s: State, p: PolicyDoc) {
    p.name in s.policies && ShowPolicy(now, p.name, s.policies[p.name]) == p && PolicyOk(now, s.policies[p.name])
  }

  ghost predicate PoliciesDone(now: State, s: State, ps: seq<PolicyDoc>) {
    && s == now.(policies := s.policies)
    && (forall n | n in s.policies :: n in now.policies || n in PolicyNames(ps))
    && (forall n | n in now.policies && n !in PolicyNames(ps) :: n in s.policies && s.policies[n] == now.policies[n])
    && (forall i | 0 <= i < |ps| :: PolicySet(now, s, ps[i]))
  }

  lemma PolicyNamesGrow(ps: seq<PolicyDoc>, p: PolicyDoc)
    ensures PolicyNames(ps + [p]) == PolicyNames(ps) + {p.name}
  {
    assert p in ps + [p];
  }

  /** Nothing but groups, targets and what names them has changed before the policies. */
  ghost predicate BeforePolicies(s0: State, now: State) {
    && now.policies == s0.policies && now.users == s0.users && now.asgs == s0.asgs && Extends(s0.byID, now.byID) && Linked(now)
    && (forall n | n in s0.groups :: n in now.groups && now.groups[n].id == s0.groups[n].id)
    && (forall n | n in s0.targets :: n in now.targets && now.targets[n].id == s0.targets[n].id)
  }

  lemma PutPolicyDone(now: State, s: State, ps: seq<PolicyDoc>, p: PolicyDoc, id: string, body: Policy, ids: Ids)
    requires PoliciesDone(now, s, ps) && p.name !in PolicyNames(ps) && ShowPolicy(now, p.name, body) == p && PolicyOk(now, body)
    ensures PoliciesDone(now, PutPolicy(s, id, p.name, body, ids), ps + [p])
  {
    PolicyNamesGrow(ps, p);
    ShowIgnoresIds(s, now, id, p.name, body, ids);
    OkIgnoresIds(s, now, id, p.name, body, ids);
    var next := PutPolicy(s, id, p.name, body, ids);
    forall i | 0 <= i < |ps| ensures PolicySet(now, next, ps[i]) {
      assert ps[i] in ps && PolicySet(now, s, ps[i]);
    }
    assert PolicySet(now, next, p);
  }

  lemma OnePolicy(s0: State, now: State, s: State, ps: seq<PolicyDoc>, p: PolicyDoc, ids: Ids)
    requires BeforePolicies(s0, now) && (p.name in s0.policies ==> PolicyOk(s0, s0.policies[p.name]))
    requires PoliciesDone(now, s, ps) && p.name !in PolicyNames(ps) && WritePolicy(now, p, OldPolicy(now, p.name)).Ok?
    ensures PolicyApplied(s0, now, s, p, ids).Ok? && PoliciesDone(now, PolicyApplied(s0, now, s, p, ids).value, ps + [p])
  {
    if PolicyAction(s0, p).Unchanged? {
      PolicyNamesGrow(ps, p);
      ShowPolicySame(s0, now, p.name, s0.policies[p.name]);
      PolicyStays(s0, now, s0.policies[p.name]);
      assert PolicySet(now, s, p);
      forall i | 0 <= i < |ps| ensures PolicySet(now, s, (ps + [p])[i]) {}
    } else {
      var body := WritePolicy(now, p, OldPolicy(now, p.name)).value;
      PolicyReadsBack(now, p, OldPolicy(now, p.name));
      PolicyWritten(now, p, OldPolicy(now, p.name));
      PutPolicyDone(now, s, ps, p, if p.name in now.policies then now.policies[p.name].id else ids.policy(p.name), body, ids);
    }
  }

  ghost predicate PolicyFits(now: State, ps: seq<PolicyDoc>, i: nat)
    requires i < |ps|
  {
    ps[i].name !in PolicyNames(ps[..i]) && !Blank(ps[i].name) && WritePolicy(now, ps[i], OldPolicy(now, ps[i].name)).Ok?
  }

  lemma {:induction false} AllPolicies(s0: State, now: State, ps: seq<PolicyDoc>, ids: Ids, n: nat)
    requires BeforePolicies(s0, now) && (forall name | name in s0.policies :: PolicyOk(s0, s0.policies[name]))
    requires n <= |ps| && forall i: nat | i < n :: PolicyFits(now, ps, i)
    ensures var r := PoliciesApplied(s0, now, ps[..n], ids);
            r.Ok? && PoliciesDone(now, r.value, ps[..n])
  {
    if n > 0 {
      AllPolicies(s0, now, ps, ids, n - 1);
      var front := ps[..n - 1];
      LastApart(ps, n);
      assert PolicyFits(now, ps, n - 1);
      OnePolicy(s0, now, PoliciesApplied(s0, now, front, ids).value, front, ps[n - 1], ids);
    }
  }

  // ---- from a plan without problems

  lemma GroupsFit(s: State, gs: seq<GroupDoc>, i: nat)
    requires Quiet(GroupPlan(s, gs)) && i < |gs| && NoDuplicates(gs[i].members)
    ensures GroupFits(s, gs, i)
  {
    assert GroupPlan(s, gs)[i].problem.None?;
  }

  lemma TargetsFit(s: State, ts: seq<TargetDoc>, i: nat)
    requires Quiet(TargetPlan(s, ts)) && i < |ts|
    ensures TargetFits(s, ts, i)
  {
    assert TargetPlan(s, ts)[i].problem.None?;
  }

  lemma PoliciesFit(s: State, future: State, now: State, ps: seq<PolicyDoc>, i: nat)
    requires Quiet(PolicyPlan(s, future, ps)) && SameNames(future, now) && i < |ps|
    ensures PolicyFits(now, ps, i)
  {
    assert PolicyPlan(s, future, ps)[i].problem.None?;
    SamePolicy(future, now, ps[i], OldPolicy(s, ps[i].name), OldPolicy(now, ps[i].name));
  }

  // ---- to a plan without changes

  lemma GroupsSettled(s0: State, s: State, gs: seq<GroupDoc>)
    requires s.users == s0.users && GroupsSet(s, gs) && forall i: nat | i < |gs| :: GroupFits(s0, gs, i)
    ensures Same(GroupPlan(s, gs))
  {
    forall i | 0 <= i < |gs| ensures GroupChange(s, gs[i], GroupNames(gs[..i])) == Change(gs[i].name, Unchanged, None) {
      assert GroupFits(s0, gs, i) && GroupSet(s, gs[i]);
    }
  }

  lemma TargetsSettled(s0: State, s: State, ts: seq<TargetDoc>)
    requires s.credentials == s0.credentials && TargetsSet(s, ts) && forall i: nat | i < |ts| :: TargetFits(s0, ts, i)
    ensures Same(TargetPlan(s, ts))
  {
    forall i | 0 <= i < |ts| ensures TargetChange(s, ts[i], TargetNames(ts[..i])) == Change(ts[i].name, Unchanged, None) {
      assert TargetFits(s0, ts, i) && TargetSet(s, ts[i]);
    }
  }

  lemma PoliciesSettled(now: State, s: State, future: State, ps: seq<PolicyDoc>)
    requires PoliciesDone(now, s, ps) && SameNames(now, future) && forall i: nat | i < |ps| :: PolicyFits(now, ps, i)
    ensures Same(PolicyPlan(s, future, ps))
  {
    forall i | 0 <= i < |ps| ensures PolicyChange(s, future, ps[i], PolicyNames(ps[..i])) == Change(ps[i].name, Unchanged, None) {
      var p := ps[i];
      assert PolicyFits(now, ps, i) && PolicySet(now, s, p);
      ShowPolicyOnly(now, s, p.name, s.policies[p.name]);
      SamePolicy(now, future, p, OldPolicy(now, p.name), OldPolicy(s, p.name));
    }
  }

  lemma GroupsImported(s0: State, gs: seq<GroupDoc>, ids: Ids)
    requires Whole(s0) && Supply(s0, ids) && Quiet(GroupPlan(s0, gs)) && forall i | 0 <= i < |gs| :: NoDuplicates(gs[i].members)
    ensures GroupsDone(s0, GroupsApplied(s0, gs, ids), gs, ids)
  {
    forall i: nat | i < |gs| ensures GroupFits(s0, gs, i) { GroupsFit(s0, gs, i); }
    WholeSlice(gs);
    AllGroups(s0, gs, ids, |gs|);
  }

  lemma WholeSlice<T>(xs: seq<T>)
    ensures xs[..|xs|] == xs
  {
  }

  lemma TargetsImported(s0: State, s1: State, ts: seq<TargetDoc>, ids: Ids)
    requires Whole(s0) && Supply(s0, ids) && Quiet(TargetPlan(s0, ts))
    requires BeforeTargets(s0, s1) && Linked(s1) && (forall m :: ids.target(m) !in s1.byID)
    ensures TargetsDone(s1, TargetsApplied(s0, s1, ts, ids), ts, ids)
  {
    forall i: nat | i < |ts| ensures TargetFits(s0, ts, i) { TargetsFit(s0, ts, i); }
    WholeSlice(ts);
    AllTargets(s0, s1, ts, ids, |ts|);
  }

  /** What targets and policies need of the groups that were imported. */
  lemma AfterGroups(s0: State, s1: State, gs: seq<GroupDoc>, ids: Ids)
    requires GroupsDone(s0, s1, gs, ids)
    ensures BeforeTargets(s0, s1) && BeforePolicies(s0, s1) && (forall m :: ids.target(m) !in s1.byID)
  {
  }

  lemma AfterTargets(s0: State, s1: State, s2: State, ts: seq<TargetDoc>, ids: Ids)
    requires BeforePolicies(s0, s1) && TargetsDone(s1, s2, ts, ids)
    ensures BeforePolicies(s0, s2)
  {
  }

  /** The names there are after groups and targets are the names the plan counted on. */
  lemma PlannedNames(s0: State, s1: State, s2: State, d: Document)
    requires GroupsOnly(s0, s1, GroupNames(d.groups)) && TargetsOnly(s1, s2, TargetNames(d.targets))
    ensures SameNames(Future(s0, d), s2)
  {
    FutureNames(s0, d);
  }

  lemma SettledNames(s: State, d: Document)
    requires GroupNames(d.groups) <= s.groups.Keys && TargetNames(d.targets) <= s.targets.Keys
    ensures SameNames(s, Future(s, d))
  {
    FutureNames(s, d);
  }

  /** What the groups were set to is not disturbed by the targets and the policies. */
  lemma GroupsStay(s1: State, s: State, gs: seq<GroupDoc>)
    requires GroupsSet(s1, gs) && s.groups == s1.groups && s.members == s1.members
    ensures GroupsSet(s, gs)
  {
    forall i | 0 <= i < |gs| ensures GroupSet(s, gs[i]) { assert GroupSet(s1, gs[i]); }
  }

  lemma TargetsStay(s2: State, s: State, ts: seq<TargetDoc>)
    requires TargetsSet(s2, ts) && s.targets == s2.targets && s.byID == s2.byID && s.credentials == s2.credentials
    ensures TargetsSet(s, ts)
  {
    forall i | 0 <= i < |ts| ensures TargetSet(s, ts[i]) {
      assert TargetSet(s2, ts[i]);
      var creds := s.targets[ts[i].name].credentials;
      forall proto | proto in creds ensures CredentialOk(s, creds[proto]) { assert CredentialOk(s2, creds[proto]); }
      ShowTargetSame(s2, s, ts[i].name, s.targets[ts[i].name]);
    }
  }

  lemma GroupsConverge(s0: State, s1: State, s3: State, gs: seq<GroupDoc>)
    requires Quiet(GroupPlan(s0, gs)) && (forall i | 0 <= i < |gs| :: NoDuplicates(gs[i].members))
    requires GroupsSet(s1, gs) && s3.groups == s1.groups && s3.members == s1.members && s3.users == s0.users
    ensures Same(GroupPlan(s3, gs))
  {
    GroupsStay(s1, s3, gs);
    forall i: nat | i < |gs| ensures GroupFits(s0, gs, i) { GroupsFit(s0, gs, i); }
    GroupsSettled(s0, s3, gs);
  }

  lemma TargetsConverge(s0: State, s2: State, s3: State, ts: seq<TargetDoc>)
    requires Quiet(TargetPlan(s0, ts)) && TargetsSet(s2, ts)
    requires s3.targets == s2.targets && s3.byID == s2.byID && s3.credentials == s2.credentials == s0.credentials
    ensures Same(TargetPlan(s3, ts))
  {
    TargetsStay(s2, s3, ts);
    forall i: nat | i < |ts| ensures TargetFits(s0, ts, i) { TargetsFit(s0, ts, i); }
    TargetsSettled(s0, s3, ts);
  }

  lemma PoliciesConverge(s0: State, s2: State, d: Document, ids: Ids)
    requires Whole(s0) && BeforePolicies(s0, s2) && SameNames(Future(s0, d), s2) && Quiet(PolicyPlan(s0, Future(s0, d), d.policies))
    requires GroupNames(d.groups) <= s2.groups.Keys && TargetNames(d.targets) <= s2.targets.Keys
    ensures var r := PoliciesApplied(s0, s2, d.policies, ids);
            && r.Ok? && PoliciesDone(s2, r.value, d.policies)
            && Same(PolicyPlan(r.value, Future(r.value, d), d.policies))
  {
    forall i: nat | i < |d.policies| ensures PolicyFits(s2, d.policies, i) { PoliciesFit(s0, Future(s0, d), s2, d.policies, i); }
    assert d.policies[..|d.policies|] == d.policies;
    AllPolicies(s0, s2, d.policies, ids, |d.policies|);
    var s3 := PoliciesApplied(s0, s2, d.policies, ids).value;
    SettledNames(s3, d);
    PoliciesSettled(s2, s3, Future(s3, d), d.policies);
  }

  /** The groups and then the targets: everything the policies and the next plan rely on. */
  lemma HostsImported(s0: State, d: Document, ids: Ids)
    requires Whole(s0) && Supply(s0, ids) && NoProblems(PlanOf(s0, d)) && forall i | 0 <= i < |d.groups| :: NoDuplicates(d.groups[i].members)
    ensures var s1 := GroupsApplied(s0, d.groups, ids);
            var s2 := TargetsApplied(s0, s1, d.targets, ids);
            && GroupsOnly(s0, s1, GroupNames(d.groups)) && GroupsSet(s1, d.groups)
            && TargetsOnly(s1, s2, TargetNames(d.targets)) && TargetsSet(s2, d.targets)
            && BeforeTargets(s0, s1) && Extends(s1.byID, s2.byID) && BeforePolicies(s0, s2)
  {
    var s1 := GroupsApplied(s0, d.groups, ids);
    var s2 := TargetsApplied(s0, s1, d.targets, ids);
    GroupsImported(s0, d.groups, ids);
    AfterGroups(s0, s1, d.groups, ids);
    TargetsImported(s0, s1, d.targets, ids);
    AfterTargets(s0, s1, s2, d.targets, ids);
  }

  /** The import converges: a file that lists no member twice and plans without
      problems is applied without failing to resolve a name, and then plans as
      unchanged from end to end. */
  lemma ImportConverges(s0: State, d: Document, ids: Ids)
    requires Whole(s0) && Supply(s0, ids) && NoProblems(PlanOf(s0, d)) && forall i | 0 <= i < |d.groups| :: NoDuplicates(d.groups[i].members)
    ensures Imported(s0, d, ids).Ok? && AllUnchanged(PlanOf(Imported(s0, d, ids).value, d))
  {
    var s1 := GroupsApplied(s0, d.groups, ids);
    var s2 := TargetsApplied(s0, s1, d.targets, ids);
    HostsImported(s0, d, ids);
    PlannedNames(s0, s1, s2, d);
    PoliciesConverge(s0, s2, d, ids);
    var s3 := Imported(s0, d, ids).value;
    GroupsConverge(s0, s1, s3, d.groups);
    TargetsConverge(s0, s2, s3, d.targets);
  }

  lemma OncePerName(xs: seq<string>)
    ensures NoDuplicates(xs) <==> forall x :: multiset(xs)[x] <= 1
  {
    if xs != [] {
      var n := |xs| - 1;
      OncePerName(xs[..n]);
      assert xs == xs[..n] + [xs[n]];
      assert xs[n] in xs[..n] <==> multiset(xs[..n])[xs[n]] > 0;
      if NoDuplicates(xs) {
        assert NoDuplicates(xs[..n]);
      }
      if forall x :: multiset(xs)[x] <= 1 {
        forall x ensures multiset(xs[..n])[x] <= 1 { assert multiset(xs)[x] >= multiset(xs[..n])[x]; }
        assert multiset(xs)[xs[n]] == multiset(xs[..n])[xs[n]] + 1;
      }
    }
  }

  /** No group lists a member twice. */
  ghost predicate DistinctMembers(s: State) { forall id | id in s.members :: NoDuplicates(s.members[id]) }

  lemma {:induction false} DedupDistinct(xs: seq<string>)
    ensures NoDuplicates(Dedup(xs))
  {
    if xs != [] { DedupDistinct(xs[..|xs| - 1]); }
  }

  lemma SortDistinct(xs: seq<string>)
    ensures NoDuplicates(Sort(xs)) <==> NoDuplicates(xs)
  {
    OncePerName(xs);
    OncePerName(Sort(xs));
    SortPermutes(xs);
  }

  lemma PutGroupDistinct(s: State, id: string, name: string, description: string, people: seq<string>)
    requires DistinctMembers(s)
    ensures DistinctMembers(PutGroup(s, id, name, description, people))
  {
    var names := Lookups(s.byID, people);
    DedupDistinct(names);
    SortDistinct(Dedup(names));
  }

  lemma {:induction false} GroupsKeepDistinct(s0: State, gs: seq<GroupDoc>, ids: Ids)
    requires DistinctMembers(s0)
    ensures DistinctMembers(GroupsApplied(s0, gs, ids))
  {
    if gs != [] {
      var n := |gs| - 1;
      GroupsKeepDistinct(s0, gs[..n], ids);
      PutGroupDistinct(GroupsApplied(s0, gs[..n], ids), GroupId(s0, gs[n].name, ids), gs[n].name, gs[n].description,
                       Lookups(s0.users, gs[n].members));
    }
  }

  lemma {:induction false} TargetsKeepMembers(s0: State, s: State, ts: seq<TargetDoc>, ids: Ids)
    ensures TargetsApplied(s0, s, ts, ids).members == s.members
  {
    if ts != [] { TargetsKeepMembers(s0, s, ts[..|ts| - 1], ids); }
  }

  lemma {:induction false} PoliciesKeepMembers(s0: State, now: State, ps: seq<PolicyDoc>, ids: Ids)
    ensures var r := PoliciesApplied(s0, now, ps, ids); r.Ok? ==> r.value.members == now.members
  {
    if ps != [] { PoliciesKeepMembers(s0, now, ps[..|ps| - 1], ids); }
  }

  /** No import of any file makes a group list a member twice. */
  lemma ImportKeepsDistinct(s0: State, d: Document, ids: Ids)
    requires DistinctMembers(s0)
    ensures Imported(s0, d, ids).Ok? ==> DistinctMembers(Imported(s0, d, ids).value)
  {
    var s1 := GroupsApplied(s0, d.groups, ids);
    var s2 := TargetsApplied(s0, s1, d.targets, ids);
    GroupsKeepDistinct(s0, d.groups, ids);
    TargetsKeepMembers(s0, s1, d.targets, ids);
    PoliciesKeepMembers(s0, s2, d.policies, ids);
  }

  /** Where no group lists a member twice, a file that does never plans as unchanged. */
  lemma DuplicatesNeverSettle(s: State, d: Document, i: nat)
    requires i < |d.groups| && DistinctMembers(s) && !NoDuplicates(d.groups[i].members)
    ensures !AllUnchanged(PlanOf(s, d))
  {
    var g := d.groups[i];
    SortDistinct(g.members);
    assert GroupPlan(s, d.groups)[i].action == GroupAction(s, g);
    if g.name in s.groups && s.groups[g.name].id in s.members {
      assert NoDuplicates(s.members[s.groups[g.name].id]);
    }
  }

  /** The premise on members is exact: a file that plans without problems is
      applied and then plans as unchanged if and only if it lists no member twice. */
  lemma ConvergesExactly(s0: State, d: Document, ids: Ids)
    requires Whole(s0) && DistinctMembers(s0) && Supply(s0, ids) && NoProblems(PlanOf(s0, d))
    ensures Imported(s0, d, ids).Ok? && AllUnchanged(PlanOf(Imported(s0, d, ids).value, d)) <==>
            forall i | 0 <= i < |d.groups| :: NoDuplicates(d.groups[i].members)
  {
    if forall i | 0 <= i < |d.groups| :: NoDuplicates(d.groups[i].members) {
      ImportConverges(s0, d, ids);
    } else {
      var i: nat :| i < |d.groups| && !NoDuplicates(d.groups[i].members);
      ImportKeepsDistinct(s0, d, ids);
      if Imported(s0, d, ids).Ok? { DuplicatesNeverSettle(Imported(s0, d, ids).value, d, i); }
    }
  }

  // ---- importing again

  lemma {:induction false} GroupsAgain(s: State, gs: seq<GroupDoc>, ids: Ids)
    requires forall i | 0 <= i < |gs| :: GroupAction(s, gs[i]).Unchanged?
    ensures GroupsApplied(s, gs, ids) == s
  {
    if gs != [] { GroupsAgain(s, gs[..|gs| - 1], ids); }
  }

  lemma {:induction false} TargetsAgain(s: State, ts: seq<TargetDoc>, ids: Ids)
    requires forall i | 0 <= i < |ts| :: TargetAction(s, ts[i]).Unchanged?
    ensures TargetsApplied(s, s, ts, ids) == s
  {
    if ts != [] { TargetsAgain(s, ts[..|ts| - 1], ids); }
  }

  lemma {:induction false} PoliciesAgain(s: State, ps: seq<PolicyDoc>, ids: Ids)
    requires forall i | 0 <= i < |ps| :: PolicyAction(s, ps[i]).Unchanged?
    ensures PoliciesApplied(s, s, ps, ids) == Ok(s)
  {
    if ps != [] { PoliciesAgain(s, ps[..|ps| - 1], ids); }
  }

  /** A file that plans as unchanged is imported without changing anything. */
  lemma UnchangedImport(s: State, d: Document, ids: Ids)
    requires AllUnchanged(PlanOf(s, d))
    ensures Imported(s, d, ids) == Ok(s)
  {
    forall i | 0 <= i < |d.groups| ensures GroupAction(s, d.groups[i]).Unchanged? { assert GroupPlan(s, d.groups)[i].action.Unchanged?; }
    GroupsAgain(s, d.groups, ids);
    forall i | 0 <= i < |d.targets| ensures TargetAction(s, d.targets[i]).Unchanged? { assert TargetPlan(s, d.targets)[i].action.Unchanged?; }
    TargetsAgain(s, d.targets, ids);
    forall i | 0 <= i < |d.policies| ensures PolicyAction(s, d.policies[i]).Unchanged? {
      assert PolicyPlan(s, Future(s, d), d.policies)[i].action.Unchanged?;
    }
    PoliciesAgain(s, d.policies, ids);
  }
}
