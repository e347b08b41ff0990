/** Export, plan and apply as they build their results step by step. */
module ConfigMethods {
  import opened Basics
  import opened Strings
  import opened ConfigIO
  import opened ConfigProofs
  import opened ConfigApply
  import opened ConfigPlan
  import ConfigConverge

  // ---- the insertion sort

  /** Inserting goes down past the last element kept when that is greater. */
  lemma InsertPast(front: seq<string>, x: string, j: nat)
    requires 0 < j <= |front| && !Leq(front[j - 1], x)
    ensures Insert(front[..j], x) + front[j..] == Insert(front[..j - 1], x) + front[j - 1..]
  {
    assert front[..j][..j - 1] == front[..j - 1];
    assert [front[j - 1]] + front[j..] == front[j - 1..];
    assert Insert(front[..j], x) == Insert(front[..j - 1], x) + [front[j - 1]];
  }

  /** The list with x moved down to place j. */
  ghost function MovedTo(front: seq<string>, x: string, rest: seq<string>, j: nat): seq<string>
    requires j <= |front|
  {
    front[..j] + [x] + front[j..] + rest
  }

  lemma MovedDown(front: seq<string>, x: string, rest: seq<string>, j: nat)
    requires 0 < j <= |front|
    ensures var here := MovedTo(front, x, rest, j);
            && |here| == |front| + 1 + |rest| && here[j] == x && here[j - 1] == front[j - 1]
            && here[j := front[j - 1]][j - 1 := x] == MovedTo(front, x, rest, j - 1)
  {
  }

  lemma MovedEnds(front: seq<string>, x: string, rest: seq<string>, j: nat)
    requires j <= |front|
    ensures MovedTo(front, x, rest, j)[..|front| + 1] == front[..j] + [x] + front[j..]
    ensures MovedTo(front, x, rest, j)[|front| + 1..] == rest
  {
  }

  lemma InsertHere(front: seq<string>, x: string, j: nat)
    requires j <= |front| && (j == 0 || Leq(front[j - 1], x))
    ensures Insert(front[..j], x) + front[j..] == front[..j] + [x] + front[j..]
  {
  }

  /** One swap of the inner loop. */
  method SwapDown(a: array<string>, j: nat, ghost front: seq<string>, ghost x: string, ghost rest: seq<string>)
    requires 0 < j <= |front| && a[..] == MovedTo(front, x, rest, j)
    modifies a
    ensures a[..] == MovedTo(front, x, rest, j - 1) && a[j - 1] == x && (j > 1 ==> a[j - 2] == front[j - 2])
  {
    MovedDown(front, x, rest, j);
    ghost var here := a[..];
    assert a[j] == here[j] && a[j - 1] == here[j - 1];
    a[j], a[j - 1] := a[j - 1], a[j];
    assert a[..] == here[j := front[j - 1]][j - 1 := x];
    if j > 1 {
      MovedDown(front, x, rest, j - 1);
      assert a[j - 2] == a[..][j - 2];
    }
  }

  /** Moves an element down past the greater ones before it. */
  method MoveDown(a: array<string>, i: nat)
    requires i < a.Length
    modifies a
    ensures a[..i + 1] == Insert(old(a[..i]), old(a[i])) && a[i + 1..] == old(a[i + 1..])
  {
    ghost var front, x, rest := a[..i], a[i], a[i + 1..];
    var j := i;
    MoveStarts(a[..], i);
    while j > 0 && !Leq(a[j - 1], a[j])
      invariant 0 <= j <= i && a[..] == MovedTo(front, x, rest, j)
      invariant a[j] == x && (j > 0 ==> a[j - 1] == front[j - 1])
      invariant Insert(front[..j], x) + front[j..] == Insert(front, x)
    {
      InsertPast(front, x, j);
      SwapDown(a, j, front, x, rest);
      j := j - 1;
    }
    InsertHere(front, x, j);
    MovedEnds(front, x, rest, j);
    assert a[..i + 1] == a[..][..i + 1] && a[i + 1..] == a[..][i + 1..];
  }

  lemma MoveStarts(all: seq<string>, i: nat)
    requires i < |all|
    ensures var front := all[..i]; front[..i] == front && front[i..] == [] && all == MovedTo(front, all[i], all[i + 1..], i)
    ensures Insert(all[..i][..i], all[i]) + all[..i][i..] == Insert(all[..i], all[i])
  {
  }

  lemma SortNext(xs: seq<string>, i: nat)
    requires i < |xs|
    ensures Sort(xs[..i + 1]) == Insert(Sort(xs[..i]), xs[i])
  {
    assert xs[..i + 1][..i] == xs[..i];
  }

  /** Sorts a copy in place, one element after another. */
  method Sorted(xs: seq<string>) returns (out: seq<string>)
    ensures out == Sort(xs)
  {
    var a := new string[|xs|](i requires 0 <= i < |xs| => xs[i]);
    var i := 0;
    while i < |xs|
      invariant 0 <= i <= |xs| && a[..i] == Sort(xs[..i]) && a[i..] == xs[i..]
    {
      assert a[i] == a[i..][0] && a[i + 1..] == a[i..][1..];
      SortNext(xs, i);
      MoveDown(a, i);
      i := i + 1;
    }
    assert xs[..|xs|] == xs && a[..] == a[..|xs|];
    return a[..];
  }

  // ---- the export

  function ExportGroup(s: State, name: string): GroupDoc
    requires name in s.groups
  {
    GroupDoc(name, s.groups[name].description, if s.groups[name].id in s.members then s.members[s.groups[name].id] else [])
  }

  method ExportGroups(s: State) returns (docs: seq<GroupDoc>, names: seq<string>)
    ensures SortedKeys(names, s.groups.Keys) && |docs| == |names|
    ensures forall i | 0 <= i < |names| :: names[i] in s.groups && docs[i] == ExportGroup(s, names[i])
  {
    names := SortNames(s.groups.Keys);
    SortedKeysAre(names, s.groups.Keys);
    docs := [];
    for i := 0 to |names|
      invariant |docs| == i && forall k | 0 <= k < i :: docs[k] == ExportGroup(s, names[k])
    {
      docs := docs + [ExportGroup(s, names[i])];
    }
  }

  method ExportTargets(s: State) returns (docs: seq<TargetDoc>, names: seq<string>)
    ensures SortedKeys(names, s.targets.Keys) && |docs| == |names|
    ensures forall i | 0 <= i < |names| :: names[i] in s.targets && docs[i] == ShowTarget(s, names[i], s.targets[names[i]])
  {
    names := SortNames(s.targets.Keys);
    SortedKeysAre(names, s.targets.Keys);
    docs := [];
    for i := 0 to |names|
      invariant |docs| == i && forall k | 0 <= k < i :: docs[k] == ShowTarget(s, names[k], s.targets[names[k]])
    {
      docs := docs + [ShowTarget(s, names[i], s.targets[names[i]])];
    }
  }

  method ExportPolicies(s: State) returns (docs: seq<PolicyDoc>, names: seq<string>)
    ensures SortedKeys(names, s.policies.Keys) && |docs| == |names|
    ensures forall i | 0 <= i < |names| :: names[i] in s.policies && docs[i] == ShowPolicy(s, names[i], s.policies[names[i]])
  {
    names := SortNames(s.policies.Keys);
    SortedKeysAre(names, s.policies.Keys);
    docs := [];
    for i := 0 to |names|
      invariant |docs| == i && forall k | 0 <= k < i :: docs[k] == ShowPolicy(s, names[k], s.policies[names[k]])
    {
      docs := docs + [ShowPolicy(s, names[i], s.policies[names[i]])];
    }
  }

  /** The gateway as a file, every list by name. */
  method Export(s: State) returns (d: Document, gs: seq<string>, ts: seq<string>, ps: seq<string>)
    ensures IsExport(s, d, gs, ts, ps)
  {
    var groups, targets, policies;
    groups, gs := ExportGroups(s);
    targets, ts := ExportTargets(s);
    policies, ps := ExportPolicies(s);
    d := Document(groups, targets, policies);
  }

  // ---- the plan

  lemma Prefixes<T>(xs: seq<T>, i: nat)
    requires i < |xs|
    ensures |xs[..i + 1]| == i + 1 && |xs[..i]| == i
    ensures forall k | 0 <= k <= i :: xs[..i + 1][k] == xs[k] && xs[..i + 1][..k] == xs[..k]
    ensures forall k | 0 <= k < i :: xs[..i][k] == xs[k] && xs[..i][..k] == xs[..k]
  {
  }

  lemma GroupPlanNext(s: State, gs: seq<GroupDoc>, i: nat)
    requires i < |gs|
    ensures GroupPlan(s, gs[..i + 1]) == GroupPlan(s, gs[..i]) + [GroupChange(s, gs[i], GroupNames(gs[..i]))]
  {
    Prefixes(gs, i);
  }

  lemma GroupNamesNext(s: State, gs: seq<GroupDoc>, i: nat)
    requires i < |gs|
    ensures GroupNames(gs[..i + 1]) == GroupNames(gs[..i]) + {gs[i].name}
    ensures FutureGroups(s, gs[..i + 1]) ==
            if gs[i].name in s.groups then FutureGroups(s, gs[..i]) else FutureGroups(s, gs[..i])[gs[i].name := Group("(new)", "")]
  {
    LastApart(gs, i + 1);
    NamesGrow(gs[..i], gs[i]);
  }

  lemma TargetPlanNext(s: State, ts: seq<TargetDoc>, i: nat)
    requires i < |ts|
    ensures TargetPlan(s, ts[..i + 1]) == TargetPlan(s, ts[..i]) + [TargetChange(s, ts[i], TargetNames(ts[..i]))]
  {
    Prefixes(ts, i);
  }

  lemma TargetNamesNext(s: State, ts: seq<TargetDoc>, i: nat)
    requires i < |ts|
    ensures TargetNames(ts[..i + 1]) == TargetNames(ts[..i]) + {ts[i].name}
    ensures FutureTargets(s, ts[..i + 1]) ==
            if ts[i].name in s.targets then FutureTargets(s, ts[..i])
            else FutureTargets(s, ts[..i])[ts[i].name := Target("(new)", map[], "", map[])]
  {
    LastApart(ts, i + 1);
    TargetNamesGrow(ts[..i], ts[i]);
  }

  lemma PolicyPlanNext(s: State, future: State, ps: seq<PolicyDoc>, i: nat)
    requires i < |ps|
    ensures PolicyPlan(s, future, ps[..i + 1]) == PolicyPlan(s, future, ps[..i]) + [PolicyChange(s, future, ps[i], PolicyNames(ps[..i]))]
  {
    Prefixes(ps, i);
  }

  lemma PolicyNamesNext(ps: seq<PolicyDoc>, i: nat)
    requires i < |ps|
    ensures PolicyNames(ps[..i + 1]) == PolicyNames(ps[..i]) + {ps[i].name}
  {
    LastApart(ps, i + 1);
    ConfigConverge.PolicyNamesGrow(ps[..i], ps[i]);
  }

  method CheckMembers(s: State, members: seq<string>, found: Option<Problem>) returns (problem: Option<Problem>)
    ensures problem == First(found, if forall m | m in members :: m in s.users then None else Some(NoMember))
  {
    problem := found;
    for k := 0 to |members|
      invariant problem == First(found, if forall m | m in members[..k] :: m in s.users then None else Some(NoMember))
    {
      assert members[..k + 1] == members[..k] + [members[k]];
      if members[k] !in s.users && problem.None? {
        problem := Some(NoMember);
      }
    }
    assert members[..|members|] == members;
  }

  method PlanGroup(s: State, g: GroupDoc, seen: set<string>) returns (change: Change)
    ensures change == GroupChange(s, g, seen)
  {
    var problem := CheckMembers(s, g.members, NameProblem(g.name, seen));
    var action := ComparedGroup(s, g);
    change := Change(g.name, action, problem);
  }

  method ComparedGroup(s: State, g: GroupDoc) returns (action: Action)
    ensures action == GroupAction(s, g)
  {
    if g.name !in s.groups {
      return Create;
    }
    var prior := s.groups[g.name];
    var members := Sorted(g.members);
    var stored := if prior.id in s.members then s.members[prior.id] else [];
    action := if prior.description == g.description && stored == members then Unchanged else Update;
  }

  method PlanGroups(s: State, gs: seq<GroupDoc>) returns (changes: seq<Change>, future: map<string, Group>)
    ensures changes == GroupPlan(s, gs) && future == FutureGroups(s, gs)
    ensures forall i: nat | i < |gs| ::
              changes[i].problem == if !GroupNamed(gs, i) then Some(BadName) else if !MembersExist(s, gs[i]) then Some(NoMember) else None
  {
    var seen: set<string> := {};
    changes, future := [], s.groups;
    for i := 0 to |gs|
      invariant seen == GroupNames(gs[..i]) && future == FutureGroups(s, gs[..i]) && changes == GroupPlan(s, gs[..i])
    {
      GroupPlanNext(s, gs, i);
      GroupNamesNext(s, gs, i);
      var change := PlanGroup(s, gs[i], seen);
      seen := seen + {gs[i].name};
      if change.action.Create? {
        future := future[gs[i].name := Group("(new)", "")];
      }
      changes := changes + [change];
    }
    ConfigConverge.WholeSlice(gs);
    forall i: nat | i < |gs| { GroupProblem(s, gs, i); }
  }

  method PlanTargets(s: State, ts: seq<TargetDoc>) returns (changes: seq<Change>, future: map<string, Target>)
    ensures changes == TargetPlan(s, ts) && future == FutureTargets(s, ts)
    ensures forall i: nat | i < |ts| ::
              changes[i].problem == if !TargetNamed(ts, i) then Some(BadName) else if !CredentialsExist(s, ts[i]) then Some(NoCredential) else None
  {
    var seen: set<string> := {};
    changes, future := [], s.targets;
    for i := 0 to |ts|
      invariant seen == TargetNames(ts[..i]) && future == FutureTargets(s, ts[..i]) && changes == TargetPlan(s, ts[..i])
    {
      TargetPlanNext(s, ts, i);
      TargetNamesNext(s, ts, i);
      var change := TargetChange(s, ts[i], seen);
      seen := seen + {ts[i].name};
      if change.action.Create? {
        future := future[ts[i].name := Target("(new)", map[], "", map[])];
      }
      changes := changes + [change];
    }
    ConfigConverge.WholeSlice(ts);
    forall i: nat | i < |ts| { TargetProblem(s, ts, i); }
  }

  method PlanPolicies(s: State, future: State, ps: seq<PolicyDoc>) returns (changes: seq<Change>)
    ensures changes == PolicyPlan(s, future, ps)
  {
    var seen: set<string> := {};
    changes := [];
    for i := 0 to |ps|
      invariant seen == PolicyNames(ps[..i]) && changes == PolicyPlan(s, future, ps[..i])
    {
      PolicyPlanNext(s, future, ps, i);
      PolicyNamesNext(ps, i);
      changes := changes + [PolicyChange(s, future, ps[i], seen)];
      seen := seen + {ps[i].name};
    }
    ConfigConverge.WholeSlice(ps);
  }

  /** What the file would change, and what stops it. */
  method MakePlan(s: State, d: Document) returns (plan: Plan)
    ensures plan == PlanOf(s, d)
    ensures NoProblems(plan) <==> FileStands(s, d)
  {
    var groups, futureGroups := PlanGroups(s, d.groups);
    var targets, futureTargets := PlanTargets(s, d.targets);
    var policies := PlanPolicies(s, s.(groups := futureGroups, targets := futureTargets), d.policies);
    plan := Plan(groups, targets, policies);
    PlanStands(s, d);
  }

  // ---- the import

  class Gateway {
    var state: State

    constructor (s: State)
      ensures state == s
    {
      state := s;
    }

    method ApplyGroups(s: State, gs: seq<GroupDoc>, plan: seq<Change>, ids: Ids)
      requires state == s && plan == GroupPlan(s, gs)
      modifies this
      ensures state == GroupsApplied(s, gs, ids)
    {
      for i := 0 to |gs|
        invariant state == GroupsApplied(s, gs[..i], ids)
      {
        LastApart(gs, i + 1);
        var g := gs[i];
        assert plan[i].action == GroupAction(s, g);
        match plan[i].action
        case Create => state := PutGroup(state, ids.group(g.name), g.name, g.description, Lookups(s.users, g.members));
        case Update => state := PutGroup(state, s.groups[g.name].id, g.name, g.description, Lookups(s.users, g.members));
        case Unchanged =>
      }
      ConfigConverge.WholeSlice(gs);
    }

    method ApplyTargets(s: State, ts: seq<TargetDoc>, plan: seq<Change>, ids: Ids)
      requires plan == TargetPlan(s, ts) && Quiet(plan)
      modifies this
      ensures state == TargetsApplied(s, old(state), ts, ids)
    {
      for i := 0 to |ts|
        invariant state == TargetsApplied(s, old(state), ts[..i], ids)
      {
        LastApart(ts, i + 1);
        var t := ts[i];
        ConfigConverge.TargetsFit(s, ts, i);
        assert plan[i].action == TargetAction(s, t);
        var body := WriteTarget(s, t).value;
        match plan[i].action
        case Create => state := PutTarget(state, ids.target(t.name), t.name, body);
        case Update => state := PutTarget(state, s.targets[t.name].id, t.name, body);
        case Unchanged =>
      }
      ConfigConverge.WholeSlice(ts);
    }

    /** `state` is the configuration read again; it stops at the first policy that names something missing. */
    method ApplyPolicies(s: State, ps: seq<PolicyDoc>, plan: seq<Change>, ids: Ids, ghost future: State)
      returns (ok: bool, ghost done: nat)
      requires plan == PolicyPlan(s, future, ps)
      modifies this
      ensures ok == PoliciesApplied(s, old(state), ps, ids).Ok?
      ensures done <= |ps| && (ok <==> done == |ps|) && PoliciesApplied(s, old(state), ps[..done], ids) == Ok(state)
      ensures !ok ==> PoliciesApplied(s, old(state), ps[..done + 1], ids).Err?
    {
      var now := state;
      done := 0;
      for i := 0 to |ps|
        invariant PoliciesApplied(s, now, ps[..i], ids) == Ok(state)
      {
        LastApart(ps, i + 1);
        var p := ps[i];
        assert plan[i].action == PolicyAction(s, p);
        if plan[i].action.Unchanged? {
          continue;
        }
        var body := WritePolicy(now, p, OldPolicy(now, p.name));
        if body.Err? {
          PoliciesStop(s, now, ps, ids, i + 1, |ps|);
          ConfigConverge.WholeSlice(ps);
          return false, i;
        }
        state := PutPolicy(state, if p.name in now.policies then now.policies[p.name].id else ids.policy(p.name), p.name, body.value, ids);
      }
      ConfigConverge.WholeSlice(ps);
      ok, done := true, |ps|;
    }

    /** Applies the planned changes through the API, in order. An import that
        stops has applied the groups, the targets and the policies before the
        first that does not resolve. */
    method RunImport(d: Document, plan: Plan, ids: Ids) returns (ok: bool, ghost done: nat)
      requires plan == PlanOf(state, d) && NoProblems(plan)
      modifies this
      ensures ok == Imported(old(state), d, ids).Ok?
      ensures ok ==> state == Imported(old(state), d, ids).value
      ensures done <= |d.policies| && (ok <==> done == |d.policies|)
      ensures Imported(old(state), d.(policies := d.policies[..done]), ids) == Ok(state)
      ensures !ok ==> Imported(old(state), d.(policies := d.policies[..done + 1]), ids).Err?
    {
      var s := state;
      ApplyGroups(s, d.groups, plan.groups, ids);
      ApplyTargets(s, d.targets, plan.targets, ids);
      ok, done := ApplyPolicies(s, d.policies, plan.policies, ids, Future(s, d));
      ConfigConverge.WholeSlice(d.policies);
    }
  }

  lemma {:induction false} PoliciesStop(s0: State, now: State, ps: seq<PolicyDoc>, ids: Ids, i: nat, n: nat)
    requires i <= n <= |ps| && PoliciesApplied(s0, now, ps[..i], ids).Err?
    ensures PoliciesApplied(s0, now, ps[..n], ids).Err?
    decreases n
  {
    if i < n {
      PoliciesStop(s0, now, ps, ids, i, n - 1);
      LastApart(ps, n);
    }
  }
}
