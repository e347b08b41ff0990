/** Applying a planned file through an API that stores what it is given. */
module ConfigApply {
  import opened Basics
  import opened Strings
  import opened ConfigIO
  import opened ConfigProofs

  /** The ids the API gives to what it creates, by name (grants by place too). */
  datatype Ids = Ids(group: string -> string, target: string -> string, policy: string -> string, grant: (string, nat) -> string)

  /** No id is given twice, nor one that is in use. */
  ghost predicate Supply(s: State, ids: Ids) {
    && (forall n :: ids.group(n) !in s.byID)
    && (forall n :: ids.target(n) !in s.byID)
    && (forall n, m :: ids.group(n) == ids.group(m) ==> n == m)
    && (forall n, m :: ids.target(n) == ids.target(m) ==> n == m)
    && (forall n, m :: ids.group(n) != ids.target(m))
  }

  // ---- the API

  function Dedup(xs: seq<string>): seq<string> {
    if xs == [] then []
    else
      var front := Dedup(xs[..|xs| - 1]);
      if xs[|xs| - 1] in front then front else front + [xs[|xs| - 1]]
  }

  function Lookups(m: map<string, string>, keys: seq<string>): seq<string> {
    seq(|keys|, i requires 0 <= i < |keys| => Lookup(m, keys[i]))
  }

  /** Stores a group with the people of those ids, who read back as a sorted list of names. */
  function PutGroup(s: State, id: string, name: string, description: string, people: seq<string>): State {
    s.(groups := s.groups[name := Group(id, description)],
       members := s.members[id := Sort(Dedup(Lookups(s.byID, people)))],
       byID := s.byID[id := name])
  }

  function PutTarget(s: State, id: string, name: string, body: Target): State {
    s.(targets := s.targets[name := body.(id := id)], byID := s.byID[id := name])
  }

  /** A grant without an id is given one. */
  function PutPolicy(s: State, id: string, name: string, body: Policy, ids: Ids): State {
    s.(policies := s.policies[name := body.(id := id,
         grants := seq(|body.grants|, i requires 0 <= i < |body.grants| =>
           if body.grants[i].id == "" then body.grants[i].(id := ids.grant(name, i)) else body.grants[i]))])
  }

  // ---- the import, one thing after another

  function GroupId(s0: State, name: string, ids: Ids): string { if name in s0.groups then s0.groups[name].id else ids.group(name) }

  function TargetId(s0: State, name: string, ids: Ids): string { if name in s0.targets then s0.targets[name].id else ids.target(name) }

  /** A group is created, or updated under the id it has; an unchanged one is left alone. */
  function GroupApplied(s0: State, s: State, g: GroupDoc, ids: Ids): State {
    if GroupAction(s0, g).Unchanged? then s
    else PutGroup(s, GroupId(s0, g.name, ids), g.name, g.description, Lookups(s0.users, g.members))
  }

  function GroupsApplied(s0: State, gs: seq<GroupDoc>, ids: Ids): State {
    if gs == [] then s0 else GroupApplied(s0, GroupsApplied(s0, gs[..|gs| - 1], ids), gs[|gs| - 1], ids)
  }

  function TargetApplied(s0: State, s: State, t: TargetDoc, ids: Ids): State {
    if WriteTarget(s0, t).Err? || TargetAction(s0, t).Unchanged? then s
    else PutTarget(s, TargetId(s0, t.name, ids), t.name, WriteTarget(s0, t).value)
  }

  function TargetsApplied(s0: State, s: State, ts: seq<TargetDoc>, ids: Ids): State {
    if ts == [] then s else TargetApplied(s0, TargetsApplied(s0, s, ts[..|ts| - 1], ids), ts[|ts| - 1], ids)
  }

  /** `now` is the configuration read again after the targets; what it cannot resolve stops the import. */
  function PolicyApplied(s0: State, now: State, s: State, p: PolicyDoc, ids: Ids): Result<State, Problem> {
    if PolicyAction(s0, p).Unchanged? then Ok(s)
    else
      match WritePolicy(now, p, OldPolicy(now, p.name))
      case Err(e) => Err(e)
      case Ok(body) =>
        Ok(PutPolicy(s, if p.name in now.policies then now.policies[p.name].id else ids.policy(p.name), p.name, body, ids))
  }

  function PoliciesApplied(s0: State, now: State, ps: seq<PolicyDoc>, ids: Ids): Result<State, Problem> {
    if ps == [] then Ok(now)
    else
      match PoliciesApplied(s0, now, ps[..|ps| - 1], ids)
      case Err(e) => Err(e)
      case Ok(s) => PolicyApplied(s0, now, s, ps[|ps| - 1], ids)
  }

  function Imported(s0: State, d: Document, ids: Ids): Result<State, Problem> {
    PoliciesApplied(s0, TargetsApplied(s0, GroupsApplied(s0, d.groups, ids), d.targets, ids), d.policies, ids)
  }

  // ---- groups

  ghost predicate NoDuplicates(xs: seq<string>) { forall i, j | 0 <= i < j < |xs| :: xs[i] != xs[j] }

  ghost predicate Extends(a: map<string, string>, b: map<string, string>) {
    forall id | id in a :: id in b && b[id] == a[id]
  }

  lemma {:induction false} DedupSame(xs: seq<string>)
    requires NoDuplicates(xs)
    ensures Dedup(xs) == xs
  {
    if xs != [] {
      var n := |xs| - 1;
      DedupSame(xs[..n]);
      assert xs == xs[..n] + [xs[n]];
    }
  }

  /** Users looked up by name and turned back into names. */
  lemma PeopleRead(s0: State, s: State, names: seq<string>)
    requires Linked(s0) && Extends(s0.byID, s.byID) && forall m | m in names :: m in s0.users
    ensures Lookups(s.byID, Lookups(s0.users, names)) == names
  {
    forall i | 0 <= i < |names| ensures Lookup(s.byID, Lookup(s0.users, names[i])) == names[i] {
      assert Named(s0, s0.users[names[i]], names[i]);
    }
  }

  ghost predicate GroupSet(s: State, g: GroupDoc) {
    && g.name in s.groups && s.groups[g.name].description == g.description
    && s.groups[g.name].id in s.members && s.members[s.groups[g.name].id] == Sort(g.members)
  }

  ghost predicate GroupsSet(s: State, gs: seq<GroupDoc>) { forall i | 0 <= i < |gs| :: GroupSet(s, gs[i]) }

  /** Only the groups with these names have changed, and all of them are there. */
  ghost predicate GroupsOnly(s0: State, s: State, names: set<string>) {
    && s == s0.(groups := s.groups, members := s.members, byID := s.byID)
    && s.groups.Keys == s0.groups.Keys + names
    && (forall n | n in s0.groups :: s.groups[n].id == s0.groups[n].id)
    && (forall n | n in s0.groups && n !in names :: s.groups[n] == s0.groups[n] && SameMembers(s0, s, s0.groups[n].id))
  }

  predicate SameMembers(s0: State, s: State, id: string) { id in s0.members ==> id in s.members && s.members[id] == s0.members[id] }

  /** The ids for what has not been created yet are not in use. */
  ghost predicate Spare(s: State, ids: Ids, groups: set<string>, targets: set<string>) {
    && (forall n | n !in groups :: ids.group(n) !in s.byID)
    && (forall n | n !in targets :: ids.target(n) !in s.byID)
  }

  /** The groups of the file so far are as the file has them, and nothing else has changed. */
  ghost predicate GroupsDone(s0: State, s: State, gs: seq<GroupDoc>, ids: Ids) {
    && Linked(s) && Extends(s0.byID, s.byID)
    && Spare(s, ids, GroupNames(gs), {})
    && GroupsOnly(s0, s, GroupNames(gs))
    && GroupsSet(s, gs)
  }

  lemma NamesGrow(gs: seq<GroupDoc>, g: GroupDoc)
    ensures GroupNames(gs + [g]) == GroupNames(gs) + {g.name}
  {
    assert g in gs + [g];
  }

  lemma PutGroupLinked(s: State, id: string, name: string, description: string, people: seq<string>)
    requires Linked(s) && (id in s.byID ==> s.byID[id] == name)
    ensures Linked(PutGroup(s, id, name, description, people))
    ensures Extends(s.byID, PutGroup(s, id, name, description, people).byID)
  {
  }

  lemma PutGroupKeeps(s: State, id: string, name: string, description: string, people: seq<string>, h: GroupDoc)
    requires Linked(s) && (id in s.byID ==> s.byID[id] == name) && GroupSet(s, h) && h.name != name
    ensures GroupSet(PutGroup(s, id, name, description, people), h)
  {
    assert Named(s, s.groups[h.name].id, h.name);
  }

  lemma PutGroupSets(s0: State, s: State, id: string, g: GroupDoc)
    requires Linked(s0) && Extends(s0.byID, s.byID) && NoDuplicates(g.members) && forall m | m in g.members :: m in s0.users
    ensures GroupSet(PutGroup(s, id, g.name, g.description, Lookups(s0.users, g.members)), g)
  {
    PeopleRead(s0, s, g.members);
    DedupSame(g.members);
  }

  lemma PutGroupSpare(s0: State, s: State, id: string, name: string, ids: Ids, names: set<string>)
    requires Supply(s0, ids) && Spare(s, ids, names, {})
    requires id in s0.byID || id == ids.group(name)
    ensures forall t: State :: t.byID == s.byID[id := name] ==> Spare(t, ids, names + {name}, {})
  {
  }

  lemma PutGroupOnly(s0: State, s: State, id: string, name: string, description: string, people: seq<string>, names: set<string>)
    requires Linked(s) && (id in s.byID ==> s.byID[id] == name) && GroupsOnly(s0, s, names)
    requires name in s0.groups ==> id == s0.groups[name].id
    ensures GroupsOnly(s0, PutGroup(s, id, name, description, people), names + {name})
  {
    var next := PutGroup(s, id, name, description, people);
    forall n | n in s0.groups && n !in names + {name}
      ensures next.groups[n] == s0.groups[n] && SameMembers(s0, next, s0.groups[n].id)
    {
      assert SameMembers(s0, s, s0.groups[n].id) && Named(s, s.groups[n].id, n);
    }
  }

  lemma PutGroupsSet(s: State, id: string, gs: seq<GroupDoc>, g: GroupDoc, people: seq<string>)
    requires Linked(s) && (id in s.byID ==> s.byID[id] == g.name) && GroupsSet(s, gs) && g.name !in GroupNames(gs)
    requires GroupSet(PutGroup(s, id, g.name, g.description, people), g)
    ensures GroupsSet(PutGroup(s, id, g.name, g.description, people), gs + [g])
  {
    var next := PutGroup(s, id, g.name, g.description, people);
    forall i | 0 <= i < |gs| ensures GroupSet(next, gs[i]) {
      assert gs[i] in gs;
      PutGroupKeeps(s, id, g.name, g.description, people, gs[i]);
    }
  }

  lemma PutGroupDone(s0: State, s: State, gs: seq<GroupDoc>, g: GroupDoc, ids: Ids, id: string)
    requires Linked(s0) && Supply(s0, ids) && GroupsDone(s0, s, gs, ids) && g.name !in GroupNames(gs)
    requires if g.name in s0.groups then id == s0.groups[g.name].id else id == ids.group(g.name)
    requires NoDuplicates(g.members) && forall m | m in g.members :: m in s0.users
    ensures GroupsDone(s0, PutGroup(s, id, g.name, g.description, Lookups(s0.users, g.members)), gs + [g], ids)
  {
    var people := Lookups(s0.users, g.members);
    assert id in s.byID ==> s.byID[id] == g.name by {
      if g.name in s0.groups { assert Named(s0, id, g.name); }
    }
    PutGroupLinked(s, id, g.name, g.description, people);
    PutGroupSpare(s0, s, id, g.name, ids, GroupNames(gs));
    PutGroupOnly(s0, s, id, g.name, g.description, people, GroupNames(gs));
    PutGroupSets(s0, s, id, g);
    PutGroupsSet(s, id, gs, g, people);
    NamesGrow(gs, g);
  }

  lemma SameGroupDone(s0: State, s: State, gs: seq<GroupDoc>, g: GroupDoc, ids: Ids)
    requires Whole(s0) && GroupsDone(s0, s, gs, ids) && g.name !in GroupNames(gs) && GroupAction(s0, g).Unchanged?
    ensures GroupsDone(s0, s, gs + [g], ids)
  {
    NamesGrow(gs, g);
    SameGroupSet(s0, s, GroupNames(gs), g);
    GroupsOnlyMore(s0, s, GroupNames(gs), g.name);
    GroupsSetMore(s, gs, g);
  }

  lemma GroupsSetMore(s: State, gs: seq<GroupDoc>, g: GroupDoc)
    requires GroupsSet(s, gs) && GroupSet(s, g)
    ensures GroupsSet(s, gs + [g])
  {
  }

  lemma SameGroupSet(s0: State, s: State, names: set<string>, g: GroupDoc)
    requires GroupsOnly(s0, s, names) && g.name !in names && GroupAction(s0, g).Unchanged? && GroupOk(s0, g.name)
    ensures GroupSet(s, g)
  {
    assert SameMembers(s0, s, s0.groups[g.name].id);
  }

  lemma GroupsOnlyMore(s0: State, s: State, names: set<string>, name: string)
    requires GroupsOnly(s0, s, names) && name in s0.groups
    ensures GroupsOnly(s0, s, names + {name})
  {
  }

  /** What a plan without problems says of a group, and that no member is listed twice. */
  ghost predicate GroupFits(s0: State, gs: seq<GroupDoc>, i: nat)
    requires i < |gs|
  {
    && gs[i].name !in GroupNames(gs[..i]) && !Blank(gs[i].name)
    && (forall m | m in gs[i].members :: m in s0.users) && NoDuplicates(gs[i].members)
  }

  lemma LastApart<T>(xs: seq<T>, n: nat)
    requires 0 < n <= |xs|
    ensures xs[..n][..n - 1] == xs[..n - 1] && xs[..n] == xs[..n - 1] + [xs[n - 1]]
    ensures |xs[..n]| == n && xs[..n][n - 1] == xs[n - 1]
  {
  }

  lemma {:induction false} AllGroups(s0: State, gs: seq<GroupDoc>, ids: Ids, n: nat)
    requires Whole(s0) && Supply(s0, ids) && n <= |gs| && forall i: nat | i < n :: GroupFits(s0, gs, i)
    ensures GroupsDone(s0, GroupsApplied(s0, gs[..n], ids), gs[..n], ids)
  {
    if n > 0 {
      AllGroups(s0, gs, ids, n - 1);
      var front := gs[..n - 1];
      LastApart(gs, n);
      assert GroupFits(s0, gs, n - 1);
      OneGroup(s0, GroupsApplied(s0, front, ids), front, gs[n - 1], ids);
    }
  }

  lemma OneGroup(s0: State, s: State, gs: seq<GroupDoc>, g: GroupDoc, ids: Ids)
    requires Whole(s0) && Supply(s0, ids) && GroupsDone(s0, s, gs, ids) && g.name !in GroupNames(gs)
    requires NoDuplicates(g.members) && forall m | m in g.members :: m in s0.users
    ensures GroupsDone(s0, GroupApplied(s0, s, g, ids), gs + [g], ids)
  {
    if GroupAction(s0, g).Unchanged? {
      SameGroupDone(s0, s, gs, g, ids);
    } else {
      PutGroupDone(s0, s, gs, g, ids, GroupId(s0, g.name, ids));
    }
  }

  // ---- targets

  /** The target is as the file has it, its credentials turned back into names. */
  ghost predicate TargetSet(s: State, t: TargetDoc) {
    && t.name in s.targets && ShowTarget(s, t.name, s.targets[t.name]) == WithDefaults(t)
    && forall proto | proto in s.targets[t.name].credentials :: CredentialOk(s, s.targets[t.name].credentials[proto])
  }

  ghost predicate TargetsSet(s: State, ts: seq<TargetDoc>) { forall i | 0 <= i < |ts| :: TargetSet(s, ts[i]) }

  ghost predicate TargetsOnly(s1: State, s: State, names: set<string>) {
    && s == s1.(targets := s.targets, byID := s.byID)
    && s.targets.Keys == s1.targets.Keys + names
    && (forall n | n in s1.targets :: s.targets[n].id == s1.targets[n].id)
    && (forall n | n in s1.targets && n !in names :: s.targets[n] == s1.targets[n])
  }

  ghost predicate TargetsDone(s1: State, s: State, ts: seq<TargetDoc>, ids: Ids) {
    && Linked(s) && Extends(s1.byID, s.byID)
    && (forall n | n !in TargetNames(ts) :: ids.target(n) !in s.byID)
    && TargetsOnly(s1, s, TargetNames(ts))
    && TargetsSet(s, ts)
  }

  lemma TargetNamesGrow(ts: seq<TargetDoc>, t: TargetDoc)
    ensures TargetNames(ts + [t]) == TargetNames(ts) + {t.name}
  {
    assert t in ts + [t];
  }

  /** What a target shows does not change when new ids get names. */
  lemma ShowTargetSame(s: State, r: State, name: string, t: Target)
    requires Extends(s.byID, r.byID) && forall proto | proto in t.credentials :: t.credentials[proto] in s.byID
    ensures ShowTarget(r, name, t) == ShowTarget(s, name, t)
  {
  }

  lemma PutTargetLinked(s: State, id: string, name: string, body: Target)
    requires Linked(s) && (id in s.byID ==> s.byID[id] == name)
    ensures Linked(PutTarget(s, id, name, body)) && Extends(s.byID, PutTarget(s, id, name, body).byID)
  {
  }

  lemma PutTargetsSet(s: State, id: string, ts: seq<TargetDoc>, t: TargetDoc, body: Target)
    requires Linked(s) && (id in s.byID ==> s.byID[id] == t.name) && TargetsSet(s, ts) && t.name !in TargetNames(ts)
    requires TargetSet(PutTarget(s, id, t.name, body), t)
    ensures TargetsSet(PutTarget(s, id, t.name, body), ts + [t])
  {
    var next := PutTarget(s, id, t.name, body);
    forall i | 0 <= i < |ts| ensures TargetSet(next, ts[i]) {
      assert ts[i] in ts && TargetSet(s, ts[i]);
      var creds := s.targets[ts[i].name].credentials;
      forall proto | proto in creds ensures CredentialOk(next, creds[proto]) { assert CredentialOk(s, creds[proto]); }
      ShowTargetSame(s, next, ts[i].name, s.targets[ts[i].name]);
    }
  }

  lemma PutTargetSets(s0: State, s: State, id: string, t: TargetDoc)
    requires Linked(s) && s.credentials == s0.credentials && WriteTarget(s0, t).Ok? && (id in s.byID ==> s.byID[id] == t.name)
    ensures TargetSet(PutTarget(s, id, t.name, WriteTarget(s0, t).value), t)
  {
    var body := WriteTarget(s0, t).value;
    var next := PutTarget(s, id, t.name, body);
    PutTargetLinked(s, id, t.name, body);
    TargetReadsBack(next, t, id);
    forall proto | proto in body.credentials ensures CredentialOk(next, body.credentials[proto]) {
      assert Named(next, next.credentials[t.credentials[proto]], t.credentials[proto]);
    }
  }

  lemma PutTargetOnly(s1: State, s: State, id: string, name: string, body: Target, names: set<string>)
    requires TargetsOnly(s1, s, names) && (name in s1.targets ==> id == s1.targets[name].id)
    ensures TargetsOnly(s1, PutTarget(s, id, name, body), names + {name})
  {
  }

  lemma TargetsOnlyMore(s1: State, s: State, names: set<string>, name: string)
    requires TargetsOnly(s1, s, names) && name in s1.targets
    ensures TargetsOnly(s1, s, names + {name})
  {
  }

  lemma TargetsSetMore(s: State, ts: seq<TargetDoc>, t: TargetDoc)
    requires TargetsSet(s, ts) && TargetSet(s, t)
    ensures TargetsSet(s, ts + [t])
  {
  }

  /** What the import has done before its targets. */
  ghost predicate BeforeTargets(s0: State, s1: State) {
    s1.credentials == s0.credentials && s1.targets == s0.targets && Extends(s0.byID, s1.byID)
  }

  lemma PutTargetDone(s0: State, s1: State, s: State, ts: seq<TargetDoc>, t: TargetDoc, ids: Ids, id: string)
    requires BeforeTargets(s0, s1) && Linked(s1) && (forall n, m :: ids.target(n) == ids.target(m) ==> n == m)
    requires TargetsDone(s1, s, ts, ids) && t.name !in TargetNames(ts) && WriteTarget(s0, t).Ok?
    requires if t.name in s1.targets then id == s1.targets[t.name].id else id == ids.target(t.name)
    ensures TargetsDone(s1, PutTarget(s, id, t.name, WriteTarget(s0, t).value), ts + [t], ids)
  {
    var body := WriteTarget(s0, t).value;
    assert id in s.byID ==> s.byID[id] == t.name by {
      if t.name in s1.targets { assert Named(s1, id, t.name); }
    }
    PutTargetLinked(s, id, t.name, body);
    PutTargetOnly(s1, s, id, t.name, body, TargetNames(ts));
    PutTargetSets(s0, s, id, t);
    PutTargetsSet(s, id, ts, t, body);
    TargetNamesGrow(ts, t);
  }

  lemma SameTargetDone(s0: State, s1: State, s: State, ts: seq<TargetDoc>, t: TargetDoc, ids: Ids)
    requires BeforeTargets(s0, s1) && t.name in s0.targets && TargetOk(s0, t.name)
    requires TargetsDone(s1, s, ts, ids) && t.name !in TargetNames(ts) && TargetAction(s0, t).Unchanged?
    ensures TargetsDone(s1, s, ts + [t], ids)
  {
    var row := s0.targets[t.name];
    forall proto | proto in row.credentials ensures CredentialOk(s, row.credentials[proto]) {
      assert CredentialOk(s0, row.credentials[proto]);
    }
    ShowTargetSame(s0, s, t.name, row);
    TargetNamesGrow(ts, t);
    TargetsOnlyMore(s1, s, TargetNames(ts), t.name);
    TargetsSetMore(s, ts, t);
  }

  lemma OneTarget(s0: State, s1: State, s: State, ts: seq<TargetDoc>, t: TargetDoc, ids: Ids)
    requires BeforeTargets(s0, s1) && Linked(s1) && (forall n, m :: ids.target(n) == ids.target(m) ==> n == m)
    requires t.name in s0.targets ==> TargetOk(s0, t.name)
    requires TargetsDone(s1, s, ts, ids) && t.name !in TargetNames(ts) && WriteTarget(s0, t).Ok?
    ensures TargetsDone(s1, TargetApplied(s0, s, t, ids), ts + [t], ids)
  {
    if TargetAction(s0, t).Unchanged? {
      SameTargetDone(s0, s1, s, ts, t, ids);
    } else {
      PutTargetDone(s0, s1, s, ts, t, ids, TargetId(s0, t.name, ids));
    }
  }

  ghost predicate TargetFits(s0: State, ts: seq<TargetDoc>, i: nat)
    requires i < |ts|
  {
    ts[i].name !in TargetNames(ts[..i]) && !Blank(ts[i].name) && WriteTarget(s0, ts[i]).Ok?
  }

  lemma {:induction false} AllTargets(s0: State, s1: State, ts: seq<TargetDoc>, ids: Ids, n: nat)
    requires Whole(s0) && Supply(s0, ids) && BeforeTargets(s0, s1) && Linked(s1) && (forall m :: ids.target(m) !in s1.byID)
    requires n <= |ts| && forall i: nat | i < n :: TargetFits(s0, ts, i)
    ensures TargetsDone(s1, TargetsApplied(s0, s1, ts[..n], ids), ts[..n], ids)
  {
    if n > 0 {
      AllTargets(s0, s1, ts, ids, n - 1);
      var front := ts[..n - 1];
      LastApart(ts, n);
      assert TargetFits(s0, ts, n - 1);
      OneTarget(s0, s1, TargetsApplied(s0, s1, front, ids), front, ts[n - 1], ids);
    }
  }
}
