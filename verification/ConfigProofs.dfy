/** Names to ids and back, and why a gateway's own export changes nothing. */
module ConfigProofs {
  import opened Basics
  import opened Strings
  import opened ConfigIO

  // ---- a gateway whose references hold

  predicate Named(s: State, id: string, name: string) { id in s.byID && s.byID[id] == name }

  /** Every thing with a name is the one its id is turned back into. */
  ghost predicate Linked(s: State) {
    && (forall n | n in s.users :: Named(s, s.users[n], n))
    && (forall n | n in s.credentials :: Named(s, s.credentials[n], n))
    && (forall n | n in s.asgs :: Named(s, s.asgs[n], n))
    && (forall n | n in s.groups :: Named(s, s.groups[n].id, n))
    && (forall n | n in s.targets :: Named(s, s.targets[n].id, n))
  }

  predicate GroupOk(s: State, n: string)
    requires n in s.groups
  {
    var id := s.groups[n].id;
    !Blank(n) && n != "" && id in s.members && Ordered(s.members[id]) && forall m | m in s.members[id] :: m in s.users
  }

  predicate CredentialOk(s: State, id: string) {
    id in s.byID && s.byID[id] in s.credentials && s.credentials[s.byID[id]] == id
  }

  predicate TargetOk(s: State, n: string)
    requires n in s.targets
  {
    var t := s.targets[n];
    !Blank(n) && t.status != "" && forall proto | proto in t.credentials :: CredentialOk(s, t.credentials[proto])
  }

  predicate SubjectOk(s: State, sub: Subject) {
    && sub.id in s.byID && s.byID[sub.id] != ""
    && var n := s.byID[sub.id];
       || (sub.kind == "group" && n in s.groups && s.groups[n].id == sub.id)
       || (sub.kind == "user" && n in s.users && s.users[n] == sub.id)
  }

  predicate GrantTargetOk(s: State, kind: string, t: GrantTarget) {
    && t.id in s.byID
    && var n := s.byID[t.id];
       if kind == "autoscaling" then n in s.asgs && s.asgs[n] == t.id else n in s.targets && s.targets[n].id == t.id
  }

  predicate GrantOk(s: State, g: Grant) { forall i | 0 <= i < |g.targets| :: GrantTargetOk(s, g.kind, g.targets[i]) }

  predicate PolicyOk(s: State, p: Policy) {
    && (forall i | 0 <= i < |p.subjects| :: SubjectOk(s, p.subjects[i]))
    && (forall i | 0 <= i < |p.grants| :: GrantOk(s, p.grants[i]))
  }

  /** What the gateway keeps: names are not blank, and every reference is to something that is there. */
  ghost predicate Whole(s: State) {
    && Linked(s)
    && (forall n | n in s.groups :: GroupOk(s, n))
    && (forall n | n in s.targets :: TargetOk(s, n))
    && (forall n | n in s.policies :: !Blank(n) && PolicyOk(s, s.policies[n]))
  }

  // ---- names to ids to names

  lemma {:induction false} SubjectsRead(s: State, subs: seq<SubjectDoc>)
    requires Linked(s) && WriteSubjects(s, subs).Ok?
    ensures var r := WriteSubjects(s, subs).value;
            |r| == |subs| && forall i | 0 <= i < |subs| :: ShowSubject(s, r[i]) == subs[i]
  {
    if subs != [] {
      var n := |subs| - 1;
      SubjectsRead(s, subs[..n]);
      var front := WriteSubjects(s, subs[..n]).value;
      var r := WriteSubjects(s, subs).value;
      assert r == front + [WriteSubject(s, subs[n]).value];
      forall i | 0 <= i < |subs| ensures ShowSubject(s, r[i]) == subs[i] {
        if i < n { assert subs[..n][i] == subs[i]; }
      }
    }
  }

  lemma {:induction false} GrantTargetsRead(s: State, kind: string, ts: seq<GrantTargetDoc>)
    requires Linked(s) && WriteGrantTargets(s, kind, ts).Ok?
    ensures var r := WriteGrantTargets(s, kind, ts).value;
            |r| == |ts| && forall i | 0 <= i < |ts| :: ShowGrantTarget(s, r[i]) == ts[i]
  {
    if ts != [] {
      var n := |ts| - 1;
      GrantTargetsRead(s, kind, ts[..n]);
      var front := WriteGrantTargets(s, kind, ts[..n]).value;
      var r := WriteGrantTargets(s, kind, ts).value;
      assert r == front + [WriteGrantTarget(s, kind, ts[n]).value];
      forall i | 0 <= i < |ts| ensures ShowGrantTarget(s, r[i]) == ts[i] {
        if i < n { assert ts[..n][i] == ts[i]; }
      }
    }
  }

  lemma GrantRead(s: State, g: GrantDoc, id: string)
    requires Linked(s) && WriteGrant(s, g, id).Ok?
    ensures ShowGrant(s, WriteGrant(s, g, id).value) == g
    ensures WriteGrant(s, g, id).value.id == id && WriteGrant(s, g, id).value.kind == g.kind
  {
    GrantTargetsRead(s, g.kind, g.targets);
  }

  lemma {:induction false} GrantsRead(s: State, gs: seq<GrantDoc>, prior: Option<Policy>)
    requires Linked(s) && WriteGrants(s, gs, prior).Ok?
    ensures var r := WriteGrants(s, gs, prior).value;
            && |r| == |gs|
            && (forall i | 0 <= i < |gs| :: ShowGrant(s, r[i]) == gs[i])
            && (forall i | 0 <= i < |gs| :: r[i].id == KeptId(prior, i, gs[i].kind))
  {
    if gs != [] {
      var n := |gs| - 1;
      GrantsRead(s, gs[..n], prior);
      var front := WriteGrants(s, gs[..n], prior).value;
      GrantRead(s, gs[n], KeptId(prior, n, gs[n].kind));
      var r := WriteGrants(s, gs, prior).value;
      assert r == front + [WriteGrant(s, gs[n], KeptId(prior, n, gs[n].kind)).value];
      forall i | 0 <= i < |gs| ensures ShowGrant(s, r[i]) == gs[i] && r[i].id == KeptId(prior, i, gs[i].kind) {
        if i < n { assert gs[..n][i] == gs[i]; }
      }
    }
  }

  /** A policy written to the gateway reads back as the file has it, and its
      grants keep the ids of the grants they take the place of. */
  lemma PolicyReadsBack(s: State, p: PolicyDoc, prior: Option<Policy>)
    requires Linked(s) && WritePolicy(s, p, prior).Ok?
    ensures var body := WritePolicy(s, p, prior).value;
            && ShowPolicy(s, p.name, body) == p
            && |body.grants| == |p.grants|
            && forall i | 0 <= i < |p.grants| :: body.grants[i].id == KeptId(prior, i, p.grants[i].kind)
  {
    SubjectsRead(s, p.subjects);
    GrantsRead(s, p.grants, prior);
  }

  lemma {:induction false} SubjectsWritten(s: State, subs: seq<SubjectDoc>)
    requires Linked(s) && WriteSubjects(s, subs).Ok?
    ensures forall sub | sub in WriteSubjects(s, subs).value :: SubjectOk(s, sub)
  {
    if subs != [] { SubjectsWritten(s, subs[..|subs| - 1]); }
  }

  lemma {:induction false} GrantTargetsWritten(s: State, kind: string, ts: seq<GrantTargetDoc>)
    requires Linked(s) && WriteGrantTargets(s, kind, ts).Ok?
    ensures forall t | t in WriteGrantTargets(s, kind, ts).value :: GrantTargetOk(s, kind, t)
  {
    if ts != [] { GrantTargetsWritten(s, kind, ts[..|ts| - 1]); }
  }

  lemma {:induction false} GrantsWritten(s: State, gs: seq<GrantDoc>, prior: Option<Policy>)
    requires Linked(s) && WriteGrants(s, gs, prior).Ok?
    ensures forall g | g in WriteGrants(s, gs, prior).value :: GrantOk(s, g)
  {
    if gs != [] {
      var n := |gs| - 1;
      GrantsWritten(s, gs[..n], prior);
      GrantTargetsWritten(s, gs[n].kind, gs[n].targets);
    }
  }

  /** A policy written to the gateway refers only to what is there. */
  lemma PolicyWritten(s: State, p: PolicyDoc, prior: Option<Policy>)
    requires Linked(s) && WritePolicy(s, p, prior).Ok?
    ensures PolicyOk(s, WritePolicy(s, p, prior).value)
  {
    SubjectsWritten(s, p.subjects);
    GrantsWritten(s, p.grants, prior);
  }

  lemma TargetReadsBack(s: State, t: TargetDoc, id: string)
    requires Linked(s) && WriteTarget(s, t).Ok?
    ensures ShowTarget(s, t.name, WriteTarget(s, t).value.(id := id)) == WithDefaults(t)
  {
    var creds := WriteTarget(s, t).value.credentials;
    forall proto | proto in t.credentials ensures Lookup(s.byID, creds[proto]) == t.credentials[proto] {
      assert Named(s, s.credentials[t.credentials[proto]], t.credentials[proto]);
    }
    assert (map proto | proto in creds :: Lookup(s.byID, creds[proto])) == t.credentials;
  }

  // ---- ids to names to ids

  lemma {:induction false} SubjectsBack(s: State, subs: seq<Subject>, docs: seq<SubjectDoc>)
    requires |docs| == |subs|
    requires forall i | 0 <= i < |subs| :: SubjectOk(s, subs[i]) && docs[i] == ShowSubject(s, subs[i])
    ensures WriteSubjects(s, docs) == Ok(subs)
  {
    if subs != [] {
      var n := |subs| - 1;
      SubjectsBack(s, subs[..n], docs[..n]);
      assert subs == subs[..n] + [subs[n]];
    }
  }

  lemma {:induction false} GrantTargetsBack(s: State, kind: string, ts: seq<GrantTarget>, docs: seq<GrantTargetDoc>)
    requires |docs| == |ts|
    requires forall i | 0 <= i < |ts| :: GrantTargetOk(s, kind, ts[i]) && docs[i] == ShowGrantTarget(s, ts[i])
    ensures WriteGrantTargets(s, kind, docs) == Ok(ts)
  {
    if ts != [] {
      var n := |ts| - 1;
      GrantTargetsBack(s, kind, ts[..n], docs[..n]);
      assert ts == ts[..n] + [ts[n]];
    }
  }

  lemma {:induction false} GrantsBack(s: State, gs: seq<Grant>, docs: seq<GrantDoc>, prior: Policy)
    requires |docs| == |gs| <= |prior.grants|
    requires forall i | 0 <= i < |gs| :: GrantOk(s, gs[i]) && docs[i] == ShowGrant(s, gs[i]) && prior.grants[i] == gs[i]
    ensures WriteGrants(s, docs, Some(prior)) == Ok(gs)
  {
    if gs != [] {
      var n := |gs| - 1;
      GrantsBack(s, gs[..n], docs[..n], prior);
      GrantTargetsBack(s, gs[n].kind, gs[n].targets, docs[n].targets);
      assert gs == gs[..n] + [gs[n]];
    }
  }

  /** A policy of the gateway, shown by name and written back over itself, is itself, grant ids and all. */
  lemma PolicyWritesBack(s: State, name: string, p: Policy)
    requires PolicyOk(s, p)
    ensures WritePolicy(s, ShowPolicy(s, name, p), Some(p)) == Ok(p.(id := ""))
  {
    var doc := ShowPolicy(s, name, p);
    SubjectsBack(s, p.subjects, doc.subjects);
    GrantsBack(s, p.grants, doc.grants, p);
  }

  // ---- resolving depends on names alone

  ghost predicate SameNames(s: State, r: State) {
    s.users.Keys == r.users.Keys && s.asgs.Keys == r.asgs.Keys && s.groups.Keys == r.groups.Keys && s.targets.Keys == r.targets.Keys
  }

  lemma {:induction false} SameSubjects(s: State, r: State, subs: seq<SubjectDoc>)
    requires SameNames(s, r)
    ensures ProblemOf(WriteSubjects(s, subs)) == ProblemOf(WriteSubjects(r, subs))
  {
    if subs != [] { SameSubjects(s, r, subs[..|subs| - 1]); }
  }

  lemma {:induction false} SameGrantTargets(s: State, r: State, kind: string, ts: seq<GrantTargetDoc>)
    requires SameNames(s, r)
    ensures ProblemOf(WriteGrantTargets(s, kind, ts)) == ProblemOf(WriteGrantTargets(r, kind, ts))
  {
    if ts != [] { SameGrantTargets(s, r, kind, ts[..|ts| - 1]); }
  }

  lemma {:induction false} SameGrants(s: State, r: State, gs: seq<GrantDoc>, a: Option<Policy>, b: Option<Policy>)
    requires SameNames(s, r)
    ensures ProblemOf(WriteGrants(s, gs, a)) == ProblemOf(WriteGrants(r, gs, b))
  {
    if gs != [] {
      var n := |gs| - 1;
      SameGrants(s, r, gs[..n], a, b);
      SameGrantTargets(s, r, gs[n].kind, gs[n].targets);
    }
  }

  /** What stops a policy depends on the names there are, not on their ids nor on the policy it replaces. */
  lemma SamePolicy(s: State, r: State, p: PolicyDoc, a: Option<Policy>, b: Option<Policy>)
    requires SameNames(s, r)
    ensures ProblemOf(WritePolicy(s, p, a)) == ProblemOf(WritePolicy(r, p, b))
  {
    SameSubjects(s, r, p.subjects);
    SameGrants(s, r, p.grants, a, b);
  }

  // ---- a gateway's own export

  /** The file the gateway exports: everything it has, each list by name. */
  ghost predicate IsExport(s: State, d: Document, gs: seq<string>, ts: seq<string>, ps: seq<string>) {
    && SortedKeys(gs, s.groups.Keys) && SortedKeys(ts, s.targets.Keys) && SortedKeys(ps, s.policies.Keys)
    && |d.groups| == |gs| && |d.targets| == |ts| && |d.policies| == |ps|
    && (forall i | 0 <= i < |gs| ::
          gs[i] in s.groups &&
          d.groups[i] == GroupDoc(gs[i], s.groups[gs[i]].description,
                                  if s.groups[gs[i]].id in s.members then s.members[s.groups[gs[i]].id] else []))
    && (forall i | 0 <= i < |ts| :: ts[i] in s.targets && d.targets[i] == ShowTarget(s, ts[i], s.targets[ts[i]]))
    && (forall i | 0 <= i < |ps| :: ps[i] in s.policies && d.policies[i] == ShowPolicy(s, ps[i], s.policies[ps[i]]))
  }

  lemma SortedOnce(keys: seq<string>, names: set<string>, i: nat, j: nat)
    requires SortedKeys(keys, names) && i < j < |keys|
    ensures keys[i] != keys[j]
  {
    assert keys == keys[..i] + [keys[i]] + keys[i + 1..j] + [keys[j]] + keys[j + 1..];
    assert multiset(keys)[keys[i]] == multiset(names)[keys[i]] <= 1;
  }

  lemma OwnGroups(s: State, gs: seq<string>, docs: seq<GroupDoc>)
    requires Whole(s) && SortedKeys(gs, s.groups.Keys) && |docs| == |gs|
    requires forall i | 0 <= i < |gs| ::
               gs[i] in s.groups &&
               docs[i] == GroupDoc(gs[i], s.groups[gs[i]].description,
                                   if s.groups[gs[i]].id in s.members then s.members[s.groups[gs[i]].id] else [])
    ensures Same(GroupPlan(s, docs))
  {
    forall i | 0 <= i < |docs| ensures GroupChange(s, docs[i], GroupNames(docs[..i])) == Change(gs[i], Unchanged, None) {
      assert GroupOk(s, gs[i]);
      SortFixed(docs[i].members);
      forall j: nat | j < i ensures docs[..i][j].name != gs[i] { SortedOnce(gs, s.groups.Keys, j, i); }
    }
  }

  lemma OwnTargets(s: State, ts: seq<string>, docs: seq<TargetDoc>)
    requires Whole(s) && SortedKeys(ts, s.targets.Keys) && |docs| == |ts|
    requires forall i | 0 <= i < |ts| :: ts[i] in s.targets && docs[i] == ShowTarget(s, ts[i], s.targets[ts[i]])
    ensures Same(TargetPlan(s, docs))
  {
    forall i | 0 <= i < |docs| ensures TargetChange(s, docs[i], TargetNames(docs[..i])) == Change(ts[i], Unchanged, None) {
      assert TargetOk(s, ts[i]);
      forall j: nat | j < i ensures docs[..i][j].name != ts[i] { SortedOnce(ts, s.targets.Keys, j, i); }
    }
  }

  lemma OwnPolicy(s: State, future: State, name: string, doc: PolicyDoc)
    requires SameNames(s, future) && name in s.policies && PolicyOk(s, s.policies[name]) && doc == ShowPolicy(s, name, s.policies[name])
    ensures PolicyAction(s, doc) == Unchanged && WritePolicy(future, doc, OldPolicy(s, name)).Ok?
  {
    var row := s.policies[name];
    PolicyWritesBack(s, name, row);
    SamePolicy(s, future, doc, Some(row), OldPolicy(s, name));
  }

  lemma OwnPolicies(s: State, future: State, ps: seq<string>, docs: seq<PolicyDoc>)
    requires Whole(s) && SameNames(s, future) && SortedKeys(ps, s.policies.Keys) && |docs| == |ps|
    requires forall i | 0 <= i < |ps| :: ps[i] in s.policies && docs[i] == ShowPolicy(s, ps[i], s.policies[ps[i]])
    ensures Same(PolicyPlan(s, future, docs))
  {
    forall i | 0 <= i < |docs| ensures PolicyChange(s, future, docs[i], PolicyNames(docs[..i])) == Change(ps[i], Unchanged, None) {
      OwnPolicy(s, future, ps[i], docs[i]);
      forall j: nat | j < i ensures docs[..i][j].name != ps[i] { SortedOnce(ps, s.policies.Keys, j, i); }
    }
  }

  lemma FutureNames(s: State, d: Document)
    ensures Future(s, d).groups.Keys == s.groups.Keys + GroupNames(d.groups)
    ensures Future(s, d).targets.Keys == s.targets.Keys + TargetNames(d.targets)
  {
  }

  lemma ExportNames(s: State, d: Document, gs: seq<string>, ts: seq<string>)
    requires |d.groups| == |gs| && |d.targets| == |ts|
    requires forall i | 0 <= i < |gs| :: gs[i] in s.groups && d.groups[i].name == gs[i]
    requires forall i | 0 <= i < |ts| :: ts[i] in s.targets && d.targets[i].name == ts[i]
    ensures SameNames(s, Future(s, d))
  {
    FutureNames(s, d);
    assert GroupNames(d.groups) <= s.groups.Keys;
    assert TargetNames(d.targets) <= s.targets.Keys;
  }

  /** Planning a gateway's own export changes nothing and meets no problem. */
  lemma OwnExportUnchanged(s: State, d: Document, gs: seq<string>, ts: seq<string>, ps: seq<string>)
    requires Whole(s) && IsExport(s, d, gs, ts, ps)
    ensures AllUnchanged(PlanOf(s, d))
  {
    OwnGroups(s, gs, d.groups);
    OwnTargets(s, ts, d.targets);
    ExportNames(s, d, gs, ts);
    OwnPolicies(s, Future(s, d), ps, d.policies);
  }
}
