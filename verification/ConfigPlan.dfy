/** What a plan says, in the words of the file: when nothing stops it, what
    stops it otherwise, and which things it would create, update or leave. */
module ConfigPlan {
  import opened Basics
  import opened Strings
  import opened ConfigIO
  import opened ConfigProofs

  // ---- when nothing stops a file

  /** The name has something in it. */
  predicate HasText(name: string) { exists i | 0 <= i < |name| :: !IsSpace(name[i]) }

  lemma BlankName(name: string)
    ensures Blank(name) <==> !HasText(name)
  {
    BlankIs(name);
  }

  ghost predicate GroupNamed(gs: seq<GroupDoc>, i: nat)
    requires i < |gs|
  {
    HasText(gs[i].name) && forall j: nat | j < i :: gs[j].name != gs[i].name
  }

  ghost predicate TargetNamed(ts: seq<TargetDoc>, i: nat)
    requires i < |ts|
  {
    HasText(ts[i].name) && forall j: nat | j < i :: ts[j].name != ts[i].name
  }

  ghost predicate PolicyNamed(ps: seq<PolicyDoc>, i: nat)
    requires i < |ps|
  {
    HasText(ps[i].name) && forall j: nat | j < i :: ps[j].name != ps[i].name
  }

  predicate MembersExist(s: State, g: GroupDoc) { forall m | m in g.members :: m in s.users }

  predicate CredentialsExist(s: State, t: TargetDoc) { forall proto | proto in t.credentials :: t.credentials[proto] in s.credentials }

  /** The group is on the gateway or in the file. */
  ghost predicate GroupThere(s: State, d: Document, name: string) { name in s.groups || exists g :: g in d.groups && g.name == name }

  ghost predicate TargetThere(s: State, d: Document, name: string) { name in s.targets || exists t :: t in d.targets && t.name == name }

  /** A subject names one of a group that will be there and a user who is there. */
  ghost predicate SubjectStands(s: State, d: Document, sub: SubjectDoc) {
    || (sub.user == "" && sub.group != "" && GroupThere(s, d, sub.group))
    || (sub.group == "" && sub.user != "" && sub.user in s.users)
  }

  ghost predicate GrantTargetStands(s: State, d: Document, kind: string, name: string) {
    if kind == "autoscaling" then name in s.asgs else TargetThere(s, d, name)
  }

  ghost predicate GrantStands(s: State, d: Document, g: GrantDoc) {
    !g.requireWatcher && forall i | 0 <= i < |g.targets| :: GrantTargetStands(s, d, g.kind, g.targets[i].name)
  }

  ghost predicate PolicyStands(s: State, d: Document, p: PolicyDoc) {
    && (forall i | 0 <= i < |p.subjects| :: SubjectStands(s, d, p.subjects[i]))
    && (forall i | 0 <= i < |p.grants| :: GrantStands(s, d, p.grants[i]))
  }

  ghost predicate FileStands(s: State, d: Document) {
    && (forall i: nat | i < |d.groups| :: GroupNamed(d.groups, i) && MembersExist(s, d.groups[i]))
    && (forall i: nat | i < |d.targets| :: TargetNamed(d.targets, i) && CredentialsExist(s, d.targets[i]))
    && (forall i: nat | i < |d.policies| :: PolicyNamed(d.policies, i) && PolicyStands(s, d, d.policies[i]))
  }

  lemma GroupProblem(s: State, gs: seq<GroupDoc>, i: nat)
    requires i < |gs|
    ensures GroupPlan(s, gs)[i].problem ==
            if !GroupNamed(gs, i) then Some(BadName) else if !MembersExist(s, gs[i]) then Some(NoMember) else None
  {
    BlankName(gs[i].name);
    assert gs[i].name in GroupNames(gs[..i]) <==> exists j: nat :: j < i && gs[j].name == gs[i].name by {
      if j: nat :| j < i && gs[j].name == gs[i].name { assert gs[..i][j] in gs[..i]; }
    }
  }

  lemma TargetProblem(s: State, ts: seq<TargetDoc>, i: nat)
    requires i < |ts|
    ensures TargetPlan(s, ts)[i].problem ==
            if !TargetNamed(ts, i) then Some(BadName) else if !CredentialsExist(s, ts[i]) then Some(NoCredential) else None
  {
    BlankName(ts[i].name);
    assert ts[i].name in TargetNames(ts[..i]) <==> exists j: nat :: j < i && ts[j].name == ts[i].name by {
      if j: nat :| j < i && ts[j].name == ts[i].name { assert ts[..i][j] in ts[..i]; }
    }
  }

  lemma NamesThere(s: State, d: Document)
    ensures forall n :: n in Future(s, d).groups <==> GroupThere(s, d, n)
    ensures forall n :: n in Future(s, d).targets <==> TargetThere(s, d, n)
  {
  }

  /** What is said of a subject that does not stand. */
  function SubjectTrouble(sub: SubjectDoc): Problem {
    if (sub.group == "") == (sub.user == "") then BadSubject else if sub.user == "" then NoGroup else NoUser
  }

  ghost predicate FirstBadSubject(s: State, d: Document, subs: seq<SubjectDoc>, k: nat) {
    k < |subs| && !SubjectStands(s, d, subs[k]) && forall j | 0 <= j < k :: SubjectStands(s, d, subs[j])
  }

  lemma SubjectResolves(s: State, d: Document, sub: SubjectDoc)
    ensures WriteSubject(Future(s, d), sub).Ok? <==> SubjectStands(s, d, sub)
    ensures WriteSubject(Future(s, d), sub).Err? ==> WriteSubject(Future(s, d), sub).error == SubjectTrouble(sub)
  {
    NamesThere(s, d);
  }

  /** All subjects stand, or the first that does not says why. */
  ghost predicate SubjectsOutcome(s: State, d: Document, subs: seq<SubjectDoc>, r: Result<seq<Subject>, Problem>) {
    match r
    case Ok(_) => forall i | 0 <= i < |subs| :: SubjectStands(s, d, subs[i])
    case Err(e) => exists k: nat :: FirstBadSubject(s, d, subs, k) && e == SubjectTrouble(subs[k])
  }

  lemma BadSubjectStays(s: State, d: Document, subs: seq<SubjectDoc>, n: nat, k: nat)
    requires n <= |subs| && FirstBadSubject(s, d, subs[..n], k)
    ensures FirstBadSubject(s, d, subs, k) && subs[..n][k] == subs[k]
  {
    forall j | 0 <= j <= k ensures subs[..n][j] == subs[j] {}
  }

  lemma LastSubject(s: State, d: Document, subs: seq<SubjectDoc>, n: nat)
    requires |subs| == n + 1 && forall i | 0 <= i < n :: SubjectStands(s, d, subs[..n][i])
    ensures if SubjectStands(s, d, subs[n]) then forall i | 0 <= i < |subs| :: SubjectStands(s, d, subs[i]) else FirstBadSubject(s, d, subs, n)
  {
    forall i | 0 <= i < n ensures SubjectStands(s, d, subs[i]) { assert subs[..n][i] == subs[i]; }
  }

  lemma {:induction false} SubjectsResolve(s: State, d: Document, subs: seq<SubjectDoc>)
    ensures SubjectsOutcome(s, d, subs, WriteSubjects(Future(s, d), subs))
  {
    if subs != [] {
      var n := |subs| - 1;
      SubjectsResolve(s, d, subs[..n]);
      var front := WriteSubjects(Future(s, d), subs[..n]);
      if front.Err? {
        var k: nat :| FirstBadSubject(s, d, subs[..n], k) && front.error == SubjectTrouble(subs[..n][k]);
        BadSubjectStays(s, d, subs, n, k);
      } else {
        SubjectResolves(s, d, subs[n]);
        LastSubject(s, d, subs, n);
      }
    }
  }

  lemma {:induction false} GrantTargetsResolve(s: State, d: Document, kind: string, ts: seq<GrantTargetDoc>)
    ensures var r := WriteGrantTargets(Future(s, d), kind, ts);
            && (r.Ok? <==> forall i | 0 <= i < |ts| :: GrantTargetStands(s, d, kind, ts[i].name))
            && (r.Err? ==> r.error == NoTarget)
  {
    NamesThere(s, d);
    if ts != [] {
      var n := |ts| - 1;
      GrantTargetsResolve(s, d, kind, ts[..n]);
      forall i | 0 <= i < n ensures ts[..n][i] == ts[i] {}
    }
  }

  ghost predicate FirstBadGrant(s: State, d: Document, gs: seq<GrantDoc>, k: nat) {
    k < |gs| && !GrantStands(s, d, gs[k]) && forall j | 0 <= j < k :: GrantStands(s, d, gs[j])
  }

  function GrantTrouble(g: GrantDoc): Problem { if g.requireWatcher then Watcher else NoTarget }

  lemma GrantResolves(s: State, d: Document, g: GrantDoc, id: string)
    ensures WriteGrant(Future(s, d), g, id).Ok? <==> GrantStands(s, d, g)
    ensures WriteGrant(Future(s, d), g, id).Err? ==> WriteGrant(Future(s, d), g, id).error == GrantTrouble(g)
  {
    GrantTargetsResolve(s, d, g.kind, g.targets);
  }

  ghost predicate GrantsOutcome(s: State, d: Document, gs: seq<GrantDoc>, r: Result<seq<Grant>, Problem>) {
    match r
    case Ok(_) => forall i | 0 <= i < |gs| :: GrantStands(s, d, gs[i])
    case Err(e) => exists k: nat :: FirstBadGrant(s, d, gs, k) && e == GrantTrouble(gs[k])
  }

  lemma BadGrantStays(s: State, d: Document, gs: seq<GrantDoc>, n: nat, k: nat)
    requires n <= |gs| && FirstBadGrant(s, d, gs[..n], k)
    ensures FirstBadGrant(s, d, gs, k) && gs[..n][k] == gs[k]
  {
    forall j | 0 <= j <= k ensures gs[..n][j] == gs[j] {}
  }

  lemma LastGrant(s: State, d: Document, gs: seq<GrantDoc>, n: nat)
    requires |gs| == n + 1 && forall i | 0 <= i < n :: GrantStands(s, d, gs[..n][i])
    ensures if GrantStands(s, d, gs[n]) then forall i | 0 <= i < |gs| :: GrantStands(s, d, gs[i]) else FirstBadGrant(s, d, gs, n)
  {
    forall i | 0 <= i < n ensures GrantStands(s, d, gs[i]) { assert gs[..n][i] == gs[i]; }
  }

  lemma {:induction false} GrantsResolve(s: State, d: Document, gs: seq<GrantDoc>, prior: Option<Policy>)
    ensures GrantsOutcome(s, d, gs, WriteGrants(Future(s, d), gs, prior))
  {
    if gs != [] {
      var n := |gs| - 1;
      GrantsResolve(s, d, gs[..n], prior);
      var front := WriteGrants(Future(s, d), gs[..n], prior);
      if front.Err? {
        var k: nat :| FirstBadGrant(s, d, gs[..n], k) && front.error == GrantTrouble(gs[..n][k]);
        BadGrantStays(s, d, gs, n, k);
      } else {
        GrantResolves(s, d, gs[n], KeptId(prior, n, gs[n].kind));
        LastGrant(s, d, gs, n);
      }
    }
  }

  /** What is said of a policy: its name first, then its first subject that
      does not stand, then its first grant that does not. */
  ghost predicate PolicyTrouble(s: State, d: Document, i: nat, problem: Option<Problem>)
    requires i < |d.policies|
  {
    var p := d.policies[i];
    if !PolicyNamed(d.policies, i) then problem == Some(BadName)
    else if exists k: nat :: FirstBadSubject(s, d, p.subjects, k)
    then exists k: nat :: FirstBadSubject(s, d, p.subjects, k) && problem == Some(SubjectTrouble(p.subjects[k]))
    else if exists k: nat :: FirstBadGrant(s, d, p.grants, k)
    then exists k: nat :: FirstBadGrant(s, d, p.grants, k) && problem == Some(GrantTrouble(p.grants[k]))
    else problem == None
  }

  lemma PolicyProblem(s: State, d: Document, i: nat)
    requires i < |d.policies|
    ensures var problem := PolicyPlan(s, Future(s, d), d.policies)[i].problem;
            && PolicyTrouble(s, d, i, problem)
            && (problem.None? <==> PolicyNamed(d.policies, i) && PolicyStands(s, d, d.policies[i]))
  {
    var ps, p := d.policies, d.policies[i];
    BlankName(p.name);
    assert p.name in PolicyNames(ps[..i]) <==> exists j: nat :: j < i && ps[j].name == p.name by {
      if j: nat :| j < i && ps[j].name == p.name { assert ps[..i][j] in ps[..i]; }
    }
    SubjectsResolve(s, d, p.subjects);
    GrantsResolve(s, d, p.grants, OldPolicy(s, p.name));
  }

  /** A plan has no problem exactly when every name in the file is there and
      used once, every member is a user, every credential exists, and every
      subject and grant names what is on the gateway or in the file. */
  lemma PlanStands(s: State, d: Document)
    ensures NoProblems(PlanOf(s, d)) <==> FileStands(s, d)
  {
    var plan := PlanOf(s, d);
    forall i: nat | i < |d.groups|
      ensures plan.groups[i].problem.None? <==> GroupNamed(d.groups, i) && MembersExist(s, d.groups[i])
    {
      GroupProblem(s, d.groups, i);
    }
    forall i: nat | i < |d.targets|
      ensures plan.targets[i].problem.None? <==> TargetNamed(d.targets, i) && CredentialsExist(s, d.targets[i])
    {
      TargetProblem(s, d.targets, i);
    }
    forall i: nat | i < |d.policies|
      ensures plan.policies[i].problem.None? <==> PolicyNamed(d.policies, i) && PolicyStands(s, d, d.policies[i])
    {
      PolicyProblem(s, d, i);
    }
    QuietIs(plan.groups);
    QuietIs(plan.targets);
    QuietIs(plan.policies);
  }

  lemma QuietIs(changes: seq<Change>)
    ensures Quiet(changes) <==> forall i: nat | i < |changes| :: changes[i].problem.None?
  {
  }

  // ---- what a plan would change

  /** The group is stored as the file has it: its description, and the same members in any order. */
  ghost predicate GroupAsWritten(s: State, g: GroupDoc) {
    && g.name in s.groups && s.groups[g.name].description == g.description
    && s.groups[g.name].id in s.members && multiset(s.members[s.groups[g.name].id]) == multiset(g.members)
  }

  /** The target is stored as the file has it, with the ids of the credentials named; no status means active. */
  ghost predicate TargetAsWritten(s: State, t: TargetDoc) {
    t.name in s.targets &&
    var stored := s.targets[t.name];
    && stored.fields == t.fields && stored.status == (if t.status == "" then "active" else t.status)
    && stored.credentials.Keys == t.credentials.Keys
    && forall proto | proto in t.credentials ::
         t.credentials[proto] in s.credentials && stored.credentials[proto] == s.credentials[t.credentials[proto]]
  }

  /** The subject stored is the group or the user the file names. */
  ghost predicate SubjectIs(s: State, sub: Subject, doc: SubjectDoc) {
    if sub.kind == "group" then doc.user == "" && doc.group in s.groups && s.groups[doc.group].id == sub.id
    else doc.group == "" && doc.user in s.users && s.users[doc.user] == sub.id
  }

  ghost predicate GrantTargetIs(s: State, kind: string, t: GrantTarget, doc: GrantTargetDoc) {
    && t.protocols == doc.protocols
    && if kind == "autoscaling" then doc.name in s.asgs && s.asgs[doc.name] == t.id
       else doc.name in s.targets && s.targets[doc.name].id == t.id
  }

  ghost predicate GrantIs(s: State, g: Grant, doc: GrantDoc) {
    && g.kind == doc.kind && g.terms == doc.terms && !doc.requireWatcher && |g.targets| == |doc.targets|
    && forall i | 0 <= i < |g.targets| :: GrantTargetIs(s, g.kind, g.targets[i], doc.targets[i])
  }

  ghost predicate PolicyAsWritten(s: State, p: PolicyDoc) {
    p.name in s.policies &&
    var stored := s.policies[p.name];
    && stored.description == p.description && stored.enabled == p.enabled
    && |stored.subjects| == |p.subjects| && (forall i | 0 <= i < |p.subjects| :: SubjectIs(s, stored.subjects[i], p.subjects[i]))
    && |stored.grants| == |p.grants| && (forall i | 0 <= i < |p.grants| :: GrantIs(s, stored.grants[i], p.grants[i]))
  }

  lemma GroupActionIs(s: State, g: GroupDoc)
    requires Whole(s)
    ensures GroupAction(s, g) == if g.name !in s.groups then Create else if GroupAsWritten(s, g) then Unchanged else Update
  {
    if g.name in s.groups {
      assert GroupOk(s, g.name);
      var stored := s.members[s.groups[g.name].id];
      SortOrdered(g.members);
      SortPermutes(g.members);
      if multiset(stored) == multiset(g.members) { OrderedUnique(stored, Sort(g.members)); }
    }
  }

  lemma TargetActionIs(s: State, t: TargetDoc)
    requires Whole(s)
    ensures TargetAction(s, t) == if t.name !in s.targets then Create else if TargetAsWritten(s, t) then Unchanged else Update
  {
    if t.name in s.targets {
      assert TargetOk(s, t.name);
      CredentialsShown(s, s.targets[t.name].credentials, t.credentials);
    }
  }

  lemma CredentialsShown(s: State, stored: map<string, string>, names: map<string, string>)
    requires Linked(s) && forall proto | proto in stored :: CredentialOk(s, stored[proto])
    ensures (map proto | proto in stored :: Lookup(s.byID, stored[proto])) == names <==>
              && stored.Keys == names.Keys
              && forall proto | proto in names :: names[proto] in s.credentials && stored[proto] == s.credentials[names[proto]]
  {
    var shown := map proto | proto in stored :: Lookup(s.byID, stored[proto]);
    assert shown.Keys == stored.Keys;
    forall proto | proto in stored && proto in names
      ensures shown[proto] == names[proto] <==> names[proto] in s.credentials && stored[proto] == s.credentials[names[proto]]
    {
      assert CredentialOk(s, stored[proto]);
      if names[proto] in s.credentials { assert Named(s, s.credentials[names[proto]], names[proto]); }
    }
  }

  lemma SubjectShown(s: State, sub: Subject, doc: SubjectDoc)
    requires Linked(s) && SubjectOk(s, sub)
    ensures ShowSubject(s, sub) == doc <==> SubjectIs(s, sub, doc)
  {
    if doc.group in s.groups { assert Named(s, s.groups[doc.group].id, doc.group); }
    if doc.user in s.users { assert Named(s, s.users[doc.user], doc.user); }
  }

  lemma GrantTargetShown(s: State, kind: string, t: GrantTarget, doc: GrantTargetDoc)
    requires Linked(s) && GrantTargetOk(s, kind, t)
    ensures ShowGrantTarget(s, t) == doc <==> GrantTargetIs(s, kind, t, doc)
  {
    if doc.name in s.asgs { assert Named(s, s.asgs[doc.name], doc.name); }
    if doc.name in s.targets { assert Named(s, s.targets[doc.name].id, doc.name); }
  }

  lemma GrantShown(s: State, g: Grant, doc: GrantDoc)
    requires Linked(s) && GrantOk(s, g)
    ensures ShowGrant(s, g) == doc <==> GrantIs(s, g, doc)
  {
    if |g.targets| == |doc.targets| {
      forall i | 0 <= i < |g.targets|
        ensures ShowGrantTarget(s, g.targets[i]) == doc.targets[i] <==> GrantTargetIs(s, g.kind, g.targets[i], doc.targets[i])
      {
        assert GrantTargetOk(s, g.kind, g.targets[i]);
        GrantTargetShown(s, g.kind, g.targets[i], doc.targets[i]);
      }
      var shown := ShowGrant(s, g).targets;
      assert shown == doc.targets <==> forall i | 0 <= i < |shown| :: shown[i] == doc.targets[i];
    }
  }

  lemma SubjectsShown(s: State, subs: seq<Subject>, docs: seq<SubjectDoc>)
    requires Linked(s) && |subs| == |docs| && forall i | 0 <= i < |subs| :: SubjectOk(s, subs[i])
    ensures seq(|subs|, i requires 0 <= i < |subs| => ShowSubject(s, subs[i])) == docs <==>
            forall i | 0 <= i < |subs| :: SubjectIs(s, subs[i], docs[i])
  {
    var shown := seq(|subs|, i requires 0 <= i < |subs| => ShowSubject(s, subs[i]));
    forall i | 0 <= i < |subs| ensures shown[i] == docs[i] <==> SubjectIs(s, subs[i], docs[i]) { SubjectShown(s, subs[i], docs[i]); }
    assert shown == docs <==> forall i | 0 <= i < |shown| :: shown[i] == docs[i];
  }

  lemma GrantsShown(s: State, gs: seq<Grant>, docs: seq<GrantDoc>)
    requires Linked(s) && |gs| == |docs| && forall i | 0 <= i < |gs| :: GrantOk(s, gs[i])
    ensures seq(|gs|, i requires 0 <= i < |gs| => ShowGrant(s, gs[i])) == docs <==> forall i | 0 <= i < |gs| :: GrantIs(s, gs[i], docs[i])
  {
    var shown := seq(|gs|, i requires 0 <= i < |gs| => ShowGrant(s, gs[i]));
    forall i | 0 <= i < |gs| ensures shown[i] == docs[i] <==> GrantIs(s, gs[i], docs[i]) { GrantShown(s, gs[i], docs[i]); }
    assert shown == docs <==> forall i | 0 <= i < |shown| :: shown[i] == docs[i];
  }

  lemma PolicyActionIs(s: State, p: PolicyDoc)
    requires Whole(s)
    ensures PolicyAction(s, p) == if p.name !in s.policies then Create else if PolicyAsWritten(s, p) then Unchanged else Update
  {
    if p.name in s.policies {
      var stored := s.policies[p.name];
      var shown := ShowPolicy(s, p.name, stored);
      assert |shown.subjects| == |stored.subjects| && |shown.grants| == |stored.grants|;
      if |stored.subjects| == |p.subjects| { SubjectsShown(s, stored.subjects, p.subjects); }
      if |stored.grants| == |p.grants| { GrantsShown(s, stored.grants, p.grants); }
    }
  }

  /** One entry for each thing in the file, in order: created exactly when its
      name is not stored, left alone exactly when it is stored as written. */
  lemma PlanActions(s: State, d: Document)
    requires Whole(s)
    ensures var plan := PlanOf(s, d);
            && |plan.groups| == |d.groups| && |plan.targets| == |d.targets| && |plan.policies| == |d.policies|
            && (forall i | 0 <= i < |d.groups| ::
                  && plan.groups[i].name == d.groups[i].name
                  && (plan.groups[i].action == Create <==> d.groups[i].name !in s.groups)
                  && (plan.groups[i].action == Unchanged <==> GroupAsWritten(s, d.groups[i])))
            && (forall i | 0 <= i < |d.targets| ::
                  && plan.targets[i].name == d.targets[i].name
                  && (plan.targets[i].action == Create <==> d.targets[i].name !in s.targets)
                  && (plan.targets[i].action == Unchanged <==> TargetAsWritten(s, d.targets[i])))
            && (forall i | 0 <= i < |d.policies| ::
                  && plan.policies[i].name == d.policies[i].name
                  && (plan.policies[i].action == Create <==> d.policies[i].name !in s.policies)
                  && (plan.policies[i].action == Unchanged <==> PolicyAsWritten(s, d.policies[i])))
  {
    forall i | 0 <= i < |d.groups| { GroupActionIs(s, d.groups[i]); }
    forall i | 0 <= i < |d.targets| { TargetActionIs(s, d.targets[i]); }
    forall i | 0 <= i < |d.policies| { PolicyActionIs(s, d.policies[i]); }
  }
}
