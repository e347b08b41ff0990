/** The configuration file: every reference by name in the file, by id on the
    gateway. Fields that are only copied between the two are kept together. */
module ConfigIO {
  import opened Basics
  import opened Strings

  type Fields = map<string, string>

  // ---- the file

  datatype GroupDoc = GroupDoc(name: string, description: string, members: seq<string>)

  datatype TargetDoc = TargetDoc(name: string, fields: Fields, status: string, credentials: map<string, string>)

  datatype SubjectDoc = SubjectDoc(group: string, user: string)

  datatype GrantTargetDoc = GrantTargetDoc(name: string, protocols: seq<string>)

  datatype GrantDoc = GrantDoc(kind: string, targets: seq<GrantTargetDoc>, terms: Fields, requireWatcher: bool)

  datatype PolicyDoc = PolicyDoc(name: string, description: string, enabled: bool, subjects: seq<SubjectDoc>, grants: seq<GrantDoc>)

  datatype Document = Document(groups: seq<GroupDoc>, targets: seq<TargetDoc>, policies: seq<PolicyDoc>)

  // ---- the gateway, as its API gives it

  datatype Group = Group(id: string, description: string)

  datatype Target = Target(id: string, fields: Fields, status: string, credentials: map<string, string>)

  datatype Subject = Subject(kind: string, id: string)

  datatype GrantTarget = GrantTarget(id: string, protocols: seq<string>)

  datatype Grant = Grant(id: string, kind: string, targets: seq<GrantTarget>, terms: Fields)

  datatype Policy = Policy(id: string, description: string, enabled: bool, subjects: seq<Subject>, grants: seq<Grant>)

  datatype State = State(users: map<string, string>, credentials: map<string, string>, asgs: map<string, string>,
                         groups: map<string, Group>, members: map<string, seq<string>>,
                         targets: map<string, Target>, policies: map<string, Policy>, byID: map<string, string>)

  function Lookup(m: map<string, string>, key: string): string { if key in m then m[key] else "" }

  // ---- ids to names

  function ShowTarget(s: State, name: string, t: Target): TargetDoc {
    TargetDoc(name, t.fields, t.status, map proto | proto in t.credentials :: Lookup(s.byID, t.credentials[proto]))
  }

  function ShowSubject(s: State, sub: Subject): SubjectDoc {
    if sub.kind == "group" then SubjectDoc(Lookup(s.byID, sub.id), "") else SubjectDoc("", Lookup(s.byID, sub.id))
  }

  function ShowGrantTarget(s: State, t: GrantTarget): GrantTargetDoc { GrantTargetDoc(Lookup(s.byID, t.id), t.protocols) }

  function ShowGrant(s: State, g: Grant): GrantDoc {
    GrantDoc(g.kind, seq(|g.targets|, i requires 0 <= i < |g.targets| => ShowGrantTarget(s, g.targets[i])), g.terms, false)
  }

  function ShowPolicy(s: State, name: string, p: Policy): PolicyDoc {
    PolicyDoc(name, p.description, p.enabled,
              seq(|p.subjects|, i requires 0 <= i < |p.subjects| => ShowSubject(s, p.subjects[i])),
              seq(|p.grants|, i requires 0 <= i < |p.grants| => ShowGrant(s, p.grants[i])))
  }

  // ---- names to ids

  datatype Problem = BadName | NoMember | NoCredential | NoGroup | NoUser | BadSubject | Watcher | NoTarget

  function StatusOf(t: TargetDoc): string { if t.status == "" then "active" else t.status }

  function WithDefaults(t: TargetDoc): TargetDoc { t.(status := StatusOf(t)) }

  /** A target as the API takes it; the id is the API's own. */
  function WriteTarget(s: State, t: TargetDoc): Result<Target, Problem> {
    if forall proto | proto in t.credentials :: t.credentials[proto] in s.credentials
    then Ok(Target("", t.fields, StatusOf(t), map proto | proto in t.credentials :: s.credentials[t.credentials[proto]]))
    else Err(NoCredential)
  }

  function WriteSubject(s: State, sub: SubjectDoc): Result<Subject, Problem> {
    if sub.group != "" && sub.user == "" then
      if sub.group in s.groups then Ok(Subject("group", s.groups[sub.group].id)) else Err(NoGroup)
    else if sub.user != "" && sub.group == "" then
      if sub.user in s.users then Ok(Subject("user", s.users[sub.user])) else Err(NoUser)
    else Err(BadSubject)
  }

  function WriteSubjects(s: State, subs: seq<SubjectDoc>): Result<seq<Subject>, Problem> {
    if subs == [] then Ok([])
    else
      match WriteSubjects(s, subs[..|subs| - 1])
      case Err(e) => Err(e)
      case Ok(front) =>
        match WriteSubject(s, subs[|subs| - 1])
        case Err(e) => Err(e)
        case Ok(last) => Ok(front + [last])
  }

  function WriteGrantTarget(s: State, kind: string, t: GrantTargetDoc): Result<GrantTarget, Problem> {
    if kind == "autoscaling" then
      if t.name in s.asgs then Ok(GrantTarget(s.asgs[t.name], t.protocols)) else Err(NoTarget)
    else
      if t.name in s.targets then Ok(GrantTarget(s.targets[t.name].id, t.protocols)) else Err(NoTarget)
  }

  function WriteGrantTargets(s: State, kind: string, ts: seq<GrantTargetDoc>): Result<seq<GrantTarget>, Problem> {
    if ts == [] then Ok([])
    else
      match WriteGrantTargets(s, kind, ts[..|ts| - 1])
      case Err(e) => Err(e)
      case Ok(front) =>
        match WriteGrantTarget(s, kind, ts[|ts| - 1])
        case Err(e) => Err(e)
        case Ok(last) => Ok(front + [last])
  }

  /** The id a grant keeps: that of the grant at its place, when it is of the same kind. */
  function KeptId(prior: Option<Policy>, i: nat, kind: string): string {
    if prior.Some? && i < |prior.value.grants| && prior.value.grants[i].kind == kind then prior.value.grants[i].id else ""
  }

  function WriteGrant(s: State, g: GrantDoc, id: string): Result<Grant, Problem> {
    if g.requireWatcher then Err(Watcher)
    else
      match WriteGrantTargets(s, g.kind, g.targets)
      case Err(e) => Err(e)
      case Ok(targets) => Ok(Grant(id, g.kind, targets, g.terms))
  }

  function WriteGrants(s: State, gs: seq<GrantDoc>, prior: Option<Policy>): Result<seq<Grant>, Problem> {
    if gs == [] then Ok([])
    else
      var n := |gs| - 1;
      match WriteGrants(s, gs[..n], prior)
      case Err(e) => Err(e)
      case Ok(front) =>
        match WriteGrant(s, gs[n], KeptId(prior, n, gs[n].kind))
        case Err(e) => Err(e)
        case Ok(last) => Ok(front + [last])
  }

  /** A policy as the API takes it; the id is the API's own. */
  function WritePolicy(s: State, p: PolicyDoc, prior: Option<Policy>): Result<Policy, Problem> {
    match WriteSubjects(s, p.subjects)
    case Err(e) => Err(e)
    case Ok(subjects) =>
      match WriteGrants(s, p.grants, prior)
      case Err(e) => Err(e)
      case Ok(grants) => Ok(Policy("", p.description, p.enabled, subjects, grants))
  }

  // ---- the plan

  datatype Action = Create | Update | Unchanged

  datatype Change = Change(name: string, action: Action, problem: Option<Problem>)

  predicate Blank(name: string) { Trim(name) == "" }

  function First(a: Option<Problem>, b: Option<Problem>): Option<Problem> { if a.Some? then a else b }

  function ProblemOf<T>(r: Result<T, Problem>): Option<Problem> { if r.Ok? then None else Some(r.error) }

  function NameProblem(name: string, earlier: set<string>): Option<Problem> {
    if name in earlier || Blank(name) then Some(BadName) else None
  }

  function GroupAction(s: State, g: GroupDoc): Action {
    if g.name !in s.groups then Create
    else
      var prior := s.groups[g.name];
      if prior.description == g.description && (if prior.id in s.members then s.members[prior.id] else []) == Sort(g.members)
      then Unchanged else Update
  }

  function GroupChange(s: State, g: GroupDoc, earlier: set<string>): Change {
    Change(g.name, GroupAction(s, g),
           First(NameProblem(g.name, earlier), if forall m | m in g.members :: m in s.users then None else Some(NoMember)))
  }

  function TargetAction(s: State, t: TargetDoc): Action {
    if t.name !in s.targets then Create
    else if ShowTarget(s, t.name, s.targets[t.name]) == WithDefaults(t) then Unchanged
    else Update
  }

  function TargetChange(s: State, t: TargetDoc, earlier: set<string>): Change {
    Change(t.name, TargetAction(s, t), First(NameProblem(t.name, earlier), ProblemOf(WriteTarget(s, t))))
  }

  function OldPolicy(s: State, name: string): Option<Policy> { if name in s.policies then Some(s.policies[name]) else None }

  function PolicyAction(s: State, p: PolicyDoc): Action {
    if p.name !in s.policies then Create
    else if ShowPolicy(s, p.name, s.policies[p.name]) == p then Unchanged
    else Update
  }

  function PolicyChange(s: State, future: State, p: PolicyDoc, earlier: set<string>): Change {
    Change(p.name, PolicyAction(s, p), First(NameProblem(p.name, earlier), ProblemOf(WritePolicy(future, p, OldPolicy(s, p.name)))))
  }

  function GroupNames(gs: seq<GroupDoc>): set<string> { set g | g in gs :: g.name }
  function TargetNames(ts: seq<TargetDoc>): set<string> { set t | t in ts :: t.name }
  function PolicyNames(ps: seq<PolicyDoc>): set<string> { set p | p in ps :: p.name }

  function FutureGroups(s: State, gs: seq<GroupDoc>): map<string, Group> {
    map name | name in s.groups.Keys + GroupNames(gs) :: if name in s.groups then s.groups[name] else Group("(new)", "")
  }

  function FutureTargets(s: State, ts: seq<TargetDoc>): map<string, Target> {
    map name | name in s.targets.Keys + TargetNames(ts) :: if name in s.targets then s.targets[name] else Target("(new)", map[], "", map[])
  }

  /** The state a file's policies are resolved in: names the file creates count as existing. */
  function Future(s: State, d: Document): State {
    s.(groups := FutureGroups(s, d.groups), targets := FutureTargets(s, d.targets))
  }

  datatype Plan = Plan(groups: seq<Change>, targets: seq<Change>, policies: seq<Change>)

  function GroupPlan(s: State, gs: seq<GroupDoc>): seq<Change> {
    seq(|gs|, i requires 0 <= i < |gs| => GroupChange(s, gs[i], GroupNames(gs[..i])))
  }

  function TargetPlan(s: State, ts: seq<TargetDoc>): seq<Change> {
    seq(|ts|, i requires 0 <= i < |ts| => TargetChange(s, ts[i], TargetNames(ts[..i])))
  }

  function PolicyPlan(s: State, future: State, ps: seq<PolicyDoc>): seq<Change> {
    seq(|ps|, i requires 0 <= i < |ps| => PolicyChange(s, future, ps[i], PolicyNames(ps[..i])))
  }

  /** What a file would change, one entry for each thing in it. */
  function PlanOf(s: State, d: Document): Plan {
    Plan(GroupPlan(s, d.groups), TargetPlan(s, d.targets), PolicyPlan(s, Future(s, d), d.policies))
  }

  predicate Quiet(changes: seq<Change>) { forall i | 0 <= i < |changes| :: changes[i].problem.None? }

  predicate NoProblems(p: Plan) { Quiet(p.groups) && Quiet(p.targets) && Quiet(p.policies) }

  predicate Same(changes: seq<Change>) {
    forall i | 0 <= i < |changes| :: changes[i].action.Unchanged? && changes[i].problem.None?
  }

  predicate AllUnchanged(p: Plan) { Same(p.groups) && Same(p.targets) && Same(p.policies) }
}
