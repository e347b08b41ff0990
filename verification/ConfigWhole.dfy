/** Imports keep the gateway whole, so they can follow one another. */
module ConfigWhole {
  import opened Basics
  import opened Strings
  import opened ConfigIO
  import opened ConfigProofs
  import opened ConfigApply
  import opened ConfigConverge

  lemma GroupsWhole(s0: State, s1: State, gs: seq<GroupDoc>, n: string)
    requires Whole(s0) && GroupsOnly(s0, s1, GroupNames(gs)) && GroupsSet(s1, gs) && n in s1.groups
    requires forall i: nat | i < |gs| :: GroupFits(s0, gs, i)
    ensures GroupOk(s1, n)
  {
    if n in GroupNames(gs) {
      var i: nat :| i < |gs| && gs[i].name == n;
      assert GroupSet(s1, gs[i]) && GroupFits(s0, gs, i);
      SortOrdered(gs[i].members);
      SortPermutes(gs[i].members);
      var members := s1.members[s1.groups[n].id];
      forall m | m in members ensures m in s1.users {
        assert m in multiset(members);
        assert m in gs[i].members;
      }
      BlankEmpty();
    } else {
      assert GroupOk(s0, n) && SameMembers(s0, s1, s0.groups[n].id);
    }
  }

  lemma BlankEmpty()
    ensures Blank("")
  {
  }

  lemma TargetsWhole(s0: State, s1: State, s2: State, ts: seq<TargetDoc>, n: string)
    requires Whole(s0) && BeforeTargets(s0, s1) && Extends(s1.byID, s2.byID)
    requires TargetsOnly(s1, s2, TargetNames(ts)) && TargetsSet(s2, ts) && n in s2.targets
    requires forall i: nat | i < |ts| :: TargetFits(s0, ts, i)
    ensures TargetOk(s2, n)
  {
    if n in TargetNames(ts) {
      var i: nat :| i < |ts| && ts[i].name == n;
      assert TargetSet(s2, ts[i]) && TargetFits(s0, ts, i);
      assert ShowTarget(s2, n, s2.targets[n]).status == StatusOf(ts[i]);
    } else {
      assert TargetOk(s0, n);
      var creds := s0.targets[n].credentials;
      forall proto | proto in creds ensures CredentialOk(s2, creds[proto]) { assert CredentialOk(s0, creds[proto]); }
    }
  }

  lemma PoliciesWhole(s0: State, now: State, s: State, ps: seq<PolicyDoc>, n: string)
    requires BeforePolicies(s0, now) && PoliciesDone(now, s, ps) && n in s.policies
    requires forall m | m in s0.policies :: !Blank(m) && PolicyOk(s0, s0.policies[m])
    requires forall i: nat | i < |ps| :: PolicyFits(now, ps, i)
    ensures !Blank(n) && PolicyOk(now, s.policies[n])
  {
    if n in PolicyNames(ps) {
      var i: nat :| i < |ps| && ps[i].name == n;
      assert PolicySet(now, s, ps[i]) && PolicyFits(now, ps, i);
    } else {
      PolicyStays(s0, now, s0.policies[n]);
    }
  }

  /** Only the table of policies differs. */
  lemma OkOnly(now: State, s: State, p: Policy)
    requires s == now.(policies := s.policies) && PolicyOk(now, p)
    ensures PolicyOk(s, p)
  {
    forall i | 0 <= i < |p.subjects| ensures SubjectOk(s, p.subjects[i]) { assert SubjectOk(now, p.subjects[i]); }
    forall i | 0 <= i < |p.grants| ensures GrantOk(s, p.grants[i]) {
      var g := p.grants[i];
      assert GrantOk(now, g);
      forall k | 0 <= k < |g.targets| ensures GrantTargetOk(s, g.kind, g.targets[k]) { assert GrantTargetOk(now, g.kind, g.targets[k]); }
    }
  }

  /** A file the import applies: no problems, no member listed twice, ids for what is new. */
  ghost predicate Importable(s: State, d: Document, ids: Ids) {
    && Supply(s, ids) && NoProblems(PlanOf(s, d))
    && forall i | 0 <= i < |d.groups| :: NoDuplicates(d.groups[i].members)
  }

  lemma HostsWhole(s0: State, s1: State, s2: State, d: Document)
    requires Whole(s0) && BeforeTargets(s0, s1) && Extends(s1.byID, s2.byID)
    requires Quiet(GroupPlan(s0, d.groups)) && (forall i | 0 <= i < |d.groups| :: NoDuplicates(d.groups[i].members))
    requires GroupsOnly(s0, s1, GroupNames(d.groups)) && GroupsSet(s1, d.groups)
    requires Quiet(TargetPlan(s0, d.targets)) && TargetsOnly(s1, s2, TargetNames(d.targets)) && TargetsSet(s2, d.targets)
    ensures forall n | n in s2.groups :: GroupOk(s2, n)
    ensures forall n | n in s2.targets :: TargetOk(s2, n)
  {
    forall n | n in s2.groups ensures GroupOk(s2, n) {
      forall i: nat | i < |d.groups| ensures GroupFits(s0, d.groups, i) { GroupsFit(s0, d.groups, i); }
      GroupsWhole(s0, s1, d.groups, n);
    }
    forall n | n in s2.targets ensures TargetOk(s2, n) {
      forall i: nat | i < |d.targets| ensures TargetFits(s0, d.targets, i) { TargetsFit(s0, d.targets, i); }
      TargetsWhole(s0, s1, s2, d.targets, n);
    }
  }

  lemma PoliciesKeepWhole(s0: State, s2: State, s3: State, d: Document)
    requires BeforePolicies(s0, s2) && PoliciesDone(s2, s3, d.policies)
    requires forall n | n in s0.policies :: !Blank(n) && PolicyOk(s0, s0.policies[n])
    requires Quiet(PolicyPlan(s0, Future(s0, d), d.policies)) && SameNames(Future(s0, d), s2)
    requires forall n | n in s2.groups :: GroupOk(s2, n)
    requires forall n | n in s2.targets :: TargetOk(s2, n)
    ensures Whole(s3)
  {
    forall n | n in s3.policies ensures !Blank(n) && PolicyOk(s3, s3.policies[n]) {
      forall i: nat | i < |d.policies| ensures PolicyFits(s2, d.policies, i) { PoliciesFit(s0, Future(s0, d), s2, d.policies, i); }
      PoliciesWhole(s0, s2, s3, d.policies, n);
      OkOnly(s2, s3, s3.policies[n]);
    }
    forall n | n in s3.groups ensures GroupOk(s3, n) { assert GroupOk(s2, n); }
    forall n | n in s3.targets ensures TargetOk(s3, n) {
      assert TargetOk(s2, n);
      var creds := s3.targets[n].credentials;
      forall proto | proto in creds ensures CredentialOk(s3, creds[proto]) { assert CredentialOk(s2, creds[proto]); }
    }
    LinkedOnly(s2, s3);
  }

  lemma LinkedOnly(now: State, s: State)
    requires s == now.(policies := s.policies) && Linked(now)
    ensures Linked(s)
  {
  }

  /** An import leaves a gateway whose every reference still holds. */
  lemma ImportKeepsWhole(s0: State, d: Document, ids: Ids)
    requires Whole(s0) && Importable(s0, d, ids)
    ensures Imported(s0, d, ids).Ok? && Whole(Imported(s0, d, ids).value)
  {
    var s1 := GroupsApplied(s0, d.groups, ids);
    var s2 := TargetsApplied(s0, s1, d.targets, ids);
    HostsImported(s0, d, ids);
    HostsWhole(s0, s1, s2, d);
    PlannedNames(s0, s1, s2, d);
    PoliciesConverge(s0, s2, d, ids);
    PoliciesKeepWhole(s0, s2, Imported(s0, d, ids).value, d);
  }

  // ---- one import after another

  /** The file is imported; what comes out is the next state. */
  ghost predicate Step(s: State, d: Document, ids: Ids, next: State) {
    Importable(s, d, ids) && (Imported(s, d, ids).Ok? ==> next == Imported(s, d, ids).value)
  }

  lemma StepSettles(s: State, d: Document, ids: Ids, next: State)
    requires Whole(s) && Step(s, d, ids, next)
    ensures Imported(s, d, ids) == Ok(next) && Whole(next) && AllUnchanged(PlanOf(next, d))
  {
    ImportKeepsWhole(s, d, ids);
    ImportConverges(s, d, ids);
  }

  /** What every step keeps holds along the whole run. */
  lemma {:induction false} Along(states: seq<State>, good: State -> bool, k: nat)
    requires k < |states| && good(states[0])
    requires forall i: nat | i + 1 < |states| :: good(states[i]) ==> good(states[i + 1])
    ensures good(states[k])
  {
    if k > 0 { Along(states, good, k - 1); }
  }

  /** Over any run of imports none fails, the gateway stays whole, and each file plans as unchanged when it has been applied. */
  lemma ImportsInTurn(states: seq<State>, docs: seq<Document>, ids: seq<Ids>, k: nat)
    requires |states| == |docs| + 1 == |ids| + 1 && Whole(states[0]) && k < |docs|
    requires forall i: nat | i < |docs| :: Step(states[i], docs[i], ids[i], states[i + 1])
    ensures Whole(states[k]) && Imported(states[k], docs[k], ids[k]) == Ok(states[k + 1])
    ensures Whole(states[k + 1]) && AllUnchanged(PlanOf(states[k + 1], docs[k]))
  {
    StaysWhole(states, docs, ids, k);
    StepSettles(states[k], docs[k], ids[k], states[k + 1]);
  }

  lemma StaysWhole(states: seq<State>, docs: seq<Document>, ids: seq<Ids>, k: nat)
    requires |states| == |docs| + 1 == |ids| + 1 && Whole(states[0]) && k < |states|
    requires forall i: nat | i < |docs| :: Step(states[i], docs[i], ids[i], states[i + 1])
    ensures Whole(states[k])
  {
    forall i: nat | i < |docs| && Whole(states[i]) ensures Whole(states[i + 1]) {
      StepSettles(states[i], docs[i], ids[i], states[i + 1]);
    }
    Along(states, s => Whole(s), k);
  }

  /** However often it is applied, and whatever other files are applied between,
      a file that lists a member twice never plans as unchanged. */
  lemma DuplicatesNeverSettleInTurn(states: seq<State>, docs: seq<Document>, ids: seq<Ids>, d: Document, i: nat, k: nat)
    requires |states| == |docs| + 1 == |ids| + 1 && k < |states| && DistinctMembers(states[0])
    requires forall j: nat | j < |docs| :: Imported(states[j], docs[j], ids[j]) == Ok(states[j + 1])
    requires i < |d.groups| && !NoDuplicates(d.groups[i].members)
    ensures !AllUnchanged(PlanOf(states[k], d))
  {
    forall j: nat | j < |docs| && DistinctMembers(states[j]) ensures DistinctMembers(states[j + 1]) {
      ImportKeepsDistinct(states[j], docs[j], ids[j]);
      assert Imported(states[j], docs[j], ids[j]) == Ok(states[j + 1]);
    }
    Along(states, s => DistinctMembers(s), k);
    DuplicatesNeverSettle(states[k], d, i);
  }
}
