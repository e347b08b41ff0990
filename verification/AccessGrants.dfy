/** Chains of extensions leave no gap, and the sweeper changes no answer. */
module AccessGrants {
  import opened Basics
  import opened Access
  import opened AccessProofs

  // ---- sweeps are invisible

  /** The window of the request has passed, whatever was made of it. */
  predicate Lapsed(r: Request, now: int) {
    (r.status.Approved? || r.status.Expired? || r.status.Revoked?) && r.expiresAt.Some? && r.expiresAt.value <= now
  }

  /** The same request, or the same lapsed one whose end was noted differently. */
  predicate AlikeRow(a: Request, b: Request, now: int) {
    a == b || (Lapsed(a, now) && Lapsed(b, now) && a.(status := b.status) == b)
  }

  ghost predicate Alike(a: Rows, b: Rows, now: int) {
    |a| == |b| && forall i: nat | i < |a| :: AlikeRow(a[i], b[i], now)
  }

  /** Two tables that are alike answer both queries alike from then on. */
  lemma AlikeAnswers(a: Rows, b: Rows, clock: int, tuple: Tuple, now: int)
    requires Alike(a, b, clock) && clock <= now
    ensures HasActiveGrant(a, tuple, now) <==> HasActiveGrant(b, tuple, now)
    ensures forall open: Option<nat> :: OpenIs(a, tuple, now, open) <==> OpenIs(b, tuple, now, open)
  {
    forall i: nat | i < |a| ensures Occupies(a[i], tuple, now) <==> Occupies(b[i], tuple, now) { assert AlikeRow(a[i], b[i], clock); }
    forall i: nat | i < |a| ensures Active(a[i], now) == Active(b[i], now) && a[i].tuple == b[i].tuple && a[i].createdAt == b[i].createdAt {
      assert AlikeRow(a[i], b[i], clock);
    }
  }

  lemma AlikeReply(a: Rows, b: Rows, clock: int, step: Step)
    requires Alike(a, b, clock) && clock <= step.at && !step.Revoke?
    ensures Reply(a, step) == Reply(b, step)
  {
    if step.Create? && step.open.Some? && step.open.value < |a| { assert AlikeRow(a[step.open.value], b[step.open.value], clock); }
    if (step.Approve? || step.Deny?) && step.id < |a| { assert AlikeRow(a[step.id], b[step.id], clock); }
  }

  lemma AlikeNext(a: Rows, b: Rows, clock: int, step: Step)
    requires Alike(a, b, clock) && clock <= step.at <= Until(step)
    ensures Alike(Next(a, step), Next(b, step), Until(step))
  {
    if !step.Revoke? { AlikeReply(a, b, clock, step); }
    if step.Approve? && step.id < |a| {
      assert AlikeRow(a[step.id], b[step.id], clock);
      var p := a[step.id].prolongs;
      if p.Some? && p.value < |a| { assert AlikeRow(a[p.value], b[p.value], clock); }
    }
    var x, y := Next(a, step), Next(b, step);
    forall i: nat | i < |x| ensures AlikeRow(x[i], y[i], Until(step)) {
      if i < |a| { assert AlikeRow(a[i], b[i], clock); }
    }
  }

  lemma SweepAlike(a: Rows, b: Rows, clock: int, now: int)
    requires Alike(a, b, clock) && clock <= now
    ensures Alike(Next(a, Sweep(now)), b, now)
  {
    forall i: nat | i < |a| ensures AlikeRow(Next(a, Sweep(now))[i], b[i], now) { assert AlikeRow(a[i], b[i], clock); }
  }

  function NoSweeps(steps: seq<Step>): seq<Step> {
    if steps == [] then [] else (if steps[0].Sweep? then [] else [steps[0]]) + NoSweeps(steps[1..])
  }

  lemma {:induction false} RunAlike(a: Rows, b: Rows, clock: int, steps: seq<Step>)
    requires Alike(a, b, clock) && IsRun(a, clock, steps)
    ensures IsRun(b, clock, NoSweeps(steps))
    ensures Alike(After(a, steps), After(b, NoSweeps(steps)), ClockAfter(clock, steps))
    decreases |steps|
  {
    if steps != [] {
      var step, rest := steps[0], steps[1..];
      if step.Sweep? {
        assert NoSweeps(steps) == NoSweeps(rest);
        SweepAlike(a, b, clock, step.at);
        RunAlike(Next(a, step), b, step.at, rest);
        EarlierRun(b, clock, step.at, NoSweeps(rest));
      } else {
        AlikeNext(a, b, clock, step);
        if step.Create? { AlikeAnswers(a, b, clock, step.tuple, step.at); }
        RunAlike(Next(a, step), Next(b, step), Until(step), rest);
        assert NoSweeps(steps)[1..] == NoSweeps(rest);
      }
    }
  }

  lemma EarlierRun(rows: Rows, clock: int, later: int, steps: seq<Step>)
    requires clock <= later && IsRun(rows, later, steps)
    ensures IsRun(rows, clock, steps)
  {
  }

  /** Sweeps are invisible: take the sweeps out of a run and it is still a run,
      and from its end on the two tables give the same answers to both queries. */
  lemma SweepsInvisible(rows: Rows, clock: int, steps: seq<Step>, tuple: Tuple, now: int)
    requires IsRun(rows, clock, steps) && ClockAfter(clock, steps) <= now
    ensures IsRun(rows, clock, NoSweeps(steps))
    ensures var swept, plain := After(rows, steps), After(rows, NoSweeps(steps));
            && (HasActiveGrant(swept, tuple, now) <==> HasActiveGrant(plain, tuple, now))
            && (forall open: Option<nat> :: OpenIs(swept, tuple, now, open) <==> OpenIs(plain, tuple, now, open))
  {
    RunAlike(rows, rows, clock, steps);
    AlikeAnswers(After(rows, steps), After(rows, NoSweeps(steps)), ClockAfter(clock, steps), tuple, now);
  }

  // ---- chains of extensions

  predicate Ran(r: Request) { (r.status.Approved? || r.status.Expired?) && r.expiresAt.Some? }

  /** Grants that were not revoked, each extending the one before it and
      approved while that one was active. */
  predicate Chain(rows: Rows, c: seq<nat>) {
    && c != []
    && (forall k: nat | k < |c| :: c[k] < |rows| && Ran(rows[c[k]]))
    && (forall k: nat | 0 < k < |c| ::
          rows[c[k]].prolongs == Some(c[k - 1]) && rows[c[k]].grantedFrom < rows[c[k - 1]].expiresAt.value)
  }

  /** The first grant of the chain runs from its own approval. */
  predicate FromApproval(rows: Rows, c: seq<nat>)
    requires Chain(rows, c)
  {
    var r := rows[c[0]];
    r.prolongs.Some? && r.prolongs.value < |rows| && rows[r.prolongs.value].expiresAt.Some? ==>
      r.grantedFrom >= rows[r.prolongs.value].expiresAt.value
  }

  function Minutes(rows: Rows, c: seq<nat>): int
    requires forall k: nat | k < |c| :: c[k] < |rows|
  {
    if c == [] then 0 else Minutes(rows, c[..|c| - 1]) + rows[c[|c| - 1]].minutes
  }

  /** A chain ends its minutes, all added up, after its first approval. */
  lemma {:induction false} ChainLength(rows: Rows, clock: int, c: seq<nat>)
    requires Good(rows, clock) && Chain(rows, c) && FromApproval(rows, c)
    ensures rows[c[|c| - 1]].expiresAt.value == rows[c[0]].grantedFrom + Minutes(rows, c) * MINUTE
    ensures rows[c[|c| - 1]].tuple == rows[c[0]].tuple
  {
    var n := |c| - 1;
    assert RowGood(rows, c[n], clock);
    if n > 0 {
      ChainLength(rows, clock, c[..n]);
    } else {
      assert c[..n] == [];
    }
  }

  /** A grant that is there later and not now was decided later. */
  lemma {:induction false} DecidedLater(rows: Rows, clock: int, steps: seq<Step>, i: nat)
    requires IsRun(rows, clock, steps) && i < |After(rows, steps)| && After(rows, steps)[i].expiresAt.Some?
    requires i < |rows| ==> rows[i].expiresAt.None?
    ensures After(rows, steps)[i].grantedFrom >= clock
    decreases |steps|
  {
    if steps != [] {
      var next := Next(rows, steps[0]);
      if i < |next| && next[i].expiresAt.Some? {
        RunEvolves(next, steps[1..], i);
        DecisionStays(next, steps[1..], i);
      } else {
        DecidedLater(next, Until(steps[0]), steps[1..], i);
      }
    }
  }

  /** Once a request has a window, its decision and its window stay. */
  lemma {:induction false} DecisionStays(rows: Rows, steps: seq<Step>, i: nat)
    requires i < |rows| && rows[i].expiresAt.Some? && !rows[i].status.Pending?
    ensures i < |After(rows, steps)| && After(rows, steps)[i].grantedFrom == rows[i].grantedFrom
    ensures After(rows, steps)[i].expiresAt == rows[i].expiresAt
  {
    RunEvolves(rows, steps, i);
  }

  /** The last grant of the chain that has been decided by now is active now. */
  lemma LinkActive(rows: Rows, clock: int, now: int, rest: seq<Step>, c: seq<nat>, k: nat)
    requires Good(rows, clock) && clock <= now && IsRun(rows, now, rest) && Chain(After(rows, rest), c)
    requires k < |c| && c[k] < |rows| && rows[c[k]].expiresAt.Some?
    requires k + 1 < |c| ==> c[k + 1] < |rows| ==> rows[c[k + 1]].expiresAt.None?
    requires now < After(rows, rest)[c[|c| - 1]].expiresAt.value
    ensures Active(rows[c[k]], now)
  {
    var later := After(rows, rest);
    assert RowGood(rows, c[k], clock);
    RunEvolves(rows, rest, c[k]);
    DecisionStays(rows, rest, c[k]);
    if k + 1 < |c| {
      DecidedLater(rows, now, rest, c[k + 1]);
      assert later[c[k + 1]].grantedFrom < later[c[k]].expiresAt.value;
    }
  }

  /** How far the chain has been decided. */
  lemma {:induction false} LastDecided(rows: Rows, c: seq<nat>, k: nat) returns (last: nat)
    requires k < |c| && c[k] < |rows| && rows[c[k]].expiresAt.Some?
    ensures last < |c| && c[last] < |rows| && rows[c[last]].expiresAt.Some?
    ensures last + 1 < |c| ==> c[last + 1] < |rows| ==> rows[c[last + 1]].expiresAt.None?
    decreases |c| - k
  {
    if k + 1 < |c| && c[k + 1] < |rows| && rows[c[k + 1]].expiresAt.Some? {
      last := LastDecided(rows, c, k + 1);
    } else {
      last := k;
    }
  }

  lemma {:induction false} ChainTuple(rows: Rows, clock: int, c: seq<nat>, k: nat)
    requires Good(rows, clock) && Chain(rows, c) && k < |c|
    ensures rows[c[k]].tuple == rows[c[0]].tuple
  {
    if k > 0 {
      assert RowGood(rows, c[k], clock);
      ChainTuple(rows, clock, c, k - 1);
    }
  }

  /** Extensions leave no gap. Take any run, any moment `now` in it between the
      first approval of a chain and its last expiry, and the chain as the rest
      of the run leaves it: if each extension was approved while its
      predecessor was active and none was revoked, the user holds an active
      grant at that moment. The last expiry is the first approval plus all
      the minutes granted. */
  lemma ExtensionsLeaveNoGap(clock: int, first: seq<Step>, now: int, rest: seq<Step>, c: seq<nat>)
    requires IsRun([], clock, first) && ClockAfter(clock, first) <= now && IsRun(After([], first), now, rest)
    requires Chain(After(After([], first), rest), c) && FromApproval(After(After([], first), rest), c)
    requires c[0] < |After([], first)| && After([], first)[c[0]].expiresAt.Some?
    requires now < After(After([], first), rest)[c[|c| - 1]].expiresAt.value
    ensures var later := After(After([], first), rest);
            && HasActiveGrant(After([], first), later[c[0]].tuple, now)
            && later[c[|c| - 1]].expiresAt.value == later[c[0]].grantedFrom + Minutes(later, c) * MINUTE
  {
    var rows := After([], first);
    var later := After(rows, rest);
    RunGood([], clock, first);
    var past := ClockAfter(clock, first);
    forall i: nat | i < |rows| ensures RowGood(rows, i, now) { assert RowGood(rows, i, past); }
    RunGood(rows, now, rest);
    var end := ClockAfter(now, rest);
    ChainLength(later, end, c);
    var k := LastDecided(rows, c, 0);
    LinkActive(rows, past, now, rest, c, k);
    RunEvolves(rows, rest, c[k]);
    ChainTuple(later, end, c, k);
    assert rows[c[k]].tuple == later[c[0]].tuple;
  }

  /** What is granted is within the cap of every grant of a policy that covers the request when it is approved. */
  lemma GrantedWithinCaps(rows: Rows, step: Step, policies: seq<Policy>, j: nat, l: nat)
    requires step.Approve? && Reply(rows, step) == Accepted && CapIs(policies, step.cap) && QualifiesAt(policies, j, l)
    ensures var r := Next(rows, step)[step.id];
            r.status.Approved? && r.minutes <= MostMinutes(policies[j].grants[l])
  {
    var i: nat, k: nat :| EligibleBy(policies, i, k) && step.cap.value == MostMinutes(policies[i].grants[k]);
  }
}
