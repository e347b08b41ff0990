/** What every run of the request lifecycle keeps. */
module AccessProofs {
  import opened Basics
  import opened Strings
  import opened Access

  // ---- runs

  /** A create step carries an answer the open query may give. */
  ghost predicate CanTake(rows: Rows, step: Step) {
    step.Create? ==> OpenIs(rows, step.tuple, step.at, step.open)
  }

  /** Steps taken one after another under a clock that does not go back. */
  ghost predicate IsRun(rows: Rows, clock: int, steps: seq<Step>)
    decreases |steps|
  {
    steps == [] ||
    (clock <= steps[0].at <= Until(steps[0]) && CanTake(rows, steps[0]) && IsRun(Next(rows, steps[0]), Until(steps[0]), steps[1..]))
  }

  function After(rows: Rows, steps: seq<Step>): Rows
    decreases |steps|
  {
    if steps == [] then rows else After(Next(rows, steps[0]), steps[1..])
  }

  function ClockAfter(clock: int, steps: seq<Step>): int
    decreases |steps|
  {
    if steps == [] then clock else ClockAfter(Until(steps[0]), steps[1..])
  }

  lemma {:induction false} ClockForward(rows: Rows, clock: int, steps: seq<Step>)
    requires IsRun(rows, clock, steps)
    ensures clock <= ClockAfter(clock, steps)
    decreases |steps|
  {
    if steps != [] { ClockForward(Next(rows, steps[0]), Until(steps[0]), steps[1..]); }
  }

  // ---- a decision is never taken back

  predicate Terminal(s: Status) { s.Denied? || s.Expired? || s.Revoked? }

  /** What can become of a request: what was asked stays, a pending one may be
      decided, a grant may only end, and whatever is over stays as it is. */
  predicate Evolves(r: Request, later: Request) {
    && later.tuple == r.tuple && later.reason == r.reason && later.requested == r.requested
    && later.prolongs == r.prolongs && later.createdAt == r.createdAt
    && (r.status.Approved? ==> later == r || later == r.(status := Expired) || later == r.(status := Revoked))
    && (Terminal(r.status) ==> later == r)
  }

  lemma NextEvolves(rows: Rows, step: Step, i: nat)
    requires i < |rows|
    ensures |rows| <= |Next(rows, step)| && Evolves(rows[i], Next(rows, step)[i])
  {
  }

  lemma {:induction false} RunEvolves(rows: Rows, steps: seq<Step>, i: nat)
    requires i < |rows|
    ensures i < |After(rows, steps)| && Evolves(rows[i], After(rows, steps)[i])
    decreases |steps|
  {
    if steps != [] {
      NextEvolves(rows, steps[0], i);
      RunEvolves(Next(rows, steps[0]), steps[1..], i);
    }
  }

  /** Denied, expired and revoked are never left, whatever steps follow. */
  lemma TerminalForever(rows: Rows, steps: seq<Step>, i: nat)
    requires i < |rows| && Terminal(rows[i].status)
    ensures i < |After(rows, steps)| && After(rows, steps)[i] == rows[i]
  {
    RunEvolves(rows, steps, i);
  }

  // ---- what every reachable table keeps

  /** When a grant ends: its minutes after it was approved, or after the end of
      the grant it extends if that was still running. */
  predicate EndsRight(rows: Rows, i: nat)
    requires i < |rows| && rows[i].expiresAt.Some?
  {
    var r := rows[i];
    var own := r.grantedFrom + r.minutes * MINUTE;
    if r.prolongs.None? then r.expiresAt.value == own
    else
      && r.prolongs.value < i && rows[r.prolongs.value].expiresAt.Some?
      && var before := rows[r.prolongs.value];
         && (r.grantedFrom >= before.expiresAt.value ==> r.expiresAt.value == own)
         && (r.grantedFrom < before.expiresAt.value && !before.status.Revoked? ==>
               r.expiresAt.value == before.expiresAt.value + r.minutes * MINUTE)
  }

  ghost predicate RowGood(rows: Rows, i: nat, clock: int)
    requires i < |rows|
  {
    var r := rows[i];
    && r.requested >= 1 && r.createdAt <= clock
    && (r.status.Pending? || r.status.Denied? ==> r.expiresAt.None?)
    && (r.status.Approved? || r.status.Expired? ==> r.expiresAt.Some?)
    && (r.expiresAt.Some? ==> r.minutes >= 1 && r.createdAt <= r.grantedFrom <= r.decidedAt <= clock && r.grantedFrom < r.expiresAt.value && EndsRight(rows, i))
    && (r.status.Expired? ==> r.expiresAt.value <= clock)
    && (r.prolongs.Some? ==>
          r.prolongs.value < i && rows[r.prolongs.value].tuple == r.tuple && rows[r.prolongs.value].expiresAt.Some?)
  }

  ghost predicate Good(rows: Rows, clock: int) {
    forall i: nat | i < |rows| :: RowGood(rows, i, clock)
  }

  lemma CreateGood(rows: Rows, clock: int, step: Step)
    requires Good(rows, clock) && clock <= step.at <= Until(step) && CanTake(rows, step) && step.Create? && Reply(rows, step) == Accepted
    ensures Good(Next(rows, step), Until(step))
  {
    var next := Next(rows, step);
    forall i: nat | i < |next| ensures RowGood(next, i, Until(step)) {
      if i < |rows| {
        assert RowGood(rows, i, clock);
      } else if step.prolongs.Some? {
        assert RowGood(rows, step.prolongs.value, clock);
      }
    }
  }

  lemma ApproveGood(rows: Rows, clock: int, step: Step)
    requires Good(rows, clock) && clock <= step.at <= Until(step) && step.Approve? && Reply(rows, step) == Accepted
    ensures Good(Next(rows, step), Until(step))
  {
    var next := Next(rows, step);
    assert RowGood(rows, step.id, clock);
    if rows[step.id].prolongs.Some? { assert RowGood(rows, rows[step.id].prolongs.value, clock); }
    forall i: nat | i < |next| ensures RowGood(next, i, Until(step)) {
      assert RowGood(rows, i, clock);
    }
  }

  /** Steps that only end requests. */
  lemma EndingGood(rows: Rows, clock: int, step: Step)
    requires Good(rows, clock) && clock <= step.at <= Until(step) && !step.Create? && !step.Approve?
    ensures Good(Next(rows, step), Until(step))
  {
    var next := Next(rows, step);
    forall i: nat | i < |next| ensures RowGood(next, i, Until(step)) {
      assert RowGood(rows, i, clock);
      if rows[i].prolongs.Some? { assert RowGood(rows, rows[i].prolongs.value, clock); }
    }
  }

  lemma NextGood(rows: Rows, clock: int, step: Step)
    requires Good(rows, clock) && clock <= step.at <= Until(step) && CanTake(rows, step)
    ensures Good(Next(rows, step), Until(step))
  {
    if Reply(rows, step) != Accepted {
      forall i: nat | i < |rows| ensures RowGood(rows, i, Until(step)) { assert RowGood(rows, i, clock); }
    } else if step.Create? {
      CreateGood(rows, clock, step);
    } else if step.Approve? {
      ApproveGood(rows, clock, step);
    } else {
      EndingGood(rows, clock, step);
    }
  }

  lemma {:induction false} RunGood(rows: Rows, clock: int, steps: seq<Step>)
    requires Good(rows, clock) && IsRun(rows, clock, steps)
    ensures Good(After(rows, steps), ClockAfter(clock, steps))
    decreases |steps|
  {
    if steps != [] {
      NextGood(rows, clock, steps[0]);
      RunGood(Next(rows, steps[0]), Until(steps[0]), steps[1..]);
    }
  }

  // ---- one pending request at a time

  /** A pending request comes after every other of its tuple, none of which
      waits, and was asked for strictly later than every grant among them. */
  ghost predicate PendingIsNewest(rows: Rows) {
    forall i: nat, j: nat | i < |rows| && j < |rows| && i != j && rows[i].tuple == rows[j].tuple && rows[i].status.Pending? ::
      && j < i && rows[j].createdAt <= rows[i].createdAt && !rows[j].status.Pending?
      && (rows[j].status.Approved? ==> rows[j].createdAt < rows[i].createdAt)
  }

  /** So the open query, which answers with one row, answers with the pending request. */
  lemma OpenSeesPending(rows: Rows, i: nat, now: int, open: Option<nat>)
    requires PendingIsNewest(rows) && i < |rows| && rows[i].status.Pending?
    requires OpenIs(rows, rows[i].tuple, now, open)
    ensures open == Some(i)
  {
    assert Occupies(rows[i], rows[i].tuple, now);
    assert open.Some?;
  }

  /** The clock has moved on since the grant to be extended was asked for. */
  predicate Moved(rows: Rows, step: Step) {
    step.Create? && step.prolongs.Some? && step.prolongs.value < |rows| ==> rows[step.prolongs.value].createdAt < step.written
  }

  /** A request that is accepted is the newest of its tuple, and stays the one
      the open query sees, exactly when it is no extension or the clock has
      moved on since the grant it extends was asked for. */
  lemma CreateNewest(rows: Rows, clock: int, step: Step)
    requires Good(rows, clock) && PendingIsNewest(rows) && clock <= step.at <= Until(step) && CanTake(rows, step)
    requires step.Create? && Reply(rows, step) == Accepted
    ensures PendingIsNewest(Next(rows, step)) <==> Moved(rows, step)
  {
    var n := |rows|;
    var next := Next(rows, step);
    forall j: nat | j < n && rows[j].tuple == step.tuple
      ensures !rows[j].status.Pending? && rows[j].createdAt <= step.written
      ensures rows[j].status.Approved? && Moved(rows, step) ==> rows[j].createdAt < step.written
    {
      assert RowGood(rows, j, clock);
      if rows[j].status.Pending? {
        OpenSeesPending(rows, j, step.at, step.open);
      } else if Active(rows[j], step.at) {
        assert Occupies(rows[j], step.tuple, step.at);
      }
    }
    if !Moved(rows, step) {
      var p := step.prolongs.value;
      assert RowGood(rows, p, clock);
      assert next[n].status.Pending? && next[p].status.Approved? && next[p].tuple == next[n].tuple;
    }
  }

  lemma NextNewest(rows: Rows, clock: int, step: Step)
    requires Good(rows, clock) && PendingIsNewest(rows) && clock <= step.at <= Until(step) && CanTake(rows, step) && Moved(rows, step)
    ensures PendingIsNewest(Next(rows, step))
  {
    if step.Create? && Reply(rows, step) == Accepted {
      CreateNewest(rows, clock, step);
    } else {
      var next := Next(rows, step);
      forall i: nat, j: nat | i < |next| && j < |next| && i != j && next[i].tuple == next[j].tuple && next[i].status.Pending?
        ensures j < i && next[j].createdAt <= next[i].createdAt && !next[j].status.Pending?
        ensures next[j].status.Approved? ==> next[j].createdAt < next[i].createdAt
      {
        NextEvolves(rows, step, i);
        NextEvolves(rows, step, j);
        assert rows[i].tuple == rows[j].tuple && rows[i].status.Pending?;
      }
    }
  }

  /** Every extension is asked for after its grant was. */
  ghost predicate AllMoved(rows: Rows, steps: seq<Step>)
    decreases |steps|
  {
    steps == [] || (Moved(rows, steps[0]) && AllMoved(Next(rows, steps[0]), steps[1..]))
  }

  /** In every reachable table each tuple has at most one pending request, and it is the newest of its tuple. */
  lemma {:induction false} OnePending(rows: Rows, clock: int, steps: seq<Step>)
    requires Good(rows, clock) && PendingIsNewest(rows) && IsRun(rows, clock, steps) && AllMoved(rows, steps)
    ensures PendingIsNewest(After(rows, steps))
    decreases |steps|
  {
    if steps != [] {
      NextNewest(rows, clock, steps[0]);
      NextGood(rows, clock, steps[0]);
      OnePending(Next(rows, steps[0]), Until(steps[0]), steps[1..]);
    }
  }

  /** With a clock that stands still the rule can be broken: a request granted
      and extended at the very time it was made hides the pending extension,
      and a second one is let through. */
  lemma TieHidesPending(tuple: Tuple, reason: string, who: Approver)
    requires tuple.subject.id != "" && tuple.protocol != "" && Trim(reason) != "" && SteppedUp(who)
    ensures var more := Create(0, 0, tuple, reason, 1, Some(0), true, Some(480), Some(0));
            var steps := [Create(0, 0, tuple, reason, 1, None, true, Some(480), None),
                          Approve(0, 0, 0, 0, who, true, Some(480)), more, more];
            var rows := After([], steps);
            IsRun([], 0, steps) && |rows| == 3 && rows[1].tuple == rows[2].tuple && rows[1].status.Pending? && rows[2].status.Pending?
  {
    var asked := Create(0, 0, tuple, reason, 1, None, true, Some(480), None);
    var granted := Approve(0, 0, 0, 0, who, true, Some(480));
    var more := Create(0, 0, tuple, reason, 1, Some(0), true, Some(480), Some(0));
    var r0 := Asked(tuple, reason, 1, None, 0);
    var r1 := r0.(status := Approved, minutes := 1, expiresAt := Some(MINUTE));
    var r2 := Asked(tuple, reason, 1, Some(0), 0);
    assert Next([], asked) == [r0];
    assert Next([r0], granted) == [r1];
    assert Next([r1], more) == [r1, r2];
    assert Next([r1, r2], more) == [r1, r2, r2];
    var steps := [asked, granted, more, more];
    assert steps[1..] == [granted, more, more] && steps[1..][1..] == [more, more] && [more, more][1..] == [more];
    assert After([r1, r2], [more]) == [r1, r2, r2];
    assert After([r1], [more, more]) == [r1, r2, r2];
    assert IsRun([r1, r2], 0, [more]);
    assert IsRun([r1], 0, [more, more]);
    assert IsRun([r0], 0, [granted, more, more]);
  }
}
