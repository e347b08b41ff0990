/** What each step of the request lifecycle does, in the words of the table:
    when it is accepted, which row it changes and how, and what holds from
    then on. */
module AccessSteps {
  import opened Basics
  import opened Strings
  import opened Access
  import opened AccessProofs

  // ---- asking

  /** The grant lets the request be asked for: it is an approval grant of an enabled policy and covers it. */
  predicate LetsAsk(policies: seq<Policy>, i: nat, k: nat) {
    i < |policies| && policies[i].enabled && k < |policies[i].grants| && policies[i].grants[k].approval && policies[i].grants[k].covers
  }

  /** The minutes a grant allows: its positive maximum, or eight hours when it has none. */
  predicate Allows(g: Grant, minutes: int) {
    match g.maxMinutes
    case Some(most) => minutes <= if most > 0 then most else 480
    case None => minutes <= 480
  }

  /** Some grant lets the request be asked for, and every one that does allows these minutes. */
  ghost predicate WithinEvery(policies: seq<Policy>, minutes: int) {
    && (exists i: nat, k: nat :: LetsAsk(policies, i, k))
    && (forall i: nat, k: nat | LetsAsk(policies, i, k) :: Allows(policies[i].grants[k], minutes))
  }

  lemma GrantsAllow(policies: seq<Policy>, minutes: int)
    ensures forall i: nat, k: nat :: QualifiesAt(policies, i, k) <==> LetsAsk(policies, i, k)
    ensures forall i: nat, k: nat | LetsAsk(policies, i, k) ::
              Allows(policies[i].grants[k], minutes) <==> minutes <= MostMinutes(policies[i].grants[k])
  {
  }

  lemma CapWithinEvery(policies: seq<Policy>, cap: Option<int>, minutes: int)
    requires CapIs(policies, cap)
    ensures cap.Some? && minutes <= cap.value <==> WithinEvery(policies, minutes)
  {
    GrantsAllow(policies, minutes);
    if cap.Some? {
      var i: nat, k: nat :| EligibleBy(policies, i, k) && cap.value == MostMinutes(policies[i].grants[k]);
      assert LetsAsk(policies, i, k);
      forall j: nat, l: nat | LetsAsk(policies, j, l) ensures cap.value <= MostMinutes(policies[j].grants[l]) {
        assert QualifiesAt(policies, j, l);
      }
    }
  }

  predicate WaitsAt(rows: Rows, tuple: Tuple, i: nat) { i < |rows| && rows[i].tuple == tuple && rows[i].status == Pending }

  /** A grant inside its window. */
  predicate Runs(r: Request, now: int) { r.status == Approved && r.expiresAt.Some? && now < r.expiresAt.value }

  predicate RunsAt(rows: Rows, tuple: Tuple, now: int, i: nat) { i < |rows| && rows[i].tuple == tuple && Runs(rows[i], now) }

  /** The tuple takes a new request: nothing of it waits, and either nothing of
      it runs and no grant is to be extended, or the grant to be extended runs
      and no other that runs is newer. */
  ghost predicate Admits(rows: Rows, tuple: Tuple, now: int, prolongs: Option<nat>) {
    && (forall i: nat :: !WaitsAt(rows, tuple, i))
    && match prolongs
       case None => forall i: nat :: !RunsAt(rows, tuple, now, i)
       case Some(q) =>
         RunsAt(rows, tuple, now, q) && forall i: nat | RunsAt(rows, tuple, now, i) :: rows[i].createdAt <= rows[q].createdAt
  }

  ghost predicate WellAsked(step: Step)
    requires step.Create?
  {
    && step.tuple.subject.id != "" && step.tuple.protocol != "" && (exists c | c in step.reason :: !IsSpace(c))
    && 1 <= step.minutes && step.known
  }

  lemma OpenAdmits(rows: Rows, tuple: Tuple, now: int, prolongs: Option<nat>, open: Option<nat>)
    requires PendingIsNewest(rows) && OpenIs(rows, tuple, now, open)
    ensures Admits(rows, tuple, now, prolongs) ==>
              (open.Some? ==> !rows[open.value].status.Pending? && prolongs.Some?) && (prolongs.Some? ==> open.Some?)
    ensures (open.Some? ==> !rows[open.value].status.Pending?) ==> forall i: nat :: !WaitsAt(rows, tuple, i)
    ensures open.None? <==> forall i: nat :: !WaitsAt(rows, tuple, i) && !RunsAt(rows, tuple, now, i)
  {
    forall i: nat ensures WaitsAt(rows, tuple, i) || RunsAt(rows, tuple, now, i) <==> i < |rows| && Occupies(rows[i], tuple, now) {}
    if open.Some? { assert Occupies(rows[open.value], tuple, now); }
    forall i: nat | WaitsAt(rows, tuple, i) ensures open == Some(i) { OpenSeesPending(rows, i, now, open); }
  }

  /** The grant to be extended is newer than every other that runs. */
  ghost predicate OnlyNewest(rows: Rows, tuple: Tuple, now: int, q: nat) {
    q < |rows| && forall i: nat | i != q && RunsAt(rows, tuple, now, i) :: rows[i].createdAt < rows[q].createdAt
  }

  /** A request is accepted only if it is well formed, within every cap that
      covers it, and admitted by what its tuple has in the table; and then it
      is, unless two grants that run were asked for at the very same time. */
  lemma CreateExactly(rows: Rows, step: Step, policies: seq<Policy>)
    requires step.Create? && CanTake(rows, step) && CapIs(policies, step.cap) && PendingIsNewest(rows)
    ensures Reply(rows, step) == Accepted ==>
              WellAsked(step) && WithinEvery(policies, step.minutes) && Admits(rows, step.tuple, step.at, step.prolongs)
    ensures && WellAsked(step) && WithinEvery(policies, step.minutes) && Admits(rows, step.tuple, step.at, step.prolongs)
            && (step.prolongs.Some? ==> OnlyNewest(rows, step.tuple, step.at, step.prolongs.value))
            ==> Reply(rows, step) == Accepted
  {
    BlankIs(step.reason);
    CapWithinEvery(policies, step.cap, step.minutes);
    OpenAdmits(rows, step.tuple, step.at, step.prolongs, step.open);
    if step.open.Some? {
      var o := step.open.value;
      assert Occupies(rows[o], step.tuple, step.at);
      assert rows[o].status.Pending? || RunsAt(rows, step.tuple, step.at, o);
      forall i: nat | RunsAt(rows, step.tuple, step.at, i) ensures rows[i].createdAt <= rows[o].createdAt {
        assert Occupies(rows[i], step.tuple, step.at);
      }
    }
  }

  /** An accepted request is one new row that waits, with what was asked, and no other row changes. */
  lemma CreateAdds(rows: Rows, step: Step)
    requires step.Create? && Reply(rows, step) == Accepted
    ensures var after := Next(rows, step);
            && |after| == |rows| + 1 && after[..|rows|] == rows
            && var r := after[|rows|];
               && r.tuple == step.tuple && r.requested == step.minutes && r.prolongs == step.prolongs && r.createdAt == step.written
               && r.status == Pending && r.expiresAt == None && r.reason == Trim(step.reason)
               && WaitsAt(after, step.tuple, |rows|)
  {
  }

  // ---- deciding

  /** The row alone has changed. */
  ghost predicate OnlyRow(rows: Rows, after: Rows, id: nat) {
    |after| == |rows| && id < |rows| && forall i: nat | i < |rows| && i != id :: after[i] == rows[i]
  }

  /** An approval is accepted exactly when the request waits, the approver has
      proved themselves where that is asked, the target is still there and the
      minutes are within every cap that covers the request now. */
  lemma ApproveExactly(rows: Rows, step: Step, policies: seq<Policy>)
    requires step.Approve? && CapIs(policies, step.cap)
    ensures Reply(rows, step) == Accepted <==>
              && step.id < |rows| && rows[step.id].status == Pending
              && (step.who.asked && !step.who.recent ==> step.who.enrolled == Some(false))
              && step.known && step.override >= 0
              && WithinEvery(policies, if step.override == 0 then rows[step.id].requested else step.override)
  {
    if step.id < |rows| { CapWithinEvery(policies, step.cap, if step.override == 0 then rows[step.id].requested else step.override); }
    CapWithinEvery(policies, step.cap, 0);
  }

  /** The request approved runs for the minutes granted, from the end of the
      grant it extends while that runs and otherwise from now. */
  lemma ApproveGrants(rows: Rows, step: Step)
    requires step.Approve? && Reply(rows, step) == Accepted
    ensures var after := Next(rows, step);
            var was, r := rows[step.id], after[step.id];
            && OnlyRow(rows, after, step.id)
            && r == was.(status := Approved, minutes := r.minutes, grantedFrom := step.at, decidedAt := step.written, expiresAt := r.expiresAt)
            && r.minutes == (if step.override == 0 then was.requested else step.override)
            && r.expiresAt.Some?
            && var from := r.expiresAt.value - r.minutes * 60_000_000;
               if was.prolongs.Some? && was.prolongs.value < |rows| && Runs(rows[was.prolongs.value], step.at)
               then from == rows[was.prolongs.value].expiresAt.value else from == step.at
  {
  }

  /** A denial is of a request that waits, and makes it denied. */
  lemma DenyDenies(rows: Rows, now: int, id: nat)
    ensures Reply(rows, Deny(now, id)) == Accepted <==> id < |rows| && rows[id].status == Pending
    ensures Reply(rows, Deny(now, id)) == Accepted ==>
              var after := Next(rows, Deny(now, id));
              OnlyRow(rows, after, id) && after[id] == rows[id].(status := Denied, decidedAt := now, expiresAt := None)
  {
  }

  /** A revocation is of a grant, run out or not, and makes it revoked. */
  lemma RevokeRevokes(rows: Rows, now: int, id: nat)
    ensures Reply(rows, Revoke(now, id)) == Accepted <==> id < |rows| && rows[id].status == Approved
    ensures Reply(rows, Revoke(now, id)) == Accepted ==>
              var after := Next(rows, Revoke(now, id));
              OnlyRow(rows, after, id) && after[id] == rows[id].(status := Revoked)
  {
  }

  // ---- what a decision ends

  /** The request does not wait, and at no time does it run. */
  ghost predicate Over(r: Request) { r.status != Pending && forall now :: !Runs(r, now) }

  /** It is over, and stays so whatever steps follow. */
  ghost predicate OverAt(rows: Rows, id: nat) {
    forall steps: seq<Step> :: id < |After(rows, steps)| && Over(After(rows, steps)[id])
  }

  lemma TerminalIsOver(rows: Rows, id: nat)
    requires id < |rows| && rows[id].status in {Denied, Revoked, Expired}
    ensures OverAt(rows, id)
  {
    forall steps: seq<Step> ensures id < |After(rows, steps)| && Over(After(rows, steps)[id]) { TerminalForever(rows, steps, id); }
  }

  /** A revoked grant is over for good, and so is the access of a user who held no other. */
  lemma RevokeEnds(rows: Rows, now: int, id: nat, t: int)
    requires id < |rows| && rows[id].status == Approved
    ensures var after := Next(rows, Revoke(now, id));
            && OverAt(after, id)
            && ((forall i: nat | i != id :: !RunsAt(rows, rows[id].tuple, t, i)) ==> !HasActiveGrant(after, rows[id].tuple, t))
  {
    RevokeRevokes(rows, now, id);
    var after := Next(rows, Revoke(now, id));
    TerminalIsOver(after, id);
    forall i: nat | i < |after| ensures after[i].tuple == rows[i].tuple && (i != id ==> Active(after[i], t) == Runs(rows[i], t)) {}
    if HasActiveGrant(after, rows[id].tuple, t) && forall i: nat | i != id :: !RunsAt(rows, rows[id].tuple, t, i) {
      var i: nat :| i < |after| && after[i].tuple == rows[id].tuple && Active(after[i], t);
      assert i == id || RunsAt(rows, rows[id].tuple, t, i);
    }
  }

  /** A denied request is over for good, and its tuple admits a new one unless something else of it waits or runs. */
  lemma DenyFrees(rows: Rows, now: int, id: nat, t: int)
    requires id < |rows| && rows[id].status == Pending
    ensures var after := Next(rows, Deny(now, id));
            && OverAt(after, id)
            && (Admits(after, rows[id].tuple, t, None) <==>
                forall i: nat | i != id :: !WaitsAt(rows, rows[id].tuple, i) && !RunsAt(rows, rows[id].tuple, t, i))
  {
    DenyDenies(rows, now, id);
    var tuple, after := rows[id].tuple, Next(rows, Deny(now, id));
    TerminalIsOver(after, id);
    forall i: nat ensures WaitsAt(after, tuple, i) <==> i != id && WaitsAt(rows, tuple, i) {}
    forall i: nat ensures RunsAt(after, tuple, t, i) <==> i != id && RunsAt(rows, tuple, t, i) {}
  }

  /** Closing a target or group revokes exactly its requests that wait or were granted; the rest stay. */
  lemma CloseRevokes(rows: Rows, now: int, subject: Subject, i: nat)
    requires i < |rows|
    ensures var after := Next(rows, CloseFor(now, subject));
            && |after| == |rows|
            && after[i] == (if rows[i].tuple.subject == subject && rows[i].status in {Pending, Approved} then rows[i].(status := Revoked) else rows[i])
            && (rows[i].tuple.subject == subject ==> OverAt(after, i))
  {
    var after := Next(rows, CloseFor(now, subject));
    if rows[i].tuple.subject == subject { TerminalIsOver(after, i); }
  }

  /** So no request of it is open and nobody holds it, until it is asked for again. */
  lemma CloseEnds(rows: Rows, now: int, tuple: Tuple, t: int)
    ensures var after := Next(rows, CloseFor(now, tuple.subject));
            OpenIs(after, tuple, t, None) && !HasActiveGrant(after, tuple, t)
  {
    var after := Next(rows, CloseFor(now, tuple.subject));
    forall i: nat | i < |after| ensures !Occupies(after[i], tuple, t) { CloseRevokes(rows, now, tuple.subject, i); }
  }

  /** A sweep expires exactly the grants whose end is not after the cutoff, and changes nothing else. */
  lemma SweepExpires(rows: Rows, now: int, i: nat)
    requires i < |rows|
    ensures var after := Next(rows, Sweep(now));
            && |after| == |rows|
            && after[i] == (if rows[i].status == Approved && rows[i].expiresAt.Some? && rows[i].expiresAt.value <= now
                            then rows[i].(status := Expired) else rows[i])
            && (after[i].status == Approved && after[i].expiresAt.Some? ==> Runs(after[i], now))
  {
  }
}
