/** The request table as the handlers and the sweeper change it. */
module AccessRepo {
  import opened Basics
  import opened Strings
  import opened Access
  import opened AccessProofs
  import opened AccessSteps

  datatype Eligibility = Eligibility(policy: nat, grant: nat, maxMinutes: int)

  /** The approval grant that admits a request: the first with the shortest maximum of all that cover it. */
  method Eligible(policies: seq<Policy>) returns (best: Option<Eligibility>)
    ensures best.None? <==> forall i: nat, k: nat :: !QualifiesAt(policies, i, k)
    ensures best.Some? ==> var e := best.value;
                           EligibleBy(policies, e.policy, e.grant) && e.maxMinutes == MostMinutes(policies[e.policy].grants[e.grant])
    ensures CapIs(policies, if best.Some? then Some(best.value.maxMinutes) else None)
  {
    best := None;
    for i := 0 to |policies|
      invariant BestSoFar(policies, i, 0, best)
    {
      var p := policies[i];
      if !p.enabled {
        continue;
      }
      for k := 0 to |p.grants|
        invariant BestSoFar(policies, i, k, best)
      {
        var g := p.grants[k];
        if !g.approval || !g.covers {
          continue;
        }
        var most := DEFAULT_MAX_MINUTES;
        if g.maxMinutes.Some? && g.maxMinutes.value > 0 {
          most := g.maxMinutes.value;
        }
        if best.None? || most < best.value.maxMinutes {
          best := Some(Eligibility(i, k, most));
        }
      }
    }
  }

  /** The best of the grants that come before place (i, k). */
  ghost predicate BestSoFar(policies: seq<Policy>, i: nat, k: nat, best: Option<Eligibility>) {
    match best
    case None => forall j: nat, l: nat | QualifiesAt(policies, j, l) :: !Before(j, l, i, k)
    case Some(e) =>
      && QualifiesAt(policies, e.policy, e.grant) && e.maxMinutes == MostMinutes(policies[e.policy].grants[e.grant])
      && Before(e.policy, e.grant, i, k)
      && forall j: nat, l: nat | QualifiesAt(policies, j, l) && Before(j, l, i, k) ::
           var most := MostMinutes(policies[j].grants[l]);
           e.maxMinutes <= most && (e.maxMinutes == most ==> !Before(j, l, e.policy, e.grant))
  }

  class Requests {
    var rows: Rows

    constructor ()
      ensures rows == []
    {
      rows := [];
    }

    /** A newest request that occupies the tuple. */
    method Open(tuple: Tuple, now: int) returns (open: Option<nat>)
      ensures OpenIs(rows, tuple, now, open)
    {
      open := None;
      for i := 0 to |rows|
        invariant OpenIs(rows[..i], tuple, now, open)
      {
        assert rows[..i + 1] == rows[..i] + [rows[i]];
        if Occupies(rows[i], tuple, now) && (open.None? || rows[i].createdAt > rows[open.value].createdAt) {
          open := Some(i);
        }
      }
      assert rows[..|rows|] == rows;
    }

    method HasGrant(tuple: Tuple, now: int) returns (held: bool)
      ensures held <==> HasActiveGrant(rows, tuple, now)
    {
      for i := 0 to |rows|
        invariant forall k: nat | k < i :: !(rows[k].tuple == tuple && Active(rows[k], now))
      {
        if rows[i].tuple == tuple && Active(rows[i], now) {
          return true;
        }
      }
      return false;
    }

    /** Asks for access to a target or a group: one open request per tuple, and
        while a grant runs only an extension of it. */
    method Create(user: string, target: string, group: string, protocol: string, reason: string, minutes: int, prolongs: Option<nat>,
                  known: bool, policies: seq<Policy>, now: int, written: int)
      returns (answer: Answer, ghost step: Step)
      modifies this
      ensures (target == "") == (group == "") ==> answer == Refused(Invalid) && rows == old(rows)
      ensures (target == "") != (group == "") ==>
                && step.Create? && step.at == now && step.written == written
                && step.tuple == Tuple(user, if target != "" then Target(target) else Group(group), protocol)
                && step.reason == reason && step.minutes == minutes && step.prolongs == prolongs && step.known == known
                && CapIs(policies, step.cap) && CanTake(old(rows), step)
                && answer == Reply(old(rows), step) && rows == Next(old(rows), step)
    {
      var tuple := Tuple(user, if target != "" then Target(target) else Group(group), protocol);
      var eligible := Eligible(policies);
      var open := Open(tuple, now);
      ghost var cap := if eligible.Some? then Some(eligible.value.maxMinutes) else None;
      step := Step.Create(now, written, tuple, reason, minutes, prolongs, known, cap, open);
      if (target == "") == (group == "") || protocol == "" {
        return Refused(Invalid), step;
      } else if Trim(reason) == "" {
        return Refused(Invalid), step;
      } else if minutes < 1 {
        return Refused(Invalid), step;
      }
      if !known {
        return Refused(NotFound), step;
      }
      if eligible.None? {
        return Refused(NotEligible), step;
      }
      if minutes > eligible.value.maxMinutes {
        return Refused(TooLong), step;
      }
      if open.Some? && rows[open.value].status.Pending? {
        return Refused(Duplicate), step;
      } else if open.Some? && prolongs.None? {
        return Refused(AlreadyGranted), step;
      } else if prolongs.Some? && (open.None? || open.value != prolongs.value) {
        return Refused(NotExtendable), step;
      }
      rows := rows + [Request(tuple, Trim(reason), minutes, prolongs, written, Pending, 0, 0, 0, None)];
      answer := Accepted;
    }

    /** Approves a pending request, inside the cap of the policies as they stand now. */
    method Approve(id: nat, override: int, who: Approver, known: bool, policies: seq<Policy>, now: int, written: int)
      returns (answer: Answer, ghost cap: Option<int>)
      modifies this
      ensures CapIs(policies, cap)
      ensures answer == Reply(old(rows), Step.Approve(now, written, id, override, who, known, cap))
      ensures rows == Next(old(rows), Step.Approve(now, written, id, override, who, known, cap))
    {
      var eligible := Eligible(policies);
      cap := if eligible.Some? then Some(eligible.value.maxMinutes) else None;
      if id >= |rows| {
        return Refused(NotFound), cap;
      }
      var cur := rows[id];
      if !cur.status.Pending? {
        return Refused(WrongState), cap;
      }
      if who.asked && !who.recent && who.enrolled != Some(false) {
        return Refused(StepUpRequired), cap;
      }
      if !known {
        return Refused(NotFound), cap;
      }
      if eligible.None? {
        return Refused(NotEligible), cap;
      }
      var minutes := cur.requested;
      if override != 0 {
        if override < 1 {
          return Refused(Invalid), cap;
        }
        minutes := override;
      }
      if minutes > eligible.value.maxMinutes {
        return Refused(TooLong), cap;
      }
      var base := now;
      if cur.prolongs.Some? && cur.prolongs.value < |rows| {
        var prev := rows[cur.prolongs.value];
        if Active(prev, now) {
          base := prev.expiresAt.value;
        }
      }
      rows := rows[id := cur.(status := Approved, minutes := minutes, grantedFrom := now, decidedAt := written,
                              expiresAt := Some(base + minutes * MINUTE))];
      answer := Accepted;
    }

    /** Revokes the requests of a target or group that goes away, and says how many. */
    method CloseFor(subject: Subject, now: int) returns (n: nat)
      modifies this
      ensures rows == Next(old(rows), Step.CloseFor(now, subject))
      ensures n == |set i: nat | i < |rows| && rows[i] != old(rows)[i]|
      ensures forall user, protocol, t :: !HasActiveGrant(rows, Tuple(user, subject, protocol), t)
    {
      var before := rows;
      n := 0;
      ghost var closed: set<nat> := {};
      for i := 0 to |before|
        invariant |rows| == |before| && n == |closed|
        invariant forall k: nat | k < i :: rows[k] == Closed(before[k], subject)
        invariant forall k: nat | i <= k < |before| :: rows[k] == before[k]
        invariant closed == set k: nat | k < i && rows[k] != before[k]
      {
        var r := rows[i];
        if r.tuple.subject == subject && (r.status.Pending? || r.status.Approved?) {
          rows, n := rows[i := r.(status := Revoked)], n + 1;
          closed := closed + {i};
        }
      }
    }

    /** Expires every grant that is due at the cutoff; the due set that is
        reported is the set that was flipped. */
    method Sweep(now: int) returns (due: seq<nat>)
      modifies this
      ensures rows == Next(old(rows), Step.Sweep(now))
      ensures forall i: nat :: i in due <==> i < |rows| && rows[i] != old(rows)[i]
      ensures forall i: nat, j: nat | i < j < |due| :: due[i] != due[j]
    {
      due := [];
      for i := 0 to |rows|
        invariant forall k: nat :: k in due <==> k < i && Due(rows[k], now)
        invariant forall k: nat, l: nat | k < l < |due| :: due[k] != due[l]
      {
        if Due(rows[i], now) {
          due := due + [i];
        }
      }
      if |due| == 0 {
        assert forall k: nat | k < |rows| :: k !in due;
        assert rows == Next(rows, Step.Sweep(now));
        return;
      }
      for i := 0 to |rows|
        invariant |rows| == |old(rows)|
        invariant forall k: nat | k < |rows| :: rows[k] == if k < i then Swept(old(rows)[k], now) else old(rows)[k]
      {
        if Due(rows[i], now) {
          rows := rows[i := rows[i].(status := Expired)];
        }
      }
    }

    method Deny(id: nat, now: int) returns (answer: Answer)
      modifies this
      ensures answer == Reply(old(rows), Step.Deny(now, id)) && rows == Next(old(rows), Step.Deny(now, id))
      ensures answer == Accepted <==> id < |old(rows)| && old(rows)[id].status == Pending
      ensures answer == Accepted ==> OnlyRow(old(rows), rows, id) && rows[id].status == Denied && OverAt(rows, id)
      ensures answer != Accepted ==> rows == old(rows)
    {
      if id >= |rows| {
        return Refused(NotFound);
      }
      if !rows[id].status.Pending? {
        return Refused(WrongState);
      }
      rows := rows[id := rows[id].(status := Denied, decidedAt := now, expiresAt := None)];
      TerminalIsOver(rows, id);
      answer := Accepted;
    }

    method Revoke(id: nat, now: int) returns (answer: Answer)
      modifies this
      ensures answer == Reply(old(rows), Step.Revoke(now, id)) && rows == Next(old(rows), Step.Revoke(now, id))
      ensures answer == Accepted <==> id < |old(rows)| && old(rows)[id].status == Approved
      ensures answer == Accepted ==>
                OnlyRow(old(rows), rows, id) && rows[id] == old(rows)[id].(status := Revoked) && OverAt(rows, id)
      ensures answer != Accepted ==> rows == old(rows)
    {
      if id >= |rows| {
        return Refused(NotFound);
      }
      if !rows[id].status.Approved? {
        return Refused(WrongState);
      }
      rows := rows[id := rows[id].(status := Revoked)];
      TerminalIsOver(rows, id);
      answer := Accepted;
    }
  }
}
