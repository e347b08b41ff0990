/** Just-in-time access: a request is asked for, decided, and as a grant it
    runs out, is revoked, or is closed with its target. Times are whole
    microseconds; a request's id is its place in the table. */
module Access {
  import opened Basics
  import opened Strings

  const MINUTE: int := 60_000_000
  const DEFAULT_MAX_MINUTES: int := 480

  datatype Status = Pending | Approved | Denied | Expired | Revoked

  datatype Subject = Target(id: string) | Group(id: string)

  /** What access is asked for, and by whom. */
  datatype Tuple = Tuple(user: string, subject: Subject, protocol: string)

  /** `grantedFrom` is when the window of a grant was worked out, just before the decision was written down. */
  datatype Request = Request(tuple: Tuple, reason: string, requested: int, prolongs: Option<nat>, createdAt: int, status: Status,
                             minutes: int, grantedFrom: int, decidedAt: int, expiresAt: Option<int>)

  type Rows = seq<Request>

  predicate Active(r: Request, now: int) { r.status.Approved? && r.expiresAt.Some? && now < r.expiresAt.value }

  /** The request occupies its tuple: it waits for a decision, or it is a grant inside its window. */
  predicate Occupies(r: Request, tuple: Tuple, now: int) {
    r.tuple == tuple && (r.status.Pending? || Active(r, now))
  }

  /** Any of the newest requests that occupy the tuple may be the one answered. */
  ghost predicate OpenIs(rows: Rows, tuple: Tuple, now: int, open: Option<nat>) {
    match open
    case None => forall i: nat | i < |rows| :: !Occupies(rows[i], tuple, now)
    case Some(o) =>
      && o < |rows| && Occupies(rows[o], tuple, now)
      && forall i: nat | i < |rows| && Occupies(rows[i], tuple, now) :: rows[i].createdAt <= rows[o].createdAt
  }

  ghost predicate HasActiveGrant(rows: Rows, tuple: Tuple, now: int) {
    exists i: nat :: i < |rows| && rows[i].tuple == tuple && Active(rows[i], now)
  }

  // ---- eligibility

  /** A grant of a policy; whether it covers the tuple is decided elsewhere. */
  datatype Grant = Grant(approval: bool, covers: bool, maxMinutes: Option<int>)

  datatype Policy = Policy(enabled: bool, grants: seq<Grant>)

  predicate Qualifies(p: Policy, g: Grant) { p.enabled && g.approval && g.covers }

  function MostMinutes(g: Grant): int {
    if g.maxMinutes.Some? && g.maxMinutes.value > 0 then g.maxMinutes.value else DEFAULT_MAX_MINUTES
  }

  ghost predicate QualifiesAt(policies: seq<Policy>, i: nat, k: nat) {
    i < |policies| && k < |policies[i].grants| && Qualifies(policies[i], policies[i].grants[k])
  }

  /** The grants come by policy, then by place in it. */
  predicate Before(i: nat, k: nat, j: nat, l: nat) { i < j || (i == j && k < l) }

  /** The eligibility is set by the first of the grants with the shortest maximum. */
  ghost predicate EligibleBy(policies: seq<Policy>, i: nat, k: nat) {
    && QualifiesAt(policies, i, k)
    && forall j: nat, l: nat | QualifiesAt(policies, j, l) ::
         var here, there := MostMinutes(policies[i].grants[k]), MostMinutes(policies[j].grants[l]);
         here <= there && (here == there ==> !Before(j, l, i, k))
  }

  /** The cap on a request: None when nothing makes the user eligible. */
  ghost predicate CapIs(policies: seq<Policy>, cap: Option<int>) {
    match cap
    case None => forall i: nat, k: nat :: !QualifiesAt(policies, i, k)
    case Some(most) => exists i: nat, k: nat :: EligibleBy(policies, i, k) && most == MostMinutes(policies[i].grants[k])
  }

  // ---- steps

  datatype Refusal =
    | Invalid | NotEligible | TooLong | Duplicate | AlreadyGranted | NotExtendable | NotFound | WrongState | StepUpRequired

  datatype Answer = Accepted | Refused(why: Refusal)

  /** Who approves: whether the setting asks for a recent code, whether there
      was one, and whether they have an authenticator, when that can be told. */
  datatype Approver = Approver(asked: bool, recent: bool, enrolled: Option<bool>)

  predicate SteppedUp(who: Approver) { !who.asked || who.recent || who.enrolled == Some(false) }

  /** `known` says that the target or group is there, `cap` is the cap when the
      step is taken, and `open` the answer of the query. Create and Approve read
      the clock again when they write, at `written`. */
  datatype Step =
    | Create(at: int, written: int, tuple: Tuple, reason: string, minutes: int, prolongs: Option<nat>,
             known: bool, cap: Option<int>, open: Option<nat>)
    | Approve(at: int, written: int, id: nat, override: int, who: Approver, known: bool, cap: Option<int>)
    | Deny(at: int, id: nat)
    | Revoke(at: int, id: nat)
    | CloseFor(at: int, subject: Subject)
    | Sweep(at: int)

  /** The last reading of the clock in a step. */
  function Until(step: Step): int { if step.Create? || step.Approve? then step.written else step.at }

  function Reply(rows: Rows, step: Step): Answer {
    match step
    case Create(_, _, tuple, reason, minutes, prolongs, known, cap, open) =>
      if tuple.subject.id == "" || tuple.protocol == "" || Trim(reason) == "" || minutes < 1 then Refused(Invalid)
      else if !known then Refused(NotFound)
      else if cap.None? then Refused(NotEligible)
      else if minutes > cap.value then Refused(TooLong)
      else if open.Some? && open.value < |rows| && rows[open.value].status.Pending? then Refused(Duplicate)
      else if open.Some? && prolongs.None? then Refused(AlreadyGranted)
      else if prolongs.Some? && open != prolongs then Refused(NotExtendable)
      else Accepted
    case Approve(_, _, id, override, who, known, cap) =>
      if id >= |rows| then Refused(NotFound)
      else if !rows[id].status.Pending? then Refused(WrongState)
      else if !SteppedUp(who) then Refused(StepUpRequired)
      else if !known then Refused(NotFound)
      else if cap.None? then Refused(NotEligible)
      else if override < 0 then Refused(Invalid)
      else if Granted(rows[id], override) > cap.value then Refused(TooLong)
      else Accepted
    case Deny(_, id) =>
      if id >= |rows| then Refused(NotFound) else if !rows[id].status.Pending? then Refused(WrongState) else Accepted
    case Revoke(_, id) =>
      if id >= |rows| then Refused(NotFound) else if !rows[id].status.Approved? then Refused(WrongState) else Accepted
    case _ => Accepted
  }

  /** A request as it is first written down. */
  function Asked(tuple: Tuple, reason: string, minutes: int, prolongs: Option<nat>, now: int): Request {
    Request(tuple, Trim(reason), minutes, prolongs, now, Pending, 0, 0, 0, None)
  }

  function Granted(r: Request, override: int): int { if override != 0 then override else r.requested }

  /** An extension runs on from the grant it extends while that is active, otherwise from now. */
  function Base(rows: Rows, prolongs: Option<nat>, now: int): int {
    if prolongs.Some? && prolongs.value < |rows| && Active(rows[prolongs.value], now)
    then rows[prolongs.value].expiresAt.value else now
  }

  function Closed(r: Request, subject: Subject): Request {
    if r.tuple.subject == subject && (r.status.Pending? || r.status.Approved?) then r.(status := Revoked) else r
  }

  predicate Due(r: Request, now: int) { r.status.Approved? && r.expiresAt.Some? && r.expiresAt.value <= now }

  function Swept(r: Request, now: int): Request { if Due(r, now) then r.(status := Expired) else r }

  function Next(rows: Rows, step: Step): Rows {
    if Reply(rows, step) != Accepted then rows
    else
      match step
      case Create(_, written, tuple, reason, minutes, prolongs, _, _, _) =>
        rows + [Asked(tuple, reason, minutes, prolongs, written)]
      case Approve(now, written, id, override, _, _, _) =>
        var minutes := Granted(rows[id], override);
        rows[id := rows[id].(status := Approved, minutes := minutes, grantedFrom := now, decidedAt := written,
                             expiresAt := Some(Base(rows, rows[id].prolongs, now) + minutes * MINUTE))]
      case Deny(now, id) => rows[id := rows[id].(status := Denied, decidedAt := now, expiresAt := None)]
      case Revoke(_, id) => rows[id := rows[id].(status := Revoked)]
      case CloseFor(_, subject) => seq(|rows|, i requires 0 <= i < |rows| => Closed(rows[i], subject))
      case Sweep(now) => seq(|rows|, i requires 0 <= i < |rows| => Swept(rows[i], now))
  }
}
