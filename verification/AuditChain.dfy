/** The hash chain of the audit log: what one event covers, what a valid chain
    is, and why two valid chains that end in the same hash are the same log. */
module AuditChain {
  import opened Basics

  const GENESIS: string := "0000000000000000000000000000000000000000000000000000000000000000"

  /** What an event says. Times are nanoseconds since the zero time. */
  datatype Content = Content(ts: int, actor: string, ip: string, action: string,
                             objectType: string, objectId: string, outcome: string, details: string)

  /** One row of audit_events. */
  datatype Event = Event(id: int, content: Content, prevHash: string, hash: string)

  /** JSON compaction, SHA-256 and HMAC-SHA256 as arbitrary functions. `compact` is
      None for details that are not a JSON object. Every lemma that needs more
      than that these are functions says so in its requires. */
  datatype Primitives = Primitives(compact: string -> Option<string>,
                                   sha256: (string, Content) -> string,
                                   hmac: (string, int, string, int) -> string)

  /** The part of an event the hash covers: no row id, details compacted. */
  function Canonical(p: Primitives, c: Content): Option<Content> {
    match p.compact(if c.details == "" then "{}" else c.details)
    case None => None
    case Some(d) => Some(c.(details := d))
  }

  function ComputeHash(p: Primitives, prev: string, c: Content): Option<string> {
    match Canonical(p, c)
    case None => None
    case Some(k) => Some(p.sha256(prev, k))
  }

  /** The hash an event stores is the hash of what it says. */
  predicate Hashed(p: Primitives, e: Event) {
    ComputeHash(p, e.prevHash, e.content) == Some(e.hash)
  }

  predicate LinkOk(p: Primitives, e: Event, prev: string) {
    e.prevHash == prev && Hashed(p, e)
  }

  function Prev(rows: seq<Event>, i: nat): string
    requires i <= |rows|
  {
    if i == 0 then GENESIS else rows[i - 1].hash
  }

  predicate LinkAt(p: Primitives, rows: seq<Event>, i: nat)
    requires i < |rows|
  {
    LinkOk(p, rows[i], Prev(rows, i))
  }

  predicate ChainOk(p: Primitives, rows: seq<Event>) {
    forall i: nat | i < |rows| :: LinkAt(p, rows, i)
  }

  /** Two events with one digest were hashed from one input. */
  predicate NoClash(p: Primitives, e: Event, f: Event) {
    Hashed(p, e) && Hashed(p, f) && e.hash == f.hash ==>
      e.prevHash == f.prevHash && Canonical(p, e.content) == Canonical(p, f.content)
  }

  predicate NotGenesis(p: Primitives, e: Event) {
    Hashed(p, e) ==> e.hash != GENESIS
  }

  /** Among the events of these two logs no two different inputs share a digest,
      and none digests to the genesis value. This is a premise about finitely
      many inputs, so a real hash function can meet it. */
  ghost predicate CollisionFree(p: Primitives, r: seq<Event>, s: seq<Event>) {
    && (forall i, j | 0 <= i < |r| && 0 <= j < |s| :: NoClash(p, r[i], s[j]))
    && (forall i | 0 <= i < |r| :: NotGenesis(p, r[i]))
    && (forall i | 0 <= i < |s| :: NotGenesis(p, s[i]))
  }

  /** The details of an event as they are hashed, an empty text standing for an empty object. */
  function Details(p: Primitives, c: Content): Option<string> { p.compact(if c.details == "" then "{}" else c.details) }

  /** The two events have the same links and say the same thing, field by field
      and in details that compact to the same text; row ids may differ. */
  predicate SameLogged(p: Primitives, e: Event, f: Event) {
    && e.hash == f.hash && e.prevHash == f.prevHash
    && e.content.ts == f.content.ts && e.content.actor == f.content.actor && e.content.ip == f.content.ip
    && e.content.action == f.content.action && e.content.objectType == f.content.objectType
    && e.content.objectId == f.content.objectId && e.content.outcome == f.content.outcome
    && Details(p, e.content).Some? && Details(p, e.content) == Details(p, f.content)
  }

  lemma ChainExtends(p: Primitives, rows: seq<Event>, e: Event)
    requires ChainOk(p, rows)
    requires LinkOk(p, e, Prev(rows, |rows|))
    ensures ChainOk(p, rows + [e])
  {
    var all := rows + [e];
    forall i: nat | i < |all|
      ensures LinkAt(p, all, i)
    {
      if i < |rows| {
        assert LinkAt(p, rows, i);
      }
    }
  }

  lemma HeadsAgree(p: Primitives, r: seq<Event>, m: nat, s: seq<Event>, n: nat)
    requires m < |r| && n < |s|
    requires ChainOk(p, r) && ChainOk(p, s)
    requires r[m].hash == s[n].hash
    requires CollisionFree(p, r, s)
    ensures SameLogged(p, r[m], s[n])
    ensures Prev(r, m) == Prev(s, n)
    ensures m == 0 <==> n == 0
  {
    assert LinkAt(p, r, m) && LinkAt(p, s, n) && NoClash(p, r[m], s[n]);
    if m > 0 {
      assert LinkAt(p, r, m - 1) && NotGenesis(p, r[m - 1]);
    }
    if n > 0 {
      assert LinkAt(p, s, n - 1) && NotGenesis(p, s[n - 1]);
    }
  }

  /** Where two valid chains hold the same hash they stand at the same position,
      and up to there they say the same thing. */
  lemma {:induction false} ChainsAgree(p: Primitives, r: seq<Event>, m: nat, s: seq<Event>, n: nat)
    requires m < |r| && n < |s|
    requires ChainOk(p, r) && ChainOk(p, s)
    requires r[m].hash == s[n].hash
    requires CollisionFree(p, r, s)
    ensures m == n
    ensures forall i | 0 <= i <= m :: SameLogged(p, r[i], s[i])
    decreases m
  {
    HeadsAgree(p, r, m, s, n);
    if m > 0 {
      ChainsAgree(p, r, m - 1, s, n - 1);
    }
  }

  datatype Break = Break(index: nat, id: int)

  predicate SliceLinkAt(p: Primitives, events: seq<Event>, i: nat)
    requires i < |events|
  {
    LinkOk(p, events[i], if i == 0 then events[0].prevHash else events[i - 1].hash)
  }

  /** Verify of a contiguous slice: the first event's stated link is trusted,
      every later link and every hash is checked; the first failure is reported. */
  method VerifySlice(p: Primitives, events: seq<Event>) returns (broken: Option<Break>)
    ensures broken.None? <==> forall i: nat | i < |events| :: SliceLinkAt(p, events, i)
    ensures broken.Some? ==>
              var k := broken.value.index;
              && k < |events| && broken.value.id == events[k].id && !SliceLinkAt(p, events, k)
              && forall i: nat | i < k :: SliceLinkAt(p, events, i)
  {
    var prev := GENESIS;
    for i := 0 to |events|
      invariant prev == if i == 0 then GENESIS else events[i - 1].hash
      invariant forall j: nat | j < i :: SliceLinkAt(p, events, j)
    {
      if i == 0 && events[i].prevHash != GENESIS {
        prev := events[i].prevHash;
      }
      if !LinkOk(p, events[i], prev) {
        assert !SliceLinkAt(p, events, i);
        return Some(Break(i, events[i].id));
      }
      prev := events[i].hash;
    }
    return None;
  }
}
