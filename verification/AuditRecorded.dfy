/** What Record and Anchor store, in the fields of the rows, and what the log
    holds after any run. */
module AuditRecorded {
  import opened Basics
  import opened AuditChain
  import opened AuditStore
  import opened AuditProofs
  import opened AuditReseal

  // ---- Record

  /** The content stored for an event: every field as it was given, the time it
      has (or now when it has none) cut to the microsecond, and details. */
  predicate Says(stored: Content, c: Content, now: int) {
    var t := if c.ts == 0 then now else c.ts;
    && stored.actor == c.actor && stored.ip == c.ip && stored.action == c.action && stored.objectType == c.objectType
    && stored.objectId == c.objectId && stored.outcome == c.outcome
    && stored.ts % 1000 == 0 && stored.ts <= t < stored.ts + 1000
    && stored.details == if c.details == "" then "{}" else c.details
  }

  /** There is one such content. */
  lemma SaysOne(a: Content, b: Content, c: Content, now: int)
    requires Says(a, c, now) && Says(b, c, now)
    ensures a == b
  {
  }

  /** The row is linked to the newest event, or to the genesis value, and its
      hash covers all of what it says. */
  ghost predicate LinkedTo(p: Primitives, events: seq<Event>, row: Event) {
    && row.prevHash == (if events == [] || events[|events| - 1].hash == "" then GENESIS else events[|events| - 1].hash)
    && Details(p, row.content).Some?
    && row.hash == p.sha256(row.prevHash, row.content.(details := Details(p, row.content).value))
  }

  /** A new id: after every id of the table and every id ever handed out. */
  ghost predicate NewId(db: Db, id: int) { id > db.mark && (db.events == [] || id > db.events[|db.events| - 1].id) }

  /** What Record does when it succeeds: one row more, which is the event it
      returns, with what was given, a new id and its link; nothing else changes. */
  lemma RecordStores(p: Primitives, db: Db, c: Content, now: int, after: Db, row: Event)
    requires Recorded(p, db, c, now) == Ok((after, row))
    ensures after == db.(events := db.events + [row], mark := row.id)
    ensures Says(row.content, c, now) && LinkedTo(p, db.events, row) && NewId(db, row.id)
  {
    PreparedSurvivesColumn(c, now);
  }

  /** When Record succeeds: the event has an action and one of the two outcomes,
      its details are a JSON object, and no event has the hash it would get. */
  lemma RecordAccepts(p: Primitives, db: Db, c: Content, now: int, would: Event)
    requires Says(would.content, c, now) && (Details(p, would.content).Some? ==> LinkedTo(p, db.events, would))
    ensures Recorded(p, db, c, now).Ok? <==>
              && c.action != "" && c.outcome in {"success", "failure"}
              && Details(p, would.content).Some? && (forall e | e in db.events :: e.hash != would.hash)
  {
    SaysOne(would.content, Prepared(c, now), c, now);
  }

  // ---- runs

  /** The Record steps of a run that were accepted, in order. */
  ghost function Accepted(p: Primitives, g: Gateway, steps: seq<Step>): (r: seq<Step>)
    ensures forall s | s in r :: s.Record?
  {
    if steps == [] then []
    else
      var n := |steps| - 1;
      var s := steps[n];
      Accepted(p, g, steps[..n]) + if s.Record? && Recorded(p, Run(p, g, steps[..n]).db, s.c, s.now).Ok? then [s] else []
  }

  /** The log holds what it held, and after that what these steps said. */
  ghost predicate Holds(was: seq<Event>, records: seq<Step>, log: seq<Event>) {
    && |log| == |was| + |records|
    && (forall i | 0 <= i < |was| :: log[i].id == was[i].id && log[i].content == was[i].content)
    && (forall i | 0 <= i < |records| :: records[i].Record? && Says(log[|was| + i].content, records[i].c, records[i].now))
  }

  lemma HoldsSame(was: seq<Event>, records: seq<Step>, log: seq<Event>, next: seq<Event>)
    requires Holds(was, records, log) && |next| == |log|
    requires forall i | 0 <= i < |log| :: next[i].id == log[i].id && next[i].content == log[i].content
    ensures Holds(was, records, next)
  {
  }

  lemma HoldsMore(was: seq<Event>, records: seq<Step>, log: seq<Event>, s: Step, row: Event)
    requires Holds(was, records, log) && s.Record? && Says(row.content, s.c, s.now)
    ensures Holds(was, records + [s], log + [row])
  {
    var next := log + [row];
    forall i | 0 <= i < |records| + 1 ensures Says(next[|was| + i].content, (records + [s])[i].c, (records + [s])[i].now) {
      if i < |records| { assert next[|was| + i] == log[|was| + i]; }
    }
  }

  /** After any run of records, anchors, reseals and key rotations the log
      holds, in order, what it held at the start and then what each accepted
      Record said, and nothing else. */
  lemma {:induction false} LogHolds(p: Primitives, g: Gateway, steps: seq<Step>)
    ensures Holds(g.db.events, Accepted(p, g, steps), Run(p, g, steps).db.events)
  {
    if steps != [] {
      var n := |steps| - 1;
      var mid, s := Run(p, g, steps[..n]), steps[n];
      LogHolds(p, g, steps[..n]);
      if s.Record? {
        var r := Recorded(p, mid.db, s.c, s.now);
        if r.Ok? {
          RecordStores(p, mid.db, s.c, s.now, r.value.0, r.value.1);
          HoldsMore(g.db.events, Accepted(p, g, steps[..n]), mid.db.events, s, r.value.1);
        }
      } else {
        StepKeepsRecords(p, mid, s);
        HoldsSame(g.db.events, Accepted(p, g, steps[..n]), mid.db.events, Next(p, mid, s).db.events);
      }
    }
  }

  /** No step but Record adds an event or changes what one says. */
  lemma StepKeepsRecords(p: Primitives, g: Gateway, s: Step)
    requires !s.Record?
    ensures var was, now := g.db.events, Next(p, g, s).db.events;
            |now| == |was| && forall i | 0 <= i < |was| :: now[i].id == was[i].id && now[i].content == was[i].content
  {
    if s.Reseal? && Resealed(p, g.db).Ok? {
      ResealRepairs(p, g.db);
      var now := Resealed(p, g.db).value.0.events;
      forall i | 0 <= i < |g.db.events| ensures now[i].id == g.db.events[i].id && now[i].content == g.db.events[i].content {
        assert SameRecord(now[i], g.db.events[i]);
      }
    }
  }

  // ---- anchors

  /** The anchor signs the newest event under the key. */
  ghost predicate SignsHead(p: Primitives, events: seq<Event>, a: Anchor, key: string) {
    && events != [] && a.eventId == events[|events| - 1].id && a.hash == events[|events| - 1].hash
    && key != "" && a.mac == p.hmac(key, a.eventId, a.hash, a.createdAt)
  }

  /** An anchor is refused exactly without a key, or when there are events and
      the newest anchor was not signed with this key. */
  lemma AnchorAccepts(p: Primitives, db: Db, key: string, now: int)
    requires forall a | a in db.anchors :: a.id > 0
    ensures Anchored(p, db, key, now).Ok? <==>
              && key != ""
              && (db.events != [] && db.anchors != [] ==>
                    var last := db.anchors[|db.anchors| - 1];
                    last.mac == p.hmac(key, last.eventId, last.hash, last.createdAt))
  {
    if db.anchors != [] { assert Newest(db.anchors) in db.anchors; }
  }

  /** An anchor that is taken on a log with events signs its newest one. It is
      the newest anchor already stored when that does, and otherwise it is new:
      stored after the others, with a new id and the time cut to the microsecond. */
  lemma AnchorStores(p: Primitives, db: Db, key: string, now: int, after: Db, a: Anchor)
    requires Anchored(p, db, key, now) == Ok((after, a)) && db.events != []
    ensures SignsHead(p, db.events, a, key)
    ensures if db.anchors != [] && SignsHead(p, db.events, db.anchors[|db.anchors| - 1], key)
            then after == db && a == db.anchors[|db.anchors| - 1]
            else if SignsHead(p, db.events, NO_ANCHOR, key) && db.anchors == [] then after == db
            else
              && after == db.(anchors := db.anchors + [a], anchorMark := a.id)
              && a.id > db.anchorMark && (db.anchors != [] ==> a.id > db.anchors[|db.anchors| - 1].id)
              && a.createdAt % 1000 == 0 && a.createdAt <= now < a.createdAt + 1000
  {
  }

  /** With no events there is nothing to sign: nothing is stored. */
  lemma NothingToAnchor(p: Primitives, db: Db, key: string, now: int)
    requires db.events == [] && key != ""
    ensures Anchored(p, db, key, now) == Ok((db, if db.anchors == [] then NO_ANCHOR else db.anchors[|db.anchors| - 1]))
  {
  }

  /** Re-signing changes signatures alone. An anchor is under the new key
      afterwards exactly when it was under either; one under neither, or
      already under the new one, is left as it was. */
  lemma ResignEach(p: Primitives, db: Db, oldKey: string, newKey: string, after: Db, i: nat)
    requires Resigned(p, db, oldKey, newKey) == Ok(after) && i < |db.anchors|
    ensures after == db.(anchors := after.anchors) && |after.anchors| == |db.anchors|
    ensures var a, b := db.anchors[i], after.anchors[i];
            var was, had := p.hmac(newKey, a.eventId, a.hash, a.createdAt) == a.mac, p.hmac(oldKey, a.eventId, a.hash, a.createdAt) == a.mac;
            && b == a.(mac := b.mac)
            && (p.hmac(newKey, a.eventId, a.hash, a.createdAt) == b.mac <==> was || had)
            && (was || !had ==> b == a)
  {
    assert after.anchors[i] == ResignOne(p, db.anchors[i], oldKey, newKey);
  }
}
