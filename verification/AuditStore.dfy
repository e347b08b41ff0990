/** The two audit tables as values, and each transaction on them as one atomic
    step: writers hold a mutex and a transaction, so nothing comes between a
    step's reads and its writes. */
module AuditStore {
  import opened Basics
  import opened AuditChain

  const VERIFY_BATCH: nat := 1000

  /** One row of audit_anchors: the chain head at one moment, with its MAC. */
  datatype Anchor = Anchor(id: int, eventId: int, hash: string, createdAt: int, mac: string)

  const NO_ANCHOR := Anchor(0, 0, "", 0, "")

  /** Both tables ordered by id, with the high-water marks of their id sequences. */
  datatype Db = Db(events: seq<Event>, mark: int, anchors: seq<Anchor>, anchorMark: int)

  const EMPTY := Db([], 0, [], 0)

  datatype AuditError =
    | OutcomeRequired | ActionRequired | BadDetails | ConstraintViolated | NoAnchorKey | KeyMismatch

  // ---- reading the tables

  predicate Sorted(rows: seq<Event>) {
    forall i, j | 0 <= i < j < |rows| :: rows[i].id < rows[j].id
  }

  /** How many leading rows have an id of at most `id`: WHERE id > ? ORDER BY id starts there. */
  function FirstAfter(rows: seq<Event>, id: int): (k: nat)
    ensures k <= |rows|
    ensures forall i | 0 <= i < k :: rows[i].id <= id
    ensures k < |rows| ==> rows[k].id > id
  {
    if rows == [] || rows[0].id > id then 0 else 1 + FirstAfter(rows[1..], id)
  }

  function After(rows: seq<Event>, id: int): seq<Event> { rows[FirstAfter(rows, id)..] }

  /** The rows every walk reads: the source starts after id 0. */
  function Visible(rows: seq<Event>): seq<Event> { After(rows, 0) }

  /** MAX(id), zero for an empty table. */
  function MaxId(rows: seq<Event>): int { if rows == [] then 0 else rows[|rows| - 1].id }

  function HashOf(rows: seq<Event>, id: int): (h: Option<string>)
    ensures h.None? <==> forall i | 0 <= i < |rows| :: rows[i].id != id
    ensures h.Some? ==> exists i | 0 <= i < |rows| :: rows[i].id == id && rows[i].hash == h.value
  {
    if rows == [] then None
    else if rows[0].id == id then Some(rows[0].hash)
    else
      var h := HashOf(rows[1..], id);
      assert h.Some? ==> exists i | 0 <= i < |rows[1..]| :: rows[1..][i].id == id && rows[1..][i].hash == h.value;
      assert forall i | 0 <= i < |rows[1..]| :: rows[1..][i] == rows[i + 1];
      h
  }

  // ---- anchors

  function Mac(p: Primitives, a: Anchor, key: string): string {
    p.hmac(key, a.eventId, a.hash, a.createdAt)
  }

  predicate Signed(p: Primitives, a: Anchor, key: string) {
    key != "" && Mac(p, a, key) == a.mac
  }

  /** The anchor is genuine and its event is still there with the hash it signed. */
  predicate Matches(p: Primitives, events: seq<Event>, a: Anchor, key: string) {
    Signed(p, a, key) && HashOf(events, a.eventId) == Some(a.hash)
  }

  /** What Verify reports as intact: the chain, the anchors stored and supplied,
      and the id sequence all agree. */
  predicate Intact(p: Primitives, db: Db, key: string, kept: seq<Anchor>) {
    && ChainOk(p, Visible(db.events))
    && (forall a | a in db.anchors :: Matches(p, db.events, a, key))
    && (forall a | a in kept :: Matches(p, db.events, a, key))
    && db.mark <= MaxId(db.events)
  }

  // ---- Record

  /** The timestamp columns keep microseconds. */
  function Column(ts: int): int { ts - ts % 1000 }

  function NextId(rows: seq<Event>, mark: int): int { Max(mark, MaxId(rows)) + 1 }

  /** The content Record hashes: time defaulted and truncated, details defaulted. */
  function Prepared(c: Content, now: int): Content {
    c.(ts := Column(if c.ts == 0 then now else c.ts),
       details := if c.details == "" then "{}" else c.details)
  }

  /** The link Record gives a new event: the newest row's hash, or the genesis
      value when there is none or it is blank. */
  function HeadHash(rows: seq<Event>): string {
    if rows == [] || rows[|rows| - 1].hash == "" then GENESIS else rows[|rows| - 1].hash
  }

  function Recorded(p: Primitives, db: Db, c: Content, now: int): Result<(Db, Event), AuditError> {
    var k := Prepared(c, now);
    if k.outcome == "" then Err(OutcomeRequired)
    else if k.action == "" then Err(ActionRequired)
    else
      var prev := HeadHash(db.events);
      match ComputeHash(p, prev, k)
      case None => Err(BadDetails)
      case Some(h) =>
        // outcome CHECK and hash UNIQUE
        if k.outcome !in {"success", "failure"} || (exists e | e in db.events :: e.hash == h)
        then Err(ConstraintViolated)
        else
          var id := NextId(db.events, db.mark);
          var row := Event(id, k.(ts := Column(k.ts)), prev, h);
          Ok((db.(events := db.events + [row], mark := id), Event(id, k, prev, h)))
  }

  // ---- Anchor and ResignAnchors

  function Newest(anchors: seq<Anchor>): Anchor {
    if anchors == [] then NO_ANCHOR else anchors[|anchors| - 1]
  }

  function NewAnchor(p: Primitives, db: Db, key: string, now: int): Anchor
    requires db.events != []
  {
    var head := db.events[|db.events| - 1];
    var a := Anchor(Max(db.anchorMark, Newest(db.anchors).id) + 1, head.id, head.hash, Column(now), "");
    a.(mac := Mac(p, a, key))
  }

  function Anchored(p: Primitives, db: Db, key: string, now: int): Result<(Db, Anchor), AuditError> {
    var last := Newest(db.anchors);
    if key == "" then Err(NoAnchorKey)
    else if db.events == [] then Ok((db, last))
    else
      var head := db.events[|db.events| - 1];
      if last.eventId == head.id && last.hash == head.hash && Signed(p, last, key) then Ok((db, last))
      else if last.id != 0 && !Signed(p, last, key) then Err(KeyMismatch)
      else
        var a := NewAnchor(p, db, key, now);
        Ok((db.(anchors := db.anchors + [a], anchorMark := a.id), a))
  }

  /** ResignAnchors on one row. */
  function ResignOne(p: Primitives, a: Anchor, oldKey: string, newKey: string): Anchor {
    if !Signed(p, a, newKey) && Signed(p, a, oldKey) then a.(mac := Mac(p, a, newKey)) else a
  }

  function ResignAll(p: Primitives, anchors: seq<Anchor>, oldKey: string, newKey: string): (r: seq<Anchor>)
    ensures |r| == |anchors|
    ensures forall i | 0 <= i < |r| :: r[i] == ResignOne(p, anchors[i], oldKey, newKey)
  {
    if anchors == [] then [] else [ResignOne(p, anchors[0], oldKey, newKey)] + ResignAll(p, anchors[1..], oldKey, newKey)
  }

  function Resigned(p: Primitives, db: Db, oldKey: string, newKey: string): Result<Db, AuditError> {
    if oldKey == "" || newKey == "" then Err(NoAnchorKey)
    else Ok(db.(anchors := ResignAll(p, db.anchors, oldKey, newKey)))
  }

  // ---- Reseal

  /** The rows relinked and rehashed from `prev` on; None when some details no longer hash. */
  function Relinked(p: Primitives, rows: seq<Event>, prev: string): (r: Option<seq<Event>>)
    ensures r.Some? ==> |r.value| == |rows|
    decreases |rows|
  {
    if rows == [] then Some([])
    else match ComputeHash(p, prev, rows[0].content)
      case None => None
      case Some(h) =>
        match Relinked(p, rows[1..], h)
        case None => None
        case Some(rest) => Some([rows[0].(prevHash := prev, hash := h)] + rest)
  }

  /** Rewriting row i would give it a hash another row holds at that moment:
      the rows before it are already sealed, those after it are not. */
  predicate Clash(rows: seq<Event>, sealed: seq<Event>, i: nat)
    requires i < |rows| && i < |sealed|
  {
    && rows[i] != sealed[i]
    && ((exists j | 0 <= j < i :: sealed[j].hash == sealed[i].hash) || (exists j | i < j < |rows| :: rows[j].hash == sealed[i].hash))
  }

  predicate Clashes(rows: seq<Event>, sealed: seq<Event>)
    requires |rows| == |sealed|
  {
    exists i: nat | i < |rows| :: Clash(rows, sealed, i)
  }

  /** The id of the first row that differs, zero when none does. */
  function FirstChanged(rows: seq<Event>, sealed: seq<Event>): int
    requires |rows| == |sealed|
  {
    if rows == [] then 0 else if rows[0] != sealed[0] then rows[0].id else FirstChanged(rows[1..], sealed[1..])
  }

  /** DELETE FROM audit_anchors WHERE event_id >= first AND event_id IN (the events). */
  function DropStale(anchors: seq<Anchor>, events: seq<Event>, first: int): (r: seq<Anchor>)
    ensures forall a :: a in r <==> a in anchors && !(a.eventId >= first && HashOf(events, a.eventId).Some?)
  {
    if anchors == [] then []
    else
      var rest := DropStale(anchors[1..], events, first);
      if anchors[0].eventId >= first && HashOf(events, anchors[0].eventId).Some? then rest else [anchors[0]] + rest
  }

  /** Every row the walk reads relinked; rows it does not read as they are. */
  function SealedRows(p: Primitives, rows: seq<Event>): (r: Option<seq<Event>>)
    ensures r.Some? ==> |r.value| == |rows|
  {
    match Relinked(p, Visible(rows), GENESIS)
    case None => None
    case Some(rest) => Some(rows[..FirstAfter(rows, 0)] + rest)
  }

  /** Reseal: the new tables and FirstID. Any failure rolls the transaction back. */
  function Resealed(p: Primitives, db: Db): Result<(Db, int), AuditError> {
    match SealedRows(p, db.events)
    case None => Err(BadDetails)
    case Some(sealed) =>
      if Clashes(db.events, sealed) then Err(ConstraintViolated)
      else
        var first := FirstChanged(db.events, sealed);
        Ok((db.(events := sealed, anchors := if first > 0 then DropStale(db.anchors, sealed, first) else db.anchors), first))
  }
}
