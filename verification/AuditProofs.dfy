/** What the audit log promises: edits and deletions are noticed, honest logs
    never raise an alarm, Reseal repairs and only repairs, and a key rotation
    survives a gateway that still holds the old key. */
module AuditProofs {
  import opened Basics
  import opened AuditChain
  import opened AuditStore

  // ---- facts about the tables

  ghost predicate PositiveIds(rows: seq<Event>) {
    forall i | 0 <= i < |rows| :: rows[i].id > 0
  }

  lemma VisibleSuffix(rows: seq<Event>)
    requires Sorted(rows)
    ensures forall i | FirstAfter(rows, 0) <= i < |rows| :: rows[i].id > 0
  {
  }

  lemma AllVisible(rows: seq<Event>)
    requires PositiveIds(rows)
    ensures FirstAfter(rows, 0) == 0 && Visible(rows) == rows
  {
  }

  lemma HashOfRow(rows: seq<Event>, i: nat)
    requires Sorted(rows) && i < |rows|
    ensures HashOf(rows, rows[i].id) == Some(rows[i].hash)
  {
  }

  lemma {:induction false} HashOfAppended(rows: seq<Event>, e: Event, id: int)
    requires HashOf(rows, id).Some?
    ensures HashOf(rows + [e], id) == HashOf(rows, id)
  {
    if rows[0].id != id {
      HashOfAppended(rows[1..], e, id);
      assert (rows + [e])[1..] == rows[1..] + [e];
    }
  }

  // ---- tamper evidence

  lemma AnchorNamesHead(p: Primitives, db: Db, key: string, now: int)
    requires Anchored(p, db, key, now).Ok? && db.events != []
    ensures var a := Anchored(p, db, key, now).value.1;
            a.eventId == MaxId(db.events) && a.hash == db.events[|db.events| - 1].hash && Signed(p, a, key)
  {
  }

  /** A matching anchor for a positive id stands in the part of the log the walk reads. */
  lemma VisibleMatch(p: Primitives, events: seq<Event>, a: Anchor, key: string) returns (j: nat)
    requires Sorted(events) && Matches(p, events, a, key) && a.eventId > 0
    ensures j < |Visible(events)| && Visible(events)[j].id == a.eventId && Visible(events)[j].hash == a.hash
  {
    var i :| 0 <= i < |events| && events[i].id == a.eventId && events[i].hash == a.hash;
    j := i - FirstAfter(events, 0);
  }

  /** The log now starts with what was logged then, and the last of it has this id. */
  ghost predicate StillSays(p: Primitives, logged: seq<Event>, now: seq<Event>, id: int) {
    && 0 < |logged| <= |now| && now[|logged| - 1].id == id
    && forall i | 0 <= i < |logged| :: SameLogged(p, logged[i], now[i])
  }

  lemma IntactMatch(p: Primitives, db: Db, key: string, kept: seq<Anchor>, a: Anchor)
    requires Intact(p, db, key, kept) && (a in db.anchors || a in kept)
    ensures Matches(p, db.events, a, key) && ChainOk(p, Visible(db.events))
  {
  }

  lemma IssuedHead(p: Primitives, db: Db, key: string, now: int, after: Db, issued: Anchor)
    requires Anchored(p, db, key, now) == Ok((after, issued)) && Visible(db.events) != []
    ensures issued.eventId == MaxId(db.events) && issued.hash == db.events[|db.events| - 1].hash
  {
    AnchorNamesHead(p, db, key, now);
  }

  /** Whatever was done to the tables since: if Verify finds the log intact and
      an anchor this gateway issued is among those checked (stored or supplied,
      as issued or re-signed since), then every event up to the anchored one
      says what it said when the anchor was issued, in the same position. */
  lemma TamperEvidence(p: Primitives, issuedOn: Db, issueKey: string, issuedAt: int, after: Db, issued: Anchor,
                       a: Anchor, db: Db, key: string, kept: seq<Anchor>)
    requires Sorted(issuedOn.events) && Sorted(db.events)
    requires ChainOk(p, Visible(issuedOn.events)) && Visible(issuedOn.events) != []
    requires Anchored(p, issuedOn, issueKey, issuedAt) == Ok((after, issued))
    requires a.eventId == issued.eventId && a.hash == issued.hash
    requires a in db.anchors || a in kept
    requires Intact(p, db, key, kept)
    requires CollisionFree(p, Visible(issuedOn.events), Visible(db.events))
    ensures StillSays(p, Visible(issuedOn.events), Visible(db.events), a.eventId)
  {
    IssuedHead(p, issuedOn, issueKey, issuedAt, after, issued);
    IntactMatch(p, db, key, kept, a);
    HeadUntampered(p, issuedOn.events, a, db.events, key);
  }

  /** One signing: the tables it was done on, the key, the time, and what came of it. */
  datatype Issue = Issue(on: Db, key: string, at: int, after: Db, anchor: Anchor)

  ghost predicate Genuine(p: Primitives, i: Issue) {
    && Sorted(i.on.events) && ChainOk(p, Visible(i.on.events)) && Visible(i.on.events) != []
    && Anchored(p, i.on, i.key, i.at) == Ok((i.after, i.anchor))
  }

  /** The anchor signs what this issue signed. */
  predicate SignsFor(a: Anchor, i: Issue) { a.eventId == i.anchor.eventId && a.hash == i.anchor.hash }

  /** Of the anchors at hand, none passes under the key that was not issued: a
      premise about these anchors alone. */
  ghost predicate Unforged(p: Primitives, key: string, issues: seq<Issue>, anchors: seq<Anchor>) {
    forall a | a in anchors && Signed(p, a, key) :: exists i :: i in issues && SignsFor(a, i)
  }

  /** Where nothing at hand is forged, every anchor of an intact log, stored or
      supplied, proves the events up to it: they say what they said when it was issued. */
  lemma EveryAnchorProves(p: Primitives, issues: seq<Issue>, db: Db, key: string, kept: seq<Anchor>, a: Anchor) returns (i: Issue)
    requires Sorted(db.events) && Intact(p, db, key, kept) && a in db.anchors + kept
    requires Unforged(p, key, issues, db.anchors + kept) && forall i | i in issues :: Genuine(p, i)
    requires forall i | i in issues :: CollisionFree(p, Visible(i.on.events), Visible(db.events))
    ensures i in issues && SignsFor(a, i)
    ensures StillSays(p, Visible(i.on.events), Visible(db.events), a.eventId)
  {
    IntactMatch(p, db, key, kept, a);
    i :| i in issues && SignsFor(a, i);
    assert Genuine(p, i);
    TamperEvidence(p, i.on, i.key, i.at, i.after, i.anchor, a, db, key, kept);
  }

  lemma HeadUntampered(p: Primitives, before: seq<Event>, a: Anchor, events: seq<Event>, key: string)
    requires Sorted(before) && Sorted(events)
    requires ChainOk(p, Visible(before)) && Visible(before) != [] && ChainOk(p, Visible(events))
    requires a.eventId == MaxId(before) && a.hash == before[|before| - 1].hash
    requires Matches(p, events, a, key)
    requires CollisionFree(p, Visible(before), Visible(events))
    ensures StillSays(p, Visible(before), Visible(events), a.eventId)
  {
    var j := VisibleMatch(p, events, a, key);
    ChainsAgree(p, Visible(before), |Visible(before)| - 1, Visible(events), j);
  }

  // ---- deletions

  /** The table after DELETE of the rows whose id is in `gone`. */
  function Remove(rows: seq<Event>, gone: set<int>): seq<Event> {
    if rows == [] then []
    else if rows[0].id in gone then Remove(rows[1..], gone)
    else [rows[0]] + Remove(rows[1..], gone)
  }

  lemma {:induction false} RemoveLeaves(rows: seq<Event>, gone: set<int>)
    ensures var r := Remove(rows, gone);
            && (forall e :: e in r <==> e in rows && e.id !in gone)
            && |r| <= |rows|
            && ((exists e | e in rows :: e.id in gone) ==> |r| < |rows|)
  {
    if rows != [] {
      RemoveLeaves(rows[1..], gone);
      assert forall e :: e in rows <==> e == rows[0] || e in rows[1..];
    }
  }

  lemma {:induction false} RemoveSorted(rows: seq<Event>, gone: set<int>)
    requires Sorted(rows)
    ensures Sorted(Remove(rows, gone))
  {
    if rows != [] {
      var rest := Remove(rows[1..], gone);
      RemoveSorted(rows[1..], gone);
      RemoveLeaves(rows[1..], gone);
      forall i | 0 <= i < |rest| ensures rows[0].id < rest[i].id { assert rest[i] in rows[1..]; }
    }
  }

  /** A log only the gateway has written: its ids are those the sequence handed out. */
  ghost predicate Honest(p: Primitives, db: Db) {
    && Sorted(db.events) && PositiveIds(db.events)
    && ChainOk(p, db.events)
    && db.mark == MaxId(db.events)
  }

  lemma SameRow(rows: seq<Event>, e: Event)
    requires Sorted(rows) && rows != []
    requires e in rows && e.id >= rows[|rows| - 1].id
    ensures e == rows[|rows| - 1]
  {
    var i :| 0 <= i < |rows| && rows[i] == e;
  }

  /** What is left of a sorted table after a deletion that spared its last row:
      the last row is the same one, and nothing was deleted if the chain still holds. */
  lemma KeptLastRow(p: Primitives, rows: seq<Event>, rest: seq<Event>)
    requires rest != [] && Sorted(rows)
    requires forall e | e in rest :: e in rows
    requires MaxId(rest) >= MaxId(rows)
    requires ChainOk(p, rows) && ChainOk(p, rest)
    requires CollisionFree(p, rows, rows)
    ensures |rest| == |rows|
  {
    var last := rest[|rest| - 1];
    assert last in rest;
    SameRow(rows, last);
    SubsetCollisionFree(p, rows, rest);
    ChainsAgree(p, rows, |rows| - 1, rest, |rest| - 1);
  }

  /** Deleting any nonempty set of events from an honest log, with the sequence
      row left alone, is noticed, whatever is done to the anchors. */
  lemma DeletionDetected(p: Primitives, db: Db, gone: set<int>, anchors: seq<Anchor>, anchorMark: int,
                         key: string, kept: seq<Anchor>)
    requires Honest(p, db)
    requires exists e | e in db.events :: e.id in gone
    requires CollisionFree(p, db.events, db.events)
    ensures !Intact(p, Db(Remove(db.events, gone), db.mark, anchors, anchorMark), key, kept)
  {
    var rest := Remove(db.events, gone);
    RemoveLeaves(db.events, gone);
    RemoveSorted(db.events, gone);
    assert PositiveIds(rest) by {
      forall i | 0 <= i < |rest| ensures rest[i].id > 0 { assert rest[i] in rest; }
    }
    AllVisible(rest);
    if ChainOk(p, rest) && db.mark <= MaxId(rest) {
      KeptLastRow(p, db.events, rest);
    }
  }

  lemma SubsetCollisionFree(p: Primitives, rows: seq<Event>, part: seq<Event>)
    requires CollisionFree(p, rows, rows)
    requires forall e | e in part :: e in rows
    ensures CollisionFree(p, rows, part)
  {
    forall j | 0 <= j < |part|
      ensures NotGenesis(p, part[j])
      ensures forall i | 0 <= i < |rows| :: NoClash(p, rows[i], part[j])
    {
      assert part[j] in rows;
      var k :| 0 <= k < |rows| && rows[k] == part[j];
    }
  }

  // ---- no false alarms

  /** SHA-256 in hexadecimal is 64 characters. */
  ghost predicate HexDigests(p: Primitives) {
    forall prev: string, c: Content :: |p.sha256(prev, c)| == 64
  }

  ghost predicate AllMatch(p: Primitives, events: seq<Event>, anchors: seq<Anchor>, key: string) {
    forall a | a in anchors :: Matches(p, events, a, key)
  }

  ghost predicate AnchorIds(db: Db) {
    db.anchorMark >= 0 && forall a | a in db.anchors :: a.id > 0
  }

  /** What every step of a gateway that holds `key` keeps. */
  ghost predicate Sound(p: Primitives, db: Db, key: string) {
    key != "" && Honest(p, db) && AllMatch(p, db.events, db.anchors, key) && AnchorIds(db)
  }

  lemma SoundIsIntact(p: Primitives, db: Db, key: string, kept: seq<Anchor>)
    requires Sound(p, db, key) && AllMatch(p, db.events, kept, key)
    ensures Intact(p, db, key, kept)
  {
    AllVisible(db.events);
  }

  lemma HeadHashIsPrev(p: Primitives, rows: seq<Event>)
    requires HexDigests(p) && ChainOk(p, rows)
    ensures HeadHash(rows) == Prev(rows, |rows|)
  {
    if rows != [] {
      assert LinkAt(p, rows, |rows| - 1);
    }
  }

  lemma AppendHonest(p: Primitives, db: Db, e: Event)
    requires Honest(p, db) && LinkOk(p, e, Prev(db.events, |db.events|)) && e.id == NextId(db.events, db.mark)
    ensures Honest(p, db.(events := db.events + [e], mark := e.id))
  {
    ChainExtends(p, db.events, e);
  }

  /** What the column returns is what was hashed: Record truncates first. */
  lemma PreparedSurvivesColumn(c: Content, now: int)
    ensures Prepared(c, now).(ts := Column(Prepared(c, now).ts)) == Prepared(c, now)
  {
  }

  lemma RecordSound(p: Primitives, db: Db, key: string, c: Content, now: int, kept: seq<Anchor>)
    requires HexDigests(p) && Sound(p, db, key) && AllMatch(p, db.events, kept, key)
    requires Recorded(p, db, c, now).Ok?
    ensures var db' := Recorded(p, db, c, now).value.0;
            Sound(p, db', key) && AllMatch(p, db'.events, kept, key)
  {
    var (db', e) := Recorded(p, db, c, now).value;
    PreparedSurvivesColumn(c, now);
    HeadHashIsPrev(p, db.events);
    AppendHonest(p, db, e);
    forall a | Matches(p, db.events, a, key)
      ensures Matches(p, db'.events, a, key)
    {
      HashOfAppended(db.events, e, a.eventId);
    }
  }

  lemma AnchorSound(p: Primitives, db: Db, key: string, now: int)
    requires Sound(p, db, key)
    ensures Anchored(p, db, key, now).Ok?
    ensures var (db', a) := Anchored(p, db, key, now).value;
            && Sound(p, db', key) && db'.events == db.events
            && (a == NO_ANCHOR || Matches(p, db.events, a, key))
  {
    if db.anchors != [] {
      assert Newest(db.anchors) in db.anchors && Matches(p, db.events, Newest(db.anchors), key);
    }
    if db.events != [] {
      AnchorNamesHead(p, db, key, now);
      HashOfRow(db.events, |db.events| - 1);
      StoredAnchorSound(p, db, key, NewAnchor(p, db, key, now));
    }
  }

  lemma StoredAnchorSound(p: Primitives, db: Db, key: string, a: Anchor)
    requires Sound(p, db, key) && Matches(p, db.events, a, key) && a.id > 0
    ensures Sound(p, db.(anchors := db.anchors + [a], anchorMark := a.id), key)
  {
    forall b | b in db.anchors + [a] ensures Matches(p, db.events, b, key) && b.id > 0 {
      assert b == a || b in db.anchors;
    }
  }

  lemma ResignSound(p: Primitives, db: Db, oldKey: string, newKey: string)
    requires Sound(p, db, oldKey) && newKey != ""
    ensures Resigned(p, db, oldKey, newKey).Ok?
    ensures Sound(p, Resigned(p, db, oldKey, newKey).value, newKey)
  {
    var anchors := ResignAll(p, db.anchors, oldKey, newKey);
    forall a | a in anchors
      ensures Matches(p, db.events, a, newKey) && a.id > 0
    {
      var i :| 0 <= i < |anchors| && anchors[i] == a;
      assert db.anchors[i] in db.anchors && Matches(p, db.events, db.anchors[i], oldKey);
      assert a == ResignOne(p, db.anchors[i], oldKey, newKey);
    }
  }

  lemma {:induction false} RelinkedValid(p: Primitives, all: seq<Event>, k: nat)
    requires k <= |all| && ChainOk(p, all)
    ensures Relinked(p, all[k..], Prev(all, k)) == Some(all[k..])
    decreases |all| - k
  {
    if k < |all| {
      assert LinkAt(p, all, k);
      RelinkedValid(p, all, k + 1);
      FirstApart(all, k);
    }
  }

  lemma FirstApart(rows: seq<Event>, k: nat)
    requires k < |rows|
    ensures rows[k..] == [rows[k]] + rows[k + 1..] && rows[k..][0] == rows[k] && rows[k..][1..] == rows[k + 1..]
  {
  }

  lemma {:induction false} UnchangedFirst(rows: seq<Event>)
    ensures FirstChanged(rows, rows) == 0
  {
    if rows != [] {
      UnchangedFirst(rows[1..]);
    }
  }

  /** Reseal leaves a valid log alone. */
  lemma ResealValid(p: Primitives, db: Db)
    requires ChainOk(p, Visible(db.events))
    ensures Resealed(p, db) == Ok((db, 0))
  {
    var k := FirstAfter(db.events, 0);
    RelinkedValid(p, Visible(db.events), 0);
    assert Visible(db.events)[0..] == Visible(db.events);
    assert db.events[..k] + Visible(db.events) == db.events;
    UnchangedFirst(db.events);
  }

  /** One gateway: its tables, its key, and the anchors it logged under that key. */
  datatype Gateway = Gateway(db: Db, key: string, journal: seq<Anchor>)

  datatype Step = Record(c: Content, now: int) | TakeAnchor(now: int) | Reseal | Rotate(newKey: string)

  /** A step that fails changes nothing. */
  function Next(p: Primitives, g: Gateway, s: Step): Gateway {
    match s
    case Record(c, now) =>
      var r := Recorded(p, g.db, c, now);
      if r.Ok? then g.(db := r.value.0) else g
    case TakeAnchor(now) =>
      var r := Anchored(p, g.db, g.key, now);
      if r.Err? then g
      else g.(db := r.value.0, journal := if r.value.1 == NO_ANCHOR then g.journal else g.journal + [r.value.1])
    case Reseal =>
      var r := Resealed(p, g.db);
      if r.Ok? then g.(db := r.value.0) else g
    case Rotate(newKey) =>
      var r := Resigned(p, g.db, g.key, newKey);
      if r.Ok? then Gateway(r.value, newKey, []) else g
  }

  function Run(p: Primitives, g: Gateway, steps: seq<Step>): Gateway {
    if steps == [] then g else Next(p, Run(p, g, steps[..|steps| - 1]), steps[|steps| - 1])
  }

  ghost predicate GoodGateway(p: Primitives, g: Gateway) {
    Sound(p, g.db, g.key) && AllMatch(p, g.db.events, g.journal, g.key)
  }

  lemma NextGood(p: Primitives, g: Gateway, s: Step)
    requires HexDigests(p) && GoodGateway(p, g)
    ensures GoodGateway(p, Next(p, g, s))
  {
    match s
    case Record(c, now) =>
      if Recorded(p, g.db, c, now).Ok? { RecordSound(p, g.db, g.key, c, now, g.journal); }
    case TakeAnchor(now) => AnchorSound(p, g.db, g.key, now);
    case Reseal =>
      AllVisible(g.db.events);
      ResealValid(p, g.db);
    case Rotate(newKey) =>
      if newKey != "" { ResignSound(p, g.db, g.key, newKey); }
  }

  lemma {:induction false} RunGood(p: Primitives, key: string, steps: seq<Step>)
    requires HexDigests(p) && key != ""
    ensures GoodGateway(p, Run(p, Gateway(EMPTY, key, []), steps))
  {
    if steps != [] {
      RunGood(p, key, steps[..|steps| - 1]);
      NextGood(p, Run(p, Gateway(EMPTY, key, []), steps[..|steps| - 1]), steps[|steps| - 1]);
    }
  }

  /** No false alarms: after any run from empty tables, Verify under the current
      key finds the log intact, also when any anchors logged under that key are
      supplied from outside. */
  lemma NoFalseAlarms(p: Primitives, key: string, steps: seq<Step>, kept: seq<Anchor>)
    requires HexDigests(p) && key != ""
    requires forall a | a in kept :: a in Run(p, Gateway(EMPTY, key, []), steps).journal
    ensures var g := Run(p, Gateway(EMPTY, key, []), steps); Intact(p, g.db, g.key, kept)
  {
    RunGood(p, key, steps);
    var g := Run(p, Gateway(EMPTY, key, []), steps);
    SoundIsIntact(p, g.db, g.key, kept);
  }

  // ---- key rotation beside a gateway that kept the old key

  /** The two keys sign this anchor differently. */
  predicate KeysApart(p: Primitives, a: Anchor, oldKey: string, newKey: string) { Mac(p, a, oldKey) != Mac(p, a, newKey) }

  /** A premise about the anchors stored, so real keys can meet it. */
  ghost predicate AllApart(p: Primitives, anchors: seq<Anchor>, oldKey: string, newKey: string) {
    forall a | a in anchors :: KeysApart(p, a, oldKey, newKey)
  }

  datatype Mixed = MRecord(c: Content, now: int) | MAnchorOld(now: int) | MAnchorNew(now: int) | MResign | MReseal

  function MixedNext(p: Primitives, db: Db, oldKey: string, newKey: string, s: Mixed): Db {
    match s
    case MRecord(c, now) => var r := Recorded(p, db, c, now); if r.Ok? then r.value.0 else db
    case MAnchorOld(now) => var r := Anchored(p, db, oldKey, now); if r.Ok? then r.value.0 else db
    case MAnchorNew(now) => var r := Anchored(p, db, newKey, now); if r.Ok? then r.value.0 else db
    case MResign => var r := Resigned(p, db, oldKey, newKey); if r.Ok? then r.value else db
    case MReseal => var r := Resealed(p, db); if r.Ok? then r.value.0 else db
  }

  function MixedRun(p: Primitives, db: Db, oldKey: string, newKey: string, steps: seq<Mixed>): Db {
    if steps == [] then db
    else MixedNext(p, MixedRun(p, db, oldKey, newKey, steps[..|steps| - 1]), oldKey, newKey, steps[|steps| - 1])
  }

  /** In every state of the run the keys sign the anchors stored there differently. */
  ghost predicate ApartAlong(p: Primitives, db: Db, oldKey: string, newKey: string, steps: seq<Mixed>) {
    forall i: nat | i <= |steps| :: AllApart(p, MixedRun(p, db, oldKey, newKey, steps[..i]).anchors, oldKey, newKey)
  }

  /** Once an anchor stands under the new key, a gateway holding the old key is
      turned away and writes nothing. */
  lemma StaleAnchorRefused(p: Primitives, db: Db, oldKey: string, newKey: string, now: int)
    requires AllApart(p, db.anchors, oldKey, newKey)
    requires Sound(p, db, newKey) && db.anchors != []
    ensures var r := Anchored(p, db, oldKey, now); r.Ok? ==> r.value.0 == db
  {
    var last := Newest(db.anchors);
    assert last in db.anchors && Matches(p, db.events, last, newKey);
    assert KeysApart(p, last, oldKey, newKey);
  }

  lemma ResignAgain(p: Primitives, db: Db, oldKey: string, newKey: string)
    requires Sound(p, db, newKey) && oldKey != ""
    ensures Resigned(p, db, oldKey, newKey) == Ok(db)
  {
    var anchors := ResignAll(p, db.anchors, oldKey, newKey);
    forall i | 0 <= i < |anchors|
      ensures anchors[i] == db.anchors[i]
    {
      assert db.anchors[i] in db.anchors && Matches(p, db.events, db.anchors[i], newKey);
    }
    assert anchors == db.anchors;
  }

  lemma MixedSound(p: Primitives, db: Db, oldKey: string, newKey: string, s: Mixed)
    requires HexDigests(p) && AllApart(p, db.anchors, oldKey, newKey)
    requires Sound(p, db, newKey) && db.anchors != []
    ensures var db' := MixedNext(p, db, oldKey, newKey, s); Sound(p, db', newKey) && db'.anchors != []
  {
    match s
    case MRecord(c, now) =>
      if Recorded(p, db, c, now).Ok? { RecordSound(p, db, newKey, c, now, []); }
    case MAnchorOld(now) => StaleAnchorRefused(p, db, oldKey, newKey, now);
    case MAnchorNew(now) => AnchorSound(p, db, newKey, now);
    case MResign =>
      if oldKey != "" { ResignAgain(p, db, oldKey, newKey); }
    case MReseal =>
      AllVisible(db.events);
      ResealValid(p, db);
  }

  lemma ApartBefore(p: Primitives, db: Db, oldKey: string, newKey: string, steps: seq<Mixed>)
    requires ApartAlong(p, db, oldKey, newKey, steps) && steps != []
    ensures var front := steps[..|steps| - 1];
            ApartAlong(p, db, oldKey, newKey, front) && AllApart(p, MixedRun(p, db, oldKey, newKey, front).anchors, oldKey, newKey)
  {
    var front := steps[..|steps| - 1];
    forall i: nat | i <= |front| ensures AllApart(p, MixedRun(p, db, oldKey, newKey, front[..i]).anchors, oldKey, newKey) {
      assert front[..i] == steps[..i];
    }
    assert front[..|front|] == front;
  }

  lemma {:induction false} MixedRunSound(p: Primitives, db: Db, oldKey: string, newKey: string, steps: seq<Mixed>)
    requires HexDigests(p) && ApartAlong(p, db, oldKey, newKey, steps)
    requires Sound(p, db, newKey) && db.anchors != []
    ensures var db' := MixedRun(p, db, oldKey, newKey, steps); Sound(p, db', newKey) && db'.anchors != []
  {
    if steps != [] {
      ApartBefore(p, db, oldKey, newKey, steps);
      MixedRunSound(p, db, oldKey, newKey, steps[..|steps| - 1]);
      MixedSound(p, MixedRun(p, db, oldKey, newKey, steps[..|steps| - 1]), oldKey, newKey, steps[|steps| - 1]);
    }
  }

  /** Every run whose anchors the keys sign differently verifies under the new key. */
  ghost predicate AlwaysIntact(p: Primitives, db: Db, oldKey: string, newKey: string) {
    forall steps: seq<Mixed> | ApartAlong(p, db, oldKey, newKey, steps) ::
      Intact(p, MixedRun(p, db, oldKey, newKey, steps), newKey, [])
  }

  /** After the anchors of an honest nonempty log are re-signed, every interleaving
      of records, anchors by either gateway, repeated re-signings and reseals
      verifies under the new key, exactly when the log had an anchor to re-sign.
      The keys are only asked to sign the anchors stored along the run
      differently, and the one a stale gateway would take at `now`. */
  lemma RotationBesideStaleGateway(p: Primitives, db: Db, oldKey: string, newKey: string, now: int)
    requires HexDigests(p) && Sound(p, db, oldKey) && newKey != "" && db.events != []
    requires KeysApart(p, NewAnchor(p, db, oldKey, now), oldKey, newKey)
    ensures db.anchors != [] <==> AlwaysIntact(p, Resigned(p, db, oldKey, newKey).value, oldKey, newKey)
  {
    ResignSound(p, db, oldKey, newKey);
    var start := Resigned(p, db, oldKey, newKey).value;
    if db.anchors != [] {
      forall steps: seq<Mixed> | ApartAlong(p, start, oldKey, newKey, steps)
        ensures Intact(p, MixedRun(p, start, oldKey, newKey, steps), newKey, [])
      {
        MixedRunSound(p, start, oldKey, newKey, steps);
        SoundIsIntact(p, MixedRun(p, start, oldKey, newKey, steps), newKey, []);
      }
    } else {
      assert start == db;
      StaleFirstAnchor(p, db, oldKey, newKey, now);
    }
  }

  /** With no anchor stored, the stale gateway writes one that fails under the new key. */
  lemma StaleFirstAnchor(p: Primitives, db: Db, oldKey: string, newKey: string, now: int)
    requires db.anchors == [] && db.events != [] && oldKey != "" && MaxId(db.events) > 0
    requires KeysApart(p, NewAnchor(p, db, oldKey, now), oldKey, newKey)
    ensures !Intact(p, MixedRun(p, db, oldKey, newKey, [MAnchorOld(now)]), newKey, [])
    ensures ApartAlong(p, db, oldKey, newKey, [MAnchorOld(now)])
  {
    var a, steps := NewAnchor(p, db, oldKey, now), [MAnchorOld(now)];
    assert db.anchors + [a] == [a];
    assert Anchored(p, db, oldKey, now) == Ok((db.(anchors := [a], anchorMark := a.id), a));
    assert MixedRun(p, db, oldKey, newKey, []) == db;
    assert steps[..0] == [] && steps[..1] == steps;
    var db' := MixedRun(p, db, oldKey, newKey, steps);
    assert db'.anchors == [a] && a in db'.anchors && !Signed(p, a, newKey);
    forall i: nat | i <= |steps| ensures AllApart(p, MixedRun(p, db, oldKey, newKey, steps[..i]).anchors, oldKey, newKey) {
      assert i == 0 || i == 1;
    }
  }
}
