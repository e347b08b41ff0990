/** The log itself: each method runs the loops the source runs and is tied to
    the step it implements. */
module AuditLog {
  import opened Basics
  import opened AuditChain
  import opened AuditStore
  import opened AuditProofs
  import opened AuditReseal
  import opened AuditRecorded

  datatype WalkResult = WalkResult(checked: nat, lastId: int, lastHash: string, broken: Option<Break>)

  datatype Problem =
    | Forged(a: Anchor)
    | PastEnd(newest: Anchor, count: nat)
    | Missing(a: Anchor)
    | Changed(a: Anchor)
    | SequenceAhead(mark: int, newestId: int)

  datatype VerifyResult = VerifyResult(walk: WalkResult, anchors: nat, lastAnchor: Option<Anchor>, problems: seq<Problem>) {
    predicate IsIntact() { walk.broken.None? && problems == [] }
  }

  datatype ResealResult = ResealResult(scanned: nat, rewritten: nat, firstId: int, lastId: int, head: string, anchorsRemoved: int)

  /** What a walk over `rows` must report: how far it got, the last good row, the first bad one. */
  ghost predicate WalkReports(p: Primitives, rows: seq<Event>, r: WalkResult) {
    && r.checked <= |rows|
    && (forall i: nat | i < r.checked :: LinkAt(p, rows, i))
    && r.lastHash == Prev(rows, r.checked)
    && r.lastId == (if r.checked == 0 then 0 else rows[r.checked - 1].id)
    && (r.broken.None? ==> r.checked == |rows|)
    && (r.broken.Some? ==> r.checked < |rows| && !LinkAt(p, rows, r.checked)
                           && r.broken.value == Break(r.checked, rows[r.checked].id))
  }

  lemma AfterRow(rows: seq<Event>, k: nat, id: int)
    requires Sorted(rows) && k <= |rows|
    requires forall i | 0 <= i < k :: rows[i].id <= id
    requires forall i | k <= i < |rows| :: rows[i].id > id
    ensures FirstAfter(rows, id) == k && After(rows, id) == rows[k..]
  {
    var f := FirstAfter(rows, id);
    var atF := if f < |rows| then rows[f].id else id;
    var atK := if k < |rows| then rows[k].id else id;
    assert f == k;
  }

  /** Where a walk stands that has found no break yet. */
  ghost predicate WalkedTo(p: Primitives, rows: seq<Event>, r: WalkResult, prev: string, afterId: int) {
    && r.broken.None? && r.checked <= |rows|
    && (forall i: nat | i < r.checked :: LinkAt(p, rows, i))
    && r.lastHash == prev == Prev(rows, r.checked)
    && r.lastId == afterId == if r.checked == 0 then 0 else rows[r.checked - 1].id
  }

  /** The next batch starts right after the rows already walked. */
  lemma NextBatch(p: Primitives, events: seq<Event>, r: WalkResult, prev: string, afterId: int)
    requires Sorted(events) && WalkedTo(p, Visible(events), r, prev, afterId)
    ensures After(events, afterId) == Visible(events)[r.checked..]
  {
    VisibleSuffix(events);
    var skip := FirstAfter(events, 0);
    assert r.checked > 0 ==> Visible(events)[r.checked - 1] == events[skip + r.checked - 1];
    AfterRow(events, skip + r.checked, afterId);
  }

  lemma WalkStep(p: Primitives, rows: seq<Event>, r: WalkResult, prev: string, afterId: int)
    requires WalkedTo(p, rows, r, prev, afterId) && r.checked < |rows|
    ensures var e := rows[r.checked];
            if LinkOk(p, e, prev) then WalkedTo(p, rows, WalkResult(r.checked + 1, e.id, e.hash, None), e.hash, e.id)
            else WalkReports(p, rows, r.(broken := Some(Break(r.checked, e.id)))) && !ChainOk(p, rows)
  {
    assert LinkAt(p, rows, r.checked) <==> LinkOk(p, rows[r.checked], prev);
  }

  lemma WalkEnd(p: Primitives, rows: seq<Event>, r: WalkResult, prev: string, afterId: int)
    requires WalkedTo(p, rows, r, prev, afterId) && r.checked == |rows|
    ensures WalkReports(p, rows, r) && ChainOk(p, rows)
  {
  }

  /** walk: every link and hash in id order, a thousand rows at a time. The
      batches change nothing: the report is that of one pass over the log. */
  method Walk(p: Primitives, events: seq<Event>) returns (r: WalkResult)
    requires Sorted(events)
    ensures WalkReports(p, Visible(events), r)
    ensures r.broken.None? <==> ChainOk(p, Visible(events))
  {
    ghost var rows := Visible(events);
    r := WalkResult(0, 0, GENESIS, None);
    var prev, afterId := GENESIS, 0;
    while true
      invariant WalkedTo(p, rows, r, prev, afterId)
      decreases |rows| - r.checked
    {
      NextBatch(p, events, r, prev, afterId);
      var rest := After(events, afterId);
      var batch := rest[..Min(VERIFY_BATCH, |rest|)];
      if batch == [] {
        WalkEnd(p, rows, r, prev, afterId);
        return;
      }
      ghost var start := r.checked;
      for i := 0 to |batch|
        invariant r.checked == start + i && WalkedTo(p, rows, r, prev, afterId)
      {
        var e := batch[i];
        assert e == rows[r.checked];
        WalkStep(p, rows, r, prev, afterId);
        if !LinkOk(p, e, prev) {
          r := r.(broken := Some(Break(r.checked, e.id)));
          return;
        }
        prev := e.hash;
        r := WalkResult(r.checked + 1, e.id, e.hash, None);
        afterId := e.id;
      }
      if |batch| < VERIFY_BATCH {
        WalkEnd(p, rows, r, prev, afterId);
        return;
      }
    }
  }

  // ---- checkAnchors

  ghost predicate Explains(p: Primitives, events: seq<Event>, list: seq<Anchor>, key: string, pr: Problem) {
    match pr
    case Forged(a) => a in list && !Signed(p, a, key)
    case PastEnd(newest, count) =>
      && newest in list && Beyond(p, events, newest, key) && count > 0
      && forall a | a in list && Beyond(p, events, a, key) :: a.eventId <= newest.eventId
    case Missing(a) => a in list && Signed(p, a, key) && HashOf(events, a.eventId).None? && a.eventId <= MaxId(events)
    case Changed(a) =>
      a in list && Signed(p, a, key) && HashOf(events, a.eventId).Some? && HashOf(events, a.eventId) != Some(a.hash)
    case SequenceAhead(_, _) => false
  }

  /** A genuine anchor for an event past the end of the log. */
  predicate Beyond(p: Primitives, events: seq<Event>, a: Anchor, key: string) {
    Signed(p, a, key) && HashOf(events, a.eventId).None? && a.eventId > MaxId(events)
  }

  ghost predicate Reported(p: Primitives, events: seq<Event>, key: string, a: Anchor, problems: seq<Problem>) {
    || Forged(a) in problems || Missing(a) in problems || Changed(a) in problems
    || (Beyond(p, events, a, key) && exists b, n :: PastEnd(b, n) in problems)
  }

  /** The best matching anchor of a list: the newest event any of them proves. */
  ghost predicate BestMatch(p: Primitives, events: seq<Event>, list: seq<Anchor>, key: string, best: Option<Anchor>) {
    match best
    case None => forall a | a in list :: !Matches(p, events, a, key)
    case Some(b) =>
      b in list && Matches(p, events, b, key) && forall a | a in list && Matches(p, events, a, key) :: a.eventId <= b.eventId
  }

  method NewestOf(list: seq<Anchor>) returns (newest: Anchor)
    requires list != []
    ensures newest in list && forall a | a in list :: a.eventId <= newest.eventId
  {
    newest := list[0];
    for i := 1 to |list|
      invariant newest in list && forall j | 0 <= j < i :: list[j].eventId <= newest.eventId
    {
      if list[i].eventId > newest.eventId {
        newest := list[i];
      }
    }
  }

  /** Sorts the anchors out: the best that matches, those past the end, and the problems of the others. */
  method Classify(p: Primitives, events: seq<Event>, list: seq<Anchor>, key: string)
    returns (best: Option<Anchor>, past: seq<Anchor>, found: seq<Problem>)
    ensures BestMatch(p, events, list, key, best)
    ensures forall a | a in past :: a in list && Beyond(p, events, a, key)
    ensures forall pr | pr in found :: !pr.PastEnd? && Explains(p, events, list, key, pr)
    ensures forall a | a in list :: Settled(p, events, key, a, past, found)
  {
    best, past, found := None, [], [];
    for i := 0 to |list|
      invariant BestMatch(p, events, list[..i], key, best)
      invariant forall a | a in past :: a in list[..i] && Beyond(p, events, a, key)
      invariant forall pr | pr in found :: !pr.PastEnd? && Explains(p, events, list, key, pr)
      invariant forall a | a in list[..i] :: Settled(p, events, key, a, past, found)
    {
      var a := list[i];
      assert list[..i + 1] == list[..i] + [a];
      var h := HashOf(events, a.eventId);
      if !Signed(p, a, key) {
        found := found + [Forged(a)];
      } else if h.None? && a.eventId > MaxId(events) {
        past := past + [a];
      } else if h.None? {
        found := found + [Missing(a)];
      } else if h.value != a.hash {
        found := found + [Changed(a)];
      } else if best.None? || a.eventId > best.value.eventId {
        best := Some(a);
      }
    }
    assert list[..|list|] == list;
  }

  ghost predicate Settled(p: Primitives, events: seq<Event>, key: string, a: Anchor, past: seq<Anchor>, found: seq<Problem>) {
    Matches(p, events, a, key) || a in past || Forged(a) in found || Missing(a) in found || Changed(a) in found
  }

  /** Every anchor is classified; a problem is reported exactly for those that
      do not match, and every report is true. */
  method CheckAnchors(p: Primitives, events: seq<Event>, list: seq<Anchor>, key: string)
    returns (best: Option<Anchor>, problems: seq<Problem>)
    ensures BestMatch(p, events, list, key, best)
    ensures forall pr | pr in problems :: Explains(p, events, list, key, pr)
    ensures forall a | a in list :: Matches(p, events, a, key) || Reported(p, events, key, a, problems)
    ensures problems == [] <==> forall a | a in list :: Matches(p, events, a, key)
  {
    var past, found;
    best, past, found := Classify(p, events, list, key);
    problems := found;
    if past != [] {
      var newest := NewestOf(past);
      PastIsBeyond(p, events, list, key, past, found);
      problems := [PastEnd(newest, |past|)] + found;
      assert PastEnd(newest, |past|) in problems;
    }
    if problems == [] {
      assert forall a | a in list :: Settled(p, events, key, a, past, found);
    } else {
      ExplainedNotMatching(p, events, list, key, problems[0]);
    }
  }

  lemma PastIsBeyond(p: Primitives, events: seq<Event>, list: seq<Anchor>, key: string, past: seq<Anchor>, found: seq<Problem>)
    requires forall pr | pr in found :: !pr.PastEnd? && Explains(p, events, list, key, pr)
    requires forall a | a in list :: Settled(p, events, key, a, past, found)
    ensures forall a | a in list && Beyond(p, events, a, key) :: a in past
  {
    forall a | a in list && Beyond(p, events, a, key)
      ensures a in past
    {
      assert Settled(p, events, key, a, past, found);
      assert Forged(a) in found ==> Explains(p, events, list, key, Forged(a));
      assert Missing(a) in found ==> Explains(p, events, list, key, Missing(a));
      assert Changed(a) in found ==> Explains(p, events, list, key, Changed(a));
    }
  }

  lemma ExplainedNotMatching(p: Primitives, events: seq<Event>, list: seq<Anchor>, key: string, pr: Problem)
    requires Explains(p, events, list, key, pr)
    ensures exists a | a in list :: !Matches(p, events, a, key)
  {
    var a := match pr
      case Forged(a) => a
      case PastEnd(a, _) => a
      case Missing(a) => a
      case Changed(a) => a
      case SequenceAhead(_, _) => NO_ANCHOR;
    assert a in list && !Matches(p, events, a, key);
  }

  // ---- Reseal, one row at a time

  /** UPDATE audit_events SET prev_hash = ?, hash = ? WHERE id = ?. */
  function SetLinks(rows: seq<Event>, id: int, prev: string, hash: string): seq<Event> {
    if rows == [] then []
    else [if rows[0].id == id then rows[0].(prevHash := prev, hash := hash) else rows[0]] + SetLinks(rows[1..], id, prev, hash)
  }

  lemma {:induction false} SetLinksAt(rows: seq<Event>, i: nat, prev: string, hash: string)
    requires Sorted(rows) && i < |rows|
    ensures SetLinks(rows, rows[i].id, prev, hash) == rows[i := rows[i].(prevHash := prev, hash := hash)]
  {
    if i == 0 {
      SetLinksNowhere(rows[1..], rows[0].id, prev, hash);
    } else {
      SetLinksAt(rows[1..], i - 1, prev, hash);
    }
  }

  lemma {:induction false} SetLinksNowhere(rows: seq<Event>, id: int, prev: string, hash: string)
    requires forall j | 0 <= j < |rows| :: rows[j].id != id
    ensures SetLinks(rows, id, prev, hash) == rows
  {
    if rows != [] { SetLinksNowhere(rows[1..], id, prev, hash); }
  }

  function Joined(done: seq<Event>, rest: Option<seq<Event>>): Option<seq<Event>> {
    match rest case None => None case Some(r) => Some(done + r)
  }

  /** Where a reseal stands: `done` are the rows already sealed, in order, and
      sealing the rest from `prev` completes them. */
  ghost predicate SealedTo(p: Primitives, rows: seq<Event>, done: seq<Event>, prev: string) {
    && FirstAfter(rows, 0) <= |done| <= |rows|
    && Joined(done, Relinked(p, rows[|done|..], prev)) == SealedRows(p, rows)
    && (forall i: nat | i < |done| :: SameRecord(done[i], rows[i]))
    && (forall i: nat | i < |done| :: !Clash(rows, done, i))
  }

  lemma SealBegins(p: Primitives, rows: seq<Event>)
    ensures SealedTo(p, rows, rows[..FirstAfter(rows, 0)], GENESIS)
  {
  }

  function SealedRowAt(e: Event, prev: string, hash: string): Event { e.(prevHash := prev, hash := hash) }

  lemma SealStep(p: Primitives, rows: seq<Event>, done: seq<Event>, prev: string)
    requires SealedTo(p, rows, done, prev) && |done| < |rows|
    ensures var e := rows[|done|];
            match ComputeHash(p, prev, e.content)
            case None => SealedRows(p, rows).None?
            case Some(want) =>
              var next := done + [SealedRowAt(e, prev, want)];
              if Clash(rows, next, |done|) then SealedRows(p, rows).None? || Clashes(rows, SealedRows(p, rows).value)
              else SealedTo(p, rows, next, want)
  {
    var e := rows[|done|];
    var rest := rows[|done|..];
    assert rest[0] == e && rest[1..] == rows[|done| + 1..];
    if ComputeHash(p, prev, e.content).Some? {
      var want := ComputeHash(p, prev, e.content).value;
      var next := done + [SealedRowAt(e, prev, want)];
      var tail := Relinked(p, rest[1..], want);
      assert Joined(next, tail) == SealedRows(p, rows) by {
        if tail.Some? { assert done + ([SealedRowAt(e, prev, want)] + tail.value) == next + tail.value; }
      }
      if Clash(rows, next, |done|) {
        if tail.Some? { ClashStays(rows, next, next + tail.value, |done|); }
      } else {
        forall i: nat | i < |next|
          ensures SameRecord(next[i], rows[i]) && !Clash(rows, next, i)
        {
          if i < |done| { ClashStays(rows, done, next, i); assert SameRecord(done[i], rows[i]); }
        }
      }
    }
  }

  lemma ClashStays(rows: seq<Event>, part: seq<Event>, whole: seq<Event>, i: nat)
    requires i < |part| <= |whole| <= |rows| && part == whole[..|part|]
    ensures Clash(rows, part, i) <==> Clash(rows, whole, i)
  {
    assert forall j | 0 <= j <= i :: part[j] == whole[j];
  }

  lemma SealEnds(p: Primitives, rows: seq<Event>, done: seq<Event>, prev: string)
    requires SealedTo(p, rows, done, prev) && |done| == |rows|
    ensures SealedRows(p, rows) == Some(done) && !Clashes(rows, done)
  {
    assert rows[|done|..] == [];
    assert done + [] == done;
  }

  lemma {:induction false} FirstChangedNext(rows: seq<Event>, done: seq<Event>, e: Event, f: Event)
    requires |rows| == |done| && forall i | 0 <= i < |rows| && rows[i] != done[i] :: rows[i].id != 0
    ensures FirstChanged(rows + [e], done + [f]) ==
            if FirstChanged(rows, done) != 0 then FirstChanged(rows, done) else if e != f then e.id else 0
  {
    if rows != [] {
      assert (rows + [e])[1..] == rows[1..] + [e] && (done + [f])[1..] == done[1..] + [f];
      if rows[0] == done[0] { FirstChangedNext(rows[1..], done[1..], e, f); }
    }
  }

  /** The id of the last row that differs, zero when none does. */
  function LastChanged(rows: seq<Event>, sealed: seq<Event>): int
    requires |rows| == |sealed|
  {
    var n := |rows| - 1;
    if rows == [] then 0 else if rows[n] != sealed[n] then rows[n].id else LastChanged(rows[..n], sealed[..n])
  }

  function CountChanged(rows: seq<Event>, sealed: seq<Event>): nat
    requires |rows| == |sealed|
  {
    var n := |rows| - 1;
    if rows == [] then 0 else CountChanged(rows[..n], sealed[..n]) + if rows[n] != sealed[n] then 1 else 0
  }

  /** The report of the rows that differ: the first, the last and how many. */
  predicate Counted(rows: seq<Event>, sealed: seq<Event>, res: ResealResult)
    requires |rows| == |sealed|
  {
    && res.firstId == FirstChanged(rows, sealed) && res.lastId == LastChanged(rows, sealed)
    && res.rewritten == CountChanged(rows, sealed)
  }

  lemma {:induction false} ChangedSnoc(rows: seq<Event>, e: Event, done: seq<Event>, f: Event)
    requires |rows| == |done|
    ensures LastChanged(rows + [e], done + [f]) == (if e != f then e.id else LastChanged(rows, done))
    ensures CountChanged(rows + [e], done + [f]) == CountChanged(rows, done) + if e != f then 1 else 0
  {
    assert (rows + [e])[..|rows|] == rows && (done + [f])[..|done|] == done;
  }

  lemma {:induction false} ChangedNext(rows: seq<Event>, done: seq<Event>, f: Event)
    requires |done| < |rows|
    ensures var n := |done|;
            && LastChanged(rows[..n + 1], done + [f]) == (if rows[n] != f then rows[n].id else LastChanged(rows[..n], done))
            && CountChanged(rows[..n + 1], done + [f]) == CountChanged(rows[..n], done) + if rows[n] != f then 1 else 0
  {
    var n := |done|;
    assert rows[..n + 1] == rows[..n] + [rows[n]];
    ChangedSnoc(rows[..n], rows[n], done, f);
  }

  /** The first and the last id reported bound the rows rewritten and belong to
      two of them; both are zero, and so is the count, exactly when none was. */
  lemma {:induction false} ChangesBounded(rows: seq<Event>, sealed: seq<Event>, i: nat)
    requires |rows| == |sealed| && Sorted(rows) && i < |rows| && rows[i] != sealed[i]
    ensures FirstChanged(rows, sealed) <= rows[i].id <= LastChanged(rows, sealed)
    ensures CountChanged(rows, sealed) > 0
  {
    FirstBounds(rows, sealed, i);
    LastBounds(rows, sealed, i);
  }

  lemma {:induction false} FirstBounds(rows: seq<Event>, sealed: seq<Event>, i: nat)
    requires |rows| == |sealed| && Sorted(rows) && i < |rows| && rows[i] != sealed[i]
    ensures FirstChanged(rows, sealed) <= rows[i].id
  {
    if rows[0] == sealed[0] { FirstBounds(rows[1..], sealed[1..], i - 1); }
  }

  lemma {:induction false} LastBounds(rows: seq<Event>, sealed: seq<Event>, i: nat)
    requires |rows| == |sealed| && Sorted(rows) && i < |rows| && rows[i] != sealed[i]
    ensures rows[i].id <= LastChanged(rows, sealed) && CountChanged(rows, sealed) > 0
  {
    var n := |rows| - 1;
    if i < n { LastBounds(rows[..n], sealed[..n], i); }
  }

  lemma {:induction false} NoneChanged(rows: seq<Event>, sealed: seq<Event>)
    requires |rows| == |sealed|
    ensures CountChanged(rows, sealed) == 0 <==> sealed == rows
    ensures sealed == rows ==> FirstChanged(rows, sealed) == 0 == LastChanged(rows, sealed)
  {
    if rows != [] {
      var n := |rows| - 1;
      NoneChanged(rows[..n], sealed[..n]);
      assert sealed == rows <==> sealed[..n] == rows[..n] && sealed[n] == rows[n] by {
        assert rows == rows[..n] + [rows[n]] && sealed == sealed[..n] + [sealed[n]];
      }
      UnchangedFirst(rows);
    }
  }

  /** The working copy of the table, the report and the cursor, while `done` rows are sealed. */
  ghost predicate SealProgress(rows: seq<Event>, done: seq<Event>, tx: seq<Event>, res: ResealResult, prev: string, afterId: int) {
    var skip := FirstAfter(rows, 0);
    && skip <= |done| <= |rows|
    && tx == done + rows[|done|..]
    && (forall i: nat | i < |done| :: SameRecord(done[i], rows[i]))
    && (forall i: nat | i < |done| && rows[i] != done[i] :: rows[i].id > 0)
    && res.scanned == |done| - skip
    && Counted(rows[..|done|], done, res)
    && afterId == (if |done| == skip then 0 else rows[|done| - 1].id)
    && prev == (if |done| == skip then GENESIS else done[|done| - 1].hash)
  }

  lemma SealBatch(rows: seq<Event>, done: seq<Event>, tx: seq<Event>, res: ResealResult, prev: string, afterId: int)
    requires Sorted(rows) && SealProgress(rows, done, tx, res, prev, afterId)
    ensures Sorted(tx) && After(tx, afterId) == rows[|done|..]
  {
    forall i | 0 <= i < |tx|
      ensures tx[i].id == rows[i].id
    {
      assert i < |done| ==> SameRecord(done[i], rows[i]);
    }
    VisibleSuffix(rows);
    AfterRow(tx, |done|, afterId);
  }

  /** The UNIQUE constraint refuses the update exactly when the sealed row clashes. */
  lemma TxClash(rows: seq<Event>, done: seq<Event>, tx: seq<Event>, f: Event)
    requires |done| < |rows| && tx == done + rows[|done|..]
    requires Sorted(tx) && tx[|done|].id == f.id && rows[|done|] != f
    ensures (exists g | g in tx :: g.id != f.id && g.hash == f.hash) <==> Clash(rows, done + [f], |done|)
  {
    var n, next := |done|, done + [f];
    if g :| g in tx && g.id != f.id && g.hash == f.hash {
      var j :| 0 <= j < |tx| && tx[j] == g;
      assert j < n ==> next[j].hash == next[n].hash;
      assert j > n ==> rows[j].hash == next[n].hash;
    }
    if Clash(rows, next, n) {
      var j :| 0 <= j < |rows| && j != n && (if j < n then next[j] else rows[j]).hash == f.hash;
      assert tx[j] in tx;
    }
  }

  lemma SealAdvance(rows: seq<Event>, done: seq<Event>, f: Event)
    requires |done| < |rows| && forall i: nat | i < |done| && rows[i] != done[i] :: rows[i].id > 0
    ensures FirstChanged(rows[..|done| + 1], done + [f]) ==
            var first := FirstChanged(rows[..|done|], done);
            if first != 0 then first else if rows[|done|] != f then rows[|done|].id else 0
  {
    assert rows[..|done| + 1] == rows[..|done|] + [rows[|done|]];
    FirstChangedNext(rows[..|done|], done, rows[|done|], f);
  }

  ghost predicate Sealing(p: Primitives, rows: seq<Event>, done: seq<Event>, tx: seq<Event>, res: ResealResult, prev: string, afterId: int) {
    Sorted(rows) && SealedTo(p, rows, done, prev) && SealProgress(rows, done, tx, res, prev, afterId)
  }

  function Rewrote(res: ResealResult, id: int): ResealResult {
    res.(rewritten := res.rewritten + 1, firstId := if res.firstId == 0 then id else res.firstId, lastId := id)
  }

  function ScannedRow(res: ResealResult, e: Event, f: Event): ResealResult {
    (if e == f then res else Rewrote(res, e.id)).(scanned := res.scanned + 1)
  }

  lemma CountedNext(rows: seq<Event>, done: seq<Event>, res: ResealResult, f: Event)
    requires |done| < |rows| && forall i: nat | i < |done| && rows[i] != done[i] :: rows[i].id > 0
    requires Counted(rows[..|done|], done, res)
    ensures Counted(rows[..|done| + 1], done + [f], ScannedRow(res, rows[|done|], f))
  {
    SealAdvance(rows, done, f);
    ChangedNext(rows, done, f);
  }

  lemma ProgressKept(rows: seq<Event>, done: seq<Event>, tx: seq<Event>, res: ResealResult, prev: string, afterId: int, f: Event)
    requires Sorted(rows) && SealProgress(rows, done, tx, res, prev, afterId) && |done| < |rows|
    requires SameRecord(f, rows[|done|])
    ensures SealProgress(rows, done + [f], tx[|done| := f], ScannedRow(res, rows[|done|], f), f.hash, f.id)
  {
    var n := |done|;
    CountedNext(rows, done, res, f);
    VisibleSuffix(rows);
    assert tx[n := f] == (done + [f]) + rows[n + 1..];
    forall i: nat | i < n + 1
      ensures SameRecord((done + [f])[i], rows[i])
      ensures rows[i] != (done + [f])[i] ==> rows[i].id > 0
    {
      if i < n { assert SameRecord(done[i], rows[i]); }
    }
  }

  ghost predicate SealFails(p: Primitives, rows: seq<Event>) {
    SealedRows(p, rows).None? || Clashes(rows, SealedRows(p, rows).value)
  }

  lemma NoClashUnchanged(rows: seq<Event>, sealed: seq<Event>, i: nat)
    requires i < |rows| && i < |sealed| && rows[i] == sealed[i]
    ensures !Clash(rows, sealed, i)
  {
  }

  ghost predicate SealReports(p: Primitives, rows: seq<Event>, sealed: seq<Event>, res: ResealResult) {
    && SealedRows(p, rows) == Some(sealed)
    && Counted(rows, sealed, res)
    && res.scanned == |Visible(rows)|
    && res.head == (if Visible(rows) == [] then GENESIS else sealed[|sealed| - 1].hash)
  }

  lemma SealDone(p: Primitives, rows: seq<Event>, done: seq<Event>, tx: seq<Event>, res: ResealResult, prev: string, afterId: int)
    requires Sealing(p, rows, done, tx, res, prev, afterId) && |done| == |rows|
    ensures !SealFails(p, rows) && SealReports(p, rows, tx, res.(head := prev))
  {
    SealEnds(p, rows, done, prev);
    assert rows[|done|..] == [] && done + [] == done;
    assert rows[..|done|] == rows;
  }

  datatype SealState = SealState(tx: seq<Event>, res: ResealResult, prev: string, afterId: int)

  ghost predicate Standing(p: Primitives, rows: seq<Event>, done: seq<Event>, st: SealState) {
    Sealing(p, rows, done, st.tx, st.res, st.prev, st.afterId)
  }

  const SEAL_REPORT := ResealResult(0, 0, 0, 0, GENESIS, 0)

  lemma StartsCounted(rows: seq<Event>, done: seq<Event>)
    requires |done| <= |rows| && done == rows[..|done|] && Counted(done, done, SEAL_REPORT)
    ensures rows == done + rows[|done|..] && Counted(rows[..|done|], done, SEAL_REPORT)
  {
  }

  lemma SealStarts(p: Primitives, rows: seq<Event>)
    requires Sorted(rows)
    ensures Standing(p, rows, rows[..FirstAfter(rows, 0)], SealState(rows, SEAL_REPORT, GENESIS, 0))
  {
    var done := rows[..FirstAfter(rows, 0)];
    SealBegins(p, rows);
    NoneChanged(done, done);
    StartsCounted(rows, done);
  }

  /** One row of the relinking pass: UPDATE when its links differ, refused by
      the UNIQUE constraint when another row holds the new hash. */
  function SealOne(p: Primitives, st: SealState, e: Event): Result<SealState, AuditError> {
    match ComputeHash(p, st.prev, e.content)
    case None => Err(BadDetails)
    case Some(want) => SealWith(st, e, want)
  }

  function SealWith(st: SealState, e: Event, want: string): Result<SealState, AuditError> {
    if want == e.hash && st.prev == e.prevHash then Ok(SealState(st.tx, ScannedRow(st.res, e, e), want, e.id))
    else if exists f | f in st.tx :: f.id != e.id && f.hash == want then Err(ConstraintViolated)
    else Ok(SealState(SetLinks(st.tx, e.id, st.prev, want), ScannedRow(st.res, e, SealedRowAt(e, st.prev, want)), want, e.id))
  }

  function SealMany(p: Primitives, st: SealState, rows: seq<Event>): Result<SealState, AuditError>
    decreases |rows|
  {
    if rows == [] then Ok(st)
    else match SealOne(p, st, rows[0])
      case Err(x) => Err(x)
      case Ok(next) => SealMany(p, next, rows[1..])
  }

  /** What sealing one row must come to: a failure of the whole, or one more row done. */
  ghost predicate SealOutcome(p: Primitives, rows: seq<Event>, next: seq<Event>, r: Result<SealState, AuditError>) {
    match r
    case Err(_) => SealFails(p, rows)
    case Ok(after) => Standing(p, rows, next, after)
  }

  /** A row whose links already match is passed over. */
  lemma SealSame(p: Primitives, rows: seq<Event>, done: seq<Event>, st: SealState, want: string)
    requires Standing(p, rows, done, st) && |done| < |rows|
    requires ComputeHash(p, st.prev, rows[|done|].content) == Some(want) && rows[|done|] == SealedRowAt(rows[|done|], st.prev, want)
    ensures SealOutcome(p, rows, done + [rows[|done|]], SealWith(st, rows[|done|], want))
  {
    var e, n := rows[|done|], |done|;
    SealStep(p, rows, done, st.prev);
    SealBatch(rows, done, st.tx, st.res, st.prev, st.afterId);
    ProgressKept(rows, done, st.tx, st.res, st.prev, st.afterId, e);
    assert st.tx[n] == e && st.tx[n := e] == st.tx;
    NoClashUnchanged(rows, done + [e], n);
  }

  /** A row with other links is rewritten, unless another row holds the new hash. */
  lemma SealChanged(p: Primitives, rows: seq<Event>, done: seq<Event>, st: SealState, want: string)
    requires Standing(p, rows, done, st) && |done| < |rows|
    requires ComputeHash(p, st.prev, rows[|done|].content) == Some(want) && rows[|done|] != SealedRowAt(rows[|done|], st.prev, want)
    ensures var e := rows[|done|];
            var f := SealedRowAt(e, st.prev, want);
            if exists g | g in st.tx :: g.id != e.id && g.hash == want then SealFails(p, rows)
            else Standing(p, rows, done + [f], SealState(SetLinks(st.tx, e.id, st.prev, want), ScannedRow(st.res, e, f), want, e.id))
  {
    var e, n := rows[|done|], |done|;
    var f := SealedRowAt(e, st.prev, want);
    SealStep(p, rows, done, st.prev);
    SealBatch(rows, done, st.tx, st.res, st.prev, st.afterId);
    ProgressKept(rows, done, st.tx, st.res, st.prev, st.afterId, f);
    assert st.tx[n] == e;
    TxClash(rows, done, st.tx, f);
    SetLinksAt(st.tx, n, st.prev, want);
  }

  lemma SealChangedOutcome(p: Primitives, rows: seq<Event>, done: seq<Event>, st: SealState, want: string)
    requires Standing(p, rows, done, st) && |done| < |rows|
    requires ComputeHash(p, st.prev, rows[|done|].content) == Some(want) && rows[|done|] != SealedRowAt(rows[|done|], st.prev, want)
    ensures SealOutcome(p, rows, done + [SealedRowAt(rows[|done|], st.prev, want)], SealWith(st, rows[|done|], want))
  {
    SealChanged(p, rows, done, st, want);
  }

  lemma SealOneStanding(p: Primitives, rows: seq<Event>, done: seq<Event>, st: SealState) returns (next: seq<Event>)
    requires Standing(p, rows, done, st) && |done| < |rows|
    ensures |next| == |done| + 1 && SealOutcome(p, rows, next, SealOne(p, st, rows[|done|]))
  {
    var e := rows[|done|];
    match ComputeHash(p, st.prev, e.content)
    case None =>
      SealStep(p, rows, done, st.prev);
      next := done + [e];
    case Some(want) =>
      next := done + [SealedRowAt(e, st.prev, want)];
      if e == SealedRowAt(e, st.prev, want) {
        SealSame(p, rows, done, st, want);
      } else {
        SealChangedOutcome(p, rows, done, st, want);
      }
  }

  /** Row by row, the pass seals what SealedRows says and fails when that does. */
  lemma {:induction false} SealManyCorrect(p: Primitives, rows: seq<Event>, done: seq<Event>, st: SealState)
    requires Standing(p, rows, done, st)
    ensures match SealMany(p, st, rows[|done|..])
            case Err(_) => SealFails(p, rows)
            case Ok(end) => !SealFails(p, rows) && SealReports(p, rows, end.tx, end.res.(head := end.prev))
    decreases |rows| - |done|
  {
    if |done| == |rows| {
      SealDone(p, rows, done, st.tx, st.res, st.prev, st.afterId);
    } else {
      assert rows[|done|..][0] == rows[|done|] && rows[|done|..][1..] == rows[|done| + 1..];
      var next := SealOneStanding(p, rows, done, st);
      if SealOne(p, st, rows[|done|]).Ok? {
        SealManyCorrect(p, rows, next, SealOne(p, st, rows[|done|]).value);
      }
    }
  }

  /** What the next read returns after a row was sealed: the rows after it, untouched. */
  lemma SealOneKeepsRest(p: Primitives, st: SealState, e: Event, rest: seq<Event>)
    requires Sorted(st.tx) && After(st.tx, st.afterId) == [e] + rest && SealOne(p, st, e).Ok?
    ensures Sorted(SealOne(p, st, e).value.tx) && After(SealOne(p, st, e).value.tx, e.id) == rest
  {
    var k := FirstAfter(st.tx, st.afterId);
    NextRow(st.tx, st.afterId, e, rest);
    var next := SealOne(p, st, e).value;
    SetLinksAt(st.tx, k, st.prev, next.prev);
    RestAfter(st.tx, next.tx, k);
  }

  lemma NextRow(tx: seq<Event>, afterId: int, e: Event, rest: seq<Event>)
    requires Sorted(tx) && After(tx, afterId) == [e] + rest
    ensures var k := FirstAfter(tx, afterId); k < |tx| && tx[k] == e && tx[k + 1..] == rest
  {
    var k := FirstAfter(tx, afterId);
    assert tx[k] == After(tx, afterId)[0];
    assert tx[k + 1..] == After(tx, afterId)[1..];
  }

  /** Rewriting the links of row k leaves the rows after it. */
  lemma RestAfter(tx: seq<Event>, next: seq<Event>, k: nat)
    requires Sorted(tx) && k < |tx| == |next| && next == tx[k := next[k]] && next[k].id == tx[k].id
    ensures Sorted(next) && After(next, tx[k].id) == tx[k + 1..]
  {
    AfterRow(next, k + 1, tx[k].id);
    assert next[k + 1..] == tx[k + 1..];
  }

  /** Seals the rows of one batch. */
  method SealSome(p: Primitives, from: SealState, rest: seq<Event>, n: nat) returns (r: Result<SealState, AuditError>)
    requires Sorted(from.tx) && n <= |rest| && After(from.tx, from.afterId) == rest
    ensures r.Err? ==> SealMany(p, from, rest) == r
    ensures r.Ok? ==>
              && Sorted(r.value.tx) && After(r.value.tx, r.value.afterId) == rest[n..]
              && SealMany(p, from, rest) == SealMany(p, r.value, rest[n..])
  {
    var st := from;
    assert rest[0..] == rest;
    for i := 0 to n
      invariant Sorted(st.tx) && After(st.tx, st.afterId) == rest[i..]
      invariant SealMany(p, from, rest) == SealMany(p, st, rest[i..])
    {
      var e := rest[i];
      FirstApart(rest, i);
      var next := SealOne(p, st, e);
      if next.Err? {
        return next;
      }
      SealOneKeepsRest(p, st, e, rest[i + 1..]);
      st := next.value;
    }
    r := Ok(st);
  }

  /** Reading the table a thousand rows at a time visits each row once, in order. */
  method SealInBatches(p: Primitives, from: SealState) returns (r: Result<SealState, AuditError>)
    requires Sorted(from.tx)
    ensures r == SealMany(p, from, After(from.tx, from.afterId))
  {
    var st := from;
    ghost var whole := SealMany(p, st, After(st.tx, st.afterId));
    while true
      invariant Sorted(st.tx)
      invariant whole == SealMany(p, st, After(st.tx, st.afterId))
      decreases |After(st.tx, st.afterId)|
    {
      var rest := After(st.tx, st.afterId);
      var n := Min(VERIFY_BATCH, |rest|);
      if n == 0 {
        return Ok(st);
      }
      var next := SealSome(p, st, rest, n);
      if next.Err? {
        return next;
      }
      st := next.value;
      if n < VERIFY_BATCH {
        return Ok(st);
      }
    }
  }

  /** The relinking pass over the events table, on a working copy: the rows, or
      a failure, that sealing the whole table gives. */
  method ResealRows(p: Primitives, events: seq<Event>) returns (r: Result<(seq<Event>, ResealResult), AuditError>)
    requires Sorted(events)
    ensures r.Err? <==> SealFails(p, events)
    ensures r.Ok? ==> SealReports(p, events, r.value.0, r.value.1)
  {
    var st := SealState(events, SEAL_REPORT, GENESIS, 0);
    SealStarts(p, events);
    SealManyCorrect(p, events, events[..FirstAfter(events, 0)], st);
    var end := SealInBatches(p, st);
    if end.Err? {
      return Err(end.error);
    }
    r := Ok((end.value.tx, end.value.res.(head := end.value.prev)));
  }

  // ---- the log

  function CountSigned(p: Primitives, anchors: seq<Anchor>, key: string, other: string): nat {
    if anchors == [] then 0
    else (if Signed(p, anchors[|anchors| - 1], key) && !Signed(p, anchors[|anchors| - 1], other) then 1 else 0)
         + CountSigned(p, anchors[..|anchors| - 1], key, other)
  }

  /** The anchors signed with neither key. */
  function CountNeither(p: Primitives, anchors: seq<Anchor>, key: string, other: string): nat {
    if anchors == [] then 0
    else (if Signed(p, anchors[|anchors| - 1], key) || Signed(p, anchors[|anchors| - 1], other) then 0 else 1)
         + CountNeither(p, anchors[..|anchors| - 1], key, other)
  }

  lemma {:induction false} NoneSkipped(p: Primitives, anchors: seq<Anchor>, key: string, other: string)
    ensures CountNeither(p, anchors, key, other) == 0 <==> forall a | a in anchors :: Signed(p, a, key) || Signed(p, a, other)
  {
    if anchors != [] {
      var n := |anchors| - 1;
      NoneSkipped(p, anchors[..n], key, other);
      assert anchors == anchors[..n] + [anchors[n]];
    }
  }

  class Log {
    const p: Primitives
    var events: seq<Event>
    var mark: int
    var anchors: seq<Anchor>
    var anchorMark: int

    /** The primary key orders the events. */
    ghost predicate Valid() reads this { Sorted(events) }

    function Tables(): Db reads this { Db(events, mark, anchors, anchorMark) }

    constructor (p: Primitives)
      ensures Valid() && this.p == p && Tables() == EMPTY
    {
      this.p := p;
      events, mark, anchors, anchorMark := [], 0, [], 0;
    }

    /** Links the event to the chain head and inserts it. */
    method Record(c: Content, now: int) returns (r: Result<Event, AuditError>)
      requires Valid()
      modifies this`events, this`mark
      ensures Valid()
      ensures match Recorded(p, old(Tables()), c, now)
              case Ok(step) => r == Ok(step.1) && Tables() == step.0
              case Err(x) => r == Err(x) && Tables() == old(Tables())
      ensures r.Ok? ==>
                && events == old(events) + [r.value] && mark == r.value.id && NewId(old(Tables()), r.value.id)
                && Says(r.value.content, c, now) && LinkedTo(p, old(events), r.value)
      ensures r.Err? ==> unchanged(this)
    {
      var k := c;
      if k.ts == 0 {
        k := k.(ts := now);
      }
      k := k.(ts := Column(k.ts));
      if k.outcome == "" {
        return Err(OutcomeRequired);
      }
      if k.action == "" {
        return Err(ActionRequired);
      }
      if k.details == "" {
        k := k.(details := "{}");
      }
      assert k == Prepared(c, now);
      var prev := HeadHash(events);
      var h := ComputeHash(p, prev, k);
      if h.None? {
        return Err(BadDetails);
      }
      if k.outcome !in {"success", "failure"} || (exists e | e in events :: e.hash == h.value) {
        return Err(ConstraintViolated);
      }
      var id := NextId(events, mark);
      r := Ok(Event(id, k, prev, h.value));
      events := events + [Event(id, k.(ts := Column(k.ts)), prev, h.value)];
      mark := id;
    }

    /** Signs the newest event and stores the anchor. */
    method TakeAnchor(key: string, now: int) returns (r: Result<Anchor, AuditError>)
      modifies this`anchors, this`anchorMark
      ensures match Anchored(p, old(Tables()), key, now)
              case Ok(step) => r == Ok(step.1) && Tables() == step.0
              case Err(x) => r == Err(x) && Tables() == old(Tables())
      ensures r.Ok? && events != [] ==> SignsHead(p, events, r.value, key) && r.value in anchors + [NO_ANCHOR]
    {
      if key == "" {
        return Err(NoAnchorKey);
      }
      var last := Newest(anchors);
      if events == [] {
        return Ok(last);
      }
      var head := events[|events| - 1];
      if last.eventId == head.id && last.hash == head.hash && Signed(p, last, key) {
        return Ok(last);
      }
      if last.id != 0 && !Signed(p, last, key) {
        return Err(KeyMismatch);
      }
      var a := Anchor(Max(anchorMark, last.id) + 1, head.id, head.hash, Column(now), "");
      a := a.(mac := Mac(p, a, key));
      anchors, anchorMark := anchors + [a], a.id;
      r := Ok(a);
    }

    /** Re-signs with newKey every anchor signed with oldKey. */
    method ResignAnchors(oldKey: string, newKey: string) returns (r: Result<(nat, nat), AuditError>)
      modifies this`anchors
      ensures match Resigned(p, old(Tables()), oldKey, newKey)
              case Ok(db) => r.Ok? && Tables() == db
              case Err(x) => r == Err(x) && Tables() == old(Tables())
      ensures r.Ok? ==>
                && r.value.0 == CountSigned(p, old(anchors), oldKey, newKey)
                && r.value.1 == CountNeither(p, old(anchors), oldKey, newKey)
    {
      if oldKey == "" || newKey == "" {
        return Err(NoAnchorKey);
      }
      var rows := anchors;
      var resigned, skipped := 0, 0;
      for i := 0 to |rows|
        invariant |anchors| == |rows|
        invariant forall j | 0 <= j < |rows| :: anchors[j] == if j < i then ResignOne(p, rows[j], oldKey, newKey) else rows[j]
        invariant resigned == CountSigned(p, rows[..i], oldKey, newKey)
        invariant skipped == CountNeither(p, rows[..i], oldKey, newKey)
      {
        var a := rows[i];
        assert rows[..i + 1] == rows[..i] + [a];
        if Signed(p, a, newKey) {
        } else if Signed(p, a, oldKey) {
          anchors := anchors[i := a.(mac := Mac(p, a, newKey))];
          resigned := resigned + 1;
        } else {
          skipped := skipped + 1;
        }
      }
      assert rows[..|rows|] == rows;
      assert anchors == ResignAll(p, rows, oldKey, newKey);
      r := Ok((resigned, skipped));
    }

    /** Relinks and rehashes the log, then removes the anchors that named
        rewritten events; any failure leaves the tables as they were. */
    method Reseal() returns (r: Result<ResealResult, AuditError>)
      requires Valid()
      modifies this`events, this`anchors
      ensures Valid()
      ensures r.Ok? ==> Resealed(p, old(Tables())) == Ok((Tables(), r.value.firstId))
      ensures r.Ok? ==> SealReports(p, old(events), events, r.value) && r.value.anchorsRemoved == |old(anchors)| - |anchors|
      ensures r.Err? ==> Resealed(p, old(Tables())).Err? && Tables() == old(Tables())
    {
      var sealed := ResealRows(p, events);
      if sealed.Err? {
        return Err(sealed.error);
      }
      var (rows, res) := sealed.value;
      SealedSorted(p, events);
      events := rows;
      res := res.(anchorsRemoved := 0);
      if res.firstId > 0 {
        var left := DropStale(anchors, events, res.firstId);
        res := res.(anchorsRemoved := |anchors| - |left|);
        anchors := left;
      }
      r := Ok(res);
    }

    /** Walks the chain, checks every anchor stored and supplied, and compares
        the id sequence with the newest event. */
    method Verify(key: string, kept: seq<Anchor>) returns (r: Result<VerifyResult, AuditError>)
      requires Valid()
      ensures key == "" ==> r == Err(NoAnchorKey)
      ensures key != "" ==> r.Ok? && (r.value.IsIntact() <==> Intact(p, Tables(), key, kept))
      ensures r.Ok? ==>
                && WalkReports(p, Visible(events), r.value.walk)
                && BestMatch(p, events, anchors + kept, key, r.value.lastAnchor)
                && r.value.anchors == |anchors| + |kept|
    {
      if key == "" {
        return Err(NoAnchorKey);
      }
      var w := Walk(p, events);
      var best, problems := CheckAnchors(p, events, anchors + kept, key);
      if mark > MaxId(events) {
        problems := problems + [SequenceAhead(mark, MaxId(events))];
      }
      assert forall a :: a in anchors + kept <==> a in anchors || a in kept;
      r := Ok(VerifyResult(w, |anchors| + |kept|, best, problems));
    }
  }

  lemma SealedSorted(p: Primitives, rows: seq<Event>)
    requires Sorted(rows) && SealedRows(p, rows).Some?
    ensures Sorted(SealedRows(p, rows).value)
  {
    SealedRowsRepair(p, rows);
    var sealed := SealedRows(p, rows).value;
    forall i, j | 0 <= i < j < |sealed|
      ensures sealed[i].id < sealed[j].id
    {
      assert SameRecord(sealed[i], rows[i]) && SameRecord(sealed[j], rows[j]);
    }
  }
}
