/** Reseal repairs the log and does nothing else. */
module AuditReseal {
  import opened Basics
  import opened AuditChain
  import opened AuditStore
  import opened AuditProofs

  /** The row's own columns, apart from its links. */
  predicate SameRecord(e: Event, f: Event) { e.id == f.id && e.content == f.content }

  /** Relinked rows keep ids and contents, link to one another, and hash what they say. */
  lemma {:induction false} RelinkedRow(p: Primitives, rows: seq<Event>, prev: string, i: nat)
    requires i < |rows| && Relinked(p, rows, prev).Some?
    ensures var r := Relinked(p, rows, prev).value;
            && SameRecord(r[i], rows[i])
            && LinkOk(p, r[i], if i == 0 then prev else r[i - 1].hash)
  {
    if i > 0 {
      var h := ComputeHash(p, prev, rows[0].content).value;
      RelinkedRow(p, rows[1..], h, i - 1);
    }
  }

  lemma RelinkedChain(p: Primitives, rows: seq<Event>)
    requires Relinked(p, rows, GENESIS).Some?
    ensures ChainOk(p, Relinked(p, rows, GENESIS).value)
  {
    var r := Relinked(p, rows, GENESIS).value;
    forall i: nat | i < |r|
      ensures LinkAt(p, r, i)
    {
      RelinkedRow(p, rows, GENESIS, i);
    }
  }

  /** Rows before the first bad link come out as they went in; the first bad one does not. */
  lemma {:induction false} RelinkedUntilBreak(p: Primitives, rows: seq<Event>, k: nat)
    requires k <= |rows| && Relinked(p, rows, GENESIS).Some?
    requires forall i: nat | i < k :: LinkAt(p, rows, i)
    ensures var r := Relinked(p, rows, GENESIS).value;
            && (forall i | 0 <= i < k :: r[i] == rows[i])
            && (k < |rows| ==> (r[k] == rows[k] <==> LinkAt(p, rows, k)))
    decreases k
  {
    if k > 0 {
      RelinkedUntilBreak(p, rows, k - 1);
      assert LinkAt(p, rows, k - 1);
    }
    if k < |rows| {
      RelinkedRow(p, rows, GENESIS, k);
    }
  }

  /** Where FirstChanged points. */
  lemma {:induction false} FirstChangedAt(rows: seq<Event>, sealed: seq<Event>, k: nat)
    requires |rows| == |sealed| && k <= |rows|
    requires forall i | 0 <= i < k :: rows[i] == sealed[i]
    requires k < |rows| ==> rows[k] != sealed[k]
    ensures FirstChanged(rows, sealed) == if k < |rows| then rows[k].id else 0
  {
    if k > 0 {
      FirstChangedAt(rows[1..], sealed[1..], k - 1);
    }
  }

  /** The first position whose link or hash is bad, the length when there is none. */
  function FirstBreak(p: Primitives, rows: seq<Event>, from: nat): (k: nat)
    requires from <= |rows|
    ensures from <= k <= |rows|
    ensures forall i: nat | from <= i < k :: LinkAt(p, rows, i)
    ensures k < |rows| ==> !LinkAt(p, rows, k)
    decreases |rows| - from
  {
    if from == |rows| || !LinkAt(p, rows, from) then from else FirstBreak(p, rows, from + 1)
  }

  lemma SealedRow(p: Primitives, rows: seq<Event>, i: nat)
    requires SealedRows(p, rows).Some? && i < |rows|
    ensures SameRecord(SealedRows(p, rows).value[i], rows[i])
  {
    var k := FirstAfter(rows, 0);
    var rest := Relinked(p, Visible(rows), GENESIS).value;
    if i >= k {
      RelinkedRow(p, Visible(rows), GENESIS, i - k);
      assert (rows[..k] + rest)[i] == rest[i - k];
      assert Visible(rows)[i - k] == rows[i];
    } else {
      assert (rows[..k] + rest)[i] == rows[i];
    }
  }

  lemma SealedRowsRepair(p: Primitives, rows: seq<Event>)
    requires SealedRows(p, rows).Some?
    ensures var sealed := SealedRows(p, rows).value;
            && (forall i | 0 <= i < |rows| :: SameRecord(sealed[i], rows[i]))
            && Visible(sealed) == sealed[FirstAfter(rows, 0)..]
            && ChainOk(p, Visible(sealed))
  {
    var k := FirstAfter(rows, 0);
    var sealed := SealedRows(p, rows).value;
    RelinkedChain(p, Visible(rows));
    forall i | 0 <= i < |sealed|
      ensures SameRecord(sealed[i], rows[i])
    {
      SealedRow(p, rows, i);
    }
    SameFirstAfter(rows, sealed, 0);
    assert sealed[k..] == Relinked(p, Visible(rows), GENESIS).value;
  }

  /** After Reseal the walk finds no break and every event has its id and content. */
  lemma ResealRepairs(p: Primitives, db: Db)
    requires Resealed(p, db).Ok?
    ensures var sealed := Resealed(p, db).value.0;
            && ChainOk(p, Visible(sealed.events))
            && |sealed.events| == |db.events|
            && (forall i | 0 <= i < |db.events| :: SameRecord(sealed.events[i], db.events[i]))
            && sealed.mark == db.mark
  {
    SealedRowsRepair(p, db.events);
  }

  lemma {:induction false} SameFirstAfter(r: seq<Event>, s: seq<Event>, id: int)
    requires |r| == |s| && forall i | 0 <= i < |r| :: r[i].id == s[i].id
    ensures FirstAfter(r, id) == FirstAfter(s, id)
  {
    if r != [] { SameFirstAfter(r[1..], s[1..], id); }
  }

  lemma SealedUntilBreak(p: Primitives, rows: seq<Event>)
    requires SealedRows(p, rows).Some?
    ensures var walked, skip := Visible(rows), FirstAfter(rows, 0);
            var k := FirstBreak(p, walked, 0);
            var sealed := SealedRows(p, rows).value;
            && (forall i | 0 <= i < skip + k :: sealed[i] == rows[i])
            && FirstChanged(rows, sealed) == (if k < |walked| then walked[k].id else 0)
            && (k == |walked| ==> sealed == rows)
  {
    var walked, skip := Visible(rows), FirstAfter(rows, 0);
    var k := FirstBreak(p, walked, 0);
    var sealed := SealedRows(p, rows).value;
    RelinkedUntilBreak(p, walked, k);
    forall i | 0 <= i < skip + k
      ensures sealed[i] == rows[i]
    {
      if i >= skip { assert Relinked(p, walked, GENESIS).value[i - skip] == walked[i - skip]; }
    }
    FirstChangedAt(rows, sealed, skip + k);
  }

  /** FirstID is the id at which the walk broke, zero exactly when it did not
      break, and every row before it is untouched. */
  lemma ResealStartsAtTheBreak(p: Primitives, db: Db, sealed: Db, first: int)
    requires Sorted(db.events) && Resealed(p, db) == Ok((sealed, first))
    ensures |sealed.events| == |db.events|
    ensures var walked := Visible(db.events);
            var k := FirstBreak(p, walked, 0);
            first == (if k < |walked| then walked[k].id else 0)
    ensures first == 0 <==> ChainOk(p, Visible(db.events))
    ensures first == 0 ==> sealed == db
    ensures forall i | 0 <= i < |db.events| && db.events[i].id < first :: sealed.events[i] == db.events[i]
  {
    SealedFromBreak(p, db.events, sealed.events);
  }

  lemma SealedFromBreak(p: Primitives, rows: seq<Event>, sealed: seq<Event>)
    requires Sorted(rows) && SealedRows(p, rows) == Some(sealed)
    ensures var walked, first := Visible(rows), FirstChanged(rows, sealed);
            var k := FirstBreak(p, walked, 0);
            && first == (if k < |walked| then walked[k].id else 0)
            && (first == 0 <==> ChainOk(p, walked))
            && (first == 0 ==> sealed == rows)
            && (forall i | 0 <= i < |rows| && rows[i].id < first :: sealed[i] == rows[i])
  {
    var walked, skip := Visible(rows), FirstAfter(rows, 0);
    var k := FirstBreak(p, walked, 0);
    SealedUntilBreak(p, rows);
    if k < |walked| {
      assert walked[k] == rows[skip + k];
      PastFirstAfter(rows, skip + k);
    }
    BrokenOrNot(p, walked);
  }

  lemma PastFirstAfter(rows: seq<Event>, i: nat)
    requires Sorted(rows) && FirstAfter(rows, 0) <= i < |rows|
    ensures rows[i].id > 0
    ensures forall j | 0 <= j < |rows| && rows[j].id < rows[i].id :: j < i
  {
  }

  lemma BrokenOrNot(p: Primitives, rows: seq<Event>)
    ensures ChainOk(p, rows) <==> FirstBreak(p, rows, 0) == |rows|
  {
  }

  /** A second Reseal rewrites nothing. */
  lemma ResealTwice(p: Primitives, db: Db)
    requires Resealed(p, db).Ok?
    ensures Resealed(p, Resealed(p, db).value.0) == Ok((Resealed(p, db).value.0, 0))
  {
    ResealRepairs(p, db);
    ResealValid(p, Resealed(p, db).value.0);
  }

  lemma {:induction false} HashOfSame(r: seq<Event>, s: seq<Event>, id: int)
    requires |r| == |s| && forall i | 0 <= i < |r| :: r[i].id == s[i].id
    requires forall i | 0 <= i < |r| && r[i].id == id :: r[i].hash == s[i].hash
    ensures HashOf(r, id) == HashOf(s, id)
  {
    if r != [] { HashOfSame(r[1..], s[1..], id); }
  }

  /** An anchor that Reseal leaves and that names an event names one whose hash
      did not change; an anchor that names no event is always left. */
  lemma ResealAnchors(p: Primitives, db: Db, sealed: Db, first: int, a: Anchor)
    requires Sorted(db.events) && Resealed(p, db) == Ok((sealed, first)) && a in db.anchors
    ensures a in sealed.anchors ==> HashOf(sealed.events, a.eventId) == HashOf(db.events, a.eventId)
    ensures HashOf(db.events, a.eventId).None? ==> a in sealed.anchors
  {
    SealedRowsRepair(p, db.events);
    SealedFromBreak(p, db.events, sealed.events);
    SealedHashes(db.events, sealed.events, first, a.eventId);
  }

  lemma SealedHashes(rows: seq<Event>, sealed: seq<Event>, first: int, id: int)
    requires |rows| == |sealed| && forall i | 0 <= i < |rows| :: SameRecord(sealed[i], rows[i])
    requires first == 0 ==> sealed == rows
    requires forall i | 0 <= i < |rows| && rows[i].id < first :: sealed[i] == rows[i]
    ensures HashOf(rows, id).None? <==> HashOf(sealed, id).None?
    ensures id < first || first == 0 ==> HashOf(sealed, id) == HashOf(rows, id)
  {
    assert forall i | 0 <= i < |rows| :: sealed[i].id == rows[i].id by {
      assert forall i | 0 <= i < |rows| :: SameRecord(sealed[i], rows[i]);
    }
    NamesStay(rows, sealed, id);
    if id < first {
      HashOfSame(rows, sealed, id);
    }
  }

  lemma NamesStay(r: seq<Event>, s: seq<Event>, id: int)
    requires |r| == |s| && forall i | 0 <= i < |r| :: r[i].id == s[i].id
    ensures HashOf(r, id).None? <==> HashOf(s, id).None?
  {
  }

  /** Links are recomputed from contents alone: two logs that differ only in
      their link columns reseal to the same rows. In particular an intact log
      whose link columns were overwritten comes back as it was. */
  lemma ResealForgetsLinks(p: Primitives, db: Db, edited: Db)
    requires |edited.events| == |db.events|
    requires forall i | 0 <= i < |db.events| :: SameRecord(edited.events[i], db.events[i])
    requires PositiveIds(db.events) && ChainOk(p, db.events)
    requires Resealed(p, edited).Ok?
    ensures Resealed(p, edited).value.0.events == db.events
  {
    AllVisible(db.events);
    SameFirstAfter(db.events, edited.events, 0);
    assert Visible(edited.events) == edited.events && db.events[0..] == db.events;
    RelinkedSame(p, db.events, edited.events, GENESIS);
    RelinkedValid(p, db.events, 0);
  }

  lemma {:induction false} RelinkedSame(p: Primitives, r: seq<Event>, s: seq<Event>, prev: string)
    requires |r| == |s| && forall i | 0 <= i < |r| :: SameRecord(r[i], s[i])
    ensures Relinked(p, r, prev) == Relinked(p, s, prev)
    decreases |r|
  {
    if r != [] && ComputeHash(p, prev, r[0].content).Some? {
      RelinkedSame(p, r[1..], s[1..], ComputeHash(p, prev, r[0].content).value);
    }
  }
}
