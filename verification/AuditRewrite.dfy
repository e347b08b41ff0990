/** Which rows Reseal rewrites, and which anchors it removes for it. */
module AuditRewrite {
  import opened Basics
  import opened AuditChain
  import opened AuditStore
  import opened AuditProofs
  import opened AuditReseal

  /** Row by row, the recomputed event and the stored one do not share a digest by accident. */
  ghost predicate RowsApart(p: Primitives, r: seq<Event>, s: seq<Event>) {
    |r| == |s| && forall i | 0 <= i < |r| :: NoClash(p, r[i], s[i])
  }

  /** A row that is linked to the row stored before it is left alone exactly
      when that row keeps its hash; otherwise its own hash changes too. */
  lemma FollowsPredecessor(p: Primitives, rows: seq<Event>, r: seq<Event>, i: nat)
    requires Relinked(p, rows, GENESIS) == Some(r) && 0 < i < |rows| && LinkAt(p, rows, i)
    ensures r[i] == rows[i] <==> r[i - 1].hash == rows[i - 1].hash
    ensures NoClash(p, r[i], rows[i]) ==> (r[i].hash == rows[i].hash <==> r[i - 1].hash == rows[i - 1].hash)
  {
    RelinkedRow(p, rows, GENESIS, i);
  }

  /** From a row on, as long as every later row is linked to the one stored
      before it, the rows after it are all rewritten or all left alone: they
      are rewritten exactly when the recomputed hash of that row is another. */
  lemma {:induction false} RewrittenTogether(p: Primitives, rows: seq<Event>, r: seq<Event>, b: nat, i: nat)
    requires Relinked(p, rows, GENESIS) == Some(r) && RowsApart(p, r, rows) && b <= i < |rows|
    requires forall j: nat | b < j <= i :: LinkAt(p, rows, j)
    ensures r[i].hash == rows[i].hash <==> r[b].hash == rows[b].hash
    ensures b < i ==> (r[i] == rows[i] <==> r[b].hash == rows[b].hash)
  {
    if b < i {
      RewrittenTogether(p, rows, r, b, i - 1);
      assert LinkAt(p, rows, i) && NoClash(p, r[i], rows[i]);
      FollowsPredecessor(p, rows, r, i);
    }
  }

  /** The log has this one break. */
  ghost predicate BrokenOnlyAt(p: Primitives, rows: seq<Event>, k: nat) {
    k < |rows| && !LinkAt(p, rows, k) && forall i: nat | i < |rows| && i != k :: LinkAt(p, rows, i)
  }

  lemma OneBreak(p: Primitives, rows: seq<Event>, k: nat)
    requires BrokenOnlyAt(p, rows, k)
    ensures FirstBreak(p, rows, 0) == k
  {
    var f := FirstBreak(p, rows, 0);
    assert f <= k;
  }

  /** The hash the event at k should have, its predecessors being right. */
  function Wanted(p: Primitives, rows: seq<Event>, k: nat): Option<string>
    requires k < |rows|
  {
    ComputeHash(p, Prev(rows, k), rows[k].content)
  }

  /** At the first break the recomputed hash is the one the stored chain wants. */
  lemma WantedAtBreak(p: Primitives, rows: seq<Event>, r: seq<Event>, k: nat)
    requires Relinked(p, rows, GENESIS) == Some(r) && k < |rows|
    requires forall i: nat | i < k :: LinkAt(p, rows, i)
    ensures Wanted(p, rows, k) == Some(r[k].hash)
  {
    RelinkedUntilBreak(p, rows, k);
    RelinkedRow(p, rows, GENESIS, k);
  }

  lemma SealedTail(p: Primitives, rows: seq<Event>, sealed: seq<Event>)
    requires SealedRows(p, rows) == Some(sealed)
    ensures Relinked(p, Visible(rows), GENESIS) == Some(sealed[FirstAfter(rows, 0)..])
    ensures Visible(sealed) == sealed[FirstAfter(rows, 0)..]
  {
    SealedRowsRepair(p, rows);
    var rest := Relinked(p, Visible(rows), GENESIS).value;
    assert sealed[FirstAfter(rows, 0)..] == rest;
  }

  lemma RelinkedFromBreak(p: Primitives, was: seq<Event>, now: seq<Event>, k: nat)
    requires Relinked(p, was, GENESIS) == Some(now) && BrokenOnlyAt(p, was, k) && RowsApart(p, now, was)
    ensures Wanted(p, was, k) == Some(now[k].hash) && now[k] != was[k]
    ensures forall i: nat | i < k :: now[i] == was[i]
    ensures forall i: nat | k <= i < |was| :: now[i].hash == was[i].hash <==> now[k].hash == was[k].hash
    ensures forall i: nat | k < i < |was| :: now[i] == was[i] <==> now[k].hash == was[k].hash
  {
    RelinkedUntilBreak(p, was, k);
    WantedAtBreak(p, was, now, k);
    forall i: nat | k <= i < |was|
      ensures now[i].hash == was[i].hash <==> now[k].hash == was[k].hash
      ensures k < i ==> (now[i] == was[i] <==> now[k].hash == was[k].hash)
    {
      RewrittenTogether(p, was, now, k, i);
    }
  }

  /** Every row from the break on is rewritten. */
  predicate ToTheHead(was: seq<Event>, now: seq<Event>, k: nat)
    requires |was| == |now|
  {
    forall i: nat | k <= i < |was| :: now[i] != was[i]
  }

  /** Rewriting runs from the break to the head exactly when the break is the
      head or the hash stored there is not the one wanted, and then every hash
      from there on changes. Where it is the one wanted, and only the link was
      wrong, no other row is touched. */
  lemma RewritesToTheHead(p: Primitives, db: Db, sealed: Db, first: int, k: nat)
    requires Resealed(p, db) == Ok((sealed, first)) && BrokenOnlyAt(p, Visible(db.events), k)
    requires RowsApart(p, Visible(sealed.events), Visible(db.events))
    ensures var was, now := Visible(db.events), Visible(sealed.events);
            && first == was[k].id
            && (ToTheHead(was, now, k) <==> k + 1 == |was| || Wanted(p, was, k) != Some(was[k].hash))
            && (Wanted(p, was, k) == Some(was[k].hash) ==> now == was[k := now[k]])
            && (Wanted(p, was, k) != Some(was[k].hash) ==> forall i: nat | k <= i < |was| :: now[i].hash != was[i].hash)
  {
    var was, now := Visible(db.events), Visible(sealed.events);
    SealedTail(p, db.events, sealed.events);
    OneBreak(p, was, k);
    SealedUntilBreak(p, db.events);
    RelinkedFromBreak(p, was, now, k);
    HeadReached(was, now, k);
  }

  lemma HeadReached(was: seq<Event>, now: seq<Event>, k: nat)
    requires |was| == |now| && k < |was| && now[k] != was[k]
    requires forall i: nat | i < k :: now[i] == was[i]
    requires forall i: nat | k < i < |was| :: now[i] == was[i] <==> now[k].hash == was[k].hash
    ensures ToTheHead(was, now, k) <==> k + 1 == |was| || now[k].hash != was[k].hash
    ensures now[k].hash == was[k].hash ==> now == was[k := now[k]]
  {
    if k + 1 < |was| { assert now[k + 1] == was[k + 1] <==> now[k].hash == was[k].hash; }
  }

  // ---- anchors

  lemma SameNames(p: Primitives, rows: seq<Event>, sealed: seq<Event>, id: int)
    requires SealedRows(p, rows) == Some(sealed)
    ensures HashOf(rows, id).None? <==> HashOf(sealed, id).None?
  {
    forall i | 0 <= i < |rows| ensures rows[i].id == sealed[i].id { SealedRow(p, rows, i); }
    NamesStay(rows, sealed, id);
  }

  /** An anchor is removed exactly when it names an event from the first one rewritten on. */
  lemma RemovedAnchors(p: Primitives, db: Db, sealed: Db, first: int, a: Anchor)
    requires Resealed(p, db) == Ok((sealed, first)) && a in db.anchors
    ensures a !in sealed.anchors <==> 0 < first <= a.eventId && HashOf(db.events, a.eventId).Some?
  {
    SameNames(p, db.events, sealed.events, a.eventId);
    assert sealed.anchors == if first > 0 then DropStale(db.anchors, sealed.events, first) else db.anchors;
  }

  lemma SealedRowAt(p: Primitives, rows: seq<Event>, sealed: seq<Event>, id: int) returns (j: nat)
    requires Sorted(rows) && SealedRows(p, rows) == Some(sealed) && HashOf(rows, id).Some?
    ensures j < |rows| && rows[j].id == id
    ensures HashOf(rows, id) == Some(rows[j].hash) && HashOf(sealed, id) == Some(sealed[j].hash)
  {
    SealedRowsRepair(p, rows);
    j :| 0 <= j < |rows| && rows[j].id == id;
    assert Sorted(sealed) by {
      forall m, n | 0 <= m < n < |sealed| ensures sealed[m].id < sealed[n].id {
        assert SameRecord(sealed[m], rows[m]) && SameRecord(sealed[n], rows[n]);
      }
    }
    assert SameRecord(sealed[j], rows[j]);
    HashOfRow(rows, j);
    HashOfRow(sealed, j);
  }

  /** A removed anchor signed a hash that is gone exactly when the hash stored
      at the break was not the one wanted. Where only a link was wrong, the
      anchors of that event and of all later ones are removed although every
      hash they name is still there. */
  lemma RemovedForAChange(p: Primitives, db: Db, sealed: Db, first: int, k: nat, a: Anchor)
    requires Sorted(db.events) && Resealed(p, db) == Ok((sealed, first)) && BrokenOnlyAt(p, Visible(db.events), k)
    requires RowsApart(p, Visible(sealed.events), Visible(db.events))
    requires a in db.anchors && a !in sealed.anchors
    ensures var was := Visible(db.events);
            HashOf(sealed.events, a.eventId) != HashOf(db.events, a.eventId) <==> Wanted(p, was, k) != Some(was[k].hash)
  {
    RemovedAnchors(p, db, sealed, first, a);
    var j := SealedRowAt(p, db.events, sealed.events, a.eventId);
    FirstAtBreak(p, db.events, sealed.events, k, j);
    HashChangedAt(p, db.events, sealed.events, k, j);
  }

  lemma HashChangedAt(p: Primitives, rows: seq<Event>, sealed: seq<Event>, k: nat, j: nat)
    requires SealedRows(p, rows) == Some(sealed) && BrokenOnlyAt(p, Visible(rows), k)
    requires RowsApart(p, Visible(sealed), Visible(rows)) && FirstAfter(rows, 0) + k <= j < |rows|
    ensures sealed[j].hash != rows[j].hash <==> Wanted(p, Visible(rows), k) != Some(Visible(rows)[k].hash)
  {
    SealedTail(p, rows, sealed);
    HashChangedFrom(p, rows, sealed, Visible(rows), Visible(sealed), FirstAfter(rows, 0), k, j);
  }

  lemma HashChangedFrom(p: Primitives, rows: seq<Event>, sealed: seq<Event>, was: seq<Event>, now: seq<Event>, skip: nat, k: nat, j: nat)
    requires |sealed| == |rows| && skip + k <= j < |rows| && was == rows[skip..] && now == sealed[skip..]
    requires Relinked(p, was, GENESIS) == Some(now) && BrokenOnlyAt(p, was, k) && RowsApart(p, now, was)
    ensures sealed[j].hash != rows[j].hash <==> Wanted(p, was, k) != Some(was[k].hash)
  {
    SuffixAt(rows, skip, j);
    SuffixAt(sealed, skip, j);
    HashFromBreak(p, was, now, k, j - skip);
  }

  lemma SuffixAt(rows: seq<Event>, n: nat, j: nat)
    requires n <= j < |rows|
    ensures rows[n..][j - n] == rows[j]
  {
  }

  lemma HashFromBreak(p: Primitives, was: seq<Event>, now: seq<Event>, k: nat, i: nat)
    requires Relinked(p, was, GENESIS) == Some(now) && BrokenOnlyAt(p, was, k) && RowsApart(p, now, was) && k <= i < |was|
    ensures now[i].hash != was[i].hash <==> Wanted(p, was, k) != Some(was[k].hash)
  {
    RelinkedFromBreak(p, was, now, k);
  }

  /** Rows with the id of the first one rewritten, or a later one, stand at the break or after it. */
  lemma FirstAtBreak(p: Primitives, rows: seq<Event>, sealed: seq<Event>, k: nat, j: nat)
    requires Sorted(rows) && SealedRows(p, rows) == Some(sealed) && BrokenOnlyAt(p, Visible(rows), k)
    requires j < |rows| && rows[j].id >= FirstChanged(rows, sealed)
    ensures j >= FirstAfter(rows, 0) + k
  {
    OneBreak(p, Visible(rows), k);
    SealedUntilBreak(p, rows);
    assert Visible(rows)[k] == rows[FirstAfter(rows, 0) + k];
  }

  // ---- an input where rewriting does not reach the head

  /** The link column of event k alone overwritten. */
  function LinkOverwritten(rows: seq<Event>, k: nat, link: string): seq<Event>
    requires k < |rows|
  {
    rows[k := rows[k].(prevHash := link)]
  }

  lemma OverwrittenBreaks(p: Primitives, rows: seq<Event>, k: nat, link: string)
    requires ChainOk(p, rows) && k < |rows| && link != rows[k].prevHash
    ensures BrokenOnlyAt(p, LinkOverwritten(rows, k, link), k)
    ensures Wanted(p, LinkOverwritten(rows, k, link), k) == Some(rows[k].hash)
  {
    var edited := LinkOverwritten(rows, k, link);
    assert LinkAt(p, rows, k);
    forall i: nat | i < |edited| && i != k ensures LinkAt(p, edited, i) { assert LinkAt(p, rows, i); }
  }

  predicate Apart(rows: seq<Event>, i: nat, j: nat) { i < |rows| && j < |rows| && i != j ==> rows[i].hash != rows[j].hash }

  /** No two events have the same hash, as the UNIQUE constraint has it. */
  ghost predicate UniqueHashes(rows: seq<Event>) { forall i: nat, j: nat :: Apart(rows, i, j) }

  /** Take any honest log with no hash twice, and overwrite one link in it:
      Reseal rewrites that row and no other, and the log is what it was; but
      every anchor of that event or a later one is removed, although it names
      an event whose hash never changed. */
  lemma OneLinkOverwritten(p: Primitives, db: Db, k: nat, link: string)
    requires Honest(p, db) && k < |db.events| && link != db.events[k].prevHash
    requires UniqueHashes(db.events)
    ensures Resealed(p, db.(events := LinkOverwritten(db.events, k, link))) ==
            Ok((db.(anchors := DropStale(db.anchors, db.events, db.events[k].id)), db.events[k].id))
    ensures forall a | a in db.anchors && a.eventId >= db.events[k].id && HashOf(db.events, a.eventId).Some? ::
              && a !in DropStale(db.anchors, db.events, db.events[k].id)
              && HashOf(LinkOverwritten(db.events, k, link), a.eventId) == HashOf(db.events, a.eventId)
  {
    OverwrittenSeals(p, db.events, k, link);
    SealsTo(p, db, LinkOverwritten(db.events, k, link), db.events[k].id);
    OverwrittenHashes(db.events, k, link);
  }

  lemma OverwrittenSeals(p: Primitives, rows: seq<Event>, k: nat, link: string)
    requires PositiveIds(rows) && ChainOk(p, rows) && UniqueHashes(rows) && k < |rows| && link != rows[k].prevHash
    ensures var edited := LinkOverwritten(rows, k, link);
            SealedRows(p, edited) == Some(rows) && !Clashes(edited, rows) && FirstChanged(edited, rows) == rows[k].id > 0
  {
    var edited := LinkOverwritten(rows, k, link);
    OverwrittenIsSame(rows, k, link);
    OverwrittenRelinks(p, rows, edited);
    NothingClashes(rows, edited, k);
    FirstChangedAt(edited, rows, k);
  }

  lemma OverwrittenHashes(rows: seq<Event>, k: nat, link: string)
    requires k < |rows|
    ensures forall id :: HashOf(LinkOverwritten(rows, k, link), id) == HashOf(rows, id)
  {
    OverwrittenIsSame(rows, k, link);
    forall id ensures HashOf(LinkOverwritten(rows, k, link), id) == HashOf(rows, id) {
      HashOfSame(LinkOverwritten(rows, k, link), rows, id);
    }
  }

  lemma SealsTo(p: Primitives, db: Db, edited: seq<Event>, first: int)
    requires |edited| == |db.events| && SealedRows(p, edited) == Some(db.events) && !Clashes(edited, db.events)
    requires FirstChanged(edited, db.events) == first > 0
    ensures Resealed(p, db.(events := edited)) == Ok((db.(anchors := DropStale(db.anchors, db.events, first)), first))
  {
  }

  lemma OverwrittenIsSame(rows: seq<Event>, k: nat, link: string)
    requires k < |rows|
    ensures var edited := LinkOverwritten(rows, k, link);
            && |edited| == |rows| && edited == rows[k := edited[k]] && edited[k].hash == rows[k].hash
            && forall i | 0 <= i < |rows| :: SameRecord(edited[i], rows[i]) && edited[i].hash == rows[i].hash
  {
  }

  lemma OverwrittenRelinks(p: Primitives, rows: seq<Event>, edited: seq<Event>)
    requires PositiveIds(rows) && ChainOk(p, rows) && |edited| == |rows|
    requires forall i | 0 <= i < |rows| :: SameRecord(edited[i], rows[i])
    ensures SealedRows(p, edited) == Some(rows)
  {
    forall i | 0 <= i < |edited| ensures edited[i].id > 0 { assert SameRecord(edited[i], rows[i]); }
    AllVisible(edited);
    assert rows[0..] == rows && edited[..0] + rows == rows;
    RelinkedSame(p, edited, rows, GENESIS);
    RelinkedValid(p, rows, 0);
  }

  lemma NothingClashes(rows: seq<Event>, edited: seq<Event>, k: nat)
    requires |edited| == |rows| && k < |rows| && edited == rows[k := edited[k]] && edited[k].hash == rows[k].hash
    requires UniqueHashes(rows)
    ensures !Clashes(edited, rows)
  {
    forall i: nat | i < |rows| ensures !Clash(edited, rows, i) {
      forall j: nat | j < |rows| && j != i ensures rows[j].hash != rows[i].hash && edited[j].hash == rows[j].hash {
        assert Apart(rows, j, i);
      }
    }
  }
}
