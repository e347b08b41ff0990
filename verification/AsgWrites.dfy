/** Pins inside a poll: what every single write keeps. */
module AsgWrites {
  import opened Basics
  import opened AsgSync
  import opened AsgProofs

  lemma KeepsTwice(a: Rows, b: Rows, c: Rows)
    requires KeepsPins(a, b) && KeepsPins(b, c)
    ensures KeepsPins(a, c)
  {
    forall id, kind | PinIn(a, id, kind).0 != "" ensures PinIn(c, id, kind) == PinIn(a, id, kind) {
      assert PinIn(b, id, kind) == PinIn(a, id, kind);
    }
  }

  /** Storing a sighting of an instance this poll has not stored yet. */
  lemma FirstStoreKeepsPins(g: Group, before: Rows, s: State, x: Sighting)
    requires Find(s.rows, x.cloud.id) == Find(before, x.cloud.id)
    ensures KeepsPins(s.rows, SeenOne(g, before, s, x).rows)
  {
  }

  lemma DistinctNotListed(snap: seq<Sighting>, n: nat)
    requires Distinct(snap) && n < |snap|
    ensures !Listed(snap[..n], snap[n].cloud.id)
  {
    forall i: nat | i < n ensures snap[..n][i].cloud.id != snap[n].cloud.id { assert snap[..n][i] == snap[i]; }
  }

  lemma {:induction false} StoresKeepPins(g: Group, s: State, snap: seq<Sighting>, i: nat, j: nat)
    requires Distinct(snap) && i <= j <= |snap|
    ensures KeepsPins(SeenAll(g, s.rows, s, snap[..i]).rows, SeenAll(g, s.rows, s, snap[..j]).rows)
    decreases j
  {
    if i < j {
      StoresKeepPins(g, s, snap, i, j - 1);
      var mid := SeenAll(g, s.rows, s, snap[..j - 1]);
      DistinctNotListed(snap, j - 1);
      UnlistedUntouched(g, s, snap[..j - 1], snap[j - 1].cloud.id);
      FirstStoreKeepsPins(g, s.rows, mid, snap[j - 1]);
      assert snap[..j][..j - 1] == snap[..j - 1] && snap[..j][j - 1] == snap[j - 1];
      KeepsTwice(SeenAll(g, s.rows, s, snap[..i]).rows, mid.rows, SeenAll(g, s.rows, s, snap[..j]).rows);
    }
  }

  lemma MarksKeepPins(rows: Rows, some: seq<string>, more: seq<string>)
    ensures KeepsPins(Marked(rows, some), Marked(rows, more)) && KeepsPins(rows, Marked(rows, more))
  {
    forall id, kind ensures PinIn(Marked(rows, more), id, kind) == PinIn(rows, id, kind) == PinIn(Marked(rows, some), id, kind) {}
  }

  /** After any number of writes and after any more of them, in whatever order the rows are listed. */
  ghost predicate EveryWriteKeepsPins(g: Group, s: State, snap: seq<Sighting>) {
    forall order: seq<string>, few: nat, more: nat | few <= more :: WritesKeepPins(g, s, snap, order, few, more)
  }

  ghost predicate WritesKeepPins(g: Group, s: State, snap: seq<Sighting>, order: seq<string>, few: nat, more: nat) {
    KeepsPins(Polled(g, s, snap, order, few).rows, Polled(g, s, snap, order, more).rows)
  }

  /** The rows after some writes: the sightings stored so far, then the marks. */
  lemma RowsAfterWrites(g: Group, s: State, snap: seq<Sighting>, order: seq<string>, writes: nat) returns (marks: seq<string>)
    ensures Polled(g, s, snap, order, writes).rows ==
            if writes < |snap| then SeenAll(g, s.rows, s, snap[..writes]).rows else Marked(SeenAll(g, s.rows, s, snap).rows, marks)
  {
    var gone := Departing(SeenAll(g, s.rows, s, snap).rows, snap, order);
    marks := if |snap| <= writes < |snap| + |gone| then gone[..writes - |snap|] else gone;
  }

  /** With distinct ids no write of a poll changes or loses a pin. */
  lemma PinnedAtEveryWrite(g: Group, s: State, snap: seq<Sighting>)
    requires Distinct(snap)
    ensures EveryWriteKeepsPins(g, s, snap)
  {
    forall order: seq<string>, few: nat, more: nat | few <= more ensures WritesKeepPins(g, s, snap, order, few, more) {
      var seen := SeenAll(g, s.rows, s, snap).rows;
      assert snap[..|snap|] == snap;
      var someMarks := RowsAfterWrites(g, s, snap, order, few);
      var moreMarks := RowsAfterWrites(g, s, snap, order, more);
      MarksKeepPins(seen, someMarks, moreMarks);
      if more < |snap| {
        StoresKeepPins(g, s, snap, few, more);
      } else if few < |snap| {
        StoresKeepPins(g, s, snap, few, |snap|);
        KeepsTwice(SeenAll(g, s.rows, s, snap[..few]).rows, seen, Marked(seen, moreMarks));
      }
    }
  }

  /** Over a run: a pin that stands after some writes of a poll over distinct
      ids stands after the whole poll and after every poll that follows. */
  lemma PinnedFromTheWriteOn(s: State, p: Poll, few: nat, rest: seq<Poll>)
    requires Distinct(p.snap) && few <= p.writes
    ensures KeepsPins(Polled(p.group, s, p.snap, p.order, few).rows,
                      Run(Polled(p.group, s, p.snap, p.order, p.writes), rest).rows)
  {
    var whole := Polled(p.group, s, p.snap, p.order, p.writes);
    PinnedAtEveryWrite(p.group, s, p.snap);
    assert WritesKeepPins(p.group, s, p.snap, p.order, few, p.writes);
    PinsPermanent(whole, rest);
    KeepsTwice(Polled(p.group, s, p.snap, p.order, few).rows, whole.rows, Run(whole, rest).rows);
  }

  // ---- a snapshot that lists an instance twice

  const ANY_GROUP := Group([], "", true)

  /** A sighting that shows this host key, or none when it is empty. */
  function Showing(id: string, key: string): Sighting {
    Sighting(CloudInstance(id, "10.0.0.1", "", "InService", ""),
             Some(Probe({}, if key == "" then None else Some(key), None, None)), None)
  }

  /** The instances of these ids, the i-th showing one host key and the j-th another. */
  function TwoKeys(ids: seq<string>, i: nat, j: nat): seq<Sighting> {
    seq(|ids|, k requires 0 <= k < |ids| => Showing(ids[k], if k == i then "A" else if k == j then "B" else ""))
  }

  lemma ShowingPins(id: string, key: string)
    requires key != ""
    ensures Observed(ANY_GROUP, Showing(id, key), None).hostKey == key
  {
    assert Lower("") == "";
  }

  /** A poll that lists a new instance twice, with two host keys, stores the
      first and then overwrites it with the second. */
  lemma ListedTwiceRepins(ids: seq<string>, i: nat, j: nat)
    requires i < j < |ids| && ids[i] == ids[j]
    ensures var s := State(map[], []);
            var snap := TwoKeys(ids, i, j);
            && PinIn(Polled(ANY_GROUP, s, snap, [], i + 1).rows, ids[i], HostKeyPin).0 == "A"
            && PinIn(Polled(ANY_GROUP, s, snap, [], j + 1).rows, ids[i], HostKeyPin).0 == "B"
            && !EveryWriteKeepsPins(ANY_GROUP, s, snap)
  {
    var s, snap := State(map[], []), TwoKeys(ids, i, j);
    StoredAfter(ids, i, j, i);
    StoredAfter(ids, i, j, j);
    assert !WritesKeepPins(ANY_GROUP, s, snap, [], i + 1, j + 1);
  }

  lemma StoredAfter(ids: seq<string>, i: nat, j: nat, k: nat)
    requires i < j < |ids| && ids[i] == ids[j] && (k == i || k == j)
    ensures PinIn(Polled(ANY_GROUP, State(map[], []), TwoKeys(ids, i, j), [], k + 1).rows, ids[i], HostKeyPin).0 == if k == i then "A" else "B"
  {
    var s, snap := State(map[], []), TwoKeys(ids, i, j);
    var part := snap[..k + 1];
    assert part[k] == snap[k] == Showing(ids[i], if k == i then "A" else "B");
    SeenLast(ANY_GROUP, s, part, k);
    ShowingPins(ids[i], if k == i then "A" else "B");
    if k + 1 == |snap| { assert part == snap; }
  }

  predicate DistinctIds(ids: seq<string>) { forall i: nat, j: nat | i < j < |ids| :: ids[i] != ids[j] }

  ghost predicate HasIds(snap: seq<Sighting>, ids: seq<string>) {
    |snap| == |ids| && forall i: nat | i < |ids| :: snap[i].cloud.id == ids[i]
  }

  /** Whatever the instances listed show, from whatever state. */
  ghost predicate AlwaysKeepsPins(ids: seq<string>) {
    forall g: Group, s: State, snap: seq<Sighting> | HasIds(snap, ids) :: EveryWriteKeepsPins(g, s, snap)
  }

  /** No write of any poll over a list of ids changes or loses a pin exactly when the ids are distinct. */
  lemma PinnedExactlyWhenDistinct(ids: seq<string>)
    ensures AlwaysKeepsPins(ids) <==> DistinctIds(ids)
  {
    if DistinctIds(ids) {
      forall g: Group, s: State, snap: seq<Sighting> | HasIds(snap, ids) ensures EveryWriteKeepsPins(g, s, snap) {
        PinnedAtEveryWrite(g, s, snap);
      }
    } else {
      var i: nat, j: nat :| i < j < |ids| && ids[i] == ids[j];
      ListedTwiceRepins(ids, i, j);
      assert HasIds(TwoKeys(ids, i, j), ids);
    }
  }
}
