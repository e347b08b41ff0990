/** Pins are permanent, health is earned, and exactly the sessions on
    instances that stopped being usable are ended. */
module AsgProofs {
  import opened Basics
  import opened AsgSync

  // ---- pins

  datatype Pin = HostKeyPin | TlsPin | WinrmPin

  /** A stored fingerprint, with where it came from when it is a host key; empty while nothing is pinned. */
  function PinIn(rows: Rows, id: string, kind: Pin): (string, string) {
    if id !in rows then ("", "")
    else
      match kind
      case HostKeyPin => (rows[id].hostKey, rows[id].hostKeySource)
      case TlsPin => (rows[id].tls, "")
      case WinrmPin => (rows[id].winrm, "")
  }

  /** Every pin of the first table is in the second, and no row is gone. */
  ghost predicate KeepsPins(rows: Rows, later: Rows) {
    && (forall id | id in rows :: id in later)
    && (forall id, kind | PinIn(rows, id, kind).0 != "" :: PinIn(later, id, kind) == PinIn(rows, id, kind))
  }

  lemma SeenOneKeepsPins(g: Group, before: Rows, s: State, x: Sighting)
    requires KeepsPins(before, s.rows)
    ensures KeepsPins(before, SeenOne(g, before, s, x).rows)
  {
    var id := x.cloud.id;
    var later := SeenOne(g, before, s, x).rows;
    forall k, kind | PinIn(before, k, kind).0 != "" ensures PinIn(later, k, kind) == PinIn(before, k, kind) {
      assert PinIn(s.rows, k, kind) == PinIn(before, k, kind);
    }
  }

  lemma {:induction false} SeenAllKeepsPins(g: Group, before: Rows, s: State, snap: seq<Sighting>)
    requires KeepsPins(before, s.rows)
    ensures KeepsPins(before, SeenAll(g, before, s, snap).rows)
  {
    if snap != [] {
      SeenAllKeepsPins(g, before, s, snap[..|snap| - 1]);
      SeenOneKeepsPins(g, before, SeenAll(g, before, s, snap[..|snap| - 1]), snap[|snap| - 1]);
    }
  }

  lemma MarkedKeepsPins(before: Rows, rows: Rows, gone: seq<string>)
    requires KeepsPins(before, rows)
    ensures KeepsPins(before, Marked(rows, gone))
  {
    var later := Marked(rows, gone);
    forall id, kind | PinIn(before, id, kind).0 != "" ensures PinIn(later, id, kind) == PinIn(before, id, kind) {
      assert PinIn(rows, id, kind) == PinIn(before, id, kind);
      assert id in rows ==> id in later;
    }
  }

  lemma PollKeepsPins(g: Group, s: State, snap: seq<Sighting>, order: seq<string>, writes: nat)
    ensures KeepsPins(s.rows, Polled(g, s, snap, order, writes).rows)
  {
    if writes < |snap| {
      SeenAllKeepsPins(g, s.rows, s, snap[..writes]);
    } else {
      SeenAllKeepsPins(g, s.rows, s, snap);
      var seen := SeenAll(g, s.rows, s, snap);
      var gone := Departing(seen.rows, snap, order);
      MarkedKeepsPins(s.rows, seen.rows, gone);
      if writes - |snap| < |gone| {
        MarkedKeepsPins(s.rows, seen.rows, gone[..writes - |snap|]);
      }
    }
  }

  /** What one poll was given; the group's settings may change from poll to poll. */
  datatype Poll = Poll(group: Group, snap: seq<Sighting>, order: seq<string>, writes: nat)

  ghost function Run(s: State, polls: seq<Poll>): State {
    if polls == [] then s
    else
      var p := polls[|polls| - 1];
      Polled(p.group, Run(s, polls[..|polls| - 1]), p.snap, p.order, p.writes)
  }

  /** Pins are permanent from poll to poll: over any run of polls, whatever
      they find and wherever storage fails them, a fingerprint stored before a
      poll is there, unchanged, after it. */
  lemma {:induction false} PinsPermanent(s: State, polls: seq<Poll>)
    ensures KeepsPins(s.rows, Run(s, polls).rows)
  {
    if polls != [] {
      var p := polls[|polls| - 1];
      var mid := Run(s, polls[..|polls| - 1]);
      PinsPermanent(s, polls[..|polls| - 1]);
      PollKeepsPins(p.group, mid, p.snap, p.order, p.writes);
      var last := Run(s, polls).rows;
      forall id, kind | PinIn(s.rows, id, kind).0 != "" ensures PinIn(last, id, kind) == PinIn(s.rows, id, kind) {
        assert PinIn(mid.rows, id, kind) == PinIn(s.rows, id, kind);
      }
    }
  }

  // ---- health

  /** A row is stored as healthy exactly when the sighting is sound against the row before the poll. */
  lemma StoredHealth(g: Group, x: Sighting, prev: Option<Instance>, existing: Option<Instance>)
    ensures Healthy(Stored(existing, Observed(g, x, prev))) <==> Sound(g, x, prev)
  {
  }

  /** The row stored under an id after a snapshot with distinct ids. */
  lemma {:induction false} SeenRow(g: Group, s: State, snap: seq<Sighting>, id: string)
    requires Distinct(snap)
    ensures var after := SeenAll(g, s.rows, s, snap).rows;
            && (!Listed(snap, id) ==> Find(after, id) == Find(s.rows, id))
            && (forall i: nat | i < |snap| && snap[i].cloud.id == id ::
                  Find(after, id) == Some(Stored(Find(s.rows, id), Observed(g, snap[i], Find(s.rows, id)))))
  {
    if snap != [] {
      var n := |snap| - 1;
      SeenRow(g, s, snap[..n], id);
      assert forall i: nat | i < n :: snap[..n][i] == snap[i];
      if snap[n].cloud.id == id {
        assert !Listed(snap[..n], id);
      } else if Listed(snap[..n], id) {
        assert Listed(snap, id);
      }
      if Listed(snap[..n], id) && snap[n].cloud.id != id {
        var i: nat :| i < n && snap[..n][i].cloud.id == id;
        assert snap[i].cloud.id == id;
      }
    }
  }

  /** The fingerprints a sighting shows agree with the pins of a row. */
  predicate ShowsPins(x: Sighting, r: Instance)
    requires x.probe.Some?
  {
    && (PinOf(x.probe.value.ssh) != "" ==> x.probe.value.ssh.value == r.hostKey)
    && (PinOf(x.probe.value.tls) != "" ==> x.probe.value.tls.value == r.tls)
    && (PinOf(x.probe.value.winrm) != "" ==> x.probe.value.winrm.value == r.winrm)
  }

  /** The row stored for a sound sighting has pinned what it shows, whatever row it replaces. */
  lemma SoundShowsPins(g: Group, x: Sighting, prev: Option<Instance>, existing: Option<Instance>)
    requires Sound(g, x, prev)
    ensures ShowsPins(x, Stored(existing, Observed(g, x, prev)))
  {
  }

  /** The poll got every write it needed. */
  ghost predicate Completes(g: Group, s: State, snap: seq<Sighting>, order: seq<string>, writes: nat) {
    var seen := SeenAll(g, s.rows, s, snap).rows;
    Lists(order, seen) && writes >= |snap| + |Departing(seen, snap, order)|
  }

  lemma CountStep(s: seq<string>, x: string, id: string)
    ensures multiset(s + [x])[id] == multiset(s)[id] + if x == id then 1 else 0
  {
  }

  lemma {:induction false} DepartingOnce(rows: Rows, snap: seq<Sighting>, order: seq<string>, id: string)
    requires forall i: nat, j: nat | i < j < |order| :: order[i] != order[j]
    ensures multiset(Departing(rows, snap, order))[id] ==
            if id in order && id in rows && !rows[id].terminated && !Listed(snap, id) then 1 else 0
  {
    if order != [] {
      var n := |order| - 1;
      var so := Departing(rows, snap, order[..n]);
      DepartingOnce(rows, snap, order[..n], id);
      assert id in order <==> id in order[..n] || id == order[n];
      assert order[n] !in order[..n];
      assert Departing(rows, snap, order) == so || Departing(rows, snap, order) == so + [order[n]];
      CountStep(so, order[n], id);
    }
  }

  /** Sightings of other instances leave a row alone. */
  lemma {:induction false} SeenPrefix(g: Group, s: State, snap: seq<Sighting>, n: nat, id: string)
    requires n <= |snap| && forall i: nat | n <= i < |snap| :: snap[i].cloud.id != id
    ensures Find(SeenAll(g, s.rows, s, snap[..n]).rows, id) == Find(SeenAll(g, s.rows, s, snap).rows, id)
    decreases |snap| - n
  {
    if n < |snap| {
      SeenPrefix(g, s, snap, n + 1, id);
      assert snap[..n + 1][..n] == snap[..n];
    } else {
      assert snap[..n] == snap;
    }
  }

  /** The row after the last sighting of an instance is the one stored for it. */
  lemma SeenLast(g: Group, s: State, snap: seq<Sighting>, i: nat)
    requires i < |snap| && forall j: nat | i < j < |snap| :: snap[j].cloud.id != snap[i].cloud.id
    ensures var id := snap[i].cloud.id;
            var existing := Find(SeenAll(g, s.rows, s, snap[..i]).rows, id);
            Find(SeenAll(g, s.rows, s, snap).rows, id) == Some(Stored(existing, Observed(g, snap[i], Find(s.rows, id))))
  {
    SeenPrefix(g, s, snap, i + 1, snap[i].cloud.id);
    assert snap[..i + 1][..i] == snap[..i];
  }

  /** Health is earned, for any snapshot and wherever storage fails: the row
      stored for the last sighting of an instance is healthy exactly when that
      sighting is sound against what was stored before the poll, and then every
      fingerprint shown is the one the row has pinned. */
  lemma HealthIsEarned(g: Group, s: State, snap: seq<Sighting>, order: seq<string>, writes: nat, i: nat)
    requires i < |snap| && i < writes
    requires forall j: nat | i < j < |snap| && j < writes :: snap[j].cloud.id != snap[i].cloud.id
    ensures var id := snap[i].cloud.id;
            var after := Polled(g, s, snap, order, writes).rows;
            && id in after
            && (Healthy(after[id]) <==> Sound(g, snap[i], Find(s.rows, id)))
            && (Healthy(after[id]) ==> ShowsPins(snap[i], after[id]))
  {
    var id := snap[i].cloud.id;
    var stored := snap[..Min(writes, |snap|)];
    assert stored[i] == snap[i] && stored[..i] == snap[..i];
    SeenLast(g, s, stored, i);
    var existing := Find(SeenAll(g, s.rows, s, snap[..i]).rows, id);
    StoredHealth(g, snap[i], Find(s.rows, id), existing);
    if Sound(g, snap[i], Find(s.rows, id)) { SoundShowsPins(g, snap[i], Find(s.rows, id), existing); }
    if writes >= |snap| {
      assert stored == snap;
      DepartingNotListed(SeenAll(g, s.rows, s, snap).rows, snap, order, id);
    }
  }

  lemma {:induction false} DepartingNotListed(rows: Rows, snap: seq<Sighting>, order: seq<string>, id: string)
    ensures id in Departing(rows, snap, order) ==> id in rows && !rows[id].terminated && !Listed(snap, id)
  {
    if order != [] { DepartingNotListed(rows, snap, order[..|order| - 1], id); }
  }

  // ---- retirement

  /** The sessions a snapshot ends: one call for each instance whose health was lost. */
  lemma {:induction false} SeenEnds(g: Group, s: State, snap: seq<Sighting>, id: string)
    requires Distinct(snap)
    ensures var after := SeenAll(g, s.rows, s, snap);
            && s.ended <= after.ended && (id in s.rows ==> id in after.rows)
            && multiset(after.ended[|s.ended|..])[id] ==
               if Listed(snap, id) && id in s.rows && Healthy(s.rows[id]) && !Healthy(after.rows[id]) then 1 else 0
  {
    SeenAllKeepsPins(g, s.rows, s, snap);
    if snap != [] {
      var n := |snap| - 1;
      if snap[n].cloud.id != id { SeenPrefix(g, s, snap, n, id); }
      SeenEnds(g, s, snap[..n], id);
      SeenAllKeepsPins(g, s.rows, s, snap[..n]);
      var mid, after := SeenAll(g, s.rows, s, snap[..n]), SeenAll(g, s.rows, s, snap);
      assert snap[n].cloud.id == id ==> !Listed(snap[..n], id) && Listed(snap, id);
      if snap[n].cloud.id != id {
        assert Listed(snap[..n], id) <==> Listed(snap, id) by {
          if Listed(snap, id) {
            var i: nat :| i < |snap| && snap[i].cloud.id == id;
            assert snap[..n][i].cloud.id == id;
          }
          if Listed(snap[..n], id) {
            var i: nat :| i < n && snap[..n][i].cloud.id == id;
            assert snap[i].cloud.id == id;
          }
        }
      }
      assert after.ended == mid.ended || after.ended == mid.ended + [snap[n].cloud.id];
      assert after.ended[|s.ended|..] == mid.ended[|s.ended|..] + after.ended[|mid.ended|..];
    }
  }

  /** The rows after a completed poll: the ones it saw as it stored them, the others terminated. */
  lemma AfterPoll(g: Group, s: State, snap: seq<Sighting>, order: seq<string>, writes: nat, id: string)
    requires Distinct(snap) && Completes(g, s, snap, order, writes) && id in s.rows
    ensures var seen := SeenAll(g, s.rows, s, snap).rows;
            var after := Polled(g, s, snap, order, writes).rows;
            && id in seen && id in after
            && (Listed(snap, id) ==> after[id] == seen[id])
            && (!Listed(snap, id) ==> after[id].terminated && !Healthy(after[id]))
            && multiset(Departing(seen, snap, order))[id] == if !s.rows[id].terminated && !Listed(snap, id) then 1 else 0
  {
    SeenAllKeepsPins(g, s.rows, s, snap);
    SeenRow(g, s, snap, id);
    var seen := SeenAll(g, s.rows, s, snap).rows;
    var gone := Departing(seen, snap, order);
    DepartingOnce(seen, snap, order, id);
    assert id in gone <==> multiset(gone)[id] > 0;
  }

  /** Retirement is exact: a poll over distinct ids that storage does not fail
      ends the sessions of an instance once if the instance stopped being
      healthy or left the group, and otherwise not at all; what it ended is not
      healthy afterwards. */
  lemma RetirementExact(g: Group, s: State, snap: seq<Sighting>, order: seq<string>, writes: nat, id: string)
    requires Distinct(snap) && Completes(g, s, snap, order, writes) && id in s.rows
    ensures var after := Polled(g, s, snap, order, writes);
            && s.ended <= after.ended && id in after.rows
            && var lost := Healthy(s.rows[id]) && !Healthy(after.rows[id]);
               var left := !s.rows[id].terminated && !Listed(snap, id);
               && multiset(after.ended[|s.ended|..])[id] == (if lost || left then 1 else 0)
               && (lost || left ==> !Healthy(after.rows[id]))
  {
    AfterPoll(g, s, snap, order, writes, id);
    SeenEnds(g, s, snap, id);
    var seen := SeenAll(g, s.rows, s, snap);
    EndsApart(s.ended, seen.ended, Departing(seen.rows, snap, order), id);
  }

  lemma EndsApart(before: seq<string>, seen: seq<string>, gone: seq<string>, id: string)
    requires before <= seen
    ensures before <= seen + gone
    ensures multiset((seen + gone)[|before|..])[id] == multiset(seen[|before|..])[id] + multiset(gone)[id]
  {
    assert (seen + gone)[|before|..] == seen[|before|..] + gone;
  }

  /** Only stored instances have sessions to end. */
  lemma StrangersUntouched(g: Group, s: State, snap: seq<Sighting>, order: seq<string>, writes: nat, id: string)
    requires Distinct(snap) && Completes(g, s, snap, order, writes) && id !in s.rows
    ensures var after := Polled(g, s, snap, order, writes);
            s.ended <= after.ended && id !in after.ended[|s.ended|..]
  {
    SeenEnds(g, s, snap, id);
    SeenRow(g, s, snap, id);
    var seen := SeenAll(g, s.rows, s, snap);
    var gone := Departing(seen.rows, snap, order);
    DepartingOnce(seen.rows, snap, order, id);
    EndsApart(s.ended, seen.ended, gone, id);
    var ended := (seen.ended + gone)[|s.ended|..];
    assert id in ended <==> multiset(ended)[id] > 0;
  }

  /** A poll that does not list an instance leaves its row and its sessions alone while it stores the others. */
  lemma {:induction false} UnlistedUntouched(g: Group, s: State, snap: seq<Sighting>, id: string)
    requires !Listed(snap, id)
    ensures var after := SeenAll(g, s.rows, s, snap);
            Find(after.rows, id) == Find(s.rows, id) && s.ended <= after.ended && id !in after.ended[|s.ended|..]
  {
    if snap != [] {
      var n := |snap| - 1;
      UnlistedBefore(snap, n, id);
      UnlistedUntouched(g, s, snap[..n], id);
      assert snap[n].cloud.id != id;
    }
  }

  lemma UnlistedBefore(snap: seq<Sighting>, n: nat, id: string)
    requires !Listed(snap, id) && n <= |snap|
    ensures !Listed(snap[..n], id)
  {
    forall i: nat | i < n ensures snap[..n][i].cloud.id != id { assert snap[..n][i] == snap[i]; }
  }

  /** The sessions of a stored instance that left the group are ended by a poll
      exactly when storage takes every write the poll needs. */
  lemma DepartureEnds(g: Group, s: State, snap: seq<Sighting>, order: seq<string>, writes: nat, id: string)
    requires id in s.rows && !s.rows[id].terminated && !Listed(snap, id)
    requires Lists(order, SeenAll(g, s.rows, s, snap).rows)
    ensures var after := Polled(g, s, snap, order, writes);
            s.ended <= after.ended && (id in after.ended[|s.ended|..] <==> Completes(g, s, snap, order, writes))
  {
    var seen := SeenAll(g, s.rows, s, snap);
    UnlistedUntouched(g, s, snap, id);
    if writes < |snap| {
      UnlistedBefore(snap, writes, id);
      UnlistedUntouched(g, s, snap[..writes], id);
    } else if Completes(g, s, snap, order, writes) {
      var gone := Departing(seen.rows, snap, order);
      DepartingOnce(seen.rows, snap, order, id);
      assert multiset(gone)[id] == 1 && id in gone;
      assert (seen.ended + gone)[|s.ended|..] == seen.ended[|s.ended|..] + gone;
    }
  }

  /** What a failed poll makes of an instance that left: its sessions go on, and
      its row is stored as terminated exactly when the failure came after it
      was marked. Only then is it forgotten; otherwise the next poll finds it
      as this one did. */
  lemma FailedPollForgets(g: Group, s: State, snap: seq<Sighting>, order: seq<string>, writes: nat, id: string)
    requires id in s.rows && !s.rows[id].terminated && !Listed(snap, id)
    requires Lists(order, SeenAll(g, s.rows, s, snap).rows) && !Completes(g, s, snap, order, writes)
    ensures var gone := Departing(SeenAll(g, s.rows, s, snap).rows, snap, order);
            var after := Polled(g, s, snap, order, writes);
            && s.ended <= after.ended && id !in after.ended[|s.ended|..] && id in after.rows
            && (after.rows[id].terminated <==> |snap| <= writes && id in gone[..writes - |snap|])
            && (!after.rows[id].terminated ==> after.rows[id] == s.rows[id])
  {
    DepartureEnds(g, s, snap, order, writes, id);
    UnlistedUntouched(g, s, snap, id);
    if writes < |snap| {
      UnlistedBefore(snap, writes, id);
      UnlistedUntouched(g, s, snap[..writes], id);
    }
  }

  /** A row stored as terminated and not listed stays terminated, and the poll,
      complete or failed, ends no session of it. */
  lemma TerminatedStays(g: Group, s: State, snap: seq<Sighting>, order: seq<string>, writes: nat, id: string)
    requires id in s.rows && s.rows[id].terminated && !Listed(snap, id)
    ensures var after := Polled(g, s, snap, order, writes);
            && id in after.rows && after.rows[id].terminated
            && s.ended <= after.ended && id !in after.ended[|s.ended|..]
  {
    var seen := SeenAll(g, s.rows, s, snap);
    UnlistedUntouched(g, s, snap, id);
    if writes < |snap| {
      UnlistedBefore(snap, writes, id);
      UnlistedUntouched(g, s, snap[..writes], id);
    } else {
      DepartingNotListed(seen.rows, snap, order, id);
      var gone := Departing(seen.rows, snap, order);
      assert (seen.ended + gone)[|s.ended|..] == seen.ended[|s.ended|..] + gone;
    }
  }

  /** Over any run of polls, failed ones included, an instance stored as
      terminated and never listed again has no session ended. */
  lemma {:induction false} TerminatedForGood(s: State, polls: seq<Poll>, id: string)
    requires id in s.rows && s.rows[id].terminated && forall i: nat | i < |polls| :: !Listed(polls[i].snap, id)
    ensures var after := Run(s, polls);
            && id in after.rows && after.rows[id].terminated
            && s.ended <= after.ended && id !in after.ended[|s.ended|..]
  {
    if polls != [] {
      var n := |polls| - 1;
      var p, mid, after := polls[n], Run(s, polls[..n]), Run(s, polls);
      TerminatedForGood(s, polls[..n], id);
      TerminatedStays(p.group, mid, p.snap, p.order, p.writes, id);
      assert after.ended[|s.ended|..] == mid.ended[|s.ended|..] + after.ended[|mid.ended|..];
    }
  }
}
