/** The poll itself, as it changes rows and ends sessions step by step. */
module AsgSyncer {
  import opened Basics
  import opened AsgSync
  import AsgProofs

  datatype Summary = Summary(seen: nat, healthy: nat, joined: nat, left: nat, retired: nat,
                             hostKeyMismatches: nat, certificateMismatches: nat)

  /** The host key shown is not the pinned one, or not on the console. */
  function KeyMismatches(g: Group, x: Sighting, prev: Option<Instance>): nat {
    if Reached(g, x) && !KeyAgrees(Pins(prev).0, x.probe.value.ssh, x.console) then 1 else 0
  }

  /** How many of the two certificates shown are not the pinned ones. */
  function CertMismatches(g: Group, x: Sighting, prev: Option<Instance>): nat {
    if !Reached(g, x) then 0
    else (if CertAgrees(Pins(prev).2, x.probe.value.tls) then 0 else 1) + if CertAgrees(Pins(prev).3, x.probe.value.winrm) then 0 else 1
  }

  /** The host key mismatches of the first n sightings, each against the row before the poll. */
  function KeySum(g: Group, before: Rows, snap: seq<Sighting>, n: nat): nat
    requires n <= |snap|
  {
    if n == 0 then 0 else KeySum(g, before, snap, n - 1) + KeyMismatches(g, snap[n - 1], Find(before, snap[n - 1].cloud.id))
  }

  function CertSum(g: Group, before: Rows, snap: seq<Sighting>, n: nat): nat
    requires n <= |snap|
  {
    if n == 0 then 0 else CertSum(g, before, snap, n - 1) + CertMismatches(g, snap[n - 1], Find(before, snap[n - 1].cloud.id))
  }

  /** Checks one certificate against its pin; says what to store and whether it agreed. */
  method PinCertificate(pinned: string, observed: Option<string>) returns (pin: string, agrees: bool)
    ensures pin == CertPin(pinned, observed) && agrees == CertAgrees(pinned, observed)
  {
    if observed.None? && pinned == "" {
      return "", true;
    }
    var shown := "";
    if observed.Some? {
      shown := observed.value;
    }
    if pinned == "" {
      return shown, true;
    } else if shown == "" || shown == pinned {
      return pinned, true;
    } else {
      return pinned, false;
    }
  }

  /** Probes an instance the cloud calls healthy and fills in its pins. */
  method ProbeInstance(g: Group, x: Sighting, r: Instance, prev: Option<Instance>) returns (out: Instance, keys: nat, certs: nat)
    requires CloudHealthy(x.cloud.lifecycle, x.cloud.lbHealth)
    requires r == Instance(x.cloud.lifecycle, x.cloud.lbHealth, "unknown", "", "", "", "", false)
    ensures out == Observed(g, x, prev)
    ensures keys == KeyMismatches(g, x, prev) && certs == CertMismatches(g, x, prev)
  {
    out, keys, certs := r, 0, 0;
    if Address(g, x.cloud) == "" || !g.prober || x.probe.None? {
      out := out.(probeHealth := "unhealthy");
      return;
    }
    var res := x.probe.value;
    var healthy := true;
    for i := 0 to |g.capabilities|
      invariant healthy == forall p | p in g.capabilities[..i] :: p in res.reachable
    {
      if g.capabilities[i] !in res.reachable {
        healthy := false;
      }
    }
    assert g.capabilities[..|g.capabilities|] == g.capabilities;
    out := out.(probeHealth := if healthy then "healthy" else "unhealthy");
    var (hostKey, hostKeySource, tls, winrm) := Pins(prev);
    var tlsPin, tlsAgrees := PinCertificate(tls, res.tls);
    var winrmPin, winrmAgrees := PinCertificate(winrm, res.winrm);
    out := out.(tls := tlsPin, winrm := winrmPin);
    certs := (if tlsAgrees then 0 else 1) + if winrmAgrees then 0 else 1;
    if !tlsAgrees || !winrmAgrees {
      out := out.(probeHealth := "unhealthy");
    }
    if hostKey != "" {
      if res.ssh.Some? && res.ssh.value != hostKey {
        out, keys := out.(probeHealth := "unhealthy"), 1;
      }
      out := out.(hostKey := hostKey, hostKeySource := hostKeySource);
      return;
    }
    if res.ssh.None? || res.ssh.value == "" {
      return;
    }
    var observed := res.ssh.value;
    match x.console {
      case Some(published) =>
        if observed in published {
          out := out.(hostKey := observed, hostKeySource := "console");
          return;
        }
        out, keys := out.(probeHealth := "unhealthy"), 1;
      case None =>
        out := out.(hostKey := observed, hostKeySource := "tofu");
    }
  }

  /** What a poll makes of a sighting: its cloud health decides whether it is probed. */
  method Observe(g: Group, x: Sighting, prev: Option<Instance>) returns (out: Instance, keys: nat, certs: nat)
    ensures out == Observed(g, x, prev)
    ensures keys == KeyMismatches(g, x, prev) && certs == CertMismatches(g, x, prev)
  {
    out := Instance(x.cloud.lifecycle, x.cloud.lbHealth, "unknown", "", "", "", "", false);
    if CloudHealthy(x.cloud.lifecycle, x.cloud.lbHealth) {
      out, keys, certs := ProbeInstance(g, x, out, prev);
    } else {
      out, keys, certs := out.(probeHealth := "unhealthy"), 0, 0;
    }
  }

  /** The sightings, by position, that are sound against the rows before the poll. */
  ghost function SoundOnes(g: Group, before: Rows, snap: seq<Sighting>, n: nat): set<nat>
    requires n <= |snap|
  {
    set i: nat | i < n && Sound(g, snap[i], Find(before, snap[i].cloud.id))
  }

  /** The counts of a poll that has stored n sightings and probed m. */
  ghost predicate Sums(g: Group, before: Rows, snap: seq<Sighting>, n: nat, m: nat, sum: Summary)
    requires n <= |snap| && m <= |snap|
  {
    && sum.healthy == |SoundOnes(g, before, snap, n)| && sum.seen == m
    && sum.hostKeyMismatches == KeySum(g, before, snap, m) && sum.certificateMismatches == CertSum(g, before, snap, m)
  }

  lemma SumsProbed(g: Group, before: Rows, snap: seq<Sighting>, i: nat, sum: Summary, keys: nat, certs: nat)
    requires i < |snap| && Sums(g, before, snap, i, i, sum)
    requires keys == KeyMismatches(g, snap[i], Find(before, snap[i].cloud.id))
    requires certs == CertMismatches(g, snap[i], Find(before, snap[i].cloud.id))
    ensures Sums(g, before, snap, i, i + 1,
                 sum.(seen := sum.seen + 1, hostKeyMismatches := sum.hostKeyMismatches + keys,
                      certificateMismatches := sum.certificateMismatches + certs))
  {
  }

  lemma SumsStored(g: Group, before: Rows, snap: seq<Sighting>, i: nat, sum: Summary, next: Summary)
    requires i < |snap| && Sums(g, before, snap, i, i + 1, sum)
    requires next == sum.(joined := next.joined, retired := next.retired, healthy := next.healthy)
    requires next.healthy == sum.healthy + if Sound(g, snap[i], Find(before, snap[i].cloud.id)) then 1 else 0
    ensures Sums(g, before, snap, i + 1, i + 1, next)
  {
    SoundStep(g, before, snap, i);
  }

  lemma AllButLast(snap: seq<Sighting>, i: nat)
    requires i < |snap|
    ensures |snap[..i + 1]| == i + 1 && snap[..i + 1][..i] == snap[..i] && snap[..i + 1][i] == snap[i]
  {
  }

  lemma SoundStep(g: Group, before: Rows, snap: seq<Sighting>, n: nat)
    requires n < |snap|
    ensures |SoundOnes(g, before, snap, n + 1)| ==
            |SoundOnes(g, before, snap, n)| + if Sound(g, snap[n], Find(before, snap[n].cloud.id)) then 1 else 0
  {
    var now, next := SoundOnes(g, before, snap, n), SoundOnes(g, before, snap, n + 1);
    assert next == now + if Sound(g, snap[n], Find(before, snap[n].cloud.id)) then {n} else {};
  }

  class Syncer {
    var rows: Rows
    var ended: seq<string>

    constructor ()
      ensures rows == map[] && ended == []
    {
      rows, ended := map[], [];
    }

    /** Stores an observation: a pin it does not carry stays as it was, and a row seen again is not terminated. */
    method Upsert(id: string, seen: Instance) returns (stored: Instance, isNew: bool)
      requires !seen.terminated
      modifies this`rows
      ensures isNew == (id !in old(rows)) && stored == Stored(Find(old(rows), id), seen)
      ensures rows == old(rows)[id := stored]
    {
      if id !in rows {
        rows := rows[id := seen];
        return seen, true;
      }
      var existing := rows[id];
      stored := seen;
      if stored.hostKey == "" {
        stored := stored.(hostKey := existing.hostKey, hostKeySource := existing.hostKeySource);
      }
      if stored.tls == "" {
        stored := stored.(tls := existing.tls);
      }
      if stored.winrm == "" {
        stored := stored.(winrm := existing.winrm);
      }
      rows := rows[id := stored];
      isNew := false;
    }

    /** Lists the rows, in some order. */
    method Instances() returns (order: seq<string>)
      ensures Lists(order, rows)
    {
      order := [];
      var rest := rows.Keys;
      while rest != {}
        invariant rest <= rows.Keys
        invariant forall id :: id in order <==> id in rows && id !in rest
        invariant forall i: nat, j: nat | i < j < |order| :: order[i] != order[j]
        decreases |rest|
      {
        var id :| id in rest;
        order, rest := order + [id], rest - {id};
      }
    }

    /** Terminates the rows not in the snapshot; the result is empty-handed when storage fails. */
    method MarkTerminated(snap: seq<Sighting>, order: seq<string>, writes: nat) returns (gone: Option<seq<string>>)
      requires forall i: nat | i < |order| :: order[i] in rows
      modifies this`rows
      ensures var departing := Departing(old(rows), snap, order);
              if writes < |departing| then gone == None && rows == Marked(old(rows), departing[..writes])
              else gone == Some(departing) && rows == Marked(old(rows), departing)
    {
      var all := rows;
      var keep := KeptIds(snap);
      var marked: seq<string> := [];
      assert Marked(all, marked) == all;
      for i := 0 to |order|
        invariant marked == Departing(all, snap, order[..i]) && |marked| <= writes
        invariant rows == Marked(all, marked)
      {
        var id := order[i];
        DepartingStep(all, snap, order, i);
        if id in keep || all[id].terminated {
          continue;
        }
        if |marked| == writes {
          return None;
        }
        MarkedStep(all, marked, id);
        rows := rows[id := Departed(all[id])];
        marked := marked + [id];
      }
      assert order[..|order|] == order;
      gone := Some(marked);
    }

    /** Stores one observation, and ends the sessions of an instance that was healthy and is not any more. */
    method SeeOne(g: Group, before: Rows, x: Sighting, seen: Instance) returns (stored: Instance, isNew: bool, retired: bool)
      requires seen == Observed(g, x, Find(before, x.cloud.id)) && forall id | id in before :: id in rows
      modifies this
      ensures State(rows, ended) == SeenOne(g, before, old(State(rows, ended)), x)
      ensures isNew == (x.cloud.id !in old(rows)) && stored == rows[x.cloud.id]
      ensures Healthy(stored) <==> Sound(g, x, Find(before, x.cloud.id))
      ensures |ended| == |old(ended)| + if retired then 1 else 0
    {
      var id := x.cloud.id;
      var prev := if id in before then Some(before[id]) else None;
      AsgProofs.StoredHealth(g, x, prev, Find(rows, id));
      stored, isNew := Upsert(id, seen);
      retired := false;
      if !isNew && prev.Some? && Healthy(prev.value) && !Healthy(stored) {
        ended := ended + [id];
        retired := true;
      }
    }

    /** One turn of the loop over the snapshot, the write included. */
    method SeeNext(g: Group, before: Rows, x: Sighting, seen: Instance, counts: Summary) returns (sum: Summary)
      requires seen == Observed(g, x, Find(before, x.cloud.id)) && forall id | id in before :: id in rows
      modifies this
      ensures State(rows, ended) == SeenOne(g, before, old(State(rows, ended)), x)
      ensures sum == counts.(joined := sum.joined, retired := sum.retired, healthy := sum.healthy)
      ensures sum.healthy == counts.healthy + if Sound(g, x, Find(before, x.cloud.id)) then 1 else 0
      ensures |rows| - sum.joined == |old(rows)| - counts.joined && |ended| - sum.retired == |old(ended)| - counts.retired
    {
      sum := counts;
      var stored, isNew, retired := SeeOne(g, before, x, seen);
      if Healthy(stored) {
        sum := sum.(healthy := sum.healthy + 1);
      }
      if isNew {
        sum := sum.(joined := sum.joined + 1);
      } else if retired {
        sum := sum.(retired := sum.retired + 1);
      }
    }

    /** Stores the sightings in turn, as many as storage takes; the one it fails on has been seen and probed. */
    method SeeAll(g: Group, snap: seq<Sighting>, writes: nat) returns (sum: Summary, ok: bool)
      modifies this
      ensures ok <==> writes >= |snap|
      ensures State(rows, ended) == SeenAll(g, old(rows), old(State(rows, ended)), if ok then snap else snap[..writes])
      ensures Sums(g, old(rows), snap, Min(writes, |snap|), Min(writes + 1, |snap|), sum) && sum.left == 0
      ensures |rows| == |old(rows)| + sum.joined && |ended| == |old(ended)| + sum.retired
    {
      var before := rows;
      ghost var start := State(rows, ended);
      sum := Summary(0, 0, 0, 0, 0, 0, 0);
      for i := 0 to |snap|
        invariant i <= writes && State(rows, ended) == SeenAll(g, before, start, snap[..i])
        invariant forall id | id in before :: id in rows
        invariant Sums(g, before, snap, i, i, sum) && sum.left == 0
        invariant |rows| == |before| + sum.joined && |ended| == |start.ended| + sum.retired
      {
        AllButLast(snap, i);
        var seen, keys, certs := Observe(g, snap[i], if snap[i].cloud.id in before then Some(before[snap[i].cloud.id]) else None);
        SumsProbed(g, before, snap, i, sum, keys, certs);
        sum := sum.(seen := sum.seen + 1, hostKeyMismatches := sum.hostKeyMismatches + keys,
                    certificateMismatches := sum.certificateMismatches + certs);
        if i == writes {
          return sum, false;
        }
        var next := SeeNext(g, before, snap[i], seen, sum);
        SumsStored(g, before, snap, i, sum, next);
        sum := next;
      }
      assert snap[..|snap|] == snap;
      ok := true;
    }

    /** One poll of the group; storage takes `writes` writes and then fails. */
    method SyncGroup(g: Group, snap: seq<Sighting>, writes: nat) returns (sum: Summary, ok: bool, ghost order: seq<string>)
      modifies this
      ensures State(rows, ended) == Polled(g, old(State(rows, ended)), snap, order, writes)
      ensures var seen := SeenAll(g, old(rows), old(State(rows, ended)), snap).rows;
              && (writes >= |snap| ==> Lists(order, seen))
              && (ok <==> writes >= |snap| && writes - |snap| >= |Departing(seen, snap, order)|)
      ensures Sums(g, old(rows), snap, Min(writes, |snap|), Min(writes + 1, |snap|), sum)
      ensures |rows| == |old(rows)| + sum.joined && |ended| == |old(ended)| + sum.retired + sum.left
      ensures !ok ==> sum.left == 0
    {
      order := [];
      sum, ok := SeeAll(g, snap, writes);
      if !ok {
        return;
      }
      var all := Instances();
      order := all;
      ghost var seen := rows;
      var gone := MarkTerminated(snap, all, writes - |snap|);
      assert rows.Keys == seen.Keys;
      if gone.None? {
        return sum, false, order;
      }
      ended := ended + gone.value;
      sum := sum.(left := |gone.value|);
    }
  }

  lemma MarkedStep(rows: Rows, marked: seq<string>, id: string)
    requires id in rows
    ensures Marked(rows, marked + [id]) == Marked(rows, marked)[id := Departed(rows[id])]
  {
  }

  function KeptIds(snap: seq<Sighting>): set<string> { set x | x in snap :: x.cloud.id }

  lemma KeptListed(snap: seq<Sighting>, id: string)
    ensures id in KeptIds(snap) <==> Listed(snap, id)
  {
    if id in KeptIds(snap) {
      var x :| x in snap && x.cloud.id == id;
      var i: nat :| i < |snap| && snap[i] == x;
    }
  }

  lemma DepartingStep(rows: Rows, snap: seq<Sighting>, order: seq<string>, i: nat)
    requires i < |order| && order[i] in rows
    ensures var so := Departing(rows, snap, order[..i]);
            var leaves := !rows[order[i]].terminated && order[i] !in KeptIds(snap);
            && Departing(rows, snap, order[..i + 1]) == (if leaves then so + [order[i]] else so)
            && Departing(rows, snap, order[..i + 1]) <= Departing(rows, snap, order)
            && Departing(rows, snap, order)[..|so|] == so
  {
    assert order[..i + 1][..i] == order[..i];
    DepartingGrows(rows, snap, order, i);
    DepartingGrows(rows, snap, order, i + 1);
    KeptListed(snap, order[i]);
  }

  lemma {:induction false} DepartingGrows(rows: Rows, snap: seq<Sighting>, order: seq<string>, i: nat)
    requires i <= |order|
    ensures Departing(rows, snap, order[..i]) <= Departing(rows, snap, order)
    decreases |order| - i
  {
    if i < |order| {
      DepartingGrows(rows, snap, order, i + 1);
      assert order[..i + 1][..i] == order[..i];
    } else {
      assert order[..i] == order;
    }
  }
}
