/** Stored health, pins and ended sessions in the fields of the rows and the
    snapshot themselves. */
module AsgHealth {
  import opened Basics
  import opened AsgSync
  import opened AsgProofs

  // ---- letter case

  /** The text is the word in some mix of upper and lower case; no other letter
      of Unicode has one of the word's letters as its lower case. */
  predicate AnyCase(text: string, word: string) {
    |text| == |word| && forall i | 0 <= i < |text| :: text[i] == word[i] || ('a' <= word[i] <= 'z' && text[i] == word[i] - 'a' + 'A')
  }

  /** A word without capitals. */
  predicate Small(word: string) { forall i | 0 <= i < |word| :: !('A' <= word[i] <= 'Z') }

  lemma {:induction false} LowerIs(text: string, word: string)
    requires Small(word)
    ensures Lower(text) == word <==> AnyCase(text, word)
  {
    if text != "" && word != "" {
      LowerIs(text[1..], word[1..]);
      var c := if 'A' <= text[0] <= 'Z' then text[0] - 'A' + 'a' else text[0];
      assert Lower(text) == [c] + Lower(text[1..]) && word == [word[0]] + word[1..];
      assert c == word[0] <==> text[0] == word[0] || ('a' <= word[0] <= 'z' && text[0] == word[0] - 'a' + 'A');
      AnyCaseFirst(text, word);
    }
  }

  lemma AnyCaseFirst(text: string, word: string)
    requires text != "" && word != ""
    ensures AnyCase(text, word) <==>
              AnyCase(text[1..], word[1..]) && (text[0] == word[0] || ('a' <= word[0] <= 'z' && text[0] == word[0] - 'a' + 'A'))
  {
    if AnyCase(text[1..], word[1..]) {
      forall i | 1 <= i < |text| ensures text[i] == text[1..][i - 1] && word[i] == word[1..][i - 1] {}
    }
  }

  /** What the cloud says of an instance that may be used. */
  predicate InUse(lifecycle: string, lbHealth: string) { lifecycle == "InService" && (lbHealth == "" || AnyCase(lbHealth, "healthy")) }

  lemma CloudHealthyIs(lifecycle: string, lbHealth: string)
    ensures CloudHealthy(lifecycle, lbHealth) <==> InUse(lifecycle, lbHealth)
  {
    LowerIs(lbHealth, "");
    LowerIs(lbHealth, "healthy");
  }

  /** A row that sessions may run on. */
  predicate Usable(r: Instance) { !r.terminated && r.probeHealth == "healthy" && InUse(r.lifecycle, r.lbHealth) }

  lemma HealthyIs(r: Instance)
    ensures Healthy(r) <==> Usable(r)
  {
    CloudHealthyIs(r.lifecycle, r.lbHealth);
  }

  // ---- what a sighting earns

  predicate Answered(g: Group, x: Sighting) {
    InUse(x.cloud.lifecycle, x.cloud.lbHealth) && (x.cloud.privateIP != "" || x.cloud.publicIP != "") && g.prober && x.probe.Some?
  }

  /** Every fingerprint shown is the one pinned where one is; a first host key
      is on the console when the console can be read. */
  predicate Agrees(x: Sighting, prev: Option<Instance>)
    requires x.probe.Some?
  {
    var shown := x.probe.value;
    && (prev.Some? && prev.value.tls != "" && shown.tls.Some? ==> shown.tls.value in {"", prev.value.tls})
    && (prev.Some? && prev.value.winrm != "" && shown.winrm.Some? ==> shown.winrm.value in {"", prev.value.winrm})
    && (prev.Some? && prev.value.hostKey != "" && shown.ssh.Some? ==> shown.ssh.value == prev.value.hostKey)
    && ((prev.None? || prev.value.hostKey == "") && shown.ssh.Some? && shown.ssh.value != "" && x.console.Some? ==>
          shown.ssh.value in x.console.value)
  }

  predicate Earns(g: Group, x: Sighting, prev: Option<Instance>) {
    Answered(g, x) && (forall port | port in g.capabilities :: port in x.probe.value.reachable) && Agrees(x, prev)
  }

  lemma SoundIs(g: Group, x: Sighting, prev: Option<Instance>)
    ensures Reached(g, x) <==> Answered(g, x)
    ensures Sound(g, x, prev) <==> Earns(g, x, prev)
  {
    CloudHealthyIs(x.cloud.lifecycle, x.cloud.lbHealth);
  }

  /** The row stored for the last sighting of an instance is usable exactly
      when the cloud has it in service, every port answers and every
      fingerprint shown agrees; a sighting the cloud does not call healthy, or
      that was not probed, is stored as unusable. */
  lemma HealthInFields(g: Group, s: State, snap: seq<Sighting>, order: seq<string>, writes: nat, i: nat)
    requires i < |snap| && i < writes
    requires forall j: nat | i < j < |snap| && j < writes :: snap[j].cloud.id != snap[i].cloud.id
    ensures var id := snap[i].cloud.id;
            var after := Polled(g, s, snap, order, writes).rows;
            id in after && (Usable(after[id]) <==> Earns(g, snap[i], if id in s.rows then Some(s.rows[id]) else None))
  {
    var id := snap[i].cloud.id;
    HealthIsEarned(g, s, snap, order, writes, i);
    SoundIs(g, snap[i], Find(s.rows, id));
    HealthyIs(Polled(g, s, snap, order, writes).rows[id]);
  }

  /** What the row of a listed instance says after a completed poll: the state
      the cloud gave, the pins it had, and for a probed instance what was shown
      first. */
  predicate RowAfter(g: Group, x: Sighting, prev: Option<Instance>, r: Instance) {
    && r.lifecycle == x.cloud.lifecycle && r.lbHealth == x.cloud.lbHealth && !r.terminated
    && r.probeHealth == (if Earns(g, x, prev) then "healthy" else "unhealthy")
    && var was := if prev.Some? then prev.value else Instance("", "", "", "", "", "", "", false);
       && (if was.tls != "" || !Answered(g, x) || x.probe.value.tls.None? then r.tls == was.tls else r.tls == x.probe.value.tls.value)
       && (if was.winrm != "" || !Answered(g, x) || x.probe.value.winrm.None? then r.winrm == was.winrm else r.winrm == x.probe.value.winrm.value)
       && (if was.hostKey != "" || !Answered(g, x) || x.probe.value.ssh in {None, Some("")} then (r.hostKey, r.hostKeySource) == (was.hostKey, was.hostKeySource)
           else if x.console.None? then (r.hostKey, r.hostKeySource) == (x.probe.value.ssh.value, "tofu")
           else if x.probe.value.ssh.value in x.console.value then (r.hostKey, r.hostKeySource) == (x.probe.value.ssh.value, "console")
           else (r.hostKey, r.hostKeySource) == (was.hostKey, was.hostKeySource))
  }

  lemma StoredRow(g: Group, x: Sighting, prev: Option<Instance>)
    ensures RowAfter(g, x, prev, Stored(prev, Observed(g, x, prev)))
  {
    SoundIs(g, x, prev);
  }

  /** After a completed poll over distinct ids the table has exactly the rows
      it had and the instances listed: each listed one as the cloud and the
      probe show it, each other one as gone, with its pins. */
  lemma RowsAfterPoll(g: Group, s: State, snap: seq<Sighting>, order: seq<string>, writes: nat, id: string)
    requires Distinct(snap) && Completes(g, s, snap, order, writes)
    ensures var after := Polled(g, s, snap, order, writes).rows;
            && (id in after <==> id in s.rows || Listed(snap, id))
            && (forall i: nat | i < |snap| && snap[i].cloud.id == id :: id in after && RowAfter(g, snap[i], Find(s.rows, id), after[id]))
            && (id in s.rows && !Listed(snap, id) ==>
                  after[id] == if s.rows[id].terminated then s.rows[id]
                               else s.rows[id].(terminated := true, lifecycle := "Terminated", probeHealth := "unhealthy"))
  {
    var seen := SeenAll(g, s.rows, s, snap).rows;
    SeenRow(g, s, snap, id);
    if id in s.rows { AfterPoll(g, s, snap, order, writes, id); }
    DepartingNotListed(seen, snap, order, id);
    DepartingOnce(seen, snap, order, id);
    var gone := Departing(seen, snap, order);
    assert id in gone <==> multiset(gone)[id] > 0;
    var after := Polled(g, s, snap, order, writes).rows;
    forall i: nat | i < |snap| && snap[i].cloud.id == id ensures id in after && RowAfter(g, snap[i], Find(s.rows, id), after[id]) {
      StoredRow(g, snap[i], Find(s.rows, id));
      assert Listed(snap, id) && Find(seen, id) == Some(after[id]);
    }
  }

  // ---- whose sessions end

  /** A completed poll over distinct ids ends the sessions of a stored instance
      once if its row was usable and is no more, or if it left; otherwise not
      at all. */
  lemma RetirementInFields(g: Group, s: State, snap: seq<Sighting>, order: seq<string>, writes: nat, id: string)
    requires Distinct(snap) && Completes(g, s, snap, order, writes) && id in s.rows
    ensures var after := Polled(g, s, snap, order, writes);
            && s.ended <= after.ended && id in after.rows
            && var lost := Usable(s.rows[id]) && !Usable(after.rows[id]);
               var left := !s.rows[id].terminated && forall i: nat | i < |snap| :: snap[i].cloud.id != id;
               multiset(after.ended[|s.ended|..])[id] == if lost || left then 1 else 0
  {
    RetirementExact(g, s, snap, order, writes, id);
    HealthyIs(s.rows[id]);
    HealthyIs(Polled(g, s, snap, order, writes).rows[id]);
  }

  /** In terms of the snapshot: a usable instance that is listed has its
      sessions ended, once, exactly when its sighting does not earn health. */
  lemma ListedRetirement(g: Group, s: State, snap: seq<Sighting>, order: seq<string>, writes: nat, i: nat)
    requires Distinct(snap) && Completes(g, s, snap, order, writes) && i < |snap| && snap[i].cloud.id in s.rows
    requires Usable(s.rows[snap[i].cloud.id])
    ensures var id := snap[i].cloud.id;
            var after := Polled(g, s, snap, order, writes);
            && s.ended <= after.ended
            && multiset(after.ended[|s.ended|..])[id] == if Earns(g, snap[i], Some(s.rows[id])) then 0 else 1
  {
    var id := snap[i].cloud.id;
    RetirementInFields(g, s, snap, order, writes, id);
    HealthInFields(g, s, snap, order, writes, i);
  }

  /** The load balancer decides: whatever the probe finds, a usable instance in
      service that it calls anything but healthy is stored as unusable and its
      sessions are ended once. */
  lemma LoadBalancerRetires(g: Group, s: State, snap: seq<Sighting>, order: seq<string>, writes: nat, i: nat)
    requires Distinct(snap) && Completes(g, s, snap, order, writes) && i < |snap| && snap[i].cloud.id in s.rows
    requires Usable(s.rows[snap[i].cloud.id]) && snap[i].cloud.lbHealth != "" && !AnyCase(snap[i].cloud.lbHealth, "healthy")
    ensures var id := snap[i].cloud.id;
            var after := Polled(g, s, snap, order, writes);
            && s.ended <= after.ended && multiset(after.ended[|s.ended|..])[id] == 1
            && id in after.rows && !Usable(after.rows[id])
  {
    ListedRetirement(g, s, snap, order, writes, i);
    HealthInFields(g, s, snap, order, writes, i);
  }
}
