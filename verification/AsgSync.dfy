/** One autoscaling group: what a poll stores about its instances, what it
    pins on first use, and whose live sessions it ends. */
module AsgSync {
  import opened Basics

  datatype Group = Group(capabilities: seq<string>, addressPreference: string, prober: bool)

  datatype CloudInstance = CloudInstance(id: string, privateIP: string, publicIP: string, lifecycle: string, lbHealth: string)

  /** What a probe finds: the ports that answer, and the fingerprints shown on them. */
  datatype Probe = Probe(reachable: set<string>, ssh: Option<string>, tls: Option<string>, winrm: Option<string>)

  /** An instance in a snapshot, with what probing it and asking its console would give (None: an error). */
  datatype Sighting = Sighting(cloud: CloudInstance, probe: Option<Probe>, console: Option<seq<string>>)

  datatype Instance = Instance(lifecycle: string, lbHealth: string, probeHealth: string,
                               hostKey: string, hostKeySource: string, tls: string, winrm: string, terminated: bool)

  /** The rows of the group, by the cloud's instance id. */
  type Rows = map<string, Instance>

  function Find(rows: Rows, id: string): Option<Instance> { if id in rows then Some(rows[id]) else None }

  function Lower(s: string): string {
    if s == [] then [] else [if 'A' <= s[0] <= 'Z' then s[0] - 'A' + 'a' else s[0]] + Lower(s[1..])
  }

  predicate CloudHealthy(lifecycle: string, lbHealth: string) {
    lifecycle == "InService" && (Lower(lbHealth) == "" || Lower(lbHealth) == "healthy")
  }

  /** The derived health of a stored row. */
  predicate Healthy(r: Instance) {
    !r.terminated && r.probeHealth == "healthy" && CloudHealthy(r.lifecycle, r.lbHealth)
  }

  function Address(g: Group, c: CloudInstance): string {
    if g.addressPreference == "public" && c.publicIP != "" then c.publicIP
    else if c.privateIP != "" then c.privateIP
    else c.publicIP
  }

  // ---- what a sighting makes of the row stored before the poll

  function PinOf(observed: Option<string>): string { if observed.Some? then observed.value else "" }

  /** The row's pins before the poll, all empty for an instance not stored yet. */
  function Pins(prev: Option<Instance>): (string, string, string, string) {
    if prev.Some? then (prev.value.hostKey, prev.value.hostKeySource, prev.value.tls, prev.value.winrm) else ("", "", "", "")
  }

  /** A certificate agrees with its pin when there is no pin yet, or nothing was shown. */
  predicate CertAgrees(pinned: string, observed: Option<string>) {
    pinned == "" || PinOf(observed) == "" || PinOf(observed) == pinned
  }

  /** A pinned host key must be the one shown; one not pinned yet must be on the console, if that publishes any. */
  predicate KeyAgrees(pinned: string, ssh: Option<string>, console: Option<seq<string>>) {
    if pinned != "" then ssh.Some? ==> ssh.value == pinned
    else PinOf(ssh) != "" && console.Some? ==> PinOf(ssh) in console.value
  }

  predicate Reached(g: Group, x: Sighting) {
    CloudHealthy(x.cloud.lifecycle, x.cloud.lbHealth) && Address(g, x.cloud) != "" && g.prober && x.probe.Some?
  }

  /** Everything that must hold for the probe to find the instance healthy. */
  predicate Sound(g: Group, x: Sighting, prev: Option<Instance>) {
    && Reached(g, x)
    && (forall p | p in g.capabilities :: p in x.probe.value.reachable)
    && CertAgrees(Pins(prev).2, x.probe.value.tls)
    && CertAgrees(Pins(prev).3, x.probe.value.winrm)
    && KeyAgrees(Pins(prev).0, x.probe.value.ssh, x.console)
  }

  function HostKey(x: Sighting, prev: Option<Instance>): (string, string)
    requires x.probe.Some?
  {
    if Pins(prev).0 != "" then (Pins(prev).0, Pins(prev).1)
    else if PinOf(x.probe.value.ssh) == "" then ("", "")
    else if x.console.None? then (PinOf(x.probe.value.ssh), "tofu")
    else if PinOf(x.probe.value.ssh) in x.console.value then (PinOf(x.probe.value.ssh), "console")
    else ("", "")
  }

  function CertPin(pinned: string, observed: Option<string>): string { if pinned != "" then pinned else PinOf(observed) }

  /** The observation a poll hands to storage. */
  ghost function Observed(g: Group, x: Sighting, prev: Option<Instance>): Instance {
    var r := Instance(x.cloud.lifecycle, x.cloud.lbHealth, "unhealthy", "", "", "", "", false);
    if !Reached(g, x) then r
    else
      r.(probeHealth := if Sound(g, x, prev) then "healthy" else "unhealthy",
         hostKey := HostKey(x, prev).0, hostKeySource := HostKey(x, prev).1,
         tls := CertPin(Pins(prev).2, x.probe.value.tls), winrm := CertPin(Pins(prev).3, x.probe.value.winrm))
  }

  /** The row storage keeps: an observation without a pin leaves the stored pin alone. */
  function Stored(existing: Option<Instance>, seen: Instance): Instance {
    if existing.None? then seen
    else
      var kept := existing.value;
      seen.(hostKey := if seen.hostKey == "" then kept.hostKey else seen.hostKey,
            hostKeySource := if seen.hostKey == "" then kept.hostKeySource else seen.hostKeySource,
            tls := if seen.tls == "" then kept.tls else seen.tls,
            winrm := if seen.winrm == "" then kept.winrm else seen.winrm)
  }

  // ---- one poll

  /** The rows, and the instances whose sessions have been ended, in order. */
  datatype State = State(rows: Rows, ended: seq<string>)

  ghost function SeenOne(g: Group, before: Rows, s: State, x: Sighting): State {
    var id := x.cloud.id;
    var prev := Find(before, id);
    var row := Stored(Find(s.rows, id), Observed(g, x, prev));
    State(s.rows[id := row], if prev.Some? && id in s.rows && Healthy(prev.value) && !Healthy(row) then s.ended + [id] else s.ended)
  }

  ghost function SeenAll(g: Group, before: Rows, s: State, snap: seq<Sighting>): State {
    if snap == [] then s
    else SeenOne(g, before, SeenAll(g, before, s, snap[..|snap| - 1]), snap[|snap| - 1])
  }

  ghost predicate Listed(snap: seq<Sighting>, id: string) { exists i: nat :: i < |snap| && snap[i].cloud.id == id }

  ghost predicate Distinct(snap: seq<Sighting>) {
    forall i: nat, j: nat | i < j < |snap| :: snap[i].cloud.id != snap[j].cloud.id
  }

  /** The listed instances that are not in the snapshot and not terminated yet. */
  ghost function Departing(rows: Rows, snap: seq<Sighting>, order: seq<string>): seq<string> {
    if order == [] then []
    else
      var id := order[|order| - 1];
      Departing(rows, snap, order[..|order| - 1]) +
      if id in rows && !rows[id].terminated && !Listed(snap, id) then [id] else []
  }

  function Departed(r: Instance): Instance { r.(terminated := true, lifecycle := "Terminated", probeHealth := "unhealthy") }

  function Marked(rows: Rows, gone: seq<string>): Rows {
    map id | id in rows :: if id in gone then Departed(rows[id]) else rows[id]
  }

  ghost predicate Lists(order: seq<string>, rows: Rows) {
    && (forall id :: id in order <==> id in rows)
    && (forall i: nat, j: nat | i < j < |order| :: order[i] != order[j])
  }

  /** A poll whose storage takes `writes` writes and then fails. A failed poll
      keeps the writes it got through, but it ends no session of an instance
      that left. */
  ghost function Polled(g: Group, s: State, snap: seq<Sighting>, order: seq<string>, writes: nat): State {
    if writes < |snap| then SeenAll(g, s.rows, s, snap[..writes])
    else
      var seen := SeenAll(g, s.rows, s, snap);
      var gone := Departing(seen.rows, snap, order);
      if writes - |snap| < |gone| then seen.(rows := Marked(seen.rows, gone[..writes - |snap|]))
      else State(Marked(seen.rows, gone), seen.ended + gone)
  }
}
