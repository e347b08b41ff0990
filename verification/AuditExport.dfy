/** Export to a sink: at least once, in order, checkpointed. */
module AuditExport {
  import opened Basics
  import opened AuditChain
  import opened AuditStore
  import opened AuditProofs
  import opened AuditLog

  const DEFAULT_BATCH := 200
  const MAX_LIST := 500

  /** The log, one sink's checkpoint row (0 when it has none), and every event
      that sink has accepted, in the order it accepted them. */
  datatype World = World(events: seq<Event>, checkpoint: int, accepted: seq<Event>)

  /** What happens to one batch. Lost is a batch the sink took but whose
      checkpoint was not written: a crash, or a failed write, or a reply that
      never came back. */
  datatype Delivery = Accepted | Refused | Lost

  function ListAfter(events: seq<Event>, afterId: int, limit: int): seq<Event> {
    var rest := After(events, afterId);
    rest[..Min(|rest|, if limit <= 0 || limit > MAX_LIST then MAX_LIST else limit)]
  }

  function Size(batchSize: int): (n: int)
    ensures n >= 1 && (batchSize < 1 ==> n == 200)
  {
    if batchSize <= 0 then DEFAULT_BATCH else batchSize
  }

  datatype Flushed = Flushed(world: World, total: nat, ok: bool)

  function LastId(batch: seq<Event>): int
    requires batch != []
  {
    batch[|batch| - 1].id
  }

  /** Flush, batch by batch; deliveries past the end of the script succeed. */
  function FlushFrom(w: World, size: int, script: seq<Delivery>): (r: Flushed)
    requires Sorted(w.events)
    decreases |After(w.events, w.checkpoint)|
  {
    var batch := ListAfter(w.events, w.checkpoint, size);
    if batch == [] then Flushed(w, 0, true)
    else match if script == [] then Accepted else script[0]
      case Refused => Flushed(w, 0, false)
      case Lost => Flushed(w.(accepted := w.accepted + batch), 0, false)
      case Accepted =>
        var sent := World(w.events, LastId(batch), w.accepted + batch);
        BatchAdvances(w.events, w.checkpoint, size);
        if |batch| < size then Flushed(sent, |batch|, true)
        else
          var rest := FlushFrom(sent, size, if script == [] then [] else script[1..]);
          rest.(total := |batch| + rest.total)
  }

  /** After a batch, the next one starts where it ended. */
  lemma BatchAdvances(events: seq<Event>, afterId: int, limit: int)
    requires Sorted(events)
    ensures var batch := ListAfter(events, afterId, limit);
            batch != [] ==>
              && LastId(batch) > afterId
              && After(events, LastId(batch)) == After(events, afterId)[|batch|..]
              && FirstAfter(events, LastId(batch)) == FirstAfter(events, afterId) + |batch|
              && batch == events[FirstAfter(events, afterId)..FirstAfter(events, LastId(batch))]
  {
    var batch, k := ListAfter(events, afterId, limit), FirstAfter(events, afterId);
    if batch != [] {
      assert LastId(batch) == events[k + |batch| - 1].id;
      AfterRow(events, k + |batch|, LastId(batch));
    }
  }

  class Exporter {
    var world: World

    ghost predicate Valid() reads this { Sorted(world.events) }

    constructor (world: World)
      requires Sorted(world.events)
      ensures Valid() && this.world == world
    {
      this.world := world;
    }

    /** Delivers everything after the checkpoint in batches, stopping at the first failure. */
    method Flush(batchSize: int, script: seq<Delivery>) returns (total: nat, ok: bool)
      requires Valid()
      modifies this
      ensures Valid()
      ensures Flushed(world, total, ok) == FlushFrom(old(world), Size(batchSize), script)
    {
      var size := Size(batchSize);
      var last := world.checkpoint;
      ghost var whole := FlushFrom(world, size, script);
      var i := 0;
      total := 0;
      while true
        invariant Sorted(world.events) && last == world.checkpoint && i <= |script|
        invariant var rest := FlushFrom(world, size, script[i..]); whole == rest.(total := total + rest.total)
        decreases |After(world.events, world.checkpoint)|
      {
        var batch := ListAfter(world.events, last, size);
        if batch == [] {
          return total, true;
        }
        BatchAdvances(world.events, last, size);
        var d := if i < |script| then script[i] else Accepted;
        assert script[i..] != [] ==> script[i..][0] == script[i] && script[i..][1..] == script[i + 1..];
        if d == Refused {
          return total, false;
        }
        world := world.(accepted := world.accepted + batch);
        if d == Lost {
          return total, false;
        }
        last := LastId(batch);
        world := world.(checkpoint := last);
        total := total + |batch|;
        if |batch| < size {
          return total, true;
        }
        i := if i < |script| then i + 1 else i;
      }
    }
  }

  // ---- runs

  datatype Step = Append(e: Event) | Flush(batchSize: int, script: seq<Delivery>)

  function Next(w: World, s: Step): World
    requires Sorted(w.events)
  {
    match s
    case Append(e) => if e.id > Max(0, MaxId(w.events)) then w.(events := w.events + [e]) else w
    case Flush(batchSize, script) => FlushFrom(w, Size(batchSize), script).world
  }

  /** Each event once, where the sink first accepted it. */
  function FirstAcceptances(accepted: seq<Event>): seq<Event> {
    if accepted == [] then []
    else
      var before := FirstAcceptances(accepted[..|accepted| - 1]);
      var e := accepted[|accepted| - 1];
      if e in before then before else before + [e]
  }

  /** The sink first accepted the first `k` events of the log in log order with
      no gap, and its checkpoint is behind or at that point. */
  ghost predicate InOrder(w: World, k: nat) {
    && Sorted(w.events) && PositiveIds(w.events) && w.checkpoint >= 0
    && k <= |w.events|
    && FirstAcceptances(w.accepted) == w.events[..k]
    && FirstAfter(w.events, w.checkpoint) <= k
    && PointsAt(w.events, k, w.checkpoint)
  }

  /** The checkpoint is the id of one of the first k events, or nothing has been exported. */
  ghost predicate PointsAt(events: seq<Event>, k: nat, checkpoint: int)
    requires k <= |events|
  {
    checkpoint == 0 || exists i | 0 <= i < k :: events[i].id == checkpoint
  }

  lemma AcceptOne(accepted: seq<Event>, e: Event)
    ensures FirstAcceptances(accepted + [e]) ==
            if e in FirstAcceptances(accepted) then FirstAcceptances(accepted) else FirstAcceptances(accepted) + [e]
  {
    assert (accepted + [e])[..|accepted|] == accepted;
  }

  lemma InPrefix(events: seq<Event>, i: nat, n: nat)
    requires Sorted(events) && i < |events| && n <= |events|
    ensures events[i] in events[..n] <==> i < n
  {
    if i < n { assert events[..n][i] == events[i]; }
  }

  lemma {:induction false} Redelivery(events: seq<Event>, accepted: seq<Event>, k: nat, from: nat, upto: nat)
    requires Sorted(events) && from <= k <= |events| && from <= upto <= |events|
    requires FirstAcceptances(accepted) == events[..k]
    ensures FirstAcceptances(accepted + events[from..upto]) == events[..Max(k, upto)]
    decreases upto
  {
    if from == upto {
      assert accepted + events[from..upto] == accepted;
    } else {
      Redelivery(events, accepted, k, from, upto - 1);
      var e := events[upto - 1];
      Associates(accepted, events, from, upto);
      AcceptOne(accepted + events[from..upto - 1], e);
      InPrefix(events, upto - 1, Max(k, upto - 1));
      PrefixNext(events, upto);
    }
  }

  lemma PrefixNext(events: seq<Event>, n: nat)
    requires 0 < n <= |events|
    ensures events[..n] == events[..n - 1] + [events[n - 1]]
  {
  }

  lemma Associates(accepted: seq<Event>, events: seq<Event>, from: nat, upto: nat)
    requires from < upto <= |events|
    ensures accepted + events[from..upto] == accepted + events[from..upto - 1] + [events[upto - 1]]
  {
  }

  lemma BatchKeepsOrder(w: World, k: nat, limit: int)
    requires InOrder(w, k) && ListAfter(w.events, w.checkpoint, limit) != []
    ensures var batch := ListAfter(w.events, w.checkpoint, limit);
            var k' := Max(k, FirstAfter(w.events, LastId(batch)));
            && InOrder(w.(accepted := w.accepted + batch), k')
            && InOrder(World(w.events, LastId(batch), w.accepted + batch), k')
  {
    var batch := ListAfter(w.events, w.checkpoint, limit);
    BatchAdvances(w.events, w.checkpoint, limit);
    var from, upto := FirstAfter(w.events, w.checkpoint), FirstAfter(w.events, LastId(batch));
    Redelivery(w.events, w.accepted, k, from, upto);
    assert w.events[upto - 1].id == LastId(batch);
  }

  lemma {:induction false} FlushKeepsOrder(w: World, size: int, script: seq<Delivery>, k: nat) returns (k': nat)
    requires InOrder(w, k)
    ensures var after := FlushFrom(w, size, script).world;
            k <= k' && InOrder(after, k') && after.checkpoint >= w.checkpoint && after.events == w.events
    decreases |After(w.events, w.checkpoint)|
  {
    k' := k;
    var batch := ListAfter(w.events, w.checkpoint, size);
    if batch != [] && (script == [] || script[0] != Refused) {
      BatchKeepsOrder(w, k, size);
      BatchAdvances(w.events, w.checkpoint, size);
      k' := Max(k, FirstAfter(w.events, LastId(batch)));
      if (script == [] || script[0] == Accepted) && |batch| >= size {
        var sent := World(w.events, LastId(batch), w.accepted + batch);
        k' := FlushKeepsOrder(sent, size, if script == [] then [] else script[1..], k');
      }
    }
  }

  lemma FirstAfterAppend(events: seq<Event>, e: Event, id: int)
    requires Sorted(events) && e.id > id && (forall i | 0 <= i < |events| :: events[i].id < e.id)
    ensures Sorted(events + [e]) && FirstAfter(events + [e], id) == FirstAfter(events, id)
  {
    var f := FirstAfter(events, id);
    forall i | f <= i < |events| + 1
      ensures (events + [e])[i].id > id
    {
      if i < |events| { assert events[i].id >= events[f].id; }
    }
    AfterRow(events + [e], f, id);
  }

  lemma AppendKeepsOrder(w: World, e: Event, k: nat)
    requires InOrder(w, k)
    ensures InOrder(Next(w, Append(e)), k)
  {
    if e.id > Max(0, MaxId(w.events)) {
      AppendedInOrder(w, w.(events := w.events + [e]), e, k);
    }
  }

  lemma AppendedInOrder(w: World, next: World, e: Event, k: nat)
    requires InOrder(w, k) && e.id > Max(0, MaxId(w.events)) && next == w.(events := w.events + [e])
    ensures InOrder(next, k)
  {
    NewestYet(w.events, e, k, w.checkpoint);
    FirstAfterAppend(w.events, e, w.checkpoint);
    AppendSorted(w.events, e);
    AppendPoints(w.events, e, k, w.checkpoint);
    SamePrefix(w.events, e, k);
  }

  lemma SamePrefix(events: seq<Event>, e: Event, k: nat)
    requires k <= |events|
    ensures (events + [e])[..k] == events[..k]
  {
  }

  lemma NewestYet(events: seq<Event>, e: Event, k: nat, checkpoint: int)
    requires Sorted(events) && k <= |events| && PointsAt(events, k, checkpoint) && e.id > Max(0, MaxId(events))
    ensures e.id > checkpoint && forall i | 0 <= i < |events| :: events[i].id < e.id
  {
  }

  lemma AppendPoints(events: seq<Event>, e: Event, k: nat, checkpoint: int)
    requires k <= |events| && PointsAt(events, k, checkpoint)
    ensures PointsAt(events + [e], k, checkpoint)
  {
    if checkpoint != 0 {
      var i :| 0 <= i < k && events[i].id == checkpoint;
      assert (events + [e])[i].id == checkpoint;
    }
  }

  lemma AppendSorted(events: seq<Event>, e: Event)
    requires Sorted(events) && PositiveIds(events) && e.id > Max(0, MaxId(events))
    ensures Sorted(events + [e]) && PositiveIds(events + [e])
  {
  }

  function Run(w: World, steps: seq<Step>): (r: World)
    requires Sorted(w.events)
    ensures Sorted(r.events)
  {
    if steps == [] then w
    else
      var before := Run(w, steps[..|steps| - 1]);
      var after := Next(before, steps[|steps| - 1]);
      FlushKeepsLog(before, steps[|steps| - 1]);
      after
  }

  lemma FlushKeepsLog(w: World, s: Step)
    requires Sorted(w.events)
    ensures Sorted(Next(w, s).events)
  {
    if s.Flush? { FlushKeepsEvents(w, Size(s.batchSize), s.script); }
  }

  lemma {:induction false} FlushKeepsEvents(w: World, size: int, script: seq<Delivery>)
    requires Sorted(w.events)
    ensures FlushFrom(w, size, script).world.events == w.events
    decreases |After(w.events, w.checkpoint)|
  {
    var batch := ListAfter(w.events, w.checkpoint, size);
    if batch != [] && (script == [] || script[0] == Accepted) && |batch| >= size {
      BatchAdvances(w.events, w.checkpoint, size);
      FlushKeepsEvents(World(w.events, LastId(batch), w.accepted + batch), size, if script == [] then [] else script[1..]);
    }
  }

  const START := World([], 0, [])

  lemma {:induction false} RunInOrder(steps: seq<Step>) returns (k: nat)
    ensures InOrder(Run(START, steps), k)
  {
    if steps == [] {
      k := 0;
    } else {
      var before, s := Run(START, steps[..|steps| - 1]), steps[|steps| - 1];
      k := RunInOrder(steps[..|steps| - 1]);
      match s
      case Append(e) => AppendKeepsOrder(before, e, k);
      case Flush(batchSize, script) => k := FlushKeepsOrder(before, Size(batchSize), script, k);
    }
  }

  lemma {:induction false} FirstAcceptancesAccepted(accepted: seq<Event>)
    ensures forall e | e in FirstAcceptances(accepted) :: e in accepted
  {
    if accepted != [] { FirstAcceptancesAccepted(accepted[..|accepted| - 1]); }
  }

  /** At least once and in order: whatever fails or crashes, first acceptances
      come in id order with no gap, and the sink has accepted every event up to
      its checkpoint. */
  lemma ExportAtLeastOnceInOrder(steps: seq<Step>)
    ensures var w := Run(START, steps);
            && FirstAcceptances(w.accepted) <= w.events
            && (forall e | e in w.events && e.id <= w.checkpoint :: e in w.accepted)
  {
    var w := Run(START, steps);
    var k := RunInOrder(steps);
    FirstAcceptancesAccepted(w.accepted);
    forall e | e in w.events && e.id <= w.checkpoint ensures e in w.accepted { BeforeCheckpoint(w.events, w.checkpoint, k, e); }
  }

  lemma BeforeCheckpoint(events: seq<Event>, checkpoint: int, k: nat, e: Event)
    requires Sorted(events) && FirstAfter(events, checkpoint) <= k <= |events| && e in events && e.id <= checkpoint
    ensures e in events[..k]
  {
    var i :| 0 <= i < |events| && events[i] == e;
    assert i < FirstAfter(events, checkpoint);
    assert events[..k][i] == e;
  }

  /** The checkpoint never moves back. */
  lemma CheckpointMonotone(steps: seq<Step>, s: Step)
    ensures Run(START, steps + [s]).checkpoint >= Run(START, steps).checkpoint
  {
    var k := RunInOrder(steps);
    assert (steps + [s])[..|steps|] == steps;
    if s.Flush? {
      var k' := FlushKeepsOrder(Run(START, steps), Size(s.batchSize), s.script, k);
    }
  }

  /** A flush nothing disturbs reports success, and ends at the newest event
      exactly when its batch size is at most 500 or no more than 500 events were
      waiting: above 500 the cap in ListAfter ends it after one batch. */
  lemma {:induction false} UndisturbedFlush(w: World, batchSize: int)
    requires Sorted(w.events) && 0 <= w.checkpoint <= MaxId(w.events)
    ensures var f := FlushFrom(w, Size(batchSize), []);
            f.ok && (f.world.checkpoint == MaxId(w.events) <==> batchSize <= 500 || |After(w.events, w.checkpoint)| <= 500)
    decreases |After(w.events, w.checkpoint)|
  {
    var size := Size(batchSize);
    var rest := After(w.events, w.checkpoint);
    var batch := ListAfter(w.events, w.checkpoint, size);
    if batch != [] {
      BatchAdvances(w.events, w.checkpoint, size);
      assert LastId(rest) == MaxId(w.events);
      if |batch| >= size {
        UndisturbedFlush(World(w.events, LastId(batch), w.accepted + batch), batchSize);
      } else if |batch| < |rest| {
        assert rest[|batch| - 1].id < rest[|rest| - 1].id;
      }
    } else if w.events != [] {
      assert w.events[|w.events| - 1].id <= w.checkpoint;
    }
  }

  // ---- what a flush delivers

  /** What happens to the batch with this number. */
  function DeliveryOf(script: seq<Delivery>, i: nat): Delivery { if i < |script| then script[i] else Accepted }

  /** The most events in a batch. */
  function BatchCap(size: int): nat
    requires size >= 1
  {
    if size > 500 then 500 else size
  }

  /** The events of the first m batches of a number that waits. */
  function Span(m: nat, cap: nat): nat { if m == 0 then 0 else cap + Span(m - 1, cap) }

  /** The first m batches go through. */
  ghost predicate GoThrough(script: seq<Delivery>, m: nat) { forall i: nat | i < m :: DeliveryOf(script, i) == Accepted }

  /** How far a flush came, and whether it failed, when m batches went through and n events waited. */
  predicate Ends(n: nat, size: int, f: Flushed, m: nat, next: Delivery)
    requires size >= 1
  {
    && f.total == Min(n, Span(m, BatchCap(size)))
    && (f.ok ==> f.total == n || (size > 500 && m == 1))
    && (!f.ok ==> next != Accepted && f.total < n && (size > 500 ==> m == 0))
  }

  /** What the sink has and where the checkpoint stands. */
  predicate Stands(w: World, waiting: seq<Event>, cap: nat, f: Flushed, next: Delivery) {
    && f.total <= |waiting| && f.world.events == w.events
    && f.world.checkpoint == (if f.total == 0 then w.checkpoint else waiting[f.total - 1].id)
    && f.world.accepted == w.accepted + waiting[..f.total] + Unsaved(waiting, cap, f, next)
  }

  /** What a flush has done when `m` batches of the events that waited went through. */
  ghost predicate Delivers(w: World, waiting: seq<Event>, size: int, script: seq<Delivery>, f: Flushed, m: nat)
    requires size >= 1
  {
    && GoThrough(script, m) && Ends(|waiting|, size, f, m, DeliveryOf(script, m))
    && Stands(w, waiting, BatchCap(size), f, DeliveryOf(script, m))
  }

  /** The batch a failed flush delivered without saving its checkpoint. */
  function Unsaved(waiting: seq<Event>, cap: nat, f: Flushed, d: Delivery): seq<Event>
    requires f.total <= |waiting|
  {
    if !f.ok && d == Lost then waiting[f.total..Min(f.total + cap, |waiting|)] else []
  }

  lemma {:induction false} FirstBatch(events: seq<Event>, checkpoint: int, size: int)
    requires size >= 1
    ensures var waiting := After(events, checkpoint);
            var batch := ListAfter(events, checkpoint, size);
            batch == waiting[..Min(BatchCap(size), |waiting|)]
  {
  }

  lemma Regroup(a: seq<Event>, b: seq<Event>, c: seq<Event>, d: seq<Event>)
    ensures a + b + c + d == a + (b + c) + d
  {
    assert a + b + c == a + (b + c);
  }

  lemma {:induction false} StandsMore(w: World, sent: World, waiting: seq<Event>, size: nat, rest: Flushed, next: Delivery)
    requires 1 <= size <= |waiting| && sent == World(w.events, waiting[size - 1].id, w.accepted + waiting[..size])
    requires Stands(sent, waiting[size..], size, rest, next)
    ensures Stands(w, waiting, size, rest.(total := size + rest.total), next)
  {
    var tail, f := waiting[size..], rest.(total := size + rest.total);
    assert waiting[..f.total] == waiting[..size] + tail[..rest.total];
    assert Unsaved(waiting, size, f, next) == Unsaved(tail, size, rest, next);
    Regroup(w.accepted, waiting[..size], tail[..rest.total], Unsaved(tail, size, rest, next));
  }

  lemma {:induction false} Later(script: seq<Delivery>, m: nat)
    requires DeliveryOf(script, 0) == Accepted && GoThrough(if script == [] then [] else script[1..], m)
    ensures GoThrough(script, m + 1) && DeliveryOf(script, m + 1) == DeliveryOf(if script == [] then [] else script[1..], m)
  {
    var later := if script == [] then [] else script[1..];
    forall i: nat | i < m + 1 ensures DeliveryOf(script, i) == Accepted {
      if i > 0 { assert DeliveryOf(later, i - 1) == Accepted; }
    }
  }

  /** One batch gone through, then the rest. */
  lemma {:induction false} DeliversMore(w: World, sent: World, waiting: seq<Event>, size: int, script: seq<Delivery>, rest: Flushed, f: Flushed, m: nat)
    requires size >= 1 && size <= 500 && |waiting| >= size
    requires sent == World(w.events, waiting[size - 1].id, w.accepted + waiting[..size]) && DeliveryOf(script, 0) == Accepted
    requires Delivers(sent, waiting[size..], size, if script == [] then [] else script[1..], rest, m)
    requires f == rest.(total := size + rest.total)
    ensures Delivers(w, waiting, size, script, f, m + 1)
  {
    Later(script, m);
    StandsMore(w, sent, waiting, size, rest, DeliveryOf(script, m + 1));
  }

  /** A flush sends what waits in order, in batches. It fails exactly when a
      batch it comes to is refused or lost; its total is the number of events it
      moved the checkpoint over; and only a lost batch reaches the sink beyond
      that. Without a failure it ends when nothing waits, or after one batch
      when its size is above 500. */
  lemma {:induction false} FlushDelivers(w: World, waiting: seq<Event>, size: int, script: seq<Delivery>, f: Flushed)
    requires Sorted(w.events) && size >= 1 && waiting == After(w.events, w.checkpoint) && FlushFrom(w, size, script) == f
    ensures exists m: nat :: Delivers(w, waiting, size, script, f, m)
    decreases |waiting|
  {
    if waiting == [] || DeliveryOf(script, 0) != Accepted {
      NoBatch(w, waiting, size, script);
    } else if |waiting| < size || size > 500 {
      ShortBatch(w, waiting, size, script);
    } else {
      var sent := World(w.events, waiting[size - 1].id, w.accepted + waiting[..size]);
      var later := if script == [] then [] else script[1..];
      FullBatch(w, waiting, size, script, sent, later);
      var rest := FlushFrom(sent, size, later);
      FlushDelivers(sent, waiting[size..], size, later, rest);
      var m: nat :| Delivers(sent, waiting[size..], size, later, rest, m);
      DeliversMore(w, sent, waiting, size, script, rest, f, m);
    }
  }

  lemma {:induction false} ShortBatch(w: World, waiting: seq<Event>, size: int, script: seq<Delivery>)
    requires Sorted(w.events) && size >= 1 && waiting == After(w.events, w.checkpoint) && waiting != []
    requires DeliveryOf(script, 0) == Accepted && (|waiting| < size || size > 500)
    ensures Delivers(w, waiting, size, script, FlushFrom(w, size, script), 1)
  {
    FirstBatch(w.events, w.checkpoint, size);
    var batch := ListAfter(w.events, w.checkpoint, size);
    FlushStep(w, size, script, World(w.events, LastId(batch), w.accepted + batch), if script == [] then [] else script[1..]);
    OneBatch(w, waiting, batch, size, script);
  }

  lemma {:induction false} FullBatch(w: World, waiting: seq<Event>, size: int, script: seq<Delivery>, sent: World, later: seq<Delivery>)
    requires Sorted(w.events) && 1 <= size <= 500 && waiting == After(w.events, w.checkpoint) && |waiting| >= size
    requires DeliveryOf(script, 0) == Accepted && later == (if script == [] then [] else script[1..])
    requires sent == World(w.events, waiting[size - 1].id, w.accepted + waiting[..size])
    ensures After(sent.events, sent.checkpoint) == waiting[size..]
    ensures FlushFrom(w, size, script) == FlushFrom(sent, size, later).(total := size + FlushFrom(sent, size, later).total)
  {
    FirstBatch(w.events, w.checkpoint, size);
    BatchAdvances(w.events, w.checkpoint, size);
    FlushStep(w, size, script, sent, later);
  }

  lemma {:induction false} FlushStep(w: World, size: int, script: seq<Delivery>, sent: World, later: seq<Delivery>)
    requires Sorted(w.events) && ListAfter(w.events, w.checkpoint, size) != [] && DeliveryOf(script, 0) == Accepted
    requires var batch := ListAfter(w.events, w.checkpoint, size); sent == World(w.events, LastId(batch), w.accepted + batch)
    requires later == if script == [] then [] else script[1..]
    ensures var batch := ListAfter(w.events, w.checkpoint, size);
            FlushFrom(w, size, script) ==
            if |batch| < size then Flushed(sent, |batch|, true)
            else var rest := FlushFrom(sent, size, later); rest.(total := |batch| + rest.total)
  {
    BatchAdvances(w.events, w.checkpoint, size);
  }

  lemma {:induction false} OneBatch(w: World, waiting: seq<Event>, batch: seq<Event>, size: int, script: seq<Delivery>)
    requires size >= 1 && waiting != [] && batch == waiting[..Min(BatchCap(size), |waiting|)] && |batch| < size
    requires DeliveryOf(script, 0) == Accepted
    ensures Delivers(w, waiting, size, script, Flushed(World(w.events, LastId(batch), w.accepted + batch), |batch|, true), 1)
  {
  }

  lemma {:induction false} NoBatch(w: World, waiting: seq<Event>, size: int, script: seq<Delivery>)
    requires size >= 1 && Sorted(w.events) && waiting == After(w.events, w.checkpoint)
    requires waiting == [] || DeliveryOf(script, 0) != Accepted
    ensures Delivers(w, waiting, size, script, FlushFrom(w, size, script), 0)
  {
    FirstBatch(w.events, w.checkpoint, size);
    assert waiting[..0] == [] && w.accepted + [] == w.accepted;
  }
}
