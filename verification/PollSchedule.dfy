/** When each autoscaling group polls next: on its interval after a success,
    twice as long after each failure in a row up to a limit, and never while a
    poll of it is running. Times are nanoseconds from the zero time. */
module PollSchedule {
  import opened Basics

  const MAX_BACKOFF: int := 600_000_000_000

  datatype Entry = Entry(next: int, failures: nat, running: bool)

  type Groups = map<string, Entry>

  const NEW_ENTRY := Entry(0, 0, false)

  function EntryOf(groups: Groups, id: string): Entry { if id in groups then groups[id] else NEW_ENTRY }

  function Pow2(n: nat): nat { if n == 0 then 1 else 2 * Pow2(n - 1) }

  function Limit(interval: int): int { Max(MAX_BACKOFF, interval) }

  /** How long a group waits after `failures` failures in a row. */
  function Wait(interval: int, failures: nat): int {
    if failures == 0 then interval else Min(interval * Pow2(failures), Limit(interval))
  }

  lemma {:induction false} MorePowers(i: nat, n: nat)
    requires i <= n
    ensures 1 <= Pow2(i) <= Pow2(n)
    decreases n
  {
    if i < n { MorePowers(i, n - 1); } else if i > 0 { MorePowers(i - 1, i - 1); }
  }

  lemma Product(x: int, a: nat, b: nat)
    requires a <= b && 0 <= x
    ensures x * a <= x * b
  {
    assert x * b - x * a == x * (b - a);
  }

  /** Waits never shrink until a success. */
  lemma WaitsGrow(interval: int, i: nat, n: nat)
    requires i <= n && 0 <= interval
    ensures Wait(interval, i) <= Wait(interval, n)
  {
    MorePowers(i, n);
    MorePowers(0, i);
    Product(interval, Pow2(i), Pow2(n));
    Product(interval, 1, Pow2(i));
  }

  /** The doubling loop: it stops as soon as the wait has reached the limit, so
      it never gets beyond twice the limit, and what it leaves is the closed form. */
  method Doubled(interval: int, failures: nat) returns (wait: int)
    requires failures > 0
    ensures Min(wait, Limit(interval)) == Wait(interval, failures)
    ensures wait <= 2 * Limit(interval)
  {
    var limit := Limit(interval);
    wait := interval;
    var i := 0;
    while i < failures && wait < limit
      invariant 0 <= i <= failures && wait == interval * Pow2(i) && wait <= 2 * limit
    {
      assert interval * Pow2(i + 1) == 2 * (interval * Pow2(i));
      wait := wait * 2;
      i := i + 1;
    }
    if i < failures {
      MorePowers(i, failures);
      if interval >= 0 { Product(interval, Pow2(i), Pow2(failures)); } else { Product(-interval, 1, Pow2(i)); }
    }
  }

  // ---- the two operations

  predicate Due(groups: Groups, id: string, now: int) {
    var e := EntryOf(groups, id);
    !e.running && e.next <= now
  }

  function Started(groups: Groups, id: string, now: int): Groups {
    groups[id := if Due(groups, id, now) then EntryOf(groups, id).(running := true) else EntryOf(groups, id)]
  }

  function Finished(groups: Groups, id: string, interval: int, failed: bool, now: int): Groups {
    var failures := if failed then EntryOf(groups, id).failures + 1 else 0;
    groups[id := Entry(now + Wait(interval, failures), failures, false)]
  }

  class Schedule {
    var groups: Groups
    /** The map is made by the first Start. */
    var made: bool

    constructor ()
      ensures !made && groups == map[]
    {
      made, groups := false, map[];
    }

    /** Reports whether the group is due, and if so marks it running. */
    method Start(id: string, now: int) returns (ok: bool)
      modifies this
      ensures made && ok == Due(old(groups), id, now) && groups == Started(old(groups), id, now)
    {
      made := true;
      if id !in groups {
        groups := groups[id := NEW_ENTRY];
      }
      var g := groups[id];
      if g.running || now < g.next {
        return false;
      }
      groups := groups[id := g.(running := true)];
      return true;
    }

    /** Records the end of a poll and sets the next one; needs the map a Start has made. */
    method Done(id: string, interval: int, failed: bool, now: int)
      requires made
      modifies this
      ensures made && groups == Finished(old(groups), id, interval, failed, now)
    {
      if id !in groups {
        groups := groups[id := NEW_ENTRY];
      }
      var g := groups[id].(running := false);
      if !failed {
        groups := groups[id := g.(failures := 0, next := now + interval)];
        return;
      }
      g := g.(failures := g.failures + 1);
      var wait := Doubled(interval, g.failures);
      groups := groups[id := g.(next := now + Min(wait, Limit(interval)))];
    }
  }

  // ---- runs

  datatype Step = Start(id: string, at: int) | Done(id: string, interval: int, failed: bool, at: int)

  function Next(groups: Groups, step: Step): Groups {
    match step
    case Start(id, now) => Started(groups, id, now)
    case Done(id, interval, failed, now) => Finished(groups, id, interval, failed, now)
  }

  function Run(steps: seq<Step>): Groups {
    if steps == [] then map[] else Next(Run(steps[..|steps| - 1]), steps[|steps| - 1])
  }

  /** How many polls of the group a run has started and not ended. */
  function Polls(steps: seq<Step>, id: string): int {
    if steps == [] then 0
    else
      var before := Polls(steps[..|steps| - 1], id);
      var step := steps[|steps| - 1];
      if step.id != id then before
      else if step.Done? then before - 1
      else if Due(Run(steps[..|steps| - 1]), id, step.at) then before + 1
      else before
  }

  /** Only a poll that is running ends: every Done comes from a poll that a Start let through. */
  ghost predicate Paired(steps: seq<Step>) {
    forall i: nat | i < |steps| && steps[i].Done? :: Polls(steps[..i], steps[i].id) > 0
  }

  lemma PairedBefore(steps: seq<Step>)
    requires Paired(steps) && steps != []
    ensures Paired(steps[..|steps| - 1])
  {
    var before := steps[..|steps| - 1];
    forall i: nat | i < |before| && before[i].Done? ensures Polls(before[..i], before[i].id) > 0 {
      assert before[..i] == steps[..i] && steps[i].Done?;
    }
  }

  /** A group never has two polls running at once. */
  lemma {:induction false} OnePollAtATime(steps: seq<Step>, id: string)
    requires Paired(steps)
    ensures 0 <= Polls(steps, id) <= 1
    ensures EntryOf(Run(steps), id).running <==> Polls(steps, id) == 1
  {
    if steps != [] {
      PairedBefore(steps);
      OnePollAtATime(steps[..|steps| - 1], id);
      var last := |steps| - 1;
      assert steps[last].Done? ==> Polls(steps[..last], steps[last].id) > 0;
    }
  }

  /** The failed polls of the group since its last success. */
  function InARow(steps: seq<Step>, id: string): nat {
    if steps == [] then 0
    else
      var step := steps[|steps| - 1];
      if step.id != id || step.Start? then InARow(steps[..|steps| - 1], id)
      else if step.failed then InARow(steps[..|steps| - 1], id) + 1
      else 0
  }

  /** When the group's last poll ended and its interval then, if one has. */
  function LastDone(steps: seq<Step>, id: string): Option<Step> {
    if steps == [] then None
    else
      var step := steps[|steps| - 1];
      if step.id == id && step.Done? then Some(step) else LastDone(steps[..|steps| - 1], id)
  }

  lemma {:induction false} Remembers(steps: seq<Step>, id: string)
    ensures EntryOf(Run(steps), id).failures == InARow(steps, id)
    ensures var last := LastDone(steps, id);
            (last.Some? ==> last.value.Done?) &&
            EntryOf(Run(steps), id).next ==
            if last.None? then 0 else last.value.at + Wait(last.value.interval, InARow(steps, id))
  {
    if steps != [] { Remembers(steps[..|steps| - 1], id); }
  }

  /** Over any run, a Start is let through exactly when no poll of the group is
      running and the wait after its last poll is over: the interval after a
      success, min(interval * 2^f, max(10 minutes, interval)) after the f-th
      failure in a row. */
  lemma StartsWhenDue(steps: seq<Step>, id: string, now: nat)
    requires Paired(steps)
    ensures Due(Run(steps), id, now) <==>
            && Polls(steps, id) == 0
            && var last := LastDone(steps, id);
               (last.Some? ==>
                  && last.value.Done?
                  && var f := InARow(steps, id);
                     var interval := last.value.interval;
                     now >= last.value.at + if f == 0 then interval else Min(interval * Pow2(f), Max(600_000_000_000, interval)))
  {
    OnePollAtATime(steps, id);
    Remembers(steps, id);
  }

  lemma {:induction false} FailuresAddUp(steps: seq<Step>, more: seq<Step>, id: string)
    requires forall i: nat | i < |more| && more[i].id == id && more[i].Done? :: more[i].failed
    ensures InARow(steps, id) <= InARow(steps + more, id)
  {
    if more == [] {
      assert steps + more == steps;
    } else {
      var before := more[..|more| - 1];
      FailuresAddUp(steps, before, id);
      assert (steps + more)[..|steps| + |before|] == steps + before;
    }
  }

  /** Until a success, and while its interval stays the same, a group never waits less than it did before. */
  lemma BackoffNeverShrinks(steps: seq<Step>, more: seq<Step>, id: string)
    requires forall i: nat | i < |more| && more[i].id == id && more[i].Done? :: more[i].failed
    ensures var first, last := LastDone(steps, id), LastDone(steps + more, id);
            first.Some? && last.Some? ==>
              && first.value.Done? && last.value.Done?
              && (first.value.interval == last.value.interval >= 0 ==>
                    EntryOf(Run(steps + more), id).next - last.value.at >= EntryOf(Run(steps), id).next - first.value.at)
  {
    Remembers(steps, id);
    Remembers(steps + more, id);
    FailuresAddUp(steps, more, id);
    var first, last := LastDone(steps, id), LastDone(steps + more, id);
    if first.Some? && last.Some? && first.value.interval == last.value.interval >= 0 {
      WaitsGrow(first.value.interval, InARow(steps, id), InARow(steps + more, id));
    }
  }
}
