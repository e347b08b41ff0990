/** The sign-in rate limiter: a token bucket per key that forgets refilled
    buckets and holds at most maxKeys of them. Times are in seconds. */
module RateLimit {

  datatype Bucket = Bucket(tokens: real, last: real, refusing: bool)

  datatype Config = Config(rate: real, burst: real, maxKeys: nat)

  datatype State = State(buckets: map<string, Bucket>, lastGC: real, lastSweep: real)

  datatype Answer = Answer(ok: bool, firstRefusal: bool)

  datatype Call = Call(key: string, now: real)

  const GC_INTERVAL := 600.0
  const SWEEP_INTERVAL := 1.0

  /** The zero time the last forced sweep starts at. */
  const ZERO_TIME := 0.0

  function Start(now: real): State { State(map[], now, ZERO_TIME) }

  /** The tokens that flow in between two times. */
  function Earned(cfg: Config, from: real, until: real): real { (until - from) * cfg.rate }

  function Grown(cfg: Config, b: Bucket, now: real): real { b.tokens + Earned(cfg, b.last, now) }

  predicate Refilled(cfg: Config, b: Bucket, now: real) { Grown(cfg, b, now) >= cfg.burst }

  /** What a sweep keeps. */
  function Swept(cfg: Config, buckets: map<string, Bucket>, now: real): (r: map<string, Bucket>)
    ensures r.Keys <= buckets.Keys
    ensures forall k | k in buckets :: k in r <==> !Refilled(cfg, buckets[k], now)
    ensures forall k | k in r :: r[k] == buckets[k]
  {
    map k | k in buckets && !Refilled(cfg, buckets[k], now) :: buckets[k]
  }

  function Capped(cfg: Config, tokens: real): real { if tokens > cfg.burst then cfg.burst else tokens }

  /** One attempt on one bucket: refill, then take a token or refuse. */
  function Draw(cfg: Config, b: Bucket, now: real): (Bucket, Answer) {
    var tokens := Capped(cfg, Grown(cfg, b, now));
    if tokens < 1.0 then (Bucket(tokens, now, true), Answer(false, !b.refusing))
    else (Bucket(tokens - 1.0, now, false), Answer(true, false))
  }

  function Fresh(cfg: Config, now: real): Bucket { Bucket(cfg.burst, now, false) }

  function Collected(cfg: Config, s: State, now: real): State {
    if now - s.lastGC > GC_INTERVAL then s.(buckets := Swept(cfg, s.buckets, now), lastGC := now) else s
  }

  predicate Full(cfg: Config, s: State) { |s.buckets| >= cfg.maxKeys }

  /** The sweep a full map forces for a new key, at most once a second. */
  function MadeRoom(cfg: Config, s: State, key: string, now: real): State {
    if key !in s.buckets && Full(cfg, s) && now - s.lastSweep >= SWEEP_INTERVAL
    then s.(buckets := Swept(cfg, s.buckets, now), lastSweep := now) else s
  }

  function Take(cfg: Config, s0: State, key: string, now: real): (State, Answer) {
    var s := MadeRoom(cfg, Collected(cfg, s0, now), key, now);
    if key !in s.buckets && Full(cfg, s) then (s, Answer(false, false))
    else
      var (b, a) := Draw(cfg, if key in s.buckets then s.buckets[key] else Fresh(cfg, now), now);
      (s.(buckets := s.buckets[key := b]), a)
  }

  // ---- runs

  ghost predicate Sane(cfg: Config) { cfg.rate >= 0.0 && cfg.burst >= 0.0 }

  /** The calls come at nondecreasing times, none before `from`. */
  ghost predicate Clocked(calls: seq<Call>, from: real) {
    calls == [] || (calls[0].now >= from && Clocked(calls[1..], calls[0].now))
  }

  function Answers(cfg: Config, s: State, calls: seq<Call>): seq<Answer>
    decreases |calls|
  {
    if calls == [] then []
    else
      var (s', a) := Take(cfg, s, calls[0].key, calls[0].now);
      [a] + Answers(cfg, s', calls[1..])
  }

  function AfterCalls(cfg: Config, s: State, calls: seq<Call>): State
    decreases |calls|
  {
    if calls == [] then s else AfterCalls(cfg, Take(cfg, s, calls[0].key, calls[0].now).0, calls[1..])
  }

  /** The limiter that never forgets a bucket and has no cap. */
  function Remember(cfg: Config, all: map<string, Bucket>, key: string, now: real): (map<string, Bucket>, Answer) {
    var (b, a) := Draw(cfg, if key in all then all[key] else Fresh(cfg, now), now);
    (all[key := b], a)
  }

  function RememberedAnswers(cfg: Config, all: map<string, Bucket>, calls: seq<Call>): seq<Answer>
    decreases |calls|
  {
    if calls == [] then []
    else
      var (all', a) := Remember(cfg, all, calls[0].key, calls[0].now);
      [a] + RememberedAnswers(cfg, all', calls[1..])
  }

  /** No call of a new key finds the map full. */
  ghost predicate NeverFull(cfg: Config, s: State, calls: seq<Call>)
    decreases |calls|
  {
    calls == [] ||
    (var c := calls[0];
     var s0 := Collected(cfg, s, c.now);
     (c.key in s0.buckets || !Full(cfg, s0)) && NeverFull(cfg, Take(cfg, s, c.key, c.now).0, calls[1..]))
  }

  // ---- forgetting changes nothing

  /** The map is what a limiter that never forgets would hold, less buckets that have refilled. */
  ghost predicate Forgets(cfg: Config, buckets: map<string, Bucket>, all: map<string, Bucket>, t: real) {
    && (forall k | k in buckets :: k in all && all[k] == buckets[k])
    && (forall k | k in all && k !in buckets :: Refilled(cfg, all[k], t))
  }

  lemma EarnedNonNegative(cfg: Config, t: real, u: real)
    requires cfg.rate >= 0.0 && t <= u
    ensures Earned(cfg, t, u) >= 0.0
  {
  }

  lemma EarnedSplit(cfg: Config, t: real, u: real, v: real)
    ensures Earned(cfg, t, v) == Earned(cfg, t, u) + Earned(cfg, u, v)
  {
  }

  lemma GrowsWithTime(cfg: Config, b: Bucket, t: real, u: real)
    requires cfg.rate >= 0.0 && t <= u
    ensures Grown(cfg, b, u) == Grown(cfg, b, t) + Earned(cfg, t, u)
    ensures Grown(cfg, b, t) <= Grown(cfg, b, u)
  {
    EarnedSplit(cfg, b.last, t, u);
    EarnedNonNegative(cfg, t, u);
  }

  lemma ForgetsLater(cfg: Config, buckets: map<string, Bucket>, all: map<string, Bucket>, t: real, u: real)
    requires cfg.rate >= 0.0 && t <= u && Forgets(cfg, buckets, all, t)
    ensures Forgets(cfg, buckets, all, u)
  {
    forall k | k in all && k !in buckets
      ensures Refilled(cfg, all[k], u)
    {
      GrowsWithTime(cfg, all[k], t, u);
    }
  }

  lemma FreshIsFull(cfg: Config, now: real)
    ensures Grown(cfg, Fresh(cfg, now), now) == cfg.burst
  {
    assert Earned(cfg, now, now) == 0.0 * cfg.rate == 0.0;
  }

  /** A refilled bucket answers as a new one does, and becomes the same bucket. */
  lemma RefilledDrawsAsFresh(cfg: Config, b: Bucket, now: real)
    requires cfg.burst >= 1.0 && Refilled(cfg, b, now)
    ensures Draw(cfg, b, now) == Draw(cfg, Fresh(cfg, now), now)
  {
    FreshIsFull(cfg, now);
  }

  lemma TakeRefines(cfg: Config, s: State, all: map<string, Bucket>, c: Call, t: real)
    requires cfg.rate >= 0.0 && cfg.burst >= 1.0 && t <= c.now
    requires Forgets(cfg, s.buckets, all, t)
    requires var s0 := Collected(cfg, s, c.now); c.key in s0.buckets || !Full(cfg, s0)
    ensures var (s', a) := Take(cfg, s, c.key, c.now);
            var (all', a') := Remember(cfg, all, c.key, c.now);
            a == a' && Forgets(cfg, s'.buckets, all', c.now)
  {
    ForgetsLater(cfg, s.buckets, all, t, c.now);
    var s0 := Collected(cfg, s, c.now);
    assert Forgets(cfg, s0.buckets, all, c.now);
    if c.key in all && c.key !in s0.buckets {
      RefilledDrawsAsFresh(cfg, all[c.key], c.now);
    }
  }

  lemma {:induction false} RunRefines(cfg: Config, s: State, all: map<string, Bucket>, calls: seq<Call>, t: real)
    requires cfg.rate >= 0.0 && cfg.burst >= 1.0
    requires Clocked(calls, t) && NeverFull(cfg, s, calls) && Forgets(cfg, s.buckets, all, t)
    ensures Answers(cfg, s, calls) == RememberedAnswers(cfg, all, calls)
    decreases |calls|
  {
    if calls != [] {
      var c := calls[0];
      TakeRefines(cfg, s, all, c, t);
      RunRefines(cfg, Take(cfg, s, c.key, c.now).0, Remember(cfg, all, c.key, c.now).0, calls[1..], c.now);
    }
  }

  ghost predicate ForgettingInvisible(cfg: Config, now: real) {
    forall calls: seq<Call> :: Clocked(calls, now) && NeverFull(cfg, Start(now), calls) ==>
      Answers(cfg, Start(now), calls) == RememberedAnswers(cfg, map[], calls)
  }

  /** Forgetting refilled buckets changes no answer of any run, exactly when the burst is at least 1. */
  lemma ForgettingChangesNothing(cfg: Config, now: real)
    requires Sane(cfg) && cfg.maxKeys >= 1
    ensures ForgettingInvisible(cfg, now) <==> cfg.burst >= 1.0
  {
    if cfg.burst >= 1.0 {
      forall calls: seq<Call> | Clocked(calls, now) && NeverFull(cfg, Start(now), calls)
        ensures Answers(cfg, Start(now), calls) == RememberedAnswers(cfg, map[], calls)
      {
        RunRefines(cfg, Start(now), map[], calls, now);
      }
    } else {
      var calls := SmallBurstForgetsRefusal(cfg, now);
      assert Clocked(calls, now) && NeverFull(cfg, Start(now), calls);
    }
  }

  /** Below a burst of 1 every call is refused, and a sweep makes the limiter
      report the same run of refusals as a new one. */
  lemma SmallBurstForgetsRefusal(cfg: Config, now: real) returns (calls: seq<Call>)
    requires Sane(cfg) && cfg.maxKeys >= 1 && cfg.burst < 1.0
    ensures Clocked(calls, now) && NeverFull(cfg, Start(now), calls) && |calls| == 2 && calls[0].key == calls[1].key == ""
    ensures Answers(cfg, Start(now), calls) == [Answer(false, true), Answer(false, true)]
    ensures RememberedAnswers(cfg, map[], calls) == [Answer(false, true), Answer(false, false)]
  {
    var c, d := Call("", now), Call("", now + 601.0);
    calls := [c, d];
    assert calls[1..] == [d] && [d][1..] == [];
    var b := Bucket(cfg.burst, now, true);
    var s := State(map["" := b], now, ZERO_TIME);
    assert Draw(cfg, Fresh(cfg, now), now) == (b, Answer(false, true));
    assert Take(cfg, Start(now), "", now) == (s, Answer(false, true));
    assert 601.0 * cfg.rate >= 0.0;
    assert Grown(cfg, b, d.now) == cfg.burst + 601.0 * cfg.rate;
    assert Swept(cfg, s.buckets, d.now) == map[];
    assert Take(cfg, s, "", d.now).1 == Answer(false, true);
    assert Draw(cfg, b, d.now).1 == Answer(false, false);
    assert Answers(cfg, s, [d]) == [Answer(false, true)] + Answers(cfg, Take(cfg, s, "", d.now).0, []);
    assert Remember(cfg, map[], "", now) == (s.buckets, Answer(false, true));
    assert RememberedAnswers(cfg, s.buckets, [d]) == [Answer(false, false)] + RememberedAnswers(cfg, Remember(cfg, s.buckets, "", d.now).0, []);
    assert Clocked([d], now);
    assert NeverFull(cfg, s, [d]) by { assert NeverFull(cfg, Take(cfg, s, "", d.now).0, []); }
  }

  // ---- what the limiter bounds

  /** How many calls of key the run accepts. */
  function Accepted(cfg: Config, s: State, calls: seq<Call>, key: string): nat
    decreases |calls|
  {
    if calls == [] then 0
    else
      var (s', a) := Take(cfg, s, calls[0].key, calls[0].now);
      Taken(calls[0], a, key) + Accepted(cfg, s', calls[1..], key)
  }

  function FirstRefusals(cfg: Config, s: State, calls: seq<Call>, key: string): nat
    decreases |calls|
  {
    if calls == [] then 0
    else
      var (s', a) := Take(cfg, s, calls[0].key, calls[0].now);
      (if a.firstRefusal && calls[0].key == key then 1 else 0) + FirstRefusals(cfg, s', calls[1..], key)
  }

  /** What every call keeps: tokens between 0 and the burst, no bucket from the future, at most maxKeys of them. */
  ghost predicate Valid(cfg: Config, s: State, t: real) {
    && (forall k | k in s.buckets :: 0.0 <= s.buckets[k].tokens <= cfg.burst && s.buckets[k].last <= t)
    && |s.buckets| <= cfg.maxKeys
  }

  /** The tokens key could draw at t. */
  function Credit(cfg: Config, s: State, key: string, t: real): real {
    if key in s.buckets then Capped(cfg, Grown(cfg, s.buckets[key], t)) else cfg.burst
  }

  lemma SweepKeeps(cfg: Config, buckets: map<string, Bucket>, now: real)
    ensures |Swept(cfg, buckets, now)| <= |buckets|
  {
    SubsetSize(Swept(cfg, buckets, now).Keys, buckets.Keys);
  }

  lemma {:induction false} SubsetSize<T>(a: set<T>, b: set<T>)
    requires a <= b
    ensures |a| <= |b|
  {
    if a != {} {
      var x :| x in a;
      SubsetSize(a - {x}, b - {x});
    }
  }

  /** Sweeping a valid state changes nobody's credit. */
  lemma SweepsKeepCredit(cfg: Config, s: State, c: Call, key: string, t: real)
    requires Sane(cfg) && Valid(cfg, s, t) && t <= c.now
    ensures var s2 := MadeRoom(cfg, Collected(cfg, s, c.now), c.key, c.now);
            && Valid(cfg, s2, c.now)
            && Credit(cfg, s2, key, c.now) == Credit(cfg, s, key, c.now)
  {
    SweepKeeps(cfg, s.buckets, c.now);
    SweepKeeps(cfg, Collected(cfg, s, c.now).buckets, c.now);
  }

  /** A bucket just drawn from holds its old credit less the token taken. */
  lemma DrawSpends(cfg: Config, b: Bucket, now: real)
    requires Sane(cfg) && 0.0 <= b.tokens <= cfg.burst && b.last <= now
    ensures var (b', a) := Draw(cfg, b, now);
            && 0.0 <= b'.tokens <= cfg.burst && b'.last == now
            && Capped(cfg, Grown(cfg, b', now)) == Capped(cfg, Grown(cfg, b, now)) - (if a.ok then 1.0 else 0.0)
  {
    EarnedNonNegative(cfg, b.last, now);
    var b' := Draw(cfg, b, now).0;
    assert Earned(cfg, b'.last, now) == 0.0;
  }

  /** One call, the sweeps it makes included: the state stays valid and key's credit falls by
      one exactly when the call was key's and was accepted. */
  lemma TakeSpendsCredit(cfg: Config, s: State, c: Call, key: string, t: real)
    requires Sane(cfg) && Valid(cfg, s, t) && t <= c.now
    ensures var (s', a) := Take(cfg, s, c.key, c.now);
            && Valid(cfg, s', c.now)
            && Credit(cfg, s', key, c.now) == Credit(cfg, s, key, c.now) - Taken(c, a, key) as real
  {
    SweepsKeepCredit(cfg, s, c, key, t);
    SweepsKeepCredit(cfg, s, c, c.key, t);
    var s2 := MadeRoom(cfg, Collected(cfg, s, c.now), c.key, c.now);
    FreshIsFull(cfg, c.now);
    DrawSpends(cfg, if c.key in s2.buckets then s2.buckets[c.key] else Fresh(cfg, c.now), c.now);
  }

  lemma CreditGrows(cfg: Config, s: State, key: string, t: real, u: real)
    requires Sane(cfg) && t <= u
    ensures Credit(cfg, s, key, u) <= Credit(cfg, s, key, t) + Earned(cfg, t, u)
  {
    EarnedNonNegative(cfg, t, u);
    if key in s.buckets { GrowsWithTime(cfg, s.buckets[key], t, u); }
  }

  lemma CreditNonNegative(cfg: Config, s: State, key: string, t: real)
    requires Sane(cfg) && Valid(cfg, s, t)
    ensures 0.0 <= Credit(cfg, s, key, t) <= cfg.burst
  {
    if key in s.buckets { GrowsWithTime(cfg, s.buckets[key], s.buckets[key].last, t); }
  }

  function Taken(c: Call, a: Answer, key: string): nat { if a.ok && c.key == key then 1 else 0 }

  lemma {:induction false} AcceptedWithinCredit(cfg: Config, s: State, calls: seq<Call>, key: string, t: real, end: real)
    requires Sane(cfg) && Valid(cfg, s, t) && Clocked(calls, t) && t <= end
    requires forall i | 0 <= i < |calls| :: calls[i].now <= end
    ensures Accepted(cfg, s, calls, key) as real <= Credit(cfg, s, key, t) + Earned(cfg, t, end)
    decreases |calls|
  {
    if calls == [] {
      assert Accepted(cfg, s, calls, key) == 0;
      CreditNonNegative(cfg, s, key, t);
      EarnedNonNegative(cfg, t, end);
    } else {
      var c := calls[0];
      var (s', a) := Take(cfg, s, c.key, c.now);
      TakeSpendsCredit(cfg, s, c, key, t);
      AcceptedWithinCredit(cfg, s', calls[1..], key, c.now, end);
      CreditGrows(cfg, s, key, t, c.now);
      EarnedSplit(cfg, t, c.now, end);
    }
  }

  lemma {:induction false} RunValid(cfg: Config, s: State, calls: seq<Call>, t: real) returns (u: real)
    requires Sane(cfg) && Valid(cfg, s, t) && Clocked(calls, t)
    ensures Valid(cfg, AfterCalls(cfg, s, calls), u)
    ensures u == if calls == [] then t else calls[|calls| - 1].now
    decreases |calls|
  {
    if calls == [] {
      u := t;
    } else {
      TakeSpendsCredit(cfg, s, calls[0], "", t);
      u := RunValid(cfg, Take(cfg, s, calls[0].key, calls[0].now).0, calls[1..], calls[0].now);
    }
  }

  lemma {:induction false} ClockedSplit(head: seq<Call>, tail: seq<Call>, t: real)
    requires Clocked(head + tail, t)
    ensures Clocked(head, t) && Clocked(tail, if head == [] then t else head[|head| - 1].now)
    decreases |head|
  {
    if head == [] {
      assert head + tail == tail;
    } else {
      assert (head + tail)[1..] == head[1..] + tail;
      ClockedSplit(head[1..], tail, head[0].now);
    }
  }

  lemma BoundFromCredit(cfg: Config, accepted: real, credit: real, from: real, u: real, until: real)
    requires Sane(cfg) && from <= u <= until && credit <= cfg.burst
    requires accepted <= credit + Earned(cfg, u, until)
    ensures accepted <= cfg.burst + Earned(cfg, from, until)
  {
    EarnedSplit(cfg, from, u, until);
    EarnedNonNegative(cfg, from, u);
  }

  /** In any stretch of any run, sweeps and the cap included, the calls of a key
      accepted within [from, until] number at most burst + rate * (until - from). */
  lemma AcceptedBound(cfg: Config, start: real, before: seq<Call>, calls: seq<Call>, key: string, from: real, until: real)
    requires Sane(cfg) && Clocked(before + calls, start) && from <= until
    requires forall i | 0 <= i < |calls| :: from <= calls[i].now <= until
    ensures Accepted(cfg, AfterCalls(cfg, Start(start), before), calls, key) as real <= cfg.burst + Earned(cfg, from, until)
  {
    ClockedSplit(before, calls, start);
    var s := AfterCalls(cfg, Start(start), before);
    var t := RunValid(cfg, Start(start), before, start);
    if calls == [] {
      EarnedNonNegative(cfg, from, until);
      assert Accepted(cfg, s, calls, key) == 0;
    } else {
      var u := calls[0].now;
      assert Valid(cfg, s, u);
      AcceptedWithinCredit(cfg, s, calls, key, u, until);
      CreditNonNegative(cfg, s, key, u);
      BoundFromCredit(cfg, Accepted(cfg, s, calls, key) as real, Credit(cfg, s, key, u), from, u, until);
    }
  }

  /** The map never holds more than maxKeys buckets. */
  lemma KeysBounded(cfg: Config, start: real, calls: seq<Call>)
    requires Sane(cfg) && Clocked(calls, start)
    ensures |AfterCalls(cfg, Start(start), calls).buckets| <= cfg.maxKeys
  {
    var t := RunValid(cfg, Start(start), calls, start);
  }

  /** Key's run of refusals was reported, or key has no bucket and so a token. */
  ghost predicate Quiet(s: State, key: string) { key in s.buckets ==> s.buckets[key].refusing }

  lemma {:induction false} QuietRun(cfg: Config, s: State, calls: seq<Call>, key: string)
    requires cfg.burst >= 1.0 && Quiet(s, key) && Accepted(cfg, s, calls, key) == 0
    ensures FirstRefusals(cfg, s, calls, key) == 0
    decreases |calls|
  {
    if calls != [] {
      var c := calls[0];
      FreshIsFull(cfg, c.now);
      QuietRun(cfg, Take(cfg, s, c.key, c.now).0, calls[1..], key);
    }
  }

  /** In a stretch that accepts no call of key, at most one refusal is reported as the first. */
  lemma {:induction false} OneFirstRefusal(cfg: Config, s: State, calls: seq<Call>, key: string)
    requires cfg.burst >= 1.0 && Accepted(cfg, s, calls, key) == 0
    ensures FirstRefusals(cfg, s, calls, key) <= 1
    decreases |calls|
  {
    if calls != [] {
      var c := calls[0];
      var (s', a) := Take(cfg, s, c.key, c.now);
      if a.firstRefusal && c.key == key {
        QuietRun(cfg, s', calls[1..], key);
      } else {
        OneFirstRefusal(cfg, s', calls[1..], key);
      }
    }
  }

  /** In every stretch of every run that accepts no call of a key, at most one refusal of it is reported as the first. */
  ghost predicate ReportsOnce(cfg: Config, start: real) {
    forall before: seq<Call>, calls: seq<Call>, key: string ::
      Clocked(before + calls, start) && Accepted(cfg, AfterCalls(cfg, Start(start), before), calls, key) == 0 ==>
        FirstRefusals(cfg, AfterCalls(cfg, Start(start), before), calls, key) <= 1
  }

  lemma TwoRefusals(cfg: Config, s: State, calls: seq<Call>, key: string)
    requires |calls| == 2 && calls[0].key == calls[1].key == key
    requires Answers(cfg, s, calls) == [Answer(false, true), Answer(false, true)]
    ensures Accepted(cfg, s, calls, key) == 0 && FirstRefusals(cfg, s, calls, key) == 2
  {
    var (next, a) := Take(cfg, s, key, calls[0].now);
    var rest := calls[1..];
    var (last, b) := Take(cfg, next, key, rest[0].now);
    assert Answers(cfg, next, rest) == [b] + Answers(cfg, last, rest[1..]) && rest[1..] == [];
    assert Answers(cfg, s, calls) == [a] + Answers(cfg, next, rest);
    assert a == Answers(cfg, s, calls)[0] && b == Answers(cfg, s, calls)[1];
    assert Accepted(cfg, next, rest, key) == 0 && FirstRefusals(cfg, next, rest, key) == 1;
  }

  /** A run of refusals is reported at most once exactly when the burst is at least 1. */
  lemma ReportsOnceExactly(cfg: Config, start: real)
    requires Sane(cfg) && cfg.maxKeys >= 1
    ensures ReportsOnce(cfg, start) <==> cfg.burst >= 1.0
  {
    if cfg.burst >= 1.0 {
      forall before: seq<Call>, calls: seq<Call>, key: string |
        Clocked(before + calls, start) && Accepted(cfg, AfterCalls(cfg, Start(start), before), calls, key) == 0
        ensures FirstRefusals(cfg, AfterCalls(cfg, Start(start), before), calls, key) <= 1
      {
        OneFirstRefusal(cfg, AfterCalls(cfg, Start(start), before), calls, key);
      }
    } else {
      var calls := SmallBurstForgetsRefusal(cfg, start);
      TwoRefusals(cfg, Start(start), calls, "");
      assert [] + calls == calls && AfterCalls(cfg, Start(start), []) == Start(start);
      assert Clocked([] + calls, start);
    }
  }

  ghost function KeysOf(calls: seq<Call>): set<string> { set i | 0 <= i < |calls| :: calls[i].key }

  /** A run over no more keys than the cap never finds the map full. */
  lemma {:induction false} FewKeysNeverFull(cfg: Config, s: State, calls: seq<Call>, keys: set<string>)
    requires s.buckets.Keys <= keys && KeysOf(calls) <= keys && |keys| <= cfg.maxKeys
    ensures NeverFull(cfg, s, calls)
    decreases |calls|
  {
    if calls != [] {
      var c := calls[0];
      assert c.key in KeysOf(calls);
      var s0 := Collected(cfg, s, c.now);
      if c.key !in s0.buckets {
        SubsetSize(s0.buckets.Keys + {c.key}, keys);
      }
      assert KeysOf(calls[1..]) <= KeysOf(calls) by {
        forall k | k in KeysOf(calls[1..]) ensures k in KeysOf(calls) {
          var i :| 0 <= i < |calls[1..]| && calls[1..][i].key == k;
          assert calls[i + 1].key == k;
        }
      }
      FewKeysNeverFull(cfg, Take(cfg, s, c.key, c.now).0, calls[1..], keys);
    }
  }
}
