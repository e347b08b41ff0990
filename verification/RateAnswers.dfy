/** What the limiter answers, from the history of its calls: a call is accepted
    exactly when a simple account of what the key has earned and spent has a
    token for it and the map has room. */
module RateAnswers {
  import opened RateLimit

  // ---- the account of a key

  /** The tokens of a key at a time: all of the burst at first, one less for
      each call accepted, and what flows in between, up to the burst. */
  function Level(cfg: Config, calls: seq<Call>, answers: seq<Answer>, key: string, now: real): real
    requires |calls| == |answers|
  {
    if calls == [] then cfg.burst
    else
      var n := |calls| - 1;
      var c := calls[n];
      if c.key != key then Level(cfg, calls[..n], answers[..n], key, now)
      else
        var left := Level(cfg, calls[..n], answers[..n], key, c.now) - if answers[n].ok then 1.0 else 0.0;
        Least(cfg.burst, left + (now - c.now) * cfg.rate)
  }

  function Least(a: real, b: real): real { if b < a then b else a }

  /** The last call of the key was refused. */
  predicate LastRefused(calls: seq<Call>, answers: seq<Answer>, key: string)
    requires |calls| == |answers|
  {
    calls != [] &&
    var n := |calls| - 1;
    if calls[n].key == key then !answers[n].ok else LastRefused(calls[..n], answers[..n], key)
  }

  // ---- room in the map

  /** The keys whose buckets have not refilled. */
  function Unfilled(cfg: Config, s: State, now: real): set<string> {
    set k | k in s.buckets && s.buckets[k].tokens + (now - s.buckets[k].last) * cfg.rate < cfg.burst
  }

  predicate TimeToCollect(s: State, now: real) { now - s.lastGC > 600.0 }

  /** The key still has a bucket when its call is judged. */
  predicate KeepsBucket(cfg: Config, s: State, key: string, now: real) {
    key in s.buckets && (TimeToCollect(s, now) ==> key in Unfilled(cfg, s, now))
  }

  /** The map has no place for the key: it has none in it, and there are too
      many buckets, counting only those not refilled when a sweep is due. */
  predicate TurnedAway(cfg: Config, s: State, key: string, now: real) {
    && !KeepsBucket(cfg, s, key, now)
    && |if TimeToCollect(s, now) || now - s.lastSweep >= 1.0 then Unfilled(cfg, s, now) else s.buckets.Keys| >= cfg.maxKeys
  }

  lemma SweptIs(cfg: Config, buckets: map<string, Bucket>, lastGC: real, lastSweep: real, now: real)
    ensures Swept(cfg, buckets, now).Keys == Unfilled(cfg, State(buckets, lastGC, lastSweep), now)
    ensures Swept(cfg, Swept(cfg, buckets, now), now) == Swept(cfg, buckets, now)
    ensures |Swept(cfg, buckets, now)| == |Unfilled(cfg, State(buckets, lastGC, lastSweep), now)| <= |buckets|
  {
    var kept := Swept(cfg, buckets, now);
    assert |kept| == |kept.Keys|;
    SweepKeeps(cfg, buckets, now);
  }

  lemma RoomIs(cfg: Config, s: State, key: string, now: real)
    ensures var s2 := MadeRoom(cfg, Collected(cfg, s, now), key, now);
            && (TurnedAway(cfg, s, key, now) <==> key !in s2.buckets && |s2.buckets| >= cfg.maxKeys)
            && (KeepsBucket(cfg, s, key, now) <==> key in s2.buckets)
            && (forall k | k in s2.buckets :: k in s.buckets && s2.buckets[k] == s.buckets[k])
  {
    SweptIs(cfg, s.buckets, s.lastGC, s.lastSweep, now);
    assert |s.buckets| == |s.buckets.Keys|;
  }

  // ---- the limiter keeps the account

  /** The limiter and the history agree on every key from a time on. */
  ghost predicate Accounts(cfg: Config, s: State, calls: seq<Call>, answers: seq<Answer>, t: real)
    requires |calls| == |answers|
  {
    && (forall key: string, now: real | t <= now :: Credit(cfg, s, key, now) == Level(cfg, calls, answers, key, now))
    && (forall key | key in s.buckets :: s.buckets[key].refusing <==> LastRefused(calls, answers, key))
  }

  /** One call leaves the credit of every other key as it would have been. */
  lemma OthersKeepCredit(cfg: Config, s: State, c: Call, key: string, u: real)
    requires Sane(cfg) && key != c.key && c.now <= u
    ensures Credit(cfg, Take(cfg, s, c.key, c.now).0, key, u) == Credit(cfg, s, key, u)
  {
    if key in s.buckets { GrowsWithTime(cfg, s.buckets[key], c.now, u); }
  }

  /** A key that is turned away has all its tokens. */
  lemma TurnedAwayIsFull(cfg: Config, s: State, key: string, now: real)
    requires TurnedAway(cfg, s, key, now)
    ensures Credit(cfg, s, key, now) == cfg.burst
  {
  }

  /** The bucket of a call that was judged. */
  lemma JudgedBucket(cfg: Config, s: State, c: Call)
    requires !TurnedAway(cfg, s, c.key, c.now)
    ensures var (after, a) := Take(cfg, s, c.key, c.now);
            var had := Credit(cfg, s, c.key, c.now);
            && (a.ok <==> had >= 1.0)
            && (a.firstRefusal <==> had < 1.0 && (KeepsBucket(cfg, s, c.key, c.now) ==> !s.buckets[c.key].refusing))
            && c.key in after.buckets
            && after.buckets[c.key] == Bucket(had - (if a.ok then 1.0 else 0.0), c.now, !a.ok)
  {
    RoomIs(cfg, s, c.key, c.now);
    FreshIsFull(cfg, c.now);
  }

  lemma BucketCredit(cfg: Config, s: State, key: string, u: real)
    requires key in s.buckets
    ensures Credit(cfg, s, key, u) == Least(cfg.burst, s.buckets[key].tokens + (u - s.buckets[key].last) * cfg.rate)
  {
  }

  lemma NothingOwed(cfg: Config, t: real, u: real)
    requires Sane(cfg) && t <= u
    ensures Least(cfg.burst, cfg.burst - 0.0 + (u - t) * cfg.rate) == cfg.burst
  {
    EarnedNonNegative(cfg, t, u);
  }

  lemma TurnedAwayAnswer(cfg: Config, s: State, c: Call)
    requires TurnedAway(cfg, s, c.key, c.now)
    ensures var (after, a) := Take(cfg, s, c.key, c.now); a == Answer(false, false) && c.key !in after.buckets
  {
    RoomIs(cfg, s, c.key, c.now);
  }

  lemma OwnCredit(cfg: Config, s: State, c: Call, u: real, after: State, a: Answer)
    requires Sane(cfg) && c.now <= u && Take(cfg, s, c.key, c.now) == (after, a)
    ensures Credit(cfg, after, c.key, u) ==
            Least(cfg.burst, Credit(cfg, s, c.key, c.now) - (if a.ok then 1.0 else 0.0) + (u - c.now) * cfg.rate)
  {
    if TurnedAway(cfg, s, c.key, c.now) {
      TurnedAwayAnswer(cfg, s, c);
      TurnedAwayIsFull(cfg, s, c.key, c.now);
      NothingOwed(cfg, c.now, u);
    } else {
      JudgedBucket(cfg, s, c);
      SpentCredit(cfg, after, c, u, Credit(cfg, s, c.key, c.now), a);
    }
  }

  lemma SpentCredit(cfg: Config, after: State, c: Call, u: real, had: real, a: Answer)
    requires c.key in after.buckets && after.buckets[c.key] == Bucket(had - (if a.ok then 1.0 else 0.0), c.now, !a.ok)
    ensures Credit(cfg, after, c.key, u) == Least(cfg.burst, had - (if a.ok then 1.0 else 0.0) + (u - c.now) * cfg.rate)
  {
    BucketCredit(cfg, after, c.key, u);
  }

  /** The answer: accepted exactly when the key is not turned away and has a
      token, and a first refusal exactly when it lacks one and its bucket, if it
      has one, was not refusing already. */
  ghost predicate JudgedAs(cfg: Config, s: State, key: string, now: real, a: Answer) {
    && (a.ok <==> !TurnedAway(cfg, s, key, now) && Credit(cfg, s, key, now) >= 1.0)
    && (a.firstRefusal <==> !a.ok && !TurnedAway(cfg, s, key, now) && (KeepsBucket(cfg, s, key, now) ==> !s.buckets[key].refusing))
  }

  /** One call, whatever state it finds. */
  lemma Judged(cfg: Config, s: State, c: Call)
    ensures JudgedAs(cfg, s, c.key, c.now, Take(cfg, s, c.key, c.now).1)
  {
    if TurnedAway(cfg, s, c.key, c.now) { TurnedAwayAnswer(cfg, s, c); } else { JudgedBucket(cfg, s, c); }
  }

  /** Whose bucket is there after a call, and whether it says the key is being refused. */
  lemma RefusingAfter(cfg: Config, s: State, c: Call, key: string)
    requires key in Take(cfg, s, c.key, c.now).0.buckets
    ensures var (after, a) := Take(cfg, s, c.key, c.now);
            if key == c.key then after.buckets[key].refusing <==> !a.ok
            else key in s.buckets && after.buckets[key].refusing == s.buckets[key].refusing
  {
    RoomIs(cfg, s, c.key, c.now);
    if !TurnedAway(cfg, s, c.key, c.now) { JudgedBucket(cfg, s, c); }
  }

  lemma LevelNext(cfg: Config, calls: seq<Call>, answers: seq<Answer>, c: Call, a: Answer, key: string, now: real)
    requires |calls| == |answers|
    ensures Level(cfg, calls + [c], answers + [a], key, now) ==
            if c.key != key then Level(cfg, calls, answers, key, now)
            else Least(cfg.burst, Level(cfg, calls, answers, key, c.now) - (if a.ok then 1.0 else 0.0) + (now - c.now) * cfg.rate)
    ensures LastRefused(calls + [c], answers + [a], key) <==> if c.key == key then !a.ok else LastRefused(calls, answers, key)
  {
    assert (calls + [c])[..|calls|] == calls && (answers + [a])[..|answers|] == answers;
  }

  lemma AccountsNext(cfg: Config, s: State, calls: seq<Call>, answers: seq<Answer>, c: Call, t: real)
    requires Sane(cfg) && |calls| == |answers| && Accounts(cfg, s, calls, answers, t) && t <= c.now
    ensures var (after, a) := Take(cfg, s, c.key, c.now);
            Accounts(cfg, after, calls + [c], answers + [a], c.now)
  {
    var (after, a) := Take(cfg, s, c.key, c.now);
    forall key: string, now: real | c.now <= now
      ensures Credit(cfg, after, key, now) == Level(cfg, calls + [c], answers + [a], key, now)
    {
      LevelNext(cfg, calls, answers, c, a, key, now);
      if key == c.key {
        OwnCredit(cfg, s, c, now, after, a);
        assert Credit(cfg, s, key, c.now) == Level(cfg, calls, answers, key, c.now);
      } else {
        OthersKeepCredit(cfg, s, c, key, now);
        assert Credit(cfg, s, key, now) == Level(cfg, calls, answers, key, now);
      }
    }
    forall key | key in after.buckets
      ensures after.buckets[key].refusing <==> LastRefused(calls + [c], answers + [a], key)
    {
      LevelNext(cfg, calls, answers, c, a, key, c.now);
      RefusingAfter(cfg, s, c, key);
    }
  }

  // ---- over runs

  lemma {:induction false} LastAnswer(cfg: Config, s: State, calls: seq<Call>, c: Call)
    ensures |Answers(cfg, s, calls)| == |calls|
    ensures var (after, a) := Take(cfg, AfterCalls(cfg, s, calls), c.key, c.now);
            Answers(cfg, s, calls + [c]) == Answers(cfg, s, calls) + [a] && AfterCalls(cfg, s, calls + [c]) == after
    decreases |calls|
  {
    if calls == [] {
      assert calls + [c] == [c] && [c][1..] == [];
    } else {
      assert (calls + [c])[1..] == calls[1..] + [c];
      LastAnswer(cfg, Take(cfg, s, calls[0].key, calls[0].now).0, calls[1..], c);
    }
  }

  lemma PrefixApart(calls: seq<Call>, n: nat)
    requires n < |calls|
    ensures calls[..n + 1] == calls[..n] + [calls[n]] && calls == calls[..n + 1] + calls[n + 1..]
  {
  }

  /** The time from which a history speaks. */
  function Until(calls: seq<Call>, start: real): real { if calls == [] then start else calls[|calls| - 1].now }

  lemma {:induction false} RunAccounts(cfg: Config, start: real, calls: seq<Call>)
    requires Sane(cfg) && Clocked(calls, start)
    ensures |Answers(cfg, Start(start), calls)| == |calls|
    ensures Accounts(cfg, AfterCalls(cfg, Start(start), calls), calls, Answers(cfg, Start(start), calls), Until(calls, start))
  {
    if calls != [] {
      var n := |calls| - 1;
      var front, c := calls[..n], calls[n];
      PrefixApart(calls, n);
      assert calls == front + [c];
      ClockedSplit(front, [c], start);
      RunAccounts(cfg, start, front);
      LastAnswer(cfg, Start(start), front, c);
      AccountsNext(cfg, AfterCalls(cfg, Start(start), front), front, Answers(cfg, Start(start), front), c, Until(front, start));
    }
  }

  /** The answers of the first calls are those of a run of just these. */
  lemma {:induction false} FirstAnswers(cfg: Config, s: State, calls: seq<Call>, i: nat)
    requires i <= |calls|
    ensures |Answers(cfg, s, calls)| == |calls| && Answers(cfg, s, calls)[..i] == Answers(cfg, s, calls[..i])
    decreases |calls|
  {
    if i > 0 {
      assert calls[..i][1..] == calls[1..][..i - 1];
      FirstAnswers(cfg, Take(cfg, s, calls[0].key, calls[0].now).0, calls[1..], i - 1);
    } else if calls != [] {
      FirstAnswers(cfg, Take(cfg, s, calls[0].key, calls[0].now).0, calls[1..], 0);
    }
  }

  /** Every answer of every run. A call is accepted if and only if its key is
      not turned away and has a token by the account of the calls before it. A
      refusal is reported as the first of its run if and only if it is for lack
      of a token and the last call the key's bucket knows of was not refused. */
  lemma AnswersExactly(cfg: Config, start: real, calls: seq<Call>, i: nat)
    requires Sane(cfg) && Clocked(calls, start) && i < |calls|
    ensures var answers := Answers(cfg, Start(start), calls);
            |answers| == |calls| &&
            var c, s := calls[i], AfterCalls(cfg, Start(start), calls[..i]);
            var level := Level(cfg, calls[..i], answers[..i], c.key, c.now);
            && (answers[i].ok <==> !TurnedAway(cfg, s, c.key, c.now) && level >= 1.0)
            && (answers[i].firstRefusal <==>
                  && !TurnedAway(cfg, s, c.key, c.now) && level < 1.0
                  && (KeepsBucket(cfg, s, c.key, c.now) ==> !LastRefused(calls[..i], answers[..i], c.key)))
  {
    var c, s, answers := calls[i], AfterCalls(cfg, Start(start), calls[..i]), Answers(cfg, Start(start), calls);
    PrefixApart(calls, i);
    FirstAnswers(cfg, Start(start), calls, i);
    FirstAnswers(cfg, Start(start), calls, i + 1);
    ClockedSplit(calls[..i + 1], calls[i + 1..], start);
    ClockedSplit(calls[..i], [c], start);
    RunAccounts(cfg, start, calls[..i]);
    LastAnswer(cfg, Start(start), calls[..i], c);
    assert answers[i] == answers[..i + 1][i];
    AnswerNow(cfg, s, calls[..i], answers[..i], c, Until(calls[..i], start));
  }

  lemma AnswerNow(cfg: Config, s: State, calls: seq<Call>, answers: seq<Answer>, c: Call, t: real)
    requires |calls| == |answers| && Accounts(cfg, s, calls, answers, t) && t <= c.now
    ensures var a := Take(cfg, s, c.key, c.now).1;
            var level := Level(cfg, calls, answers, c.key, c.now);
            && (a.ok <==> !TurnedAway(cfg, s, c.key, c.now) && level >= 1.0)
            && (a.firstRefusal <==>
                  && !TurnedAway(cfg, s, c.key, c.now) && level < 1.0
                  && (KeepsBucket(cfg, s, c.key, c.now) ==> !LastRefused(calls, answers, c.key)))
  {
    RoomIs(cfg, s, c.key, c.now);
    assert Credit(cfg, s, c.key, c.now) == Level(cfg, calls, answers, c.key, c.now);
    if !TurnedAway(cfg, s, c.key, c.now) { JudgedBucket(cfg, s, c); }
  }

  /** Calls of other keys do not touch the account. */
  lemma {:induction false} LevelSkips(cfg: Config, calls: seq<Call>, answers: seq<Answer>, i: nat, j: nat, key: string, now: real)
    requires |calls| == |answers| && i <= j <= |calls| && forall k | i <= k < j :: calls[k].key != key
    ensures Level(cfg, calls[..j], answers[..j], key, now) == Level(cfg, calls[..i], answers[..i], key, now)
  {
    if i < j {
      assert calls[..j][..j - 1] == calls[..j - 1] && answers[..j][..j - 1] == answers[..j - 1];
      LevelSkips(cfg, calls, answers, i, j - 1, key, now);
    }
  }

  lemma LevelAfter(cfg: Config, calls: seq<Call>, answers: seq<Answer>, i: nat, now: real)
    requires |calls| == |answers| && i < |calls|
    ensures Level(cfg, calls[..i + 1], answers[..i + 1], calls[i].key, now) ==
            Least(cfg.burst, Level(cfg, calls[..i], answers[..i], calls[i].key, calls[i].now)
                             - (if answers[i].ok then 1.0 else 0.0) + (now - calls[i].now) * cfg.rate)
  {
    assert calls[..i + 1][..i] == calls[..i] && answers[..i + 1][..i] == answers[..i];
  }

  lemma WaitedLevel(cfg: Config, calls: seq<Call>, answers: seq<Answer>, i: nat, j: nat)
    requires |calls| == |answers| && i < j < |calls| && forall k | i < k < j :: calls[k].key != calls[i].key
    ensures Level(cfg, calls[..j], answers[..j], calls[i].key, calls[j].now) ==
            Least(cfg.burst, Level(cfg, calls[..i], answers[..i], calls[i].key, calls[i].now)
                             - (if answers[i].ok then 1.0 else 0.0) + (calls[j].now - calls[i].now) * cfg.rate)
  {
    LevelSkips(cfg, calls, answers, i + 1, j, calls[i].key, calls[j].now);
    LevelAfter(cfg, calls, answers, i, calls[j].now);
  }

  /** A key that was refused and waits until what it lacked has flowed in is
      accepted, whatever other keys do meanwhile, unless it is turned away. */
  lemma {:induction false} WaitingIsEnough(cfg: Config, start: real, calls: seq<Call>, i: nat, j: nat)
    requires Sane(cfg) && cfg.burst >= 1.0 && Clocked(calls, start) && i < j < |calls| && calls[i].key == calls[j].key
    requires forall k | i < k < j :: calls[k].key != calls[i].key
    requires |Answers(cfg, Start(start), calls)| == |calls| && !Answers(cfg, Start(start), calls)[i].ok
    requires var lacked := 1.0 - Level(cfg, calls[..i], Answers(cfg, Start(start), calls)[..i], calls[i].key, calls[i].now);
             (calls[j].now - calls[i].now) * cfg.rate >= lacked
    requires !TurnedAway(cfg, AfterCalls(cfg, Start(start), calls[..j]), calls[j].key, calls[j].now)
    ensures Answers(cfg, Start(start), calls)[j].ok
  {
    AnswersExactly(cfg, start, calls, j);
    WaitedLevel(cfg, calls, Answers(cfg, Start(start), calls), i, j);
  }

  /** What a call does to the rest of the map: other buckets stay as they are,
      except that a sweep takes those that have refilled. One is due more than
      ten minutes after the last, or when a new key finds the map full and the
      last one forced this way was at least a second ago. */
  lemma SweepsWhenDue(cfg: Config, s: State, c: Call, key: string)
    requires key != c.key && key in s.buckets
    ensures var after := Take(cfg, s, c.key, c.now).0;
            var forced := && c.key !in s.buckets && |s.buckets| >= cfg.maxKeys && c.now - s.lastSweep >= 1.0;
            && (key in after.buckets ==> after.buckets[key] == s.buckets[key])
            && (TimeToCollect(s, c.now) ==> (key in after.buckets <==> key in Unfilled(cfg, s, c.now)) && after.lastGC == c.now)
            && (!TimeToCollect(s, c.now) && forced ==>
                  (key in after.buckets <==> key in Unfilled(cfg, s, c.now)) && after.lastSweep == c.now && after.lastGC == s.lastGC)
            && (!TimeToCollect(s, c.now) && !forced ==>
                  key in after.buckets && after.lastSweep == s.lastSweep && after.lastGC == s.lastGC)
  {
    SweptIs(cfg, s.buckets, s.lastGC, s.lastSweep, c.now);
  }
}
