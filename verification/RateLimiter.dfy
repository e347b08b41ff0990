/** The limiter as the source runs it, over a map it changes in place. */
module RateLimiter {
  import opened RateLimit
  import opened RateAnswers

  class IpLimiter {
    const cfg: Config
    var buckets: map<string, Bucket>
    var lastGC: real
    var lastSweep: real

    function Contents(): State reads this { State(buckets, lastGC, lastSweep) }

    constructor (cfg: Config, now: real)
      ensures this.cfg == cfg && Contents() == Start(now)
    {
      this.cfg := cfg;
      buckets, lastGC, lastSweep := map[], now, ZERO_TIME;
    }

    /** Drops the buckets that have refilled to the burst. */
    method Sweep(now: real)
      modifies this`buckets
      ensures buckets == Swept(cfg, old(buckets), now)
    {
      var todo := buckets.Keys;
      while todo != {}
        invariant todo <= old(buckets).Keys
        invariant forall k :: k in buckets <==> k in old(buckets) && (k in todo || !Refilled(cfg, old(buckets)[k], now))
        invariant forall k | k in buckets :: buckets[k] == old(buckets)[k]
        decreases |todo|
      {
        var k :| k in todo;
        if Refilled(cfg, buckets[k], now) {
          buckets := buckets - {k};
        }
        todo := todo - {k};
      }
    }

    /** The sweeps before a call: one when the last is old, one when a new key finds the map full. */
    method MakeRoom(key: string, now: real) returns (room: bool)
      modifies this
      ensures Contents() == MadeRoom(cfg, Collected(cfg, old(Contents()), now), key, now)
      ensures room <==> key in buckets || |buckets| < cfg.maxKeys
    {
      if now - lastGC > GC_INTERVAL {
        Sweep(now);
        lastGC := now;
      }
      if key !in buckets {
        if |buckets| >= cfg.maxKeys {
          if now - lastSweep >= SWEEP_INTERVAL {
            Sweep(now);
            lastSweep := now;
          }
          if |buckets| >= cfg.maxKeys {
            return false;
          }
        }
      }
      room := true;
    }

    /** Refills the key's bucket, a full one when it has none, and takes a token from it or refuses. */
    method Spend(key: string, now: real) returns (ok: bool, firstRefusal: bool)
      modifies this`buckets
      ensures var (b, a) := Draw(cfg, if key in old(buckets) then old(buckets)[key] else Fresh(cfg, now), now);
              buckets == old(buckets)[key := b] && a == Answer(ok, firstRefusal)
    {
      var b := if key in buckets then buckets[key] else Bucket(cfg.burst, now, false);
      ghost var before := b;
      b := b.(tokens := b.tokens + (now - b.last) * cfg.rate);
      assert b.tokens == Grown(cfg, before, now);
      if b.tokens > cfg.burst {
        b := b.(tokens := cfg.burst);
      }
      b := b.(last := now);
      ok := b.tokens >= 1.0;
      firstRefusal := !ok && !b.refusing;
      b := if ok then b.(tokens := b.tokens - 1.0, refusing := false) else b.(refusing := true);
      buckets := buckets[key := b];
    }

    /** Takes a token for key if there is one, and tells the first refusal of a run from the rest. */
    method TakeToken(key: string, now: real) returns (ok: bool, firstRefusal: bool)
      modifies this
      ensures (Contents(), Answer(ok, firstRefusal)) == Take(cfg, old(Contents()), key, now)
      ensures JudgedAs(cfg, old(Contents()), key, now, Answer(ok, firstRefusal))
    {
      Judged(cfg, Contents(), Call(key, now));
      var room := MakeRoom(key, now);
      if !room {
        return false, false;
      }
      ok, firstRefusal := Spend(key, now);
    }

    method Allow(key: string, now: real) returns (ok: bool)
      modifies this
      ensures Contents() == Take(cfg, old(Contents()), key, now).0 && ok == Take(cfg, old(Contents()), key, now).1.ok
    {
      var first;
      ok, first := TakeToken(key, now);
    }
  }
}
