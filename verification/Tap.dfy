/** The live output tap: a ring of recent output for replay, and bounded
    channels to the watchers that never block the session. */
module Tap {
  import opened Basics

  const REPLAY_BYTES: nat := 65536
  const CHANNEL_CAP: nat := 256

  type Byte = bv8
  type Chunk = seq<Byte>

  /** A watcher's channel: what waits in it, what its reader has taken, whether it is closed. */
  datatype Channel = Channel(queue: seq<Chunk>, taken: seq<Chunk>, closed: bool) {
    /** Everything the channel has carried, in order. */
    function Sent(): seq<Chunk> { taken + queue }
  }

  /** Sending on a closed channel would panic, so it needs an open one; a full one drops the chunk. */
  function Offer(c: Channel, p: Chunk): Channel
    requires !c.closed
  {
    if |c.queue| < CHANNEL_CAP then c.(queue := c.queue + [p]) else c
  }

  /** Closing a closed channel would panic too. */
  function Shut(c: Channel): Channel
    requires !c.closed
  {
    c.(closed := true)
  }

  function Flatten(chunks: seq<Chunk>): seq<Byte> {
    if chunks == [] then [] else Flatten(chunks[..|chunks| - 1]) + chunks[|chunks| - 1]
  }

  function LastBytes(s: seq<Byte>, n: nat): seq<Byte> { if |s| > n then s[|s| - n..] else s }

  /** What happened to one watcher: the replay it got, how many chunks had been
      written when it joined and when it left (so far), and which ones in between it missed. */
  datatype History = History(replay: seq<Byte>, joined: nat, left: nat, missed: set<nat>)

  /** The chunks numbered from lo up to hi that are not missed, in order. */
  function Kept(chunks: seq<Chunk>, lo: nat, hi: nat, missed: set<nat>): seq<Chunk>
    requires lo <= hi <= |chunks|
    decreases hi
  {
    if lo == hi then [] else Kept(chunks, lo, hi - 1, missed) + if hi - 1 in missed then [] else [chunks[hi - 1]]
  }

  /** The channel has carried every chunk written while its watcher was there, except those it missed. */
  ghost predicate Follows(c: Channel, h: History, chunks: seq<Chunk>) {
    && h.joined <= h.left <= |chunks|
    && (forall m | m in h.missed :: h.joined <= m < h.left)
    && c.Sent() == Kept(chunks, h.joined, h.left, h.missed)
    && h.replay == LastBytes(Flatten(chunks[..h.joined]), REPLAY_BYTES)
  }

  /** How many chunks the watchers missed, all together. */
  ghost function Missing(history: seq<History>): nat {
    if history == [] then 0 else Missing(history[..|history| - 1]) + |history[|history| - 1].missed|
  }

  // ---- what the history says of a watcher

  lemma {:induction false} FlattenKept(chunks: seq<Chunk>, lo: nat, hi: nat)
    requires lo <= hi <= |chunks|
    ensures Flatten(chunks[..lo]) + Flatten(Kept(chunks, lo, hi, {})) == Flatten(chunks[..hi])
    decreases hi
  {
    if lo < hi {
      FlattenKept(chunks, lo, hi - 1);
      var kept := Kept(chunks, lo, hi - 1, {});
      assert Kept(chunks, lo, hi, {}) == kept + [chunks[hi - 1]];
      assert (kept + [chunks[hi - 1]])[..|kept|] == kept;
      assert chunks[..hi][..hi - 1] == chunks[..hi - 1];
    }
  }

  /** A watcher that missed nothing has seen one contiguous stretch of the
      stream: its replay, then everything its channel carried, with no gap and
      no overlap, up to the last chunk written while it was there. */
  lemma NoGapNoOverlap(c: Channel, h: History, chunks: seq<Chunk>)
    requires Follows(c, h, chunks) && h.missed == {}
    ensures var stream := Flatten(chunks[..h.left]);
            |h.replay| <= |Flatten(chunks[..h.joined])| <= |stream| &&
            h.replay + Flatten(c.Sent()) == stream[|Flatten(chunks[..h.joined])| - |h.replay|..]
  {
    FlattenKept(chunks, h.joined, h.left);
  }

  lemma {:induction false} KeptCount(chunks: seq<Chunk>, lo: nat, hi: nat, missed: set<nat>)
    requires lo <= hi <= |chunks| && forall m | m in missed :: lo <= m < hi
    ensures |Kept(chunks, lo, hi, missed)| + |missed| == hi - lo
    decreases hi
  {
    if lo < hi {
      if hi - 1 in missed {
        KeptIgnores(chunks, lo, hi - 1, missed, hi - 1);
        KeptCount(chunks, lo, hi - 1, missed - {hi - 1});
      } else {
        KeptCount(chunks, lo, hi - 1, missed);
      }
    } else {
      assert missed == {};
    }
  }

  lemma {:induction false} KeptIgnores(chunks: seq<Chunk>, lo: nat, hi: nat, missed: set<nat>, m: nat)
    requires lo <= hi <= |chunks| && hi <= m
    ensures Kept(chunks, lo, hi, missed - {m}) == Kept(chunks, lo, hi, missed) == Kept(chunks, lo, hi, missed + {m})
    decreases hi
  {
    if lo < hi { KeptIgnores(chunks, lo, hi - 1, missed, m); }
  }

  /** With drops: the channel carried all chunks of its stretch but the missed ones, each in its place. */
  lemma DropsCounted(c: Channel, h: History, chunks: seq<Chunk>)
    requires Follows(c, h, chunks)
    ensures |c.Sent()| + |h.missed| == h.left - h.joined
  {
    KeptCount(chunks, h.joined, h.left, h.missed);
  }

  /** Later on: the same replay and start, and only more chunks missed. */
  predicate Continues(h: History, later: History) {
    later.replay == h.replay && later.joined == h.joined && h.left <= later.left && h.missed <= later.missed
  }

  /** Every watcher's history goes on; watchers may have been added. */
  ghost predicate Grown(was: seq<History>, now: seq<History>) {
    |was| <= |now| && forall i: nat | i < |was| :: Continues(was[i], now[i])
  }

  lemma GrownTwice(a: seq<History>, b: seq<History>, c: seq<History>)
    requires Grown(a, b) && Grown(b, c)
    ensures Grown(a, c)
  {
    forall i: nat | i < |a| ensures Continues(a[i], c[i]) { assert Continues(a[i], b[i]) && Continues(b[i], c[i]); }
  }

  lemma SubsetSize(a: set<nat>, b: set<nat>)
    requires a <= b
    ensures |a| <= |b| && (|a| == |b| ==> a == b)
  {
    assert b == a + (b - a);
    assert a < b ==> |b - a| > 0 by { if a < b { var x :| x in b - a; } }
  }

  lemma {:induction false} MissingGrows(was: seq<History>, now: seq<History>)
    requires Grown(was, now)
    ensures Missing(was) <= Missing(now)
    ensures Missing(was) == Missing(now) ==> forall i: nat | i < |was| :: now[i].missed == was[i].missed
    decreases |now|
  {
    if now != [] {
      var n := |now| - 1;
      if |was| == |now| {
        GrownBefore(was[..n], now[..n], was, now);
        MissingGrows(was[..n], now[..n]);
        assert Continues(was[n], now[n]);
        SubsetSize(was[n].missed, now[n].missed);
      } else {
        GrownBefore(was, now[..n], was, now);
        MissingGrows(was, now[..n]);
      }
    }
  }

  lemma GrownBefore(a: seq<History>, b: seq<History>, was: seq<History>, now: seq<History>)
    requires Grown(was, now) && a <= was && b <= now && |a| <= |b|
    ensures Grown(a, b)
  {
    forall i: nat | i < |a| ensures Continues(a[i], b[i]) { assert Continues(was[i], now[i]); }
  }

  // ---- one chunk

  lemma {:induction false} KeptPrefix(chunks: seq<Chunk>, p: Chunk, lo: nat, hi: nat, missed: set<nat>)
    requires lo <= hi <= |chunks|
    ensures Kept(chunks + [p], lo, hi, missed) == Kept(chunks, lo, hi, missed)
    decreases hi
  {
    if lo < hi { KeptPrefix(chunks, p, lo, hi - 1, missed); }
  }

  /** A chunk written does not disturb what a channel carried before it. */
  lemma FollowsStill(c: Channel, h: History, chunks: seq<Chunk>, p: Chunk)
    requires Follows(c, h, chunks)
    ensures Follows(c, h, chunks + [p])
  {
    KeptPrefix(chunks, p, h.joined, h.left, h.missed);
    assert (chunks + [p])[..h.joined] == chunks[..h.joined];
  }

  function Noted(c: Channel, h: History): History {
    h.(left := h.left + 1, missed := if |c.queue| < CHANNEL_CAP then h.missed else h.missed + {h.left})
  }

  /** Offering the last chunk written to a watcher that has been offered all before it. */
  lemma FollowsNext(c: Channel, h: History, chunks: seq<Chunk>, p: Chunk)
    requires Follows(c, h, chunks) && h.left + 1 == |chunks| && chunks[h.left] == p && !c.closed
    ensures Follows(Offer(c, p), Noted(c, h), chunks)
  {
    KeptIgnores(chunks, h.joined, h.left, h.missed, h.left);
    assert c.taken + (c.queue + [p]) == c.Sent() + [p];
  }

  lemma RingNext(chunks: seq<Chunk>, ring: seq<Byte>, p: Chunk)
    requires ring == LastBytes(Flatten(chunks), REPLAY_BYTES)
    ensures LastBytes(Flatten(chunks + [p]), REPLAY_BYTES) == LastBytes(ring + p, REPLAY_BYTES)
  {
    assert (chunks + [p])[..|chunks|] == chunks;
    var s := Flatten(chunks);
    assert Flatten(chunks + [p]) == s + p;
  }

  lemma {:induction false} MissingUpdate(history: seq<History>, i: nat, h: History)
    requires i < |history|
    ensures Missing(history[i := h]) + |history[i].missed| == Missing(history) + |h.missed|
  {
    var n := |history| - 1;
    if i == n {
      assert history[i := h][..n] == history[..n];
    } else {
      MissingUpdate(history[..n], i, h);
      assert history[i := h][..n] == history[..n][i := h];
    }
  }

  /** The subscribers that are not in `todo` have been offered the chunk. */
  ghost predicate Offered(was: seq<Channel>, now: seq<Channel>, subs: set<nat>, todo: set<nat>, p: Chunk) {
    && |now| == |was| && (forall id: nat | id < |was| :: id in subs <==> !was[id].closed)
    && forall id: nat | id < |was| :: now[id] == if id in subs && id !in todo then Offer(was[id], p) else was[id]
  }

  lemma OfferedNext(was: seq<Channel>, now: seq<Channel>, subs: set<nat>, todo: set<nat>, p: Chunk, id: nat)
    requires Offered(was, now, subs, todo, p) && id in todo && todo <= subs && id < |was|
    ensures !now[id].closed && now[id] == was[id] && Offered(was, now[id := Offer(now[id], p)], subs, todo - {id}, p)
    ensures |FullOnes(was) - (todo - {id})| == |FullOnes(was) - todo| + if |was[id].queue| >= 256 then 1 else 0
  {
    var full := FullOnes(was);
    assert full - (todo - {id}) == (full - todo) + if id in full then {id} else {};
  }

  /** The loop over subscribers: the channels were `was` and the histories `start` when it began. */
  ghost predicate Progress(was: seq<Channel>, now: seq<Channel>, subs: set<nat>, todo: set<nat>, p: Chunk,
                           start: seq<History>, history: seq<History>, drops: nat, dropped: nat) {
    Offered(was, now, subs, todo, p) && Grown(start, history) && dropped == drops + |FullOnes(was) - todo|
  }

  lemma ProgressNext(was: seq<Channel>, now: seq<Channel>, next: seq<Channel>, subs: set<nat>, todo: set<nat>, p: Chunk, id: nat,
                     start: seq<History>, before: seq<History>, history: seq<History>, drops: nat, had: nat, dropped: nat)
    requires Progress(was, now, subs, todo, p, start, before, drops, had) && id in todo && todo <= subs && id < |was|
    requires !now[id].closed && next == now[id := Offer(now[id], p)] && Grown(before, history)
    requires dropped == had + if |now[id].queue| >= CHANNEL_CAP then 1 else 0
    ensures Progress(was, next, subs, todo - {id}, p, start, history, drops, dropped)
  {
    OfferedNext(was, now, subs, todo, p, id);
    GrownTwice(start, before, history);
  }

  /** Every open channel with room for it, 256 chunks in all, has the chunk at its end; no other channel has changed. */
  ghost predicate Took(was: seq<Channel>, now: seq<Channel>, p: Chunk) {
    |now| == |was| && forall id: nat | id < |now| ::
      now[id] == if was[id].closed || |was[id].queue| >= 256 then was[id] else was[id].(queue := was[id].queue + [p])
  }

  lemma ProgressEnds(was: seq<Channel>, now: seq<Channel>, subs: set<nat>, p: Chunk,
                     start: seq<History>, history: seq<History>, drops: nat, dropped: nat)
    requires Progress(was, now, subs, {}, p, start, history, drops, dropped)
    ensures Took(was, now, p) && Grown(start, history) && dropped == drops + |FullOnes(was)|
  {
    assert FullOnes(was) - {} == FullOnes(was);
  }

  /** The open channels that have no room. */
  ghost function FullOnes(channels: seq<Channel>): set<nat> {
    set id: nat | id < |channels| && !channels[id].closed && |channels[id].queue| >= 256
  }

  class Tap {
    var ring: seq<Byte>
    var subs: set<nat>
    /** Every channel handed out, by number; `subs` are those still subscribed. */
    var channels: seq<Channel>
    var closed: bool
    var dropped: nat
    ghost var chunks: seq<Chunk>
    ghost var history: seq<History>

    /** Channel `id` while `todo` watchers have not been offered the last of the chunks yet. */
    ghost predicate Watching(id: nat, todo: set<nat>)
      requires id < |channels| == |history|
      reads this`subs, this`channels, this`chunks, this`history
    {
      && |channels[id].queue| <= CHANNEL_CAP
      && Follows(channels[id], history[id], chunks)
      && (id in subs <==> !channels[id].closed)
      && (id in subs ==> history[id].left + (if id in todo then 1 else 0) == |chunks|)
    }

    ghost predicate Offering(todo: set<nat>)
      reads this`ring, this`subs, this`channels, this`dropped, this`chunks, this`history
    {
      && ring == LastBytes(Flatten(chunks), REPLAY_BYTES)
      && |channels| == |history|
      && (forall id | id in subs :: id < |channels|)
      && (forall id: nat | id < |channels| :: Watching(id, todo))
      && dropped == Missing(history)
    }

    ghost predicate Valid()
      reads this
    {
      Offering({}) && (closed ==> subs == {})
    }

    /** The ring is the end of the stream: all of it while it is short, and always its last 64 KiB. */
    lemma RingIsTheEnd()
      requires Valid()
      ensures |ring| == Min(65536, |Flatten(chunks)|) && ring == Flatten(chunks)[|Flatten(chunks)| - |ring|..]
    {
    }

    constructor ()
      ensures Valid() && chunks == [] && channels == [] && !closed && dropped == 0
    {
      ring, subs, channels, closed, dropped := [], {}, [], false, 0;
      chunks, history := [], [];
    }

    /** Appends the chunk to the ring and offers it to every subscriber. */
    method Write(p: Chunk)
      requires Valid()
      modifies this`ring, this`channels, this`dropped, this`chunks, this`history
      ensures Valid()
      ensures |p| == 0 || closed ==> chunks == old(chunks) && channels == old(channels) && ring == old(ring) && dropped == old(dropped)
      ensures |p| > 0 && !closed ==> chunks == old(chunks) + [p]
      ensures Grown(old(history), history) && |history| == |old(history)|
      ensures |p| > 0 && !closed ==> Took(old(channels), channels, p) && dropped == old(dropped) + |FullOnes(old(channels))|
    {
      if |p| == 0 || closed {
        return;
      }
      Remember(p);
      OfferAll(p);
      ProgressEnds(old(channels), channels, subs, p, old(history), history, old(dropped), dropped);
    }

    /** Offers the last chunk written to every subscriber, in no particular order. */
    method OfferAll(p: Chunk)
      requires chunks != [] && chunks[|chunks| - 1] == p && Offering(subs)
      modifies this`channels, this`dropped, this`history
      ensures Offering({}) && Progress(old(channels), channels, subs, {}, p, old(history), history, old(dropped), dropped)
    {
      ghost var was := channels;
      OfferStarts(p);
      var todo := subs;
      while todo != {}
        invariant todo <= subs && Offering(todo) && Progress(was, channels, subs, todo, p, old(history), history, old(dropped), dropped)
        decreases |todo|
      {
        var id :| id in todo;
        OfferNext(id, todo, p, was, old(history), old(dropped));
        todo := todo - {id};
      }
    }

    lemma OfferStarts(p: Chunk)
      requires Offering(subs)
      ensures Progress(channels, channels, subs, subs, p, history, history, dropped, dropped)
    {
      forall id: nat | id < |channels| ensures id in subs <==> !channels[id].closed { assert Watching(id, subs); }
      assert FullOnes(channels) - subs == {};
    }

    method OfferNext(id: nat, ghost todo: set<nat>, p: Chunk, ghost was: seq<Channel>, ghost start: seq<History>, ghost drops: nat)
      requires id in todo && todo <= subs && Offering(todo) && chunks != [] && chunks[|chunks| - 1] == p
      requires Progress(was, channels, subs, todo, p, start, history, drops, dropped)
      modifies this`channels, this`dropped, this`history
      ensures Offering(todo - {id})
      ensures Progress(was, channels, subs, todo - {id}, p, start, history, drops, dropped)
    {
      ghost var now, before, had := channels, history, dropped;
      OfferOne(id, todo, p);
      ProgressNext(was, now, channels, subs, todo, p, id, start, before, history, drops, had, dropped);
    }

    /** The ring takes the chunk; no watcher has been offered it yet. */
    method Remember(p: Chunk)
      requires Valid() && !closed
      modifies this`ring, this`chunks
      ensures chunks == old(chunks) + [p] && Offering(subs)
    {
      RingNext(chunks, ring, p);
      ring := ring + p;
      if |ring| > REPLAY_BYTES {
        ring := ring[|ring| - REPLAY_BYTES..];
      }
      forall id: nat | id < |channels| ensures Follows(channels[id], history[id], chunks + [p]) {
        assert Watching(id, {});
        FollowsStill(channels[id], history[id], chunks, p);
      }
      chunks := chunks + [p];
      forall k: nat | k < |channels| ensures Watching(k, subs) {
        assert old(Watching(k, {}));
      }
    }

    method OfferOne(id: nat, ghost todo: set<nat>, p: Chunk)
      requires id in todo && todo <= subs && Offering(todo)
      requires chunks != [] && chunks[|chunks| - 1] == p
      modifies this`channels, this`dropped, this`history
      ensures Offering(todo - {id}) && !old(channels)[id].closed && Grown(old(history), history)
      ensures channels == old(channels)[id := Offer(old(channels)[id], p)]
      ensures dropped == old(dropped) + if |old(channels)[id].queue| >= CHANNEL_CAP then 1 else 0
    {
      var c := channels[id];
      assert Watching(id, todo);
      FollowsNext(c, history[id], chunks, p);
      MissingUpdate(history, id, Noted(c, history[id]));
      history := history[id := Noted(c, history[id])];
      if |c.queue| < CHANNEL_CAP {
        channels := channels[id := c.(queue := c.queue + [p])];
      } else {
        channels := channels[id := c];
        dropped := dropped + 1;
      }
      forall k: nat | k < |channels| ensures Watching(k, todo - {id}) {
        assert old(Watching(k, todo));
      }
    }

    /** Registers a watcher: the recent output now, everything after it on the channel. */
    method Subscribe() returns (id: nat, replay: seq<Byte>)
      requires Valid()
      modifies this`subs, this`channels, this`history
      ensures Valid()
      ensures id == |old(channels)| && channels == old(channels) + [Channel([], [], closed)]
      ensures replay == ring && history == old(history) + [History(replay, |chunks|, |chunks|, {})] && Grown(old(history), history)
      ensures subs == old(subs) + if closed then {} else {id}
    {
      id, replay := |channels|, ring;
      channels := channels + [Channel([], [], closed)];
      history := history + [History(replay, |chunks|, |chunks|, {})];
      if !closed {
        subs := subs + {id};
      }
      assert chunks[..|chunks|] == chunks;
      assert history[..id] == old(history);
      forall k: nat | k < |channels| ensures Watching(k, {}) {
        assert k < id ==> old(Watching(k, {}));
      }
    }

    /** What a caller sees. Take the history as it stood when the watcher
        subscribed: if the count of drops has not grown since, the replay it
        was given then and everything its channel has carried are the end of
        the stream, with no gap and no overlap. */
    lemma {:induction false} SubscriberSeesTheStream(was: seq<History>, id: nat)
      requires Valid() && id in subs && id < |was| && was[id].missed == {}
      requires Grown(was, history) && Missing(was) == dropped
      ensures was[id].joined <= |chunks|
      ensures var seen := was[id].replay + Flatten(channels[id].Sent());
              var start := |Flatten(chunks[..was[id].joined])| - |was[id].replay|;
              0 <= start <= |Flatten(chunks)| && seen == Flatten(chunks)[start..]
    {
      MissingGrows(was, history);
      assert Continues(was[id], history[id]) && Watching(id, {});
      NoGapNoOverlap(channels[id], history[id], chunks);
      assert chunks[..|chunks|] == chunks;
    }

    /** Unsubscribes; a second cancel, or one after Close, does nothing. */
    method Cancel(id: nat)
      requires Valid()
      modifies this`subs, this`channels
      ensures Valid() && subs == old(subs) - {id} && |channels| == |old(channels)|
      ensures channels == if id in old(subs) then old(channels)[id := old(channels)[id].(closed := true)] else old(channels)
    {
      if id in subs {
        assert Watching(id, {});
        subs := subs - {id};
        channels := channels[id := Shut(channels[id])];
        forall k: nat | k < |channels| ensures Watching(k, {}) {
          assert old(Watching(k, {}));
        }
      }
    }

    /** Ends the tap: every subscriber's channel is closed once, later writes are discarded. */
    method Close()
      requires Valid()
      modifies this`closed, this`subs, this`channels
      ensures Valid() && closed && subs == {} && |channels| == |old(channels)|
      ensures forall k: nat | k < |channels| :: channels[k] == old(channels)[k].(closed := true)
    {
      if closed {
        forall k: nat | k < |channels| ensures channels[k].closed { assert Watching(k, {}); }
        return;
      }
      forall k: nat | k < |channels| ensures k in subs <==> !channels[k].closed { assert Watching(k, {}); }
      while subs != {}
        invariant Offering({}) && |channels| == |old(channels)|
        invariant forall k: nat | k < |channels| :: channels[k] == if k in subs then old(channels)[k] else old(channels)[k].(closed := true)
        decreases |subs|
      {
        var id :| id in subs;
        assert Watching(id, {});
        label Before:
        subs := subs - {id};
        channels := channels[id := Shut(channels[id])];
        forall k: nat | k < |channels| ensures Watching(k, {}) {
          assert old@Before(Watching(k, {}));
        }
      }
      closed := true;
    }

    /** The watcher takes the next chunk that waits, if any; a closed channel is drained first. */
    method Receive(id: nat) returns (r: Option<Chunk>)
      requires Valid() && id < |channels|
      modifies this`channels
      ensures Valid() && |channels| == |old(channels)|
      ensures r.None? <==> old(channels)[id].queue == []
      ensures channels[id].Sent() == old(channels)[id].Sent() && channels[id].closed == old(channels)[id].closed
      ensures r.Some? ==> channels[id].taken == old(channels)[id].taken + [r.value]
      ensures forall k: nat | k < |channels| && k != id :: channels[k] == old(channels)[k]
    {
      var c := channels[id];
      if c.queue == [] {
        return None;
      }
      r := Some(c.queue[0]);
      assert c.queue == [c.queue[0]] + c.queue[1..];
      assert Watching(id, {});
      channels := channels[id := c.(queue := c.queue[1..], taken := c.taken + [c.queue[0]])];
      assert channels[id].Sent() == c.Sent();
      forall k: nat | k < |channels| ensures Watching(k, {}) {
        assert old(Watching(k, {}));
      }
    }
  }
}
