/** The token-bucket limiter with lazy refill. Seconds, rates and tokens are reals; the clock is
    an argument. Whole histories of calls are sequences. */
module RateLimit {

  datatype Bucket = Bucket(tokens: real, last: real)

  datatype Config = Config(rate: real, capacity: real)

  datatype Call = Call(key: string, at: real)

  function Min(a: real, b: real): real {
    if a <= b then a else b
  }

  function Max(a: real, b: real): real {
    if a <= b then b else a
  }

  /** Tokens a bucket holds at a later time, refilled and capped. */
  function Level(cfg: Config, b: Bucket, now: real): real {
    Min(cfg.capacity, b.tokens + cfg.rate * (now - b.last))
  }

  /** A key's first call is always granted; later ones when the refilled bucket holds a token. */
  predicate Grants(cfg: Config, buckets: map<string, Bucket>, c: Call) {
    c.key in buckets ==> Level(cfg, buckets[c.key], c.at) >= 1.0
  }

  function Before(cfg: Config, buckets: map<string, Bucket>, c: Call): real {
    if c.key in buckets then Level(cfg, buckets[c.key], c.at) else cfg.capacity
  }

  function After(cfg: Config, buckets: map<string, Bucket>, c: Call): map<string, Bucket> {
    buckets[c.key := Bucket(Before(cfg, buckets, c) - (if Grants(cfg, buckets, c) then 1.0 else 0.0), c.at)]
  }

  class Limiter {
    const cfg: Config
    var buckets: map<string, Bucket>

    constructor (ratePerSec: real, capacity: real)
      ensures cfg == Config(ratePerSec, capacity) && buckets == map[]
    {
      cfg := Config(ratePerSec, capacity);
      buckets := map[];
    }

    method Allow(key: string, now: real) returns (ok: bool)
      modifies this
      ensures ok == Grants(cfg, old(buckets), Call(key, now))
      ensures buckets == After(cfg, old(buckets), Call(key, now))
    {
      if key !in buckets {
        buckets := buckets[key := Bucket(cfg.capacity - 1.0, now)];
        return true;
      }
      var b := buckets[key];
      b := b.(tokens := b.tokens + (now - b.last) * cfg.rate);
      assert (now - old(buckets)[key].last) * cfg.rate == cfg.rate * (now - old(buckets)[key].last);
      if b.tokens > cfg.capacity {
        b := b.(tokens := cfg.capacity);
      }
      b := b.(last := now);
      if b.tokens < 1.0 {
        buckets := buckets[key := b];
        return false;
      }
      b := b.(tokens := b.tokens - 1.0);
      buckets := buckets[key := b];
      return true;
    }
  }

  // ---------- histories ----------

  function Replay(cfg: Config, calls: seq<Call>): map<string, Bucket> {
    if calls == [] then map[]
    else
      var n := |calls| - 1;
      After(cfg, Replay(cfg, calls[..n]), calls[n])
  }

  /** Decision on the call that follows a history. */
  predicate Decision(cfg: Config, history: seq<Call>, c: Call) {
    Grants(cfg, Replay(cfg, history), c)
  }

  /** The clock never runs backwards. */
  predicate Monotone(calls: seq<Call>) {
    forall i, j :: 0 <= i <= j < |calls| ==> calls[i].at <= calls[j].at
  }

  /** Calls granted to a key at times in [s, t]. */
  function Granted(cfg: Config, calls: seq<Call>, key: string, s: real, t: real): nat {
    if calls == [] then 0
    else
      var n := |calls| - 1;
      Granted(cfg, calls[..n], key, s, t) +
      if calls[n].key == key && s <= calls[n].at <= t && Decision(cfg, calls[..n], calls[n]) then 1 else 0
  }

  lemma {:induction false} BucketsAreOlder(cfg: Config, calls: seq<Call>, now: real)
    requires Monotone(calls) && (calls != [] ==> calls[|calls| - 1].at <= now)
    ensures forall k :: k in Replay(cfg, calls) ==> Replay(cfg, calls)[k].last <= now
  {
    if calls != [] {
      var n := |calls| - 1;
      BucketsAreOlder(cfg, calls[..n], now);
    }
  }

  lemma LevelBetween(cfg: Config, b: Bucket, now: real)
    requires cfg.rate >= 0.0 && b.last <= now
    ensures Min(cfg.capacity, b.tokens) <= Level(cfg, b, now) <= cfg.capacity
    ensures Level(cfg, b, now) <= b.tokens + cfg.rate * (now - b.last)
  {
    Refilled(cfg.rate, b.last, now);
  }

  ghost predicate InRange(cfg: Config, buckets: map<string, Bucket>) {
    forall k :: k in buckets ==> Min(0.0, cfg.capacity - 1.0) <= buckets[k].tokens <= cfg.capacity
  }

  /** A bucket never holds more than the capacity. It never falls below zero when the capacity is
      at least one, and otherwise not below what the first, unconditional grant leaves. */
  lemma {:induction false} TokensInRange(cfg: Config, calls: seq<Call>)
    requires cfg.rate >= 0.0 && Monotone(calls)
    ensures InRange(cfg, Replay(cfg, calls))
  {
    if calls != [] {
      var n := |calls| - 1;
      var init, c := Replay(cfg, calls[..n]), calls[n];
      TokensInRange(cfg, calls[..n]);
      BucketsAreOlder(cfg, calls[..n], c.at);
      var level := Before(cfg, init, c);
      assert c.key in init ==> Min(0.0, cfg.capacity - 1.0) <= level <= cfg.capacity by {
        if c.key in init {
          LevelBetween(cfg, init[c.key], c.at);
        }
      }
      assert c.key in init && Grants(cfg, init, c) ==> level >= 1.0;
    }
  }

  lemma Refilled(rate: real, from: real, to: real)
    requires rate >= 0.0 && from <= to
    ensures rate * (to - from) >= 0.0
  {
  }

  lemma RefillsAdd(rate: real, a: real, b: real, c: real)
    ensures rate * (c - a) == rate * (b - a) + rate * (c - b)
  {
  }

  // ---------- the window bound ----------

  /** Grants g so far in [s, t] against the bucket: what a key has taken and still holds never
      exceeds one burst plus what was refilled since s. */
  ghost predicate Budget(cfg: Config, b: Bucket, g: real, s: real, t: real) {
    && b.tokens <= cfg.capacity
    && (cfg.capacity >= 1.0 ==> b.tokens >= 0.0)
    && (cfg.capacity < 1.0 ==> g <= 1.0)
    && (if b.last < s then g == 0.0 else g + b.tokens <= cfg.capacity + cfg.rate * (b.last - s))
    && g <= Max(1.0, cfg.capacity) + cfg.rate * (t - s)
  }

  ghost predicate BudgetOf(cfg: Config, calls: seq<Call>, key: string, s: real, t: real) {
    var now := Replay(cfg, calls);
    if key !in now then Granted(cfg, calls, key, s, t) == 0
    else Budget(cfg, now[key], Granted(cfg, calls, key, s, t) as real, s, t)
  }

  lemma {:induction false} BudgetKept(cfg: Config, calls: seq<Call>, key: string, s: real, t: real)
    requires cfg.rate >= 0.0 && Monotone(calls) && s <= t
    ensures BudgetOf(cfg, calls, key, s, t)
    ensures Granted(cfg, calls, key, s, t) as real <= Max(1.0, cfg.capacity) + cfg.rate * (t - s)
  {
    Refilled(cfg.rate, s, t);
    if calls != [] {
      var n := |calls| - 1;
      var init, c := calls[..n], calls[n];
      BudgetKept(cfg, init, key, s, t);
      if c.key == key {
        BucketsAreOlder(cfg, init, c.at);
        var before, g := Replay(cfg, init), Granted(cfg, init, key, s, t) as real;
        if key in before {
          BudgetStep(cfg, before[key], g, c.at, s, t);
        } else {
          FirstCall(cfg, c.at, s, t);
        }
      }
    }
  }

  /** The bucket a fresh key gets. */
  lemma FirstCall(cfg: Config, at: real, s: real, t: real)
    requires cfg.rate >= 0.0 && s <= t
    ensures Budget(cfg, Bucket(cfg.capacity - 1.0, at), if s <= at <= t then 1.0 else 0.0, s, t)
  {
    Refilled(cfg.rate, s, t);
    if s <= at {
      Refilled(cfg.rate, s, at);
    }
  }

  lemma {:induction false} BudgetStep(cfg: Config, b: Bucket, g: real, at: real, s: real, t: real)
    requires cfg.rate >= 0.0 && s <= t && b.last <= at && Budget(cfg, b, g, s, t)
    ensures var level := Level(cfg, b, at);
            if level >= 1.0 then Budget(cfg, Bucket(level - 1.0, at), g + (if s <= at <= t then 1.0 else 0.0), s, t)
            else Budget(cfg, Bucket(level, at), g, s, t)
  {
    var level := Level(cfg, b, at);
    LevelBetween(cfg, b, at);
    if s <= at {
      BudgetCarried(cfg, b, g, at, s, t);
    }
    if s <= at <= t && level >= 1.0 {
      RoomInWindow(cfg, g, level, at, s, t);
    }
  }

  /** Before the window nothing was granted; inside it the refill carries the budget forward. */
  lemma {:induction false} BudgetCarried(cfg: Config, b: Bucket, g: real, at: real, s: real, t: real)
    requires cfg.rate >= 0.0 && s <= at && b.last <= at && Budget(cfg, b, g, s, t)
    ensures g + Level(cfg, b, at) <= cfg.capacity + cfg.rate * (at - s)
  {
    LevelBetween(cfg, b, at);
    if b.last < s {
      Refilled(cfg.rate, s, at);
    } else {
      RefillsAdd(cfg.rate, s, b.last, at);
    }
  }

  lemma {:induction false} RoomInWindow(cfg: Config, g: real, level: real, at: real, s: real, t: real)
    requires cfg.rate >= 0.0 && s <= at <= t && 1.0 <= level && g + level <= cfg.capacity + cfg.rate * (at - s)
    ensures g + 1.0 <= cfg.capacity + cfg.rate * (t - s)
  {
    RefillsAdd(cfg.rate, s, at, t);
    Refilled(cfg.rate, at, t);
  }

  /** In any history and any window, a key is granted at most one burst plus the refill of that
      window. A burst is the capacity, or the one call a fresh key always gets. */
  lemma {:induction false} WindowBound(cfg: Config, calls: seq<Call>, key: string, s: real, t: real)
    requires cfg.rate >= 0.0 && Monotone(calls) && s <= t
    ensures Granted(cfg, calls, key, s, t) as real <= Max(1.0, cfg.capacity) + cfg.rate * (t - s)
  {
    BudgetKept(cfg, calls, key, s, t);
  }

  ghost predicate CapacityBounds(cfg: Config) {
    forall calls, key, s, t :: Monotone(calls) && s <= t ==>
      Granted(cfg, calls, key, s, t) as real <= cfg.capacity + cfg.rate * (t - s)
  }

  /** The bound by capacity itself holds for every history exactly when capacity is at least one. */
  lemma CapacityBoundsExactly(cfg: Config)
    requires cfg.rate >= 0.0
    ensures CapacityBounds(cfg) <==> cfg.capacity >= 1.0
  {
    if cfg.capacity >= 1.0 {
      forall calls, key, s, t | Monotone(calls) && s <= t
        ensures Granted(cfg, calls, key, s, t) as real <= cfg.capacity + cfg.rate * (t - s)
      {
        WindowBound(cfg, calls, key, s, t);
      }
    } else {
      var once := [Call("k", 0.0)];
      assert once[..0] == [];
      assert Granted(cfg, once, "k", 0.0, 0.0) == 1;
      assert Monotone(once);
    }
  }

  // ---------- denied calls are inert ----------

  /** The calls whose mark is set. */
  function Keep(calls: seq<Call>, marks: seq<bool>): seq<Call>
    requires |calls| == |marks|
  {
    if calls == [] then []
    else
      var n := |calls| - 1;
      Keep(calls[..n], marks[..n]) + if marks[n] then [calls[n]] else []
  }

  /** Only denied calls of this key, and any calls of other keys, are dropped. */
  predicate DropsDenied(cfg: Config, calls: seq<Call>, marks: seq<bool>, key: string)
    requires |calls| == |marks|
  {
    forall i :: 0 <= i < |calls| && calls[i].key == key && !marks[i] ==> !Decision(cfg, calls[..i], calls[i])
  }

  /** A bucket touched by extra denied calls is the other one refilled up to its last touch. */
  ghost predicate Ahead(cfg: Config, full: map<string, Bucket>, kept: map<string, Bucket>, key: string) {
    && (key in full <==> key in kept)
    && (key in full ==>
          && kept[key].last <= full[key].last
          && full[key].tokens == Level(cfg, kept[key], full[key].last)
          && kept[key].tokens <= cfg.capacity)
  }

  /** Refilling in two steps is refilling once. */
  lemma RefillsCompose(cfg: Config, b: Bucket, mid: real, now: real)
    requires cfg.rate >= 0.0 && b.last <= mid <= now
    ensures Level(cfg, Bucket(Level(cfg, b, mid), mid), now) == Level(cfg, b, now)
  {
  }

  lemma AheadDecidesAlike(cfg: Config, full: map<string, Bucket>, kept: map<string, Bucket>, c: Call)
    requires cfg.rate >= 0.0 && Ahead(cfg, full, kept, c.key) && (c.key in full ==> full[c.key].last <= c.at)
    ensures Before(cfg, full, c) == Before(cfg, kept, c) && Grants(cfg, full, c) == Grants(cfg, kept, c)
  {
  }

  lemma {:induction false} KeptStaysAhead(cfg: Config, calls: seq<Call>, marks: seq<bool>, key: string)
    requires |calls| == |marks| && cfg.rate >= 0.0 && Monotone(calls) && DropsDenied(cfg, calls, marks, key)
    ensures Ahead(cfg, Replay(cfg, calls), Replay(cfg, Keep(calls, marks)), key)
  {
    if calls != [] {
      var n := |calls| - 1;
      var init, c := calls[..n], calls[n];
      assert forall i :: 0 <= i < n ==> init[..i] == calls[..i];
      KeptStaysAhead(cfg, init, marks[..n], key);
      BucketsAreOlder(cfg, init, c.at);
      var full, kept := Replay(cfg, init), Replay(cfg, Keep(init, marks[..n]));
      if marks[n] {
        var more := Keep(calls, marks);
        assert more[..|more| - 1] == Keep(init, marks[..n]);
      } else {
        assert Keep(calls, marks) == Keep(init, marks[..n]);
      }
      if c.key == key {
        AheadDecidesAlike(cfg, full, kept, c);
        TouchedAhead(cfg, full, kept, c, marks[n]);
      }
    }
  }

  lemma TouchedAhead(cfg: Config, full: map<string, Bucket>, kept: map<string, Bucket>, c: Call, mark: bool)
    requires Ahead(cfg, full, kept, c.key) && (c.key in full ==> full[c.key].last <= c.at)
    requires Before(cfg, full, c) == Before(cfg, kept, c) && Grants(cfg, full, c) == Grants(cfg, kept, c)
    requires mark || !Grants(cfg, full, c)
    ensures Ahead(cfg, After(cfg, full, c), if mark then After(cfg, kept, c) else kept, c.key)
  {
  }

  /** Dropping any denied calls of a key, and any calls of other keys, changes no decision on that
      key: call i is decided after the calls kept before it as it is after all of them. */
  lemma DeniedCallsInert(cfg: Config, calls: seq<Call>, marks: seq<bool>, i: nat)
    requires |calls| == |marks| && i < |calls| && cfg.rate >= 0.0 && Monotone(calls)
    requires DropsDenied(cfg, calls[..i], marks[..i], calls[i].key)
    ensures Decision(cfg, Keep(calls[..i], marks[..i]), calls[i]) == Decision(cfg, calls[..i], calls[i])
  {
    var before, c := calls[..i], calls[i];
    assert forall j :: 0 <= j < i ==> before[..j] == calls[..j];
    BucketsAreOlder(cfg, before, c.at);
    KeptStaysAhead(cfg, before, marks[..i], c.key);
    AheadDecidesAlike(cfg, Replay(cfg, before), Replay(cfg, Keep(before, marks[..i])), c);
  }
}
