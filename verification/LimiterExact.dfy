/** Exactly which calls the limiter grants: the converse of its window bound. */
module RateLimitExact {
  import opened RateLimit

  lemma {:induction false} CallsOfKey(cfg: Config, calls: seq<Call>, key: string)
    requires Monotone(calls)
    ensures key in Replay(cfg, calls) <==> exists i :: 0 <= i < |calls| && calls[i].key == key
    ensures forall i :: 0 <= i < |calls| && calls[i].key == key ==> calls[i].at <= Replay(cfg, calls)[key].last
  {
    if calls != [] {
      var n := |calls| - 1;
      CallsOfKey(cfg, calls[..n], key);
      assert forall i :: 0 <= i < n ==> calls[i] == calls[..n][i];
    }
  }

  /** A window may end anywhere after the key's last call. */
  lemma {:induction false} NothingLater(cfg: Config, calls: seq<Call>, key: string, s: real, t: real, u: real)
    requires t <= u && forall i :: 0 <= i < |calls| && calls[i].key == key ==> calls[i].at <= t
    ensures Granted(cfg, calls, key, s, u) == Granted(cfg, calls, key, s, t)
  {
    if calls != [] {
      var n := |calls| - 1;
      assert forall i :: 0 <= i < n ==> calls[i] == calls[..n][i];
      NothingLater(cfg, calls[..n], key, s, t, u);
    }
  }

  /** A window that starts after the key's last call holds no grant. */
  lemma {:induction false} NothingYet(cfg: Config, calls: seq<Call>, key: string, s: real, t: real)
    requires forall i :: 0 <= i < |calls| && calls[i].key == key ==> calls[i].at < s
    ensures Granted(cfg, calls, key, s, t) == 0
  {
    if calls != [] {
      var n := |calls| - 1;
      assert forall i :: 0 <= i < n ==> calls[i] == calls[..n][i];
      NothingYet(cfg, calls[..n], key, s, t);
    }
  }

  /** A bucket holds what was refilled since it last was full, less the g calls granted since. */
  ghost predicate FullSince(cfg: Config, b: Bucket, s: real, g: nat) {
    s <= b.last && b.tokens < cfg.capacity && b.tokens == cfg.capacity + cfg.rate * (b.last - s) - g as real
  }

  /** The bucket a granted or denied call leaves. */
  function Touched(level: real, at: real): Bucket {
    Bucket(level - (if level >= 1.0 then 1.0 else 0.0), at)
  }

  lemma FullNow(cfg: Config, at: real)
    requires cfg.capacity >= 1.0
    ensures FullSince(cfg, Touched(cfg.capacity, at), at, 1)
  {
  }

  /** A call that finds the bucket short of full refills it for the time passed. */
  lemma StillFilling(cfg: Config, b: Bucket, s: real, g: nat, at: real)
    requires cfg.capacity >= 1.0 && cfg.rate >= 0.0 && b.last <= at && FullSince(cfg, b, s, g)
    requires !Overfills(cfg, b, at)
    ensures var level := Level(cfg, b, at);
            FullSince(cfg, Touched(level, at), s, if level >= 1.0 then g + 1 else g)
  {
    RefillsAdd(cfg.rate, s, b.last, at);
  }

  lemma AfterTouches(cfg: Config, buckets: map<string, Bucket>, c: Call)
    requires cfg.capacity >= 1.0
    ensures After(cfg, buckets, c)[c.key] == Touched(Before(cfg, buckets, c), c.at)
    ensures Grants(cfg, buckets, c) <==> Before(cfg, buckets, c) >= 1.0
  {
  }

  lemma {:induction false} GrantedNext(cfg: Config, init: seq<Call>, c: Call, s: real)
    requires s <= c.at
    ensures Granted(cfg, init + [c], c.key, s, c.at) ==
            Granted(cfg, init, c.key, s, c.at) + if Decision(cfg, init, c) then 1 else 0
  {
    assert (init + [c])[..|init|] == init;
  }

  ghost predicate FullSinceIn(cfg: Config, calls: seq<Call>, key: string, s: real) {
    && key in Replay(cfg, calls)
    && var b := Replay(cfg, calls)[key]; FullSince(cfg, b, s, Granted(cfg, calls, key, s, b.last))
  }

  /** A call that would overfill the bucket finds it full. */
  ghost predicate Overfills(cfg: Config, b: Bucket, at: real) {
    b.tokens + cfg.rate * (at - b.last) > cfg.capacity
  }

  lemma {:induction false} LastFull(cfg: Config, calls: seq<Call>, key: string) returns (s: real)
    requires cfg.capacity >= 1.0 && cfg.rate >= 0.0 && Monotone(calls) && key in Replay(cfg, calls)
    ensures FullSinceIn(cfg, calls, key, s)
  {
    var n := |calls| - 1;
    var init, c := calls[..n], calls[n];
    assert calls == init + [c];
    var before := Replay(cfg, init);
    BucketsAreOlder(cfg, init, c.at);
    if key in before {
      s := LastFull(cfg, init, key);
      if c.key != key {
        OtherKeyFullSince(cfg, init, c, key, s);
      } else if !Overfills(cfg, before[key], c.at) {
        NextFullSince(cfg, init, c, s);
      } else {
        ShortOfFull(cfg, init, key, s);
        s := c.at;
        FreshFullSince(cfg, init, c);
      }
    } else {
      s := c.at;
      FreshFullSince(cfg, init, c);
    }
  }

  lemma {:induction false} ShortOfFull(cfg: Config, calls: seq<Call>, key: string, s: real)
    requires FullSinceIn(cfg, calls, key, s)
    ensures Replay(cfg, calls)[key].tokens < cfg.capacity
  {
  }

  lemma {:induction false} OtherKeyFullSince(cfg: Config, init: seq<Call>, c: Call, key: string, s: real)
    requires c.key != key && FullSinceIn(cfg, init, key, s)
    ensures FullSinceIn(cfg, init + [c], key, s)
  {
    assert (init + [c])[..|init|] == init;
  }

  lemma {:induction false} NextFullSince(cfg: Config, init: seq<Call>, c: Call, s: real)
    requires cfg.capacity >= 1.0 && cfg.rate >= 0.0 && Monotone(init) && FullSinceIn(cfg, init, c.key, s)
    requires var b := Replay(cfg, init)[c.key]; b.last <= c.at && !Overfills(cfg, b, c.at)
    ensures FullSinceIn(cfg, init + [c], c.key, s)
  {
    var before := Replay(cfg, init);
    var b, g := before[c.key], Granted(cfg, init, c.key, s, before[c.key].last);
    CallsOfKey(cfg, init, c.key);
    NothingLater(cfg, init, c.key, s, b.last, c.at);
    GrantedNext(cfg, init, c, s);
    StillFilling(cfg, b, s, g, c.at);
    AfterTouches(cfg, before, c);
    assert (init + [c])[..|init|] == init;
  }

  lemma {:induction false} FreshFullSince(cfg: Config, init: seq<Call>, c: Call)
    requires cfg.capacity >= 1.0 && cfg.rate >= 0.0 && Monotone(init)
    requires var before := Replay(cfg, init);
             c.key in before ==>
               before[c.key].last <= c.at && before[c.key].tokens < cfg.capacity && Overfills(cfg, before[c.key], c.at)
    ensures FullSinceIn(cfg, init + [c], c.key, c.at)
  {
    var before := Replay(cfg, init);
    if c.key in before {
      LaterIfRefilled(cfg, before[c.key], c.at);
    }
    CallsOfKey(cfg, init, c.key);
    NothingYet(cfg, init, c.key, c.at, c.at);
    GrantedNext(cfg, init, c, c.at);
    AfterTouches(cfg, before, c);
    FullNow(cfg, c.at);
    assert (init + [c])[..|init|] == init;
  }

  lemma LaterIfRefilled(cfg: Config, b: Bucket, at: real)
    requires b.last <= at && b.tokens < cfg.capacity && Overfills(cfg, b, at)
    ensures b.last < at && Level(cfg, b, at) == cfg.capacity
  {
    assert b.last == at ==> cfg.rate * (at - b.last) == 0.0;
  }

  /** One more grant after g in [s, t] stays within one capacity plus the refill of the window. */
  ghost predicate OneMoreFits(cfg: Config, g: nat, s: real, t: real) {
    g as real + 1.0 <= cfg.capacity + cfg.rate * (t - s)
  }

  /** The window that ends with the call has room for it. */
  ghost predicate HasRoom(cfg: Config, calls: seq<Call>, c: Call, s: real) {
    OneMoreFits(cfg, Granted(cfg, calls, c.key, s, c.at), s, c.at)
  }

  lemma ShortOfOne(cfg: Config, b: Bucket, s: real, g: nat, at: real)
    requires cfg.capacity >= 1.0 && FullSince(cfg, b, s, g) && Level(cfg, b, at) < 1.0
    ensures !OneMoreFits(cfg, g, s, at)
  {
    RefillsAdd(cfg.rate, s, b.last, at);
  }

  /** Behind a denied call stands a window that has no room for it. */
  lemma {:induction false} WindowFull(cfg: Config, calls: seq<Call>, c: Call) returns (s: real)
    requires cfg.capacity >= 1.0 && cfg.rate >= 0.0 && Monotone(calls) && (calls != [] ==> calls[|calls| - 1].at <= c.at)
    requires !Decision(cfg, calls, c)
    ensures s <= c.at && !HasRoom(cfg, calls, c, s)
  {
    var b := Replay(cfg, calls)[c.key];
    s := LastFull(cfg, calls, c.key);
    BucketsAreOlder(cfg, calls, c.at);
    CallsOfKey(cfg, calls, c.key);
    NothingLater(cfg, calls, c.key, s, b.last, c.at);
    ShortOfOne(cfg, b, s, Granted(cfg, calls, c.key, s, b.last), c.at);
  }

  lemma {:induction false} RoomIfGranted(cfg: Config, calls: seq<Call>, c: Call, s: real)
    requires cfg.capacity >= 1.0 && cfg.rate >= 0.0 && Monotone(calls + [c]) && s <= c.at
    requires Decision(cfg, calls, c)
    ensures HasRoom(cfg, calls, c, s)
  {
    WindowBound(cfg, calls + [c], c.key, s, c.at);
    GrantedNext(cfg, calls, c, s);
  }

  /** The converse of the window bound: a call is granted exactly when every window that ends with
      it has room for it. */
  lemma {:induction false} GrantedExactly(cfg: Config, calls: seq<Call>, c: Call)
    requires cfg.capacity >= 1.0 && cfg.rate >= 0.0 && Monotone(calls + [c])
    ensures Decision(cfg, calls, c) <==> forall s :: s <= c.at ==> HasRoom(cfg, calls, c, s)
  {
    var all := calls + [c];
    assert forall i :: 0 <= i < |calls| ==> calls[i] == all[i];
    assert all[|calls|] == c;
    if Decision(cfg, calls, c) {
      forall s | s <= c.at ensures HasRoom(cfg, calls, c, s) {
        RoomIfGranted(cfg, calls, c, s);
      }
    } else {
      var s := WindowFull(cfg, calls, c);
    }
  }

  /** With less room than one token, a key is granted its first call and no other. */
  lemma {:induction false} BelowOneGrantsOnce(cfg: Config, calls: seq<Call>, c: Call)
    requires cfg.capacity < 1.0 && Monotone(calls)
    ensures Decision(cfg, calls, c) <==> forall i :: 0 <= i < |calls| ==> calls[i].key != c.key
  {
    CallsOfKey(cfg, calls, c.key);
  }
}
