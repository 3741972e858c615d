/**
 * The sharded rate limiter (src/RateLimiter.cpp) and the plain per-key window counter it
 * stands for.  Clock readings are nanoseconds and are inputs: each call reads the clock
 * before it takes the shard's mutex, so readings may arrive out of order.
 */
module RateLimiterModel {
  import opened Basics

  const SECOND: int := 1_000_000_000
  const MINUTE: int := 60 * SECOND

  /** `duration_cast` truncates toward zero. */
  function Truncate(d: int, unit: int): int
    requires unit > 0
  {
    if d >= 0 then d / unit else -((-d) / unit)
  }

  datatype Bucket = Bucket(count: nat, windowStart: int, lastSeen: int)

  datatype Shard = Shard(buckets: map<string, Bucket>, operations: nat)

  datatype Config = Config(maxPerMinute: nat, shards: nat, hash: string -> nat)

  predicate Idle(b: Bucket, now: int) {
    Truncate(now - b.lastSeen, MINUTE) >= 5
  }

  /** The shard after the idle buckets were erased. */
  function Cleaned(m: map<string, Bucket>, now: int): map<string, Bucket> {
    map k | k in m && !Idle(m[k], now) :: m[k]
  }

  /** The bucket `allow` works on, and what it does with it. */
  function Used(b: Bucket, now: int, max: nat): (Bucket, bool) {
    var b1 := if b.windowStart == 0 then b.(windowStart := now, count := 0) else b;
    var b2 := b1.(lastSeen := now);
    var b3 := if Truncate(now - b2.windowStart, SECOND) >= 60 then b2.(windowStart := now, count := 0) else b2;
    if b3.count >= max then (b3, false) else (b3.(count := b3.count + 1), true)
  }

  /** One call on one shard. */
  function ShardAllow(sh: Shard, key: string, now: int, max: nat): (Shard, bool) {
    var operations := sh.operations + 1;
    var m := if operations % 4096 == 0 then Cleaned(sh.buckets, now) else sh.buckets;
    var (b, ok) := Used(if key in m then m[key] else Bucket(0, 0, 0), now, max);
    (Shard(m[key := b], operations), ok)
  }

  /** One call of `allow`. */
  function Allow(c: Config, shards: seq<Shard>, key: string, now: int): (r: (seq<Shard>, bool))
    requires c.shards >= 1 && |shards| == c.shards
    ensures |r.0| == c.shards
  {
    if c.maxPerMinute == 0 then (shards, false) else
      var i := ShardOf(c.hash, c.shards, key);
      var (sh, ok) := ShardAllow(shards[i], key, now, c.maxPerMinute);
      (shards[i := sh], ok)
  }

  // ---------------------------------------------------------------- the specification

  /** A fixed 60-second window counter for one key; nothing is ever forgotten. */
  datatype Window = Window(count: nat, start: int)

  function CountCall(w: Option<Window>, now: int, max: nat): (Window, bool) {
    var current := if w.None? || now - w.value.start >= MINUTE then Window(0, now) else w.value;
    if current.count >= max then (current, false) else (current.(count := current.count + 1), true)
  }

  function Lookup(ws: map<string, Window>, key: string): Option<Window> {
    if key in ws then Some(ws[key]) else None
  }

  function SpecAllow(max: nat, ws: map<string, Window>, key: string, now: int): (map<string, Window>, bool) {
    if max == 0 then (ws, false) else
      var (w, ok) := CountCall(Lookup(ws, key), now, max);
      (ws[key := w], ok)
  }

  datatype Call = Call(key: string, now: int)

  function Answers(c: Config, shards: seq<Shard>, calls: seq<Call>): (r: seq<bool>)
    requires c.shards >= 1 && |shards| == c.shards
    ensures |r| == |calls|
    decreases |calls|
  {
    if calls == [] then [] else
      var (next, ok) := Allow(c, shards, calls[0].key, calls[0].now);
      [ok] + Answers(c, next, calls[1..])
  }

  function SpecAnswers(max: nat, ws: map<string, Window>, calls: seq<Call>): (r: seq<bool>)
    ensures |r| == |calls|
    decreases |calls|
  {
    if calls == [] then [] else
      var (next, ok) := SpecAllow(max, ws, calls[0].key, calls[0].now);
      [ok] + SpecAnswers(max, next, calls[1..])
  }

  /** A freshly constructed limiter. */
  function NewShards(c: Config): seq<Shard> {
    seq(c.shards, _ => Shard(map[], 0))
  }

  /** Readings are positive and never more than `skew` behind an earlier one. */
  ghost predicate Readings(calls: seq<Call>, skew: int) {
    && (forall i :: 0 <= i < |calls| ==> calls[i].now > 0)
    && (forall i, j :: 0 <= i < j < |calls| ==> calls[j].now >= calls[i].now - skew)
  }

  // ---------------------------------------------------------------- simulation

  const SKEW: int := 2 * MINUTE

  /** A bucket agrees with the window of its key; a missing one can only have expired. */
  ghost predicate KeySim(m: map<string, Bucket>, ws: map<string, Window>, key: string, latest: int) {
    if key in m then
      && key in ws && ws[key] == Window(m[key].count, m[key].windowStart)
      && 0 < m[key].windowStart <= m[key].lastSeen + SKEW
    else
      key in ws ==> ws[key].start + MINUTE <= latest - SKEW
  }

  ghost predicate Sim(c: Config, shards: seq<Shard>, ws: map<string, Window>, latest: int)
    requires c.shards >= 1 && |shards| == c.shards
  {
    && (forall key :: KeySim(shards[ShardOf(c.hash, c.shards, key)].buckets, ws, key, latest))
    && (forall key :: key in ws ==> ws[key].start <= latest)
  }

  lemma TruncateCompares(d: int, unit: int, n: nat)
    requires unit > 0 && n > 0
    ensures Truncate(d, unit) >= n <==> d >= n * unit
  {
    if d >= 0 {
      assert d == unit * (d / unit) + d % unit;
      if d / unit >= n {
        assert unit * (d / unit) >= unit * n;
      } else {
        assert unit * (d / unit) <= unit * (n - 1);
      }
    } else {
      assert (-d) / unit >= 0;
      assert n * unit > 0;
    }
  }

  /** Erasing an idle bucket loses nothing: its window has expired for every reading still to come. */
  lemma CleanupKeepsSim(m: map<string, Bucket>, ws: map<string, Window>, key: string, now: int, latest: int)
    requires KeySim(m, ws, key, latest) && now <= latest
    ensures KeySim(Cleaned(m, now), ws, key, latest)
  {
    if key in m {
      TruncateCompares(now - m[key].lastSeen, MINUTE, 5);
    }
  }

  /** The call itself: bucket and window move together and answer alike. */
  lemma UseKeepsSim(m: map<string, Bucket>, ws: map<string, Window>, key: string, now: int, max: nat, latest: int)
    requires KeySim(m, ws, key, latest) && 0 < now <= latest && latest - SKEW <= now
    requires key in ws ==> ws[key].start <= latest
    ensures var (b, ok) := Used(if key in m then m[key] else Bucket(0, 0, 0), now, max);
            var (w, answer) := CountCall(Lookup(ws, key), now, max);
            ok == answer && KeySim(m[key := b], ws[key := w], key, latest) && w.start <= latest
  {
    var b := if key in m then m[key] else Bucket(0, 0, 0);
    TruncateCompares(now - (if b.windowStart == 0 then now else b.windowStart), SECOND, 60);
  }

  lemma AllowKeepsSim(c: Config, shards: seq<Shard>, ws: map<string, Window>, key: string, now: int, latest: int)
    requires c.shards >= 1 && |shards| == c.shards && c.maxPerMinute > 0
    requires Sim(c, shards, ws, latest) && now > 0 && latest - SKEW <= now
    ensures var (next, ok) := Allow(c, shards, key, now);
            var (ws', answer) := SpecAllow(c.maxPerMinute, ws, key, now);
            ok == answer && Sim(c, next, ws', Max(latest, now))
  {
    hide Used, CountCall, Truncate;
    var latest' := Max(latest, now);
    var i := ShardOf(c.hash, c.shards, key);
    var (next, ok) := Allow(c, shards, key, now);
    var (ws', answer) := SpecAllow(c.maxPerMinute, ws, key, now);
    var sh := shards[i];
    var m := if (sh.operations + 1) % 4096 == 0 then Cleaned(sh.buckets, now) else sh.buckets;
    assert KeySim(sh.buckets, ws, key, latest);
    CleanupKeepsSim(sh.buckets, ws, key, now, latest');
    UseKeepsSim(m, ws, key, now, c.maxPerMinute, latest');
    forall k ensures KeySim(next[ShardOf(c.hash, c.shards, k)].buckets, ws', k, latest') {
      assert KeySim(shards[ShardOf(c.hash, c.shards, k)].buckets, ws, k, latest);
      if k != key && ShardOf(c.hash, c.shards, k) == i {
        CleanupKeepsSim(sh.buckets, ws, k, now, latest');
        assert KeySim(m, ws, k, latest');
      }
    }
  }

  lemma {:induction false} AnswersAgree(c: Config, shards: seq<Shard>, ws: map<string, Window>, calls: seq<Call>,
                                        latest: int)
    requires c.shards >= 1 && |shards| == c.shards && c.maxPerMinute > 0
    requires Sim(c, shards, ws, latest) && Readings(calls, SKEW)
    requires forall i :: 0 <= i < |calls| ==> latest - SKEW <= calls[i].now
    ensures Answers(c, shards, calls) == SpecAnswers(c.maxPerMinute, ws, calls)
    decreases |calls|
  {
    hide Sim, Allow, SpecAllow;
    if calls != [] {
      var call := calls[0];
      AllowKeepsSim(c, shards, ws, call.key, call.now, latest);
      var rest := calls[1..];
      assert forall i :: 0 <= i < |rest| ==> rest[i] == calls[i + 1];
      AnswersAgree(c, Allow(c, shards, call.key, call.now).0,
                   SpecAllow(c.maxPerMinute, ws, call.key, call.now).0, rest, Max(latest, call.now));
    }
  }

  lemma {:induction false} DisabledAnswers(c: Config, shards: seq<Shard>, ws: map<string, Window>, calls: seq<Call>)
    requires c.shards >= 1 && |shards| == c.shards && c.maxPerMinute == 0
    ensures Answers(c, shards, calls) == SpecAnswers(0, ws, calls)
    decreases |calls|
  {
    if calls != [] { DisabledAnswers(c, shards, ws, calls[1..]); }
  }

  /**
   * Cleanup and sharding are invisible: for every sequence of calls whose readings are
   * positive and at most 120 s out of order, the limiter answers like the plain counter.
   */
  lemma CleanupIsInvisible(c: Config, calls: seq<Call>, skew: int)
    requires c.shards >= 1 && 0 <= skew <= SKEW && Readings(calls, skew)
    ensures Answers(c, NewShards(c), calls) == SpecAnswers(c.maxPerMinute, map[], calls)
  {
    if c.maxPerMinute == 0 {
      DisabledAnswers(c, NewShards(c), map[], calls);
    } else {
      AnswersAgree(c, NewShards(c), map[], calls, 0);
    }
  }

  // ---------------------------------------------------------------- 120 s is the exact limit

  function After(c: Config, shards: seq<Shard>, calls: seq<Call>): (r: seq<Shard>)
    requires c.shards >= 1 && |shards| == c.shards
    ensures |r| == c.shards
    decreases |calls|
  {
    if calls == [] then shards else After(c, Allow(c, shards, calls[0].key, calls[0].now).0, calls[1..])
  }

  function SpecAfter(max: nat, ws: map<string, Window>, calls: seq<Call>): map<string, Window>
    decreases |calls|
  {
    if calls == [] then ws else SpecAfter(max, SpecAllow(max, ws, calls[0].key, calls[0].now).0, calls[1..])
  }

  /** A run can be cut anywhere. */
  lemma {:induction false} AnswersSplit(c: Config, shards: seq<Shard>, ws: map<string, Window>, xs: seq<Call>,
                                        ys: seq<Call>)
    requires c.shards >= 1 && |shards| == c.shards
    ensures Answers(c, shards, xs + ys) == Answers(c, shards, xs) + Answers(c, After(c, shards, xs), ys)
    ensures After(c, shards, xs + ys) == After(c, After(c, shards, xs), ys)
    ensures SpecAnswers(c.maxPerMinute, ws, xs + ys)
            == SpecAnswers(c.maxPerMinute, ws, xs) + SpecAnswers(c.maxPerMinute, SpecAfter(c.maxPerMinute, ws, xs), ys)
    ensures SpecAfter(c.maxPerMinute, ws, xs + ys) == SpecAfter(c.maxPerMinute, SpecAfter(c.maxPerMinute, ws, xs), ys)
    decreases |xs|
  {
    hide Allow, SpecAllow;
    if xs == [] {
      assert xs + ys == ys;
    } else {
      assert (xs + ys)[1..] == xs[1..] + ys;
      AnswersSplit(c, Allow(c, shards, xs[0].key, xs[0].now).0,
                   SpecAllow(c.maxPerMinute, ws, xs[0].key, xs[0].now).0, xs[1..], ys);
    }
  }

  /** One call per minute, one shard. */
  const STRICT: Config := Config(1, 1, _ => 0)

  lemma StrictAllow(sh: Shard, key: string, now: int)
    ensures var (next, ok) := ShardAllow(sh, key, now, 1);
            Allow(STRICT, [sh], key, now) == ([next], ok)
  {
    var (next, ok) := ShardAllow(sh, key, now, 1);
    assert [sh][0 := next] == [next];
  }

  function Filler(n: nat, w: int): seq<Call> {
    seq(n, _ => Call("b", w))
  }

  lemma {:induction false} FillerState(n: nat, w: int)
    requires w > 0 && 1 <= n < 4096
    ensures After(STRICT, [Shard(map[], 0)], Filler(n, w)) == [Shard(map["b" := Bucket(1, w, w)], n)]
    ensures SpecAfter(1, map[], Filler(n, w)) == map["b" := Window(1, w)]
  {
    hide Allow, SpecAllow;
    var last := [Call("b", w)];
    assert last[1..] == [];
    OneFiller(n, w);
    if n == 1 {
      assert Filler(1, w) == last;
    } else {
      FillerState(n - 1, w);
      assert Filler(n, w) == Filler(n - 1, w) + last;
      AnswersSplit(STRICT, [Shard(map[], 0)], map[], Filler(n - 1, w), last);
    }
  }

  /** The first call opens the window; any later one in it finds it full. */
  lemma OneFiller(n: nat, w: int)
    requires w > 0 && 1 <= n < 4096
    ensures var m: map<string, Bucket> := if n == 1 then map[] else map["b" := Bucket(1, w, w)];
            Allow(STRICT, [Shard(m, n - 1)], "b", w).0 == [Shard(map["b" := Bucket(1, w, w)], n)]
    ensures var ws: map<string, Window> := if n == 1 then map[] else map["b" := Window(1, w)];
            SpecAllow(1, ws, "b", w).0 == map["b" := Window(1, w)]
  {
    var m: map<string, Bucket> := if n == 1 then map[] else map["b" := Bucket(1, w, w)];
    StrictAllow(Shard(m, n - 1), "b", w);
    assert m["b" := Bucket(1, w, w)] == map["b" := Bucket(1, w, w)];
    assert map["b" := Window(1, w)]["b" := Window(1, w)] == map["b" := Window(1, w)];
  }

  /** Use, look back more than 120 s, clean up, use again. */
  function Revealing(w: int): seq<Call> {
    [Call("a", w), Call("a", w - SKEW - 1), Call("b", w + 3 * MINUTE - 1), Call("a", w + MINUTE - 2)]
  }

  /** The limiter's four answers: the bucket of "a" looks idle although its window is open. */
  lemma RevealingRun(w: int)
    requires w > SKEW + 1
    ensures Answers(STRICT, [Shard(map["b" := Bucket(1, w, w)], 4093)], Revealing(w)) == [true, false, true, true]
  {
    hide Allow, Cleaned, ShardAllow;
    var m0: map<string, Bucket> := map["b" := Bucket(1, w, w)];
    var m1 := m0["a" := Bucket(1, w, w)];
    var m2 := m0["a" := Bucket(1, w, w - SKEW - 1)];
    var t := w + 3 * MINUTE - 1;
    var m3: map<string, Bucket> := map["b" := Bucket(1, t, t)];
    UseAndLookBack(m0, m1, m2, w);
    CleanupStep(m0, m2, w);
    UseAgain(m3, w + MINUTE - 2);
    var calls := Revealing(w);
    assert calls[1..][1..] == calls[2..] && calls[2..][1..] == calls[3..] && calls[3..][1..] == [];
    assert Answers(STRICT, [Shard(m3, 4096)], calls[3..]) == [true];
    assert Answers(STRICT, [Shard(m2, 4095)], calls[2..]) == [true, true];
    assert Answers(STRICT, [Shard(m1, 4094)], calls[1..]) == [false, true, true];
  }

  lemma UseAndLookBack(m0: map<string, Bucket>, m1: map<string, Bucket>, m2: map<string, Bucket>, w: int)
    requires w > SKEW + 1 && m0 == map["b" := Bucket(1, w, w)]
    requires m1 == m0["a" := Bucket(1, w, w)] && m2 == m0["a" := Bucket(1, w, w - SKEW - 1)]
    ensures Allow(STRICT, [Shard(m0, 4093)], "a", w) == ([Shard(m1, 4094)], true)
    ensures Allow(STRICT, [Shard(m1, 4094)], "a", w - SKEW - 1) == ([Shard(m2, 4095)], false)
  {
    StrictAllow(Shard(m0, 4093), "a", w);
    StrictAllow(Shard(m1, 4094), "a", w - SKEW - 1);
    assert m1["a" := Bucket(1, w, w - SKEW - 1)] == m2;
  }

  lemma UseAgain(m: map<string, Bucket>, now: int)
    requires "a" !in m
    ensures Allow(STRICT, [Shard(m, 4096)], "a", now).1
  {
    StrictAllow(Shard(m, 4096), "a", now);
  }

  lemma CleanupStep(m0: map<string, Bucket>, m2: map<string, Bucket>, w: int)
    requires w > SKEW + 1 && m0 == map["b" := Bucket(1, w, w)] && m2 == m0["a" := Bucket(1, w, w - SKEW - 1)]
    ensures var t := w + 3 * MINUTE - 1;
            Allow(STRICT, [Shard(m2, 4095)], "b", t) == ([Shard(map["b" := Bucket(1, t, t)], 4096)], true)
  {
    var t := w + 3 * MINUTE - 1;
    TruncateCompares(t - (w - SKEW - 1), MINUTE, 5);
    TruncateCompares(t - w, MINUTE, 5);
    TruncateCompares(t - w, SECOND, 60);
    assert Cleaned(m2, t) == m0;
    assert m0["b" := Bucket(1, t, t)] == map["b" := Bucket(1, t, t)];
    StrictAllow(Shard(m2, 4095), "b", t);
  }

  /** The counter's four answers. */
  lemma RevealingSpec(w: int)
    requires w > SKEW + 1
    ensures SpecAnswers(1, map["b" := Window(1, w)], Revealing(w)) == [true, false, true, false]
  {
    var w0: map<string, Window> := map["b" := Window(1, w)];
    var w1 := w0["a" := Window(1, w)];
    var w2 := w1["b" := Window(1, w + 3 * MINUTE - 1)];
    assert w1["a" := Window(1, w)] == w1;
    var calls := Revealing(w);
    assert calls[1..][1..] == calls[2..] && calls[2..][1..] == calls[3..] && calls[3..][1..] == [];
    assert SpecAnswers(1, w2, calls[3..]) == [false];
    assert SpecAnswers(1, w1, calls[2..]) == [true, false];
    assert SpecAnswers(1, w1, calls[1..]) == [false, true, false];
  }

  /** Beyond 120 s the property fails: one nanosecond more lets a call through that the counter refuses. */
  lemma CleanupShowsBeyond120Seconds(skew: int)
    requires skew > SKEW
    ensures exists c: Config, calls :: c.shards >= 1 && Readings(calls, skew)
              && Answers(c, NewShards(c), calls) != SpecAnswers(c.maxPerMinute, map[], calls)
  {
    var w := 3 * MINUTE;
    var calls := Filler(4093, w) + Revealing(w);
    AnswersDiffer(w);
    RevealingReadings(w, skew);
    assert NewShards(STRICT) == [Shard(map[], 0)];
    assert Answers(STRICT, NewShards(STRICT), calls) != SpecAnswers(STRICT.maxPerMinute, map[], calls);
  }

  lemma AnswersDiffer(w: int)
    requires w > SKEW + 1
    ensures Answers(STRICT, [Shard(map[], 0)], Filler(4093, w) + Revealing(w))
            != SpecAnswers(1, map[], Filler(4093, w) + Revealing(w))
  {
    hide Allow, SpecAllow, Answers, SpecAnswers, After, SpecAfter, Filler, Revealing;
    FillerState(4093, w);
    RevealingRun(w);
    RevealingSpec(w);
    AnswersSplit(STRICT, [Shard(map[], 0)], map[], Filler(4093, w), Revealing(w));
    var a := Answers(STRICT, [Shard(map[], 0)], Filler(4093, w));
    var b := SpecAnswers(1, map[], Filler(4093, w));
    LastDiffers(a, [true, false, true, true], b, [true, false, true, false]);
  }

  lemma LastDiffers(a: seq<bool>, x: seq<bool>, b: seq<bool>, y: seq<bool>)
    requires |x| == |y| == 4 && x[3] != y[3]
    ensures a + x != b + y
  {
    assert (a + x)[|a + x| - 1] == x[3] && (b + y)[|b + y| - 1] == y[3];
  }

  lemma RevealingReadings(w: int, skew: int)
    requires w > SKEW + 1 && skew > SKEW
    ensures Readings(Filler(4093, w) + Revealing(w), skew)
  {
    var calls := Filler(4093, w) + Revealing(w);
    assert forall k :: 0 <= k < |calls| ==> w - SKEW - 1 <= calls[k].now;
    assert forall k :: 0 <= k < 4095 ==> calls[k].now <= w;
    assert calls[4096].now == w + MINUTE - 2 && calls[4095].now == w + 3 * MINUTE - 1;
  }

  /** The exact condition: cleanup is invisible on all call sequences with that disorder iff it is at most 120 s. */
  lemma InvisibleIffAtMost120Seconds(skew: int)
    requires skew >= 0
    ensures (forall c: Config, calls :: c.shards >= 1 && Readings(calls, skew) ==>
               Answers(c, NewShards(c), calls) == SpecAnswers(c.maxPerMinute, map[], calls))
            <==> skew <= SKEW
  {
    if skew <= SKEW {
      forall c: Config, calls | c.shards >= 1 && Readings(calls, skew)
        ensures Answers(c, NewShards(c), calls) == SpecAnswers(c.maxPerMinute, map[], calls)
      {
        CleanupIsInvisible(c, calls, skew);
      }
    } else {
      CleanupShowsBeyond120Seconds(skew);
    }
  }

  // ---------------------------------------------------------------- sliding windows

  /** How many calls for `key` with a reading in [from, to] were allowed. */
  function AllowedIn(calls: seq<Call>, answers: seq<bool>, key: string, from: int, to: int): nat
    requires |answers| == |calls|
  {
    if calls == [] then 0 else
      AllowedIn(calls[1..], answers[1..], key, from, to)
      + if calls[0].key == key && answers[0] && from <= calls[0].now <= to then 1 else 0
  }

  ghost predicate Nondecreasing(calls: seq<Call>) {
    forall i, j :: 0 <= i < j < |calls| ==> calls[i].now <= calls[j].now
  }

  /**
   * From a window that started at `w.start`, up to time `to`: what is left of it, and one
   * full allowance for each 60 seconds that follow.
   */
  lemma {:induction false} AllowanceFromWindow(max: nat, ws: map<string, Window>, calls: seq<Call>, key: string,
                                               from: int, to: int)
    requires max > 0 && Nondecreasing(calls) && key in ws && ws[key].count <= max
    requires ws[key].start <= to
    requires forall i :: 0 <= i < |calls| ==> ws[key].start <= calls[i].now
    ensures AllowedIn(calls, SpecAnswers(max, ws, calls), key, from, to)
            <= max - ws[key].count + max * ((to - ws[key].start) / MINUTE)
    decreases |calls|
  {
    var bound := max * ((to - ws[key].start) / MINUTE);
    assert bound >= 0;
    if calls != [] {
      var call := calls[0];
      var rest := calls[1..];
      assert forall i :: 0 <= i < |rest| ==> rest[i] == calls[i + 1];
      var (next, ok) := SpecAllow(max, ws, call.key, call.now);
      assert SpecAnswers(max, ws, calls)[1..] == SpecAnswers(max, next, rest);
      if call.key != key || call.now - ws[key].start < MINUTE {
        AllowanceFromWindow(max, next, rest, key, from, to);
      } else if call.now <= to {
        AllowanceFromWindow(max, next, rest, key, from, to);
        LaterWindow(max, ws[key].start, call.now, to);
      } else {
        NothingLater(rest, SpecAnswers(max, next, rest), key, from, to, call.now);
      }
    }
  }

  /** A window that starts a minute later has one allowance less to come. */
  lemma LaterWindow(max: nat, start: int, start': int, to: int)
    requires start + MINUTE <= start' <= to
    ensures max * ((to - start') / MINUTE) + max <= max * ((to - start) / MINUTE)
  {
    var a, b := (to - start') / MINUTE, (to - start) / MINUTE;
    assert to - start == MINUTE * b + (to - start) % MINUTE;
    assert to - start' == MINUTE * a + (to - start') % MINUTE;
    assert a + 1 <= b;
    assert max * (a + 1) <= max * b;
  }

  lemma {:induction false} NothingLater(calls: seq<Call>, answers: seq<bool>, key: string, from: int, to: int, t: int)
    requires |answers| == |calls| && to < t && forall i :: 0 <= i < |calls| ==> t <= calls[i].now
    ensures AllowedIn(calls, answers, key, from, to) == 0
  {
    if calls != [] { NothingLater(calls[1..], answers[1..], key, from, to, t); }
  }

  /** `ceil(T / 60 s)` */
  function Minutes(T: nat): nat {
    (T + MINUTE - 1) / MINUTE
  }

  /** Before the first call inside the interval, nothing counts; from then on the windows are numbered. */
  lemma {:induction false} AllowanceInInterval(max: nat, ws: map<string, Window>, calls: seq<Call>, key: string,
                                               from: int, T: nat)
    requires max > 0 && Nondecreasing(calls)
    requires key in ws ==> ws[key].count <= max
    requires forall i :: 0 <= i < |calls| && key in ws ==> ws[key].start <= calls[i].now
    ensures AllowedIn(calls, SpecAnswers(max, ws, calls), key, from, from + T) <= (Minutes(T) + 1) * max
    decreases |calls|
  {
    hide Minutes;
    AtLeastOneWindow(max, T);
    if calls != [] {
      var call := calls[0];
      var rest := calls[1..];
      assert forall i :: 0 <= i < |rest| ==> rest[i] == calls[i + 1];
      var (next, ok) := SpecAllow(max, ws, call.key, call.now);
      assert SpecAnswers(max, ws, calls)[1..] == SpecAnswers(max, next, rest);
      if call.key != key || call.now < from {
        AllowanceInInterval(max, next, rest, key, from, T);
      } else if call.now > from + T {
        NothingLater(rest, SpecAnswers(max, next, rest), key, from, from + T, call.now);
      } else {
        assert next[key].start > from - MINUTE;
        AllowanceFromWindow(max, next, rest, key, from, from + T);
        FewWindows(max, next[key].start, from, T);
      }
    }
  }

  lemma AtLeastOneWindow(max: nat, T: nat)
    ensures (Minutes(T) + 1) * max >= max >= 0
  {
    MultiplyKeepsOrder(1, Minutes(T) + 1, max);
  }

  lemma FewWindows(max: nat, start: int, from: int, T: nat)
    requires from - MINUTE < start <= from + T
    ensures max + max * ((from + T - start) / MINUTE) <= (Minutes(T) + 1) * max
  {
    var a := (from + T - start) / MINUTE;
    assert from + T - start == MINUTE * a + (from + T - start) % MINUTE;
    assert T + MINUTE - 1 == MINUTE * Minutes(T) + (T + MINUTE - 1) % MINUTE;
    assert a <= Minutes(T);
    assert max * a <= max * Minutes(T);
    assert (Minutes(T) + 1) * max == max * Minutes(T) + max;
  }

  lemma {:induction false} NothingAllowed(c: Config, shards: seq<Shard>, calls: seq<Call>, key: string, from: int,
                                          to: int)
    requires c.shards >= 1 && |shards| == c.shards && c.maxPerMinute == 0
    ensures AllowedIn(calls, Answers(c, shards, calls), key, from, to) == 0
    decreases |calls|
  {
    if calls != [] { NothingAllowed(c, shards, calls[1..], key, from, to); }
  }

  /**
   * With nondecreasing positive readings, at most `(ceil(T / 60 s) + 1) * max` calls for a key
   * are let through in any closed interval of length T by the real, cleaned, sharded limiter.
   */
  lemma SlidingWindowBound(c: Config, calls: seq<Call>, key: string, from: int, T: nat)
    requires c.shards >= 1 && Readings(calls, 0)
    ensures AllowedIn(calls, Answers(c, NewShards(c), calls), key, from, from + T) <= (Minutes(T) + 1) * c.maxPerMinute
    ensures T <= MINUTE ==>
              AllowedIn(calls, Answers(c, NewShards(c), calls), key, from, from + T) <= 2 * c.maxPerMinute
  {
    if c.maxPerMinute == 0 {
      NothingAllowed(c, NewShards(c), calls, key, from, from + T);
    } else {
      CleanupIsInvisible(c, calls, 0);
      AllowanceInInterval(c.maxPerMinute, map[], calls, key, from, T);
      if T <= MINUTE {
        assert Minutes(T) <= 1;
        assert (Minutes(T) + 1) * c.maxPerMinute <= 2 * c.maxPerMinute;
      }
    }
  }

  /** The calls of the window of `key` that is still open at `now`. */
  function OpenCount(ws: map<string, Window>, key: string, now: int): nat {
    if key in ws && now - ws[key].start < MINUTE then ws[key].count else 0
  }

  lemma {:induction false} RefusedAfterMany(max: nat, ws: map<string, Window>, calls: seq<Call>)
    requires max > 0 && Nondecreasing(calls) && calls != []
    requires forall i :: 0 <= i < |calls| && calls[i].key in ws ==> ws[calls[i].key].start <= calls[i].now
    ensures var last := calls[|calls| - 1];
            var answers := SpecAnswers(max, ws, calls);
            !answers[|calls| - 1] ==>
              AllowedIn(calls, answers, last.key, last.now - MINUTE + 1, last.now) + OpenCount(ws, last.key, last.now)
              >= max
    decreases |calls|
  {
    if |calls| > 1 {
      var call, rest := calls[0], calls[1..];
      assert forall i :: 0 <= i < |rest| ==> rest[i] == calls[i + 1];
      var (next, ok) := SpecAllow(max, ws, call.key, call.now);
      assert SpecAnswers(max, ws, calls) == [ok] + SpecAnswers(max, next, rest);
      RefusedAfterMany(max, next, rest);
    }
  }

  /**
   * The limiter refuses only what it must: with nondecreasing positive readings, a call is
   * refused only after the whole allowance of its key was used in the 60 s before it.
   */
  lemma RefusedOnlyWhenUsedUp(c: Config, calls: seq<Call>)
    requires c.shards >= 1 && Readings(calls, 0) && calls != []
    ensures var last := calls[|calls| - 1];
            var answers := Answers(c, NewShards(c), calls);
            !answers[|calls| - 1] ==>
              AllowedIn(calls, answers, last.key, last.now - MINUTE + 1, last.now) >= c.maxPerMinute
  {
    if c.maxPerMinute > 0 {
      CleanupIsInvisible(c, calls, 0);
      RefusedAfterMany(c.maxPerMinute, map[], calls);
    }
  }
}

/** The limiter as the object it is in the source. */
module RateLimiter {
  import opened Basics
  import opened RateLimiterModel

  class RateLimiter {
    const c: Config
    var shards: seq<Shard>

    ghost predicate Valid()
      reads this
    {
      c.shards >= 1 && |shards| == c.shards
    }

    constructor (maxPerMinute: nat, shardCount: nat, hash: string -> nat)
      ensures Valid() && c == Config(maxPerMinute, Max(1, shardCount), hash) && shards == NewShards(c)
    {
      c := Config(maxPerMinute, Max(1, shardCount), hash);
      shards := seq(Max(1, shardCount), _ => Shard(map[], 0));
    }

    /** Erases the idle buckets while walking over them. */
    method CleanupShard(i: nat, now: int)
      requires Valid() && i < |shards|
      modifies this
      ensures shards == old(shards)[i := Shard(Cleaned(old(shards)[i].buckets, now), old(shards)[i].operations)]
    {
      ghost var before := shards[i].buckets;
      var rest := shards[i].buckets.Keys;
      while rest != {}
        invariant |shards| == |old(shards)| && forall j :: 0 <= j < |shards| && j != i ==> shards[j] == old(shards)[j]
        invariant shards[i].operations == old(shards)[i].operations
        invariant rest <= shards[i].buckets.Keys
        invariant forall k :: k in shards[i].buckets <==> k in before && (k in rest || !Idle(before[k], now))
        invariant forall k :: k in shards[i].buckets ==> shards[i].buckets[k] == before[k]
        decreases |rest|
      {
        var k :| k in rest;
        rest := rest - {k};
        if Truncate(now - shards[i].buckets[k].lastSeen, MINUTE) >= 5 {
          shards := shards[i := shards[i].(buckets := shards[i].buckets - {k})];
        }
      }
      assert shards[i].buckets == Cleaned(before, now);
    }

    method AllowCall(key: string, now: int) returns (ok: bool)
      requires Valid()
      modifies this
      ensures Valid() && (shards, ok) == Allow(c, old(shards), key, now)
    {
      if c.maxPerMinute == 0 { return false; }
      var i := ShardOf(c.hash, c.shards, key);
      shards := shards[i := shards[i].(operations := shards[i].operations + 1)];
      if shards[i].operations % 4096 == 0 {
        CleanupShard(i, now);
      }
      var bucket := if key in shards[i].buckets then shards[i].buckets[key] else Bucket(0, 0, 0);
      if bucket.windowStart == 0 {
        bucket := bucket.(windowStart := now, count := 0);
      }
      bucket := bucket.(lastSeen := now);
      if Truncate(now - bucket.windowStart, SECOND) >= 60 {
        bucket := bucket.(windowStart := now, count := 0);
      }
      ok := bucket.count < c.maxPerMinute;
      if ok {
        bucket := bucket.(count := bucket.count + 1);
      }
      shards := shards[i := shards[i].(buckets := shards[i].buckets[key := bucket])];
      assert shards == old(shards)[i := shards[i]];
    }
  }
}
