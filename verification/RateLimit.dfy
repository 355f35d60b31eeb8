/**
 The fixed-window rate limiter (platform/ratelimit.py): one counter per key, swept lazily.

 Time is counted in ticks, a whole number of them to the second. A hit falls in window number
 `now // length`; the table never looks at anything else, so its laws are stated over marks: a key and
 a window number.
 */
module RateLimit {
  import opened Wrappers

  datatype Mark = Mark(key: string, window: int)

  /** `_counts`: the window a key was last hit in, and how often. */
  type Table = map<string, (int, nat)>

  const SWEEP_AT := 4096

  // ----- one hit -----

  /** Past the threshold, every entry more than one window old is dropped. */
  function Swept(t: Table, window: int): Table {
    if |t| > SWEEP_AT then map k | k in t && t[k].0 >= window - 1 :: t[k] else t
  }

  function Counted(t: Table, m: Mark): nat {
    var kept := Swept(t, m.window);
    if m.key in kept && kept[m.key].0 == m.window then kept[m.key].1 + 1 else 1
  }

  function Noted(t: Table, m: Mark): Table {
    Swept(t, m.window)[m.key := (m.window, Counted(t, m))]
  }

  // ----- a history of hits -----

  function TableAfter(ms: seq<Mark>, n: nat): Table
    requires n <= |ms|
  {
    if n == 0 then map[] else Noted(TableAfter(ms, n - 1), ms[n - 1])
  }

  /** What hit `i` is told. */
  function Returned(ms: seq<Mark>, i: nat): nat
    requires i < |ms|
  {
    Counted(TableAfter(ms, i), ms[i])
  }

  /** How often the key was really hit in the window, among the first `n` hits. */
  function Hits(ms: seq<Mark>, n: nat, m: Mark): nat
    requires n <= |ms|
  {
    if n == 0 then 0 else Hits(ms, n - 1, m) + if ms[n - 1] == m then 1 else 0
  }

  /** Whatever the clock does and whatever lengths are mixed, no counter exceeds the truth. */
  lemma {:induction false} NeverOvercounts(ms: seq<Mark>, n: nat, k: string)
    requires n <= |ms| && k in TableAfter(ms, n)
    ensures 1 <= TableAfter(ms, n)[k].1 <= Hits(ms, n, Mark(k, TableAfter(ms, n)[k].0))
    decreases n
  {
    var before := TableAfter(ms, n - 1);
    if k in before {
      NeverOvercounts(ms, n - 1, k);
    }
  }

  /** So a caller is refused only after really having made more than `limit` hits in the window. */
  lemma NeverRefusedEarly(ms: seq<Mark>, i: nat, limit: nat)
    requires i < |ms| && Returned(ms, i) > limit
    ensures Hits(ms, i + 1, ms[i]) > limit
  {
    NeverOvercounts(ms, i + 1, ms[i].key);
    assert TableAfter(ms, i + 1)[ms[i].key] == (ms[i].window, Returned(ms, i));
  }

  // ----- what a sweep forgets -----

  /** Hit `i` sweeps away any counter of window `window`. */
  predicate Forgets(ms: seq<Mark>, i: nat, window: int)
    requires i < |ms|
  {
    |TableAfter(ms, i)| > SWEEP_AT && window < ms[i].window - 1
  }

  /** The hits since the last sweep that forgot them. */
  function Since(ms: seq<Mark>, n: nat, m: Mark): nat
    requires n <= |ms|
  {
    if n == 0 then 0
    else (if Forgets(ms, n - 1, m.window) then 0 else Since(ms, n - 1, m)) + if ms[n - 1] == m then 1 else 0
  }

  /** A key's windows never go back. */
  ghost predicate ForwardPerKey(ms: seq<Mark>) {
    forall i, j :: 0 <= i < j < |ms| && ms[i].key == ms[j].key ==> ms[i].window <= ms[j].window
  }

  ghost predicate NoneLater(ms: seq<Mark>, n: nat, m: Mark)
    requires n <= |ms|
  {
    forall i :: 0 <= i < n && ms[i].key == m.key ==> ms[i].window <= m.window
  }

  lemma {:induction false} SinceAtMostHits(ms: seq<Mark>, n: nat, m: Mark)
    requires n <= |ms|
    ensures Since(ms, n, m) <= Hits(ms, n, m)
    ensures (forall i :: 0 <= i < n ==> ms[i] != m) ==> Hits(ms, n, m) == 0
    decreases n
  {
    if n > 0 {
      SinceAtMostHits(ms, n - 1, m);
    }
  }

  /** The entry of a key, as far as its latest window goes: it counts the hits not forgotten. */
  ghost predicate Shows(t: Table, m: Mark, since: nat) {
    if since > 0 then m.key in t && t[m.key] == (m.window, since) else m.key in t ==> t[m.key].0 != m.window
  }

  lemma {:induction false} TableShowsSince(ms: seq<Mark>, n: nat, m: Mark)
    requires n <= |ms| && ForwardPerKey(ms) && NoneLater(ms, n, m)
    ensures Shows(TableAfter(ms, n), m, Since(ms, n, m))
    decreases n
  {
    if n > 0 {
      TableShowsSince(ms, n - 1, m);
      var last := ms[n - 1];
      if last.key == m.key && last.window != m.window {
        assert forall i :: 0 <= i < n ==> ms[i] != m;
        SinceAtMostHits(ms, n, m);
      }
      NotedShows(TableAfter(ms, n - 1), last, m, Since(ms, n - 1, m), Since(ms, n, m));
    }
  }

  /** One hit, seen from mark `m`. */
  lemma NotedShows(t: Table, last: Mark, m: Mark, since: nat, after: nat)
    requires Shows(t, m, since) && (last.key == m.key ==> last.window <= m.window)
    requires last.key == m.key && last.window != m.window ==> after == 0
    requires !(last.key == m.key && last.window != m.window) ==>
               after == (if |t| > SWEEP_AT && m.window < last.window - 1 then 0 else since) + if last == m then 1 else 0
    ensures Shows(Noted(t, last), m, after)
  {
  }

  lemma ReturnedIsSince(ms: seq<Mark>, i: nat)
    requires i < |ms| && ForwardPerKey(ms)
    ensures Returned(ms, i) == Since(ms, i + 1, ms[i])
  {
    assert NoneLater(ms, i, ms[i]);
    TableShowsSince(ms, i, ms[i]);
  }

  /** A sweep forgot some of these hits. */
  ghost predicate Forgotten(ms: seq<Mark>, n: nat, m: Mark)
    requires n <= |ms|
  {
    exists i :: 0 <= i < n && Forgets(ms, i, m.window) && Hits(ms, i, m) > 0
  }

  lemma ForgottenOneMore(ms: seq<Mark>, n: nat, m: Mark)
    requires 0 < n <= |ms|
    ensures Forgotten(ms, n, m) <==> Forgotten(ms, n - 1, m) || (Forgets(ms, n - 1, m.window) && Hits(ms, n - 1, m) > 0)
  {
  }

  lemma {:induction false} SinceExactly(ms: seq<Mark>, n: nat, m: Mark)
    requires n <= |ms|
    ensures Since(ms, n, m) == Hits(ms, n, m) <==> !Forgotten(ms, n, m)
    decreases n
  {
    if n > 0 {
      SinceExactly(ms, n - 1, m);
      SinceAtMostHits(ms, n - 1, m);
      ForgottenOneMore(ms, n, m);
    }
  }

  /** Exactly when a caller is told the truth, whatever lengths are mixed: unless a sweep, run while
      the table was over its threshold by a hit with a window number at least two higher, has forgotten
      hits of this window. (Each key names one policy, so its windows only go forward with the clock.) */
  lemma ToldTheTruthExactly(ms: seq<Mark>, i: nat)
    requires i < |ms| && ForwardPerKey(ms)
    ensures Returned(ms, i) == Hits(ms, i + 1, ms[i]) <==> !Forgotten(ms, i + 1, ms[i])
  {
    ReturnedIsSince(ms, i);
    SinceExactly(ms, i + 1, ms[i]);
  }

  // ----- one window length -----

  /** With one window length and a clock that never goes back, window numbers never go back at all. */
  ghost predicate Forward(ms: seq<Mark>) {
    forall i, j :: 0 <= i < j < |ms| ==> ms[i].window <= ms[j].window
  }

  /** Then every caller is told the truth, sweeps or no sweeps. */
  lemma ExactDespiteSweeps(ms: seq<Mark>, i: nat)
    requires i < |ms| && Forward(ms)
    ensures Returned(ms, i) == Hits(ms, i + 1, ms[i])
  {
    NothingForgotten(ms, i);
    ToldTheTruthExactly(ms, i);
  }

  lemma NothingForgotten(ms: seq<Mark>, i: nat)
    requires i < |ms| && Forward(ms)
    ensures ForwardPerKey(ms) && !Forgotten(ms, i + 1, ms[i])
  {
    forall j | 0 <= j < i + 1 ensures !Forgets(ms, j, ms[i].window) {
      assert j < i ==> ms[j].window <= ms[i].window;
    }
  }

  /** The hits of a window let through under `limit`. */
  function Accepted(ms: seq<Mark>, n: nat, m: Mark, limit: nat): nat
    requires n <= |ms|
  {
    if n == 0 then 0
    else Accepted(ms, n - 1, m, limit) + if ms[n - 1] == m && Returned(ms, n - 1) <= limit then 1 else 0
  }

  function Min(a: nat, b: nat): nat {
    if a < b then a else b
  }

  /** Each window lets through the first `limit` hits and no others. */
  lemma {:induction false} WindowAcceptsExactly(ms: seq<Mark>, n: nat, m: Mark, limit: nat)
    requires n <= |ms| && Forward(ms)
    ensures Accepted(ms, n, m, limit) == Min(limit, Hits(ms, n, m))
    decreases n
  {
    if n > 0 {
      WindowAcceptsExactly(ms, n - 1, m, limit);
      ExactDespiteSweeps(ms, n - 1);
    }
  }

  // ----- real time -----

  datatype Hit = Hit(key: string, now: int)

  function WindowAt(now: int, length: int): int
    requires length > 0
  {
    now / length
  }

  function Marks(hs: seq<Hit>, length: int): (ms: seq<Mark>)
    requires length > 0
    ensures |ms| == |hs| && forall i :: 0 <= i < |hs| ==> ms[i] == Mark(hs[i].key, WindowAt(hs[i].now, length))
  {
    seq(|hs|, i requires 0 <= i < |hs| => Mark(hs[i].key, WindowAt(hs[i].now, length)))
  }

  ghost predicate ClockForward(hs: seq<Hit>) {
    forall i, j :: 0 <= i < j < |hs| ==> hs[i].now <= hs[j].now
  }

  lemma LaterWindow(a: int, b: int, length: int)
    requires length > 0 && a <= b
    ensures WindowAt(a, length) <= WindowAt(b, length)
    ensures b < a + length ==> WindowAt(b, length) <= WindowAt(a, length) + 1
  {
    var p, q := a / length, b / length;
    if q < p {
      Scaled(q, p, length);
    } else if p + 1 < q {
      Scaled(p, q - 1, length);
      Scaled(q - 1, q, length);
    }
  }

  lemma Scaled(x: int, y: int, length: int)
    requires length > 0 && x < y
    ensures x * length + length <= y * length
  {
    var k := y - x;
    assert y * length == x * length + k * length;
    assert k * length == (k - 1) * length + length;
  }

  lemma MarksForward(hs: seq<Hit>, length: int)
    requires length > 0 && ClockForward(hs)
    ensures Forward(Marks(hs, length))
  {
    forall i, j | 0 <= i < j < |hs| ensures Marks(hs, length)[i].window <= Marks(hs, length)[j].window {
      LaterWindow(hs[i].now, hs[j].now, length);
    }
  }

  /** The hits of a key let through from `from` up to, and not including, `to`. */
  function AcceptedBetween(hs: seq<Hit>, n: nat, length: int, key: string, limit: nat, from: int, to: int): nat
    requires length > 0 && n <= |hs|
  {
    if n == 0 then 0
    else AcceptedBetween(hs, n - 1, length, key, limit, from, to)
         + if hs[n - 1].key == key && from <= hs[n - 1].now < to && Returned(Marks(hs, length), n - 1) <= limit then 1 else 0
  }

  lemma {:induction false} TwoWindowsCover(hs: seq<Hit>, n: nat, length: int, key: string, limit: nat, from: int, to: int)
    requires length > 0 && n <= |hs| && to <= from + length
    ensures var w := WindowAt(from, length);
            AcceptedBetween(hs, n, length, key, limit, from, to)
            <= Accepted(Marks(hs, length), n, Mark(key, w), limit) + Accepted(Marks(hs, length), n, Mark(key, w + 1), limit)
    decreases n
  {
    if n > 0 {
      TwoWindowsCover(hs, n - 1, length, key, limit, from, to);
      if from <= hs[n - 1].now < to {
        LaterWindow(from, hs[n - 1].now, length);
      }
    }
  }

  /** Over any interval as long as a window, wherever it starts, at most twice the limit gets through. */
  lemma AnyIntervalAtMostTwice(hs: seq<Hit>, length: int, key: string, limit: nat, from: int, to: int)
    requires length > 0 && ClockForward(hs) && to <= from + length
    ensures AcceptedBetween(hs, |hs|, length, key, limit, from, to) <= 2 * limit
  {
    var ms, w := Marks(hs, length), WindowAt(from, length);
    MarksForward(hs, length);
    TwoWindowsCover(hs, |hs|, length, key, limit, from, to);
    WindowAcceptsExactly(ms, |hs|, Mark(key, w), limit);
    WindowAcceptsExactly(ms, |hs|, Mark(key, w + 1), limit);
  }

  // ----- mixed lengths -----

  /** A key of its own for each number. */
  function Key(i: nat): string {
    seq(i, _ => 'k')
  }

  function Crowd(n: nat, window: int): (ms: seq<Mark>)
    ensures |ms| == n && forall i :: 0 <= i < n ==> ms[i] == Mark(Key(i), window)
  {
    seq(n, i requires 0 <= i < n => Mark(Key(i), window))
  }

  lemma {:induction false} CrowdFills(ms: seq<Mark>, n: nat, window: int)
    requires n <= |ms| && forall i :: 0 <= i < n ==> ms[i] == Mark(Key(i), window)
    ensures |TableAfter(ms, n)| == n
    ensures forall k :: k in TableAfter(ms, n) ==> |k| < n && TableAfter(ms, n)[k].0 == window
    decreases n
  {
    if n > 0 {
      CrowdFills(ms, n - 1, window);
      var before := TableAfter(ms, n - 1);
      assert Swept(before, window) == before;
      assert |Key(n - 1)| == n - 1 && Key(n - 1) !in before;
      assert TableAfter(ms, n).Keys == before.Keys + {Key(n - 1)};
    }
  }

  /** A policy with short windows can make the limiter forget one with long windows: with over 4096 keys
      live in a long window, one hit under a window number two or more higher wipes them all, and the
      next hit of an old key, in the very same window, is told it is the first. */
  lemma ShortWindowForgetsLong(long: int, short: int)
    requires long < short - 1
    ensures var ms := Crowd(SWEEP_AT + 1, long) + [Mark("s", short), Mark(Key(0), long)];
            ForwardPerKey(ms) && Hits(ms, |ms|, ms[|ms| - 1]) >= 2 && Returned(ms, |ms| - 1) == 1
  {
    var n := SWEEP_AT + 1;
    var ms := Crowd(n, long) + [Mark("s", short), Mark(Key(0), long)];
    forall i | 0 <= i < n ensures ms[i] == Mark(Key(i), long) && |ms[i].key| == i {
      assert ms[i] == Crowd(n, long)[i];
    }
    assert |"s"| == 1 && Key(0) == "";
    assert ForwardPerKey(ms);
    CrowdFills(ms, n, long);
    var crowded := TableAfter(ms, n);
    assert Swept(crowded, short) == map[];
    assert TableAfter(ms, n + 1) == map["s" := (short, 1)];
    HitsInclude(ms, n + 1, 0, Mark(Key(0), long));
  }

  lemma {:induction false} HitsInclude(ms: seq<Mark>, n: nat, i: nat, m: Mark)
    requires i < n <= |ms| && ms[i] == m
    ensures Hits(ms, n, m) >= 1
    decreases n
  {
    if i < n - 1 {
      HitsInclude(ms, n - 1, i, m);
    }
  }

  // ----- when to come back -----

  const TICKS := 1_000_000

  function Length(seconds: nat): (length: int)
    ensures seconds > 0 ==> length > 0
  {
    seconds * TICKS
  }

  /** `max(1, int(window_seconds - elapsed))`, in seconds. */
  function RetryAfter(now: int, seconds: nat): int
    requires seconds > 0
  {
    var left := (Length(seconds) - now % Length(seconds)) / TICKS;
    if left > 1 then left else 1
  }

  /** What is left of the window that `now` lies in. */
  function Left(now: int, seconds: nat): (left: int)
    requires seconds > 0
    ensures 0 < left <= Length(seconds)
  {
    Length(seconds) - now % Length(seconds)
  }

  /** The clock stands on a whole second of its window, or less than a second of the window is left. */
  predicate WaitSuffices(now: int, seconds: nat)
    requires seconds > 0
  {
    Left(now, seconds) % TICKS == 0 || Left(now, seconds) < TICKS
  }

  lemma RetryReaches(now: int, seconds: nat)
    requires seconds > 0
    ensures RetryAfter(now, seconds) * TICKS >= Left(now, seconds) <==> WaitSuffices(now, seconds)
  {
    var left := Left(now, seconds);
    assert left == left / TICKS * TICKS + left % TICKS;
  }

  /** Waiting leads to another window exactly when it lasts what is left of this one. */
  lemma WindowReached(now: int, wait: nat, length: int)
    requires length > 0
    ensures WindowAt(now + wait, length) > WindowAt(now, length) <==> wait >= length - now % length
  {
    var q, later := now / length, (now + wait) / length;
    LaterWindow(now, now + wait, length);
    assert now == q * length + now % length && now + wait == later * length + (now + wait) % length;
    if later > q {
      Scaled(q, later, length);
    }
  }

  /** The key is not hit between hit `i` and hit `j`. */
  ghost predicate Waits(hs: seq<Hit>, i: nat, j: nat)
    requires i < j < |hs|
  {
    hs[j].key == hs[i].key && forall k :: i < k < j ==> hs[k].key != hs[i].key
  }

  lemma {:induction false} HitsWhileWaiting(ms: seq<Mark>, i: nat, n: nat)
    requires i < n <= |ms| && forall k :: i < k < n ==> ms[k].key != ms[i].key
    ensures Hits(ms, n, ms[i]) == Hits(ms, i + 1, ms[i])
    decreases n
  {
    if i + 1 < n {
      HitsWhileWaiting(ms, i, n - 1);
    }
  }

  /** A caller that is refused, and comes back exactly when told, is let through if and only if the refusal
      fell on a whole second of the window or in its last second; otherwise the fraction that was cut
      off is missing, and it is refused again. */
  lemma RetrySucceedsExactly(hs: seq<Hit>, seconds: nat, limit: nat, i: nat, j: nat)
    requires seconds > 0 && limit > 0 && ClockForward(hs) && i < j < |hs| && Waits(hs, i, j)
    requires hs[j].now == hs[i].now + RetryAfter(hs[i].now, seconds) * TICKS
    requires Returned(Marks(hs, Length(seconds)), i) > limit
    ensures Returned(Marks(hs, Length(seconds)), j) <= limit <==> WaitSuffices(hs[i].now, seconds)
  {
    var ms, now := Marks(hs, Length(seconds)), hs[i].now;
    MarksForward(hs, Length(seconds));
    ExactDespiteSweeps(ms, i);
    ExactDespiteSweeps(ms, j);
    RetryReaches(now, seconds);
    WindowReached(now, RetryAfter(now, seconds) * TICKS, Length(seconds));
    LaterWindow(now, hs[j].now, Length(seconds));
    RetriedHits(ms, i, j);
  }

  lemma RetriedHits(ms: seq<Mark>, i: nat, j: nat)
    requires i < j < |ms| && Forward(ms) && ms[j].key == ms[i].key && forall k :: i < k < j ==> ms[k].key != ms[i].key
    ensures Hits(ms, j + 1, ms[j]) == if ms[j].window == ms[i].window then Hits(ms, i + 1, ms[i]) + 1 else 1
  {
    if ms[j].window == ms[i].window {
      HitsWhileWaiting(ms, i, j);
    } else {
      assert forall k :: 0 <= k < j ==> ms[k] != ms[j];
      SinceAtMostHits(ms, j, ms[j]);
    }
  }

  // ----- the code's own form -----

  datatype Policy = Policy(name: string, limit: nat, seconds: nat)

  class InMemoryBackend {
    var counts: Table

    constructor ()
      ensures counts == map[]
    {
      counts := map[];
    }

    method Hit(key: string, seconds: nat, now: int) returns (count: nat)
      requires seconds > 0
      modifies this
      ensures counts == Noted(old(counts), Mark(key, WindowAt(now, Length(seconds))))
      ensures count == Counted(old(counts), Mark(key, WindowAt(now, Length(seconds))))
      ensures var window := now / (seconds * 1_000_000);
              && count == (if key in old(counts) && old(counts)[key].0 == window then old(counts)[key].1 else 0) + 1
              && key in counts && counts[key] == (window, count)
              && forall k :: k != key ==>
                   && (k in counts <==> k in old(counts) && (|old(counts)| <= 4096 || old(counts)[k].0 >= window - 1))
                   && (k in counts ==> counts[k] == old(counts)[k])
    {
      var window := WindowAt(now, Length(seconds));
      if |counts| > SWEEP_AT {
        counts := map k | k in counts && counts[k].0 >= window - 1 :: counts[k];
      }
      var stored := if key in counts then counts[key] else (window, 0);
      count := if stored.0 == window then stored.1 + 1 else 1;
      counts := counts[key := (window, count)];
    }
  }

  class RateLimiter {
    const backend: InMemoryBackend
    const enabled: bool

    constructor (backend: InMemoryBackend, enabled: bool)
      ensures this.backend == backend && this.enabled == enabled
    {
      this.backend, this.enabled := backend, enabled;
    }

    /** None when the hit is let through; else the seconds after which to retry. */
    method Check(policy: Policy, identity: string, now: int) returns (refused: Option<int>)
      requires policy.seconds > 0 && policy.limit > 0
      modifies backend
      ensures var m := Mark(policy.name + ":" + identity, WindowAt(now, Length(policy.seconds)));
              if !enabled then refused == None && backend.counts == old(backend.counts)
              else
                && backend.counts == Noted(old(backend.counts), m)
                && refused == if Counted(old(backend.counts), m) > policy.limit then Some(RetryAfter(now, policy.seconds)) else None
    {
      if !enabled {
        return None;
      }
      var count := backend.Hit(policy.name + ":" + identity, policy.seconds, now);
      if count > policy.limit {
        var elapsed := now % Length(policy.seconds);
        var left := (Length(policy.seconds) - elapsed) / TICKS;
        return Some(if left > 1 then left else 1);
      }
      return None;
    }
  }

  function HitsOf(name: string, identities: seq<string>, times: seq<int>): (hs: seq<Hit>)
    requires |identities| == |times|
    ensures |hs| == |times| && forall i :: 0 <= i < |times| ==> hs[i] == Hit(name + ":" + identities[i], times[i])
  {
    seq(|times|, i requires 0 <= i < |times| => Hit(name + ":" + identities[i], times[i]))
  }

  /** How often this caller has come in this window so far, this time included. */
  function Calls(identities: seq<string>, times: seq<int>, length: int, i: nat, n: nat): nat
    requires length > 0 && i < |times| == |identities| && n <= |times|
  {
    if n == 0 then 0
    else Calls(identities, times, length, i, n - 1)
         + if identities[n - 1] == identities[i] && times[n - 1] / length == times[i] / length then 1 else 0
  }

  lemma KeysDiffer(name: string, a: string, b: string)
    ensures name + ":" + a == name + ":" + b <==> a == b
  {
    if name + ":" + a == name + ":" + b {
      assert (name + ":" + a)[|name| + 1..] == a && (name + ":" + b)[|name| + 1..] == b;
    }
  }

  lemma {:induction false} CallsAreHits(name: string, identities: seq<string>, times: seq<int>, length: int, i: nat, n: nat)
    requires length > 0 && i < |times| == |identities| && n <= |times|
    ensures var ms := Marks(HitsOf(name, identities, times), length);
            Hits(ms, n, ms[i]) == Calls(identities, times, length, i, n)
    decreases n
  {
    if n > 0 {
      CallsAreHits(name, identities, times, length, i, n - 1);
      KeysDiffer(name, identities[n - 1], identities[i]);
    }
  }

  /** The objects over a whole history of one policy: which hits were let through, exactly. Each caller has
      the policy's limit in each window for itself, whoever else comes. */
  method Replay(limiter: RateLimiter, policy: Policy, identities: seq<string>, times: seq<int>) returns (passed: seq<bool>)
    requires limiter.enabled && policy.seconds > 0 && policy.limit > 0 && |identities| == |times|
    requires limiter.backend.counts == map[]
    requires forall i, j :: 0 <= i < j < |times| ==> times[i] <= times[j]
    modifies limiter.backend
    ensures |passed| == |times|
    ensures forall i :: 0 <= i < |times| ==>
              (passed[i] <==> Calls(identities, times, policy.seconds * 1_000_000, i, i + 1) <= policy.limit)
  {
    ghost var hs, length := HitsOf(policy.name, identities, times), Length(policy.seconds);
    MarksForward(hs, length);
    passed := CheckEach(limiter, policy, identities, times, Marks(hs, length));
    forall i | 0 <= i < |times| ensures passed[i] <==> Calls(identities, times, length, i, i + 1) <= policy.limit {
      CallsAreHits(policy.name, identities, times, length, i, i + 1);
    }
  }

  ghost predicate PassedSoFar(passed: seq<bool>, ms: seq<Mark>, limit: nat) {
    |passed| <= |ms| && forall i :: 0 <= i < |passed| ==> (passed[i] <==> Hits(ms, i + 1, ms[i]) <= limit)
  }

  lemma PassedOneMore(passed: seq<bool>, ms: seq<Mark>, limit: nat, pass: bool)
    requires |passed| < |ms| && PassedSoFar(passed, ms, limit)
    requires pass <==> Hits(ms, |passed| + 1, ms[|passed|]) <= limit
    ensures PassedSoFar(passed + [pass], ms, limit)
  {
  }

  method CheckEach(limiter: RateLimiter, policy: Policy, identities: seq<string>, times: seq<int>, ghost ms: seq<Mark>)
    returns (passed: seq<bool>)
    requires limiter.enabled && policy.seconds > 0 && policy.limit > 0 && |identities| == |times| == |ms|
    requires limiter.backend.counts == map[] && Forward(ms)
    requires forall i :: 0 <= i < |ms| ==> ms[i] == Mark(policy.name + ":" + identities[i], WindowAt(times[i], Length(policy.seconds)))
    modifies limiter.backend
    ensures |passed| == |ms| && PassedSoFar(passed, ms, policy.limit)
  {
    passed := [];
    for i := 0 to |times|
      invariant |passed| == i && limiter.backend.counts == TableAfter(ms, i)
      invariant PassedSoFar(passed, ms, policy.limit)
    {
      ExactDespiteSweeps(ms, i);
      ghost var before := limiter.backend.counts;
      var refused := limiter.Check(policy, identities[i], times[i]);
      assert limiter.backend.counts == Noted(before, ms[i]) && (refused.None? <==> Counted(before, ms[i]) <= policy.limit);
      PassedOneMore(passed, ms, policy.limit, refused.None?);
      passed := passed + [refused.None?];
    }
  }
}
