/**
  The in-memory sliding-window rate limiter.  The clock is a parameter; a ghost
  log records every call, and `Valid` ties the per-key buckets to it.
 */
module RateLimit {
  datatype Call = Call(key: string, at: int, allowed: bool)

  /** Times of the allowed calls of a key, oldest first. */
  ghost function AllowedTimes(log: seq<Call>, key: string): seq<int> {
    if log == [] then []
    else
      var last := log[|log| - 1];
      AllowedTimes(log[..|log| - 1], key) + if last.allowed && last.key == key then [last.at] else []
  }

  ghost function CountInside(times: seq<int>, inside: int -> bool): nat {
    if times == [] then 0
    else CountInside(times[..|times| - 1], inside) + if inside(times[|times| - 1]) then 1 else 0
  }

  /** Number of allowed calls of a key at times in a given set. */
  ghost function AllowedInside(log: seq<Call>, key: string, inside: int -> bool): nat {
    CountInside(AllowedTimes(log, key), inside)
  }

  /** The times in (now - window, now]. */
  ghost function Sliding(now: int, window: int): int -> bool {
    (t: int) => now - window < t <= now
  }

  lemma {:induction false} CountParts(a: seq<int>, b: seq<int>, inside: int -> bool)
    ensures CountInside(a + b, inside) == CountInside(a, inside) + CountInside(b, inside)
  {
    if b == [] {
      assert a + b == a;
    } else {
      assert (a + b)[..|a + b| - 1] == a + b[..|b| - 1];
      CountParts(a, b[..|b| - 1], inside);
    }
  }

  lemma {:induction false} CountNone(a: seq<int>, inside: int -> bool)
    requires forall i :: 0 <= i < |a| ==> !inside(a[i])
    ensures CountInside(a, inside) == 0
  {
    if a != [] {
      CountNone(a[..|a| - 1], inside);
    }
  }

  lemma {:induction false} CountAll(a: seq<int>, inside: int -> bool)
    requires forall i :: 0 <= i < |a| ==> inside(a[i])
    ensures CountInside(a, inside) == |a|
  {
    if a != [] {
      CountAll(a[..|a| - 1], inside);
    }
  }

  lemma {:induction false} CountMonotone(a: seq<int>, small: int -> bool, large: int -> bool)
    requires forall i :: 0 <= i < |a| && small(a[i]) ==> large(a[i])
    ensures CountInside(a, small) <= CountInside(a, large)
  {
    if a != [] {
      CountMonotone(a[..|a| - 1], small, large);
    }
  }

  /** The positions of the allowed calls of a key with a time in (now - window, now]. */
  ghost function CallsInWindow(log: seq<Call>, key: string, now: int, window: int): set<int> {
    set i | 0 <= i < |log| && log[i].allowed && log[i].key == key && now - window < log[i].at <= now
  }

  lemma {:induction false} CallsInWindowStep(log: seq<Call>, key: string, now: int, window: int)
    requires log != []
    ensures var n := |log| - 1;
      var last, before := log[n], CallsInWindow(log[..n], key, now, window);
      CallsInWindow(log, key, now, window)
      == if last.allowed && last.key == key && now - window < last.at <= now then before + {n} else before
  {
  }

  /** The count on which the limiter decides, spelled out on the log. */
  lemma {:induction false} WindowCountMeaning(log: seq<Call>, key: string, now: int, window: int)
    ensures AllowedInside(log, key, Sliding(now, window)) == |CallsInWindow(log, key, now, window)|
  {
    if log != [] {
      var n := |log| - 1;
      var last := log[n];
      WindowCountMeaning(log[..n], key, now, window);
      CallsInWindowStep(log, key, now, window);
      var times := AllowedTimes(log[..n], key);
      assert times + [] == times && (times + [last.at])[..|times|] == times;
    }
  }

  /** Calls are in time order, and each was allowed exactly if the window had room. */
  ghost predicate Legal(log: seq<Call>, maxAttempts: int, window: int) {
    log != [] ==>
      var n := |log| - 1;
      && Legal(log[..n], maxAttempts, window)
      && (n > 0 ==> log[n - 1].at <= log[n].at)
      && (log[n].allowed <==> AllowedInside(log[..n], log[n].key, Sliding(log[n].at, window)) < maxAttempts)
  }

  lemma {:induction false} LatestLast(log: seq<Call>, maxAttempts: int, window: int)
    requires Legal(log, maxAttempts, window)
    ensures forall i :: 0 <= i < |log| ==> log[i].at <= log[|log| - 1].at
  {
    if |log| > 1 {
      LatestLast(log[..|log| - 1], maxAttempts, window);
    }
  }

  lemma {:induction false} AllowedAreCalls(log: seq<Call>, key: string)
    ensures forall t :: t in AllowedTimes(log, key) ==> exists i :: 0 <= i < |log| && log[i].at == t
  {
    if log != [] {
      var n := |log| - 1;
      AllowedAreCalls(log[..n], key);
      forall t | t in AllowedTimes(log, key)
        ensures exists i :: 0 <= i < |log| && log[i].at == t
      {
        if t in AllowedTimes(log[..n], key) {
          var i :| 0 <= i < n && log[..n][i].at == t;
          assert log[i].at == t;
        } else {
          assert log[n].at == t;
        }
      }
    }
  }

  /**
    Over a whole run, any set of times that spans less than one window, such as
    every half-open interval of window length, holds at most `maxAttempts`
    allowed calls of a key.
   */
  lemma {:induction false} WindowBound(log: seq<Call>, maxAttempts: int, window: int, key: string, inside: int -> bool)
    requires Legal(log, maxAttempts, window)
    requires forall a, b :: inside(a) && inside(b) ==> b - a < window
    ensures AllowedInside(log, key, inside) <= if maxAttempts > 0 then maxAttempts else 0
  {
    if log != [] {
      var n := |log| - 1;
      var last, before := log[n], AllowedTimes(log[..n], key);
      if last.allowed && last.key == key && inside(last.at) {
        AllowedAreCalls(log[..n], key);
        LatestLast(log, maxAttempts, window);
        forall i | 0 <= i < |before| && inside(before[i])
          ensures Sliding(last.at, window)(before[i])
        {
          assert before[i] in before;
          var j :| 0 <= j < n && log[..n][j].at == before[i];
          assert log[j].at == before[i];
        }
        CountMonotone(before, inside, Sliding(last.at, window));
        assert (before + [last.at])[..|before|] == before;
      } else {
        WindowBound(log[..n], maxAttempts, window, key, inside);
        assert before + [] == before && (before + [last.at])[..|before|] == before;
      }
    }
  }

  class InMemoryRateLimiter {
    const maxAttempts: int
    const window: int
    var attempts: map<string, seq<int>>
    ghost var log: seq<Call>
    ghost var dropped: map<string, seq<int>>

    constructor (maxAttempts: int, window: int)
      ensures Valid() && log == [] && this.maxAttempts == maxAttempts && this.window == window
    {
      this.maxAttempts, this.window := maxAttempts, window;
      attempts, log, dropped := map[], [], map[];
    }

    ghost predicate Valid()
      reads this
    {
      Coherent(log, maxAttempts, window, dropped, attempts)
    }

    /** Allowed exactly if fewer than maxAttempts earlier calls of the key were allowed in the window. */
    method Allow(key: string, now: int) returns (allowed: bool)
      requires Valid()
      requires log != [] ==> log[|log| - 1].at <= now
      modifies this
      ensures Valid()
      ensures allowed <==> |CallsInWindow(old(log), key, now, window)| < maxAttempts
      ensures log == old(log) + [Call(key, now, allowed)]
    {
      var bucket := if key in attempts then attempts[key] else [];
      ghost var gone := Times(dropped, key);
      assert Tracks(log, window, key, gone, bucket);
      bucket, gone := PopExpired(bucket, now - window, gone);
      WindowIsBucket(log, maxAttempts, window, key, now, gone, bucket);
      WindowCountMeaning(log, key, now, window);
      allowed := |bucket| < maxAttempts;
      StaysCoherent(log, maxAttempts, window, dropped, attempts, Call(key, now, allowed), gone, bucket);
      attempts := attempts[key := if allowed then bucket + [now] else bucket];
      dropped := dropped[key := gone];
      log := log + [Call(key, now, allowed)];
    }
  }

  /** Removes times from the front while they are not after `start`. */
  method PopExpired(bucket0: seq<int>, start: int, ghost gone0: seq<int>) returns (bucket: seq<int>, ghost gone: seq<int>)
    requires forall i :: 0 <= i < |gone0| ==> gone0[i] <= start
    ensures gone + bucket == gone0 + bucket0
    ensures forall i :: 0 <= i < |gone| ==> gone[i] <= start
    ensures bucket != [] ==> bucket[0] > start
  {
    bucket, gone := bucket0, gone0;
    while bucket != [] && bucket[0] <= start
      invariant gone + bucket == gone0 + bucket0
      invariant forall i :: 0 <= i < |gone| ==> gone[i] <= start
      decreases |bucket|
    {
      assert gone + [bucket[0]] + bucket[1..] == gone + bucket;
      gone := gone + [bucket[0]];
      bucket := bucket[1..];
    }
  }

  ghost predicate Coherent(log: seq<Call>, maxAttempts: int, window: int, dropped: map<string, seq<int>>,
                           attempts: map<string, seq<int>>) {
    Legal(log, maxAttempts, window) && AllTracked(log, window, dropped, attempts)
  }

  lemma {:induction false} StaysCoherent(log: seq<Call>, maxAttempts: int, window: int, dropped: map<string, seq<int>>,
                                         attempts: map<string, seq<int>>, call: Call, gone: seq<int>, bucket: seq<int>)
    requires Coherent(log, maxAttempts, window, dropped, attempts)
    requires log != [] ==> log[|log| - 1].at <= call.at
    requires AllowedTimes(log, call.key) == gone + bucket
    requires forall i :: 0 <= i < |gone| ==> gone[i] <= call.at - window
    requires call.allowed <==> AllowedInside(log, call.key, Sliding(call.at, window)) < maxAttempts
    ensures Coherent(log + [call], maxAttempts, window, dropped[call.key := gone],
                     attempts[call.key := if call.allowed then bucket + [call.at] else bucket])
  {
    assert (log + [call])[..|log|] == log;
    KeepsTracking(log, window, dropped, attempts, call, gone, bucket);
  }

  ghost function Times(m: map<string, seq<int>>, key: string): seq<int> {
    if key in m then m[key] else []
  }

  ghost predicate AllTracked(log: seq<Call>, window: int, dropped: map<string, seq<int>>,
                             attempts: map<string, seq<int>>) {
    forall key :: Tracks(log, window, key, Times(dropped, key), Times(attempts, key))
  }

  lemma {:induction false} KeyTracked(log: seq<Call>, window: int, dropped: map<string, seq<int>>,
                                      attempts: map<string, seq<int>>, call: Call, gone: seq<int>, bucket: seq<int>,
                                      key: string)
    requires Tracks(log, window, key, Times(dropped, key), Times(attempts, key))
    requires log != [] ==> log[|log| - 1].at <= call.at
    requires AllowedTimes(log, call.key) == gone + bucket
    requires forall i :: 0 <= i < |gone| ==> gone[i] <= call.at - window
    ensures Tracks(log + [call], window, key, Times(dropped[call.key := gone], key),
                   Times(attempts[call.key := if call.allowed then bucket + [call.at] else bucket], key))
  {
    if key == call.key {
      TracksCall(log, window, key, gone, bucket, call);
    } else {
      TracksOther(log, window, key, Times(dropped, key), Times(attempts, key), call);
    }
  }

  lemma {:induction false} KeepsTracking(log: seq<Call>, window: int, dropped: map<string, seq<int>>,
                                         attempts: map<string, seq<int>>, call: Call, gone: seq<int>, bucket: seq<int>)
    requires AllTracked(log, window, dropped, attempts)
    requires log != [] ==> log[|log| - 1].at <= call.at
    requires AllowedTimes(log, call.key) == gone + bucket
    requires forall i :: 0 <= i < |gone| ==> gone[i] <= call.at - window
    ensures AllTracked(log + [call], window, dropped[call.key := gone],
                       attempts[call.key := if call.allowed then bucket + [call.at] else bucket])
  {
    var dropped' := dropped[call.key := gone];
    var attempts' := attempts[call.key := if call.allowed then bucket + [call.at] else bucket];
    forall key
      ensures Tracks(log + [call], window, key, Times(dropped', key), Times(attempts', key))
    {
      assert Tracks(log, window, key, Times(dropped, key), Times(attempts, key));
      KeyTracked(log, window, dropped, attempts, call, gone, bucket, key);
    }
  }

  /** A bucket is what is left of a key's allowed times after dropping old ones. */
  ghost predicate Tracks(log: seq<Call>, window: int, key: string, gone: seq<int>, bucket: seq<int>) {
    && AllowedTimes(log, key) == gone + bucket
    && forall i :: 0 <= i < |gone| ==> log != [] && gone[i] <= log[|log| - 1].at - window
  }

  lemma {:induction false} TracksCall(log: seq<Call>, window: int, key: string, gone: seq<int>, bucket: seq<int>,
                                      call: Call)
    requires AllowedTimes(log, key) == gone + bucket && call.key == key
    requires forall i :: 0 <= i < |gone| ==> gone[i] <= call.at - window
    ensures Tracks(log + [call], window, key, gone, if call.allowed then bucket + [call.at] else bucket)
  {
    assert (log + [call])[..|log|] == log;
    assert gone + bucket + [call.at] == gone + (bucket + [call.at]) && gone + bucket + [] == gone + bucket;
  }

  lemma {:induction false} TracksOther(log: seq<Call>, window: int, key: string, gone: seq<int>, bucket: seq<int>,
                                       call: Call)
    requires Tracks(log, window, key, gone, bucket) && call.key != key
    requires log != [] ==> log[|log| - 1].at <= call.at
    ensures Tracks(log + [call], window, key, gone, bucket)
  {
    assert (log + [call])[..|log|] == log;
    assert gone + bucket + [] == gone + bucket;
  }

  lemma {:induction false} AllowedSorted(log: seq<Call>, maxAttempts: int, window: int, key: string)
    requires Legal(log, maxAttempts, window)
    ensures forall i, j :: 0 <= i < j < |AllowedTimes(log, key)| ==>
      AllowedTimes(log, key)[i] <= AllowedTimes(log, key)[j]
  {
    if log != [] {
      var n := |log| - 1;
      AllowedSorted(log[..n], maxAttempts, window, key);
      AllowedAreCalls(log[..n], key);
      LatestLast(log, maxAttempts, window);
      var before := AllowedTimes(log[..n], key);
      forall i | 0 <= i < |before|
        ensures before[i] <= log[n].at
      {
        assert before[i] in before;
        var j :| 0 <= j < n && log[..n][j].at == before[i];
        assert log[j].at == before[i];
      }
    }
  }

  /** After the old times are popped, the bucket is exactly the window. */
  lemma {:induction false} WindowIsBucket(log: seq<Call>, maxAttempts: int, window: int, key: string, now: int,
                                          gone: seq<int>, bucket: seq<int>)
    requires Legal(log, maxAttempts, window) && (log != [] ==> log[|log| - 1].at <= now)
    requires AllowedTimes(log, key) == gone + bucket
    requires forall i :: 0 <= i < |gone| ==> gone[i] <= now - window
    requires bucket != [] ==> bucket[0] > now - window
    ensures AllowedInside(log, key, Sliding(now, window)) == |bucket|
  {
    var inside, times := Sliding(now, window), AllowedTimes(log, key);
    AllowedSorted(log, maxAttempts, window, key);
    AllowedAreCalls(log, key);
    LatestLast(log, maxAttempts, window);
    forall i | 0 <= i < |bucket|
      ensures inside(bucket[i])
    {
      assert times[|gone|] == bucket[0] && times[|gone| + i] == bucket[i] && bucket[i] in times;
      var j :| 0 <= j < |log| && log[j].at == bucket[i];
    }
    CountParts(gone, bucket, inside);
    CountNone(gone, inside);
    CountAll(bucket, inside);
  }
}
