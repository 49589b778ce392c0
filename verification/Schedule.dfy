/**
  The due-time loop of the endpoint agent.  Times are real numbers of seconds;
  the duration of each pass is a parameter and sleeps are exact.  The remote
  action poll of the daemon is one more kind, with an interval of ten seconds.
 */
module Schedule {
  type Kind = string

  /** One turn of the loop: when it read the clock, and the kinds it ran. */
  datatype Pass = Pass(at: real, served: set<Kind>)

  ghost predicate IsLeast(m: real, due: map<Kind, real>) {
    (exists k :: k in due && due[k] == m) && forall k :: k in due ==> m <= due[k]
  }

  method LeastDue(due: map<Kind, real>) returns (m: real)
    requires due != map[]
    ensures IsLeast(m, due)
  {
    var first :| first in due;
    m := due[first];
    ghost var best := first;
    var rest := due.Keys;
    while rest != {}
      invariant rest <= due.Keys && best in due && due[best] == m
      invariant forall k :: k in due && k !in rest ==> m <= due[k]
      invariant m <= due[first]
      decreases |rest|
    {
      var k :| k in rest;
      if due[k] < m {
        m, best := due[k], k;
      }
      rest := rest - {k};
    }
  }

  function Max(a: real, b: real): real { if a < b then b else a }

  function Min(a: real, b: real): real { if a < b then a else b }

  /**
    How long the loop sleeps after a pass that ended at time `end`: a tenth of a
    second if it ran something, else until the next due time, within [0.1, 1].
   */
  method SleepSeconds(due: map<Kind, real>, end: real, ran: bool) returns (wait: real)
    requires due != map[]
    ensures 0.1 <= wait <= 1.0
    ensures wait > 0.1 ==> !ran && forall k :: k in due ==> end + wait <= due[k]
    ensures !ran && wait < 1.0 ==> exists k :: k in due && due[k] <= end + wait
  {
    if ran {
      return 0.1;
    }
    var least := LeastDue(due);
    wait := Max(0.1, Min(1.0, least - end));
  }

  ghost function DueAfter(intervals: map<Kind, real>, due: map<Kind, real>, now: real): (r: map<Kind, real>)
    requires due.Keys == intervals.Keys
    ensures r.Keys == intervals.Keys
    ensures forall k :: k in intervals ==> r[k] == if due[k] <= now then now + intervals[k] else due[k]
  {
    map k | k in intervals :: if due[k] <= now then now + intervals[k] else due[k]
  }

  /** Runs every kind that is due at `now` and moves its due time one interval on. */
  method RunDue(intervals: map<Kind, real>, due0: map<Kind, real>, now: real)
      returns (due: map<Kind, real>, served: set<Kind>)
    requires due0.Keys == intervals.Keys
    ensures served == set k | k in intervals && due0[k] <= now
    ensures due == DueAfter(intervals, due0, now)
  {
    due, served := due0, {};
    var rest := intervals.Keys;
    while rest != {}
      invariant rest <= intervals.Keys && due.Keys == intervals.Keys
      invariant served == set k | k in intervals && k !in rest && due0[k] <= now
      invariant forall k :: k in intervals ==>
        due[k] == if k !in rest && due0[k] <= now then now + intervals[k] else due0[k]
      decreases |rest|
    {
      var k :| k in rest;
      rest := rest - {k};
      if now < due[k] {
        continue;
      }
      served := served + {k};
      due := due[k := now + intervals[k]];
    }
  }

  // ---------- What a run guarantees ----------

  ghost predicate Serves(log: seq<Pass>, i: int, k: Kind)
    requires 0 <= i < |log|
  {
    k in log[i].served
  }

  /** Passes are at least a tenth of a second apart. */
  ghost predicate Spaced(log: seq<Pass>) {
    forall i, j :: 0 <= i < j < |log| ==> log[i].at + 0.1 <= log[j].at
  }

  /** The next pass starts at most a second after the longest pass could have ended. */
  ghost predicate Steady(log: seq<Pass>, longest: real) {
    forall i :: 0 <= i < |log| - 1 ==> log[i + 1].at <= log[i].at + longest + 1.0
  }

  lemma {:induction false} SpacedStep(log: seq<Pass>, pass: Pass)
    requires Spaced(log) && (log != [] ==> log[|log| - 1].at + 0.1 <= pass.at)
    ensures Spaced(log + [pass])
  {
    forall i | 0 <= i < |log|
      ensures log[i].at + 0.1 <= pass.at
    {
      if i < |log| - 1 {
        assert log[i].at + 0.1 <= log[|log| - 1].at;
      }
    }
  }

  /** Runs of one kind are at least its interval apart. */
  ghost predicate NotTooOften(log: seq<Pass>, k: Kind, interval: real) {
    forall i, j :: 0 <= i < j < |log| && Serves(log, i, k) && Serves(log, j, k) ==>
      log[i].at + interval <= log[j].at
  }

  ghost predicate IdleBetween(log: seq<Pass>, k: Kind, i: int, j: int)
    requires 0 <= i < j <= |log|
  {
    forall m :: i < m < j ==> !Serves(log, m, k)
  }

  /** With i the last run of the kind before pass j, and its due time reached: pass j runs it, in time. */
  ghost predicate RunsInTime(log: seq<Pass>, k: Kind, interval: real, late: real, i: int, j: int)
    requires 0 <= i < j < |log|
  {
    Serves(log, i, k) && IdleBetween(log, k, i, j) && log[j].at >= log[i].at + interval ==>
      Serves(log, j, k) && log[j].at < log[i].at + interval + late
  }

  /** After every run, the first pass at or past the next due time runs the kind again, less than `late` late. */
  ghost predicate NotTooLate(log: seq<Pass>, k: Kind, interval: real, late: real) {
    forall i, j :: 0 <= i < j < |log| ==> RunsInTime(log, k, interval, late, i, j)
  }

  /** The due time of a kind follows its last run, which `last` points at (-1 if none). */
  ghost predicate DueFollows(log: seq<Pass>, k: Kind, interval: real, due: real, last: int) {
    && -1 <= last < |log|
    && (last == -1 ==> due == 0.0)
    && (last >= 0 ==> Serves(log, last, k) && due == log[last].at + interval)
    && (forall m :: last < m < |log| ==> !Serves(log, m, k))
    && (log != [] ==> log[|log| - 1].at < due)
  }

  lemma {:induction false} OftenStep(log: seq<Pass>, pass: Pass, k: Kind, interval: real, due: real, last: int)
    requires interval > 0.0 && DueFollows(log, k, interval, due, last) && NotTooOften(log, k, interval)
    requires k in pass.served <==> due <= pass.at
    ensures NotTooOften(log + [pass], k, interval)
  {
    var log', n := log + [pass], |log|;
    forall i, j | 0 <= i < j < |log'| && Serves(log', i, k) && Serves(log', j, k)
      ensures log'[i].at + interval <= log'[j].at
    {
      assert Serves(log, i, k);
      if j < n {
        assert Serves(log, j, k);
      } else if i < last {
        assert Serves(log, last, k);
      }
    }
  }

  lemma {:induction false} InTimeStep(log: seq<Pass>, pass: Pass, k: Kind, interval: real, late: real, due: real,
                                      last: int, i: nat)
    requires i < |log| && DueFollows(log, k, interval, due, last)
    requires pass.at < due + late
    requires k in pass.served <==> due <= pass.at
    ensures RunsInTime(log + [pass], k, interval, late, i, |log|)
  {
    var log' := log + [pass];
    if Serves(log', i, k) && IdleBetween(log', k, i, |log|) {
      assert Serves(log, i, k);
      assert last > i ==> Serves(log', last, k);
      assert i == last;
    }
  }

  lemma {:induction false} LateStep(log: seq<Pass>, pass: Pass, k: Kind, interval: real, late: real, due: real, last: int)
    requires DueFollows(log, k, interval, due, last) && NotTooLate(log, k, interval, late)
    requires log != [] ==> pass.at < due + late
    requires k in pass.served <==> due <= pass.at
    ensures NotTooLate(log + [pass], k, interval, late)
  {
    var log' := log + [pass];
    forall i, j | 0 <= i < j < |log'|
      ensures RunsInTime(log', k, interval, late, i, j)
    {
      if j == |log| {
        InTimeStep(log, pass, k, interval, late, due, last, i);
      } else {
        assert RunsInTime(log, k, interval, late, i, j);
        if Serves(log', i, k) && IdleBetween(log', k, i, j) {
          assert forall m :: i < m < j ==> Serves(log', m, k) == Serves(log, m, k);
        }
      }
    }
  }

  lemma {:induction false} DueStep(log: seq<Pass>, pass: Pass, k: Kind, interval: real, due: real, last: int)
    requires interval > 0.0 && DueFollows(log, k, interval, due, last)
    requires k in pass.served <==> due <= pass.at
    ensures due <= pass.at ==> DueFollows(log + [pass], k, interval, pass.at + interval, |log|)
    ensures due > pass.at ==> DueFollows(log + [pass], k, interval, due, last)
  {
    var log' := log + [pass];
    forall m | last < m < |log|
      ensures !Serves(log', m, k)
    {
      assert !Serves(log, m, k);
    }
  }

  // ---------- The loop ----------

  /** Loop invariant for one kind. */
  ghost predicate OnSchedule(log: seq<Pass>, k: Kind, interval: real, late: real, due: real) {
    && NotTooOften(log, k, interval)
    && NotTooLate(log, k, interval, late)
    && exists last :: DueFollows(log, k, interval, due, last)
  }

  lemma {:induction false} StaysOnSchedule(log: seq<Pass>, pass: Pass, k: Kind, interval: real, late: real, due: real)
    requires interval > 0.0 && OnSchedule(log, k, interval, late, due)
    requires log != [] ==> pass.at < due + late
    requires k in pass.served <==> due <= pass.at
    ensures OnSchedule(log + [pass], k, interval, late, if due <= pass.at then pass.at + interval else due)
  {
    var last :| DueFollows(log, k, interval, due, last);
    OftenStep(log, pass, k, interval, due, last);
    LateStep(log, pass, k, interval, late, due, last);
    DueStep(log, pass, k, interval, due, last);
  }

  ghost predicate AllOnSchedule(log: seq<Pass>, intervals: map<Kind, real>, late: real, due: map<Kind, real>)
    requires due.Keys == intervals.Keys
  {
    forall k :: k in intervals ==> OnSchedule(log, k, intervals[k], late, due[k])
  }

  lemma {:induction false} StartsOnSchedule(intervals: map<Kind, real>, late: real, due: map<Kind, real>)
    requires due.Keys == intervals.Keys && forall k :: k in due ==> due[k] == 0.0
    ensures AllOnSchedule([], intervals, late, due)
  {
    forall k | k in intervals
      ensures OnSchedule([], k, intervals[k], late, due[k])
    {
      assert DueFollows([], k, intervals[k], due[k], -1);
    }
  }

  lemma {:induction false} AllStayOnSchedule(log: seq<Pass>, pass: Pass, intervals: map<Kind, real>, late: real,
                                             due: map<Kind, real>)
    requires due.Keys == intervals.Keys && AllOnSchedule(log, intervals, late, due)
    requires forall k :: k in intervals ==> intervals[k] > 0.0
    requires log != [] ==> forall k :: k in intervals ==> pass.at < due[k] + late
    requires pass.served == set k | k in intervals && due[k] <= pass.at
    ensures AllOnSchedule(log + [pass], intervals, late, DueAfter(intervals, due, pass.at))
  {
    var after := DueAfter(intervals, due, pass.at);
    forall k | k in intervals
      ensures OnSchedule(log + [pass], k, intervals[k], late, after[k])
    {
      StaysOnSchedule(log, pass, k, intervals[k], late, due[k]);
    }
  }

  /** Loop invariant: where the loop stands before the pass that starts at `now`. */
  ghost predicate Standing(log: seq<Pass>, intervals: map<Kind, real>, longest: real, due: map<Kind, real>, now: real) {
    && due.Keys == intervals.Keys && Spaced(log) && Steady(log, longest)
    && AllOnSchedule(log, intervals, longest + 0.1, due)
    && (log != [] ==>
          log[|log| - 1].at + 0.1 <= now <= log[|log| - 1].at + longest + 1.0
          && forall k :: k in intervals ==> now < due[k] + longest + 0.1)
  }

  ghost predicate SomeDue(due: map<Kind, real>, now: real) {
    exists k :: k in due && due[k] <= now
  }

  /**
    How long the loop rested between two passes: a tenth of a second if the first
    one ran something; else a second, or less if the second one runs something.
   */
  ghost predicate Rested(pass: Pass, duration: real, next: real, busy: bool) {
    var end := pass.at + duration;
    if pass.served != {} then next == end + 0.1
    else end + 0.1 <= next <= end + 1.0 && (busy || next == end + 1.0)
  }

  ghost predicate AllRested(log: seq<Pass>, durations: seq<real>)
    requires |log| <= |durations|
  {
    forall i :: 0 <= i < |log| - 1 ==> Rested(log[i], durations[i], log[i + 1].at, log[i + 1].served != {})
  }

  /** Loop invariant: the rests so far, and the one before the pass that starts at `now`. */
  ghost predicate Resting(log: seq<Pass>, durations: seq<real>, due: map<Kind, real>, now: real) {
    && |log| <= |durations| && AllRested(log, durations)
    && (log != [] ==> Rested(log[|log| - 1], durations[|log| - 1], now, SomeDue(due, now)))
  }

  lemma {:induction false} RestsAgain(log: seq<Pass>, durations: seq<real>, due0: map<Kind, real>, pass: Pass,
                                      due: map<Kind, real>, next: real)
    requires |log| < |durations| && Resting(log, durations, due0, pass.at)
    requires pass.served != {} <==> SomeDue(due0, pass.at)
    requires Rested(pass, durations[|log|], next, SomeDue(due, next))
    ensures Resting(log + [pass], durations, due, next)
  {
  }

  lemma {:induction false} ServedIffDue(intervals: map<Kind, real>, due: map<Kind, real>, now: real, served: set<Kind>)
    requires due.Keys == intervals.Keys && served == set k | k in intervals && due[k] <= now
    ensures served != {} <==> SomeDue(due, now)
  {
    if k :| k in served {
      assert k in due && due[k] <= now;
    }
    if SomeDue(due, now) {
      var k :| k in due && due[k] <= now;
      assert k in intervals;
      assert k in served;
    }
  }

  /** One turn: run what is due, then sleep. */
  method TakeTurn(intervals: map<Kind, real>, due0: map<Kind, real>, now: real, duration: real, ghost log: seq<Pass>,
                  ghost longest: real)
      returns (due: map<Kind, real>, served: set<Kind>, next: real)
    requires intervals != map[] && 0.0 <= duration <= longest
    requires forall k :: k in intervals ==> intervals[k] > 0.0
    requires Standing(log, intervals, longest, due0, now)
    ensures served == set k | k in intervals && due0[k] <= now
    ensures Standing(log + [Pass(now, served)], intervals, longest, due, next)
    ensures served != {} <==> SomeDue(due0, now)
    ensures Rested(Pass(now, served), duration, next, SomeDue(due, next))
  {
    due, served := RunDue(intervals, due0, now);
    ServedIffDue(intervals, due0, now, served);
    var wait := SleepSeconds(due, now + duration, served != {});
    next := now + duration + wait;
    StandsAgain(log, intervals, longest, due0, now, duration, served, due, wait);
  }

  lemma {:induction false} StandsAgain(log: seq<Pass>, intervals: map<Kind, real>, longest: real,
                                       due0: map<Kind, real>, now: real, duration: real, served: set<Kind>,
                                       due: map<Kind, real>, wait: real)
    requires 0.0 <= duration <= longest && forall k :: k in intervals ==> intervals[k] > 0.0
    requires Standing(log, intervals, longest, due0, now)
    requires served == set k | k in intervals && due0[k] <= now
    requires due == DueAfter(intervals, due0, now)
    requires 0.1 <= wait <= 1.0 && forall k :: k in due && wait > 0.1 ==> now + duration + wait <= due[k]
    ensures Standing(log + [Pass(now, served)], intervals, longest, due, now + duration + wait)
  {
    AllStayOnSchedule(log, Pass(now, served), intervals, longest + 0.1, due0);
    SpacedStep(log, Pass(now, served));
    forall k | k in intervals
      ensures now + duration + wait < due[k] + longest + 0.1
    {
      assert now < due[k];
    }
  }

  /** What the agent promises for its kinds: not more often than configured, and not late. */
  ghost predicate KeepsSchedule(log: seq<Pass>, intervals: map<Kind, real>, late: real) {
    forall k :: k in intervals ==> NotTooOften(log, k, intervals[k]) && NotTooLate(log, k, intervals[k], late)
  }

  lemma {:induction false} StandingKeepsSchedule(log: seq<Pass>, intervals: map<Kind, real>, longest: real,
                                                 due: map<Kind, real>, now: real)
    requires Standing(log, intervals, longest, due, now)
    ensures KeepsSchedule(log, intervals, longest + 0.1)
  {
    forall k | k in intervals
      ensures NotTooOften(log, k, intervals[k]) && NotTooLate(log, k, intervals[k], longest + 0.1)
    {
      assert OnSchedule(log, k, intervals[k], longest + 0.1, due[k]);
    }
  }

  /**
    The loop, until stopped after |durations| passes.  `durations[n]` is the time
    that pass n takes.
   */
  method RunForeground(intervals: map<Kind, real>, start: real, durations: seq<real>, ghost longest: real)
      returns (log: seq<Pass>)
    requires intervals != map[] && forall k :: k in intervals ==> intervals[k] > 0.0
    requires forall n :: 0 <= n < |durations| ==> 0.0 <= durations[n] <= longest
    ensures |log| == |durations| && Spaced(log) && Steady(log, longest)
    ensures KeepsSchedule(log, intervals, longest + 0.1)
    ensures AllRested(log, durations)
    ensures log != [] ==> log[0].at == start && (start >= 0.0 ==> log[0].served == intervals.Keys)
  {
    log := [];
    var due := map k | k in intervals :: 0.0;
    var now := start;
    StartsOnSchedule(intervals, longest + 0.1, due);
    for n := 0 to |durations|
      invariant |log| == n && Standing(log, intervals, longest, due, now)
      invariant Resting(log, durations, due, now)
      invariant n == 0 ==> now == start && forall k :: k in intervals ==> due[k] == 0.0
      invariant n > 0 ==> log[0].at == start && (start >= 0.0 ==> log[0].served == intervals.Keys)
    {
      var served, next;
      ghost var due0 := due;
      due, served, next := TakeTurn(intervals, due, now, durations[n], log, longest);
      RestsAgain(log, durations, due0, Pass(now, served), due, next);
      log := log + [Pass(now, served)];
      now := next;
    }
    StandingKeepsSchedule(log, intervals, longest, due, now);
  }
}
