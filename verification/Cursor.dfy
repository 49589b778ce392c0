/**
  The agent's cursor over the Windows security log.  A poll reads a batch of
  records, moves the cursor to the largest id seen and forwards the records
  above the old cursor in id order.  The first poll only sets the cursor.
 */
module Cursor {
  import opened Wrappers
  import opened Sorting

  /** A record as collected; an id that is not an integer is absent. */
  datatype Record = Record(id: Option<int>, body: string)

  function IdOrZero(r: Record): int {
    if r.id.Some? then r.id.value else 0
  }

  function MaxId(events: seq<Record>): (m: Option<int>)
    ensures m.None? <==> forall i :: 0 <= i < |events| ==> events[i].id.None?
    ensures m.Some? ==> forall i :: 0 <= i < |events| && events[i].id.Some? ==> events[i].id.value <= m.value
    ensures m.Some? ==> exists i :: 0 <= i < |events| && events[i].id == m
  {
    if events == [] then None
    else
      var n := |events| - 1;
      var rest := MaxId(events[..n]);
      assert rest.Some? ==> exists i :: 0 <= i < n && events[i].id == rest by {
        if rest.Some? {
          var i :| 0 <= i < n && events[..n][i].id == rest;
          assert events[i].id == rest;
        }
      }
      assert forall i :: 0 <= i < n ==> events[i] == events[..n][i];
      if events[n].id.None? then rest
      else if rest.None? || rest.value < events[n].id.value then events[n].id else rest
  }

  /** The cursor after a poll. */
  function Advance(last: Option<int>, max: int): int {
    var floor := if last.Some? then last.value else 0;
    if max > floor then max else floor
  }

  function Above(events: seq<Record>, last: int): seq<Record> {
    if events == [] then []
    else
      var n := |events| - 1;
      Above(events[..n], last) + if IdOrZero(events[n]) > last then [events[n]] else []
  }

  lemma {:induction false} AboveMembers(events: seq<Record>, last: int)
    ensures forall x :: x in Above(events, last) <==> x in events && IdOrZero(x) > last
  {
    if events != [] {
      var n := |events| - 1;
      assert events == events[..n] + [events[n]];
      AboveMembers(events[..n], last);
    }
  }

  function SortById(s: seq<Record>): seq<Record> {
    SortBy(IdOrZero, s)
  }

  lemma {:induction false} SortMembers(s: seq<Record>)
    ensures forall y :: y in SortById(s) <==> y in s
  {
    SortBySorts(IdOrZero, s);
    assert forall y :: y in SortById(s) <==> y in multiset(SortById(s));
    assert forall y :: y in s <==> y in multiset(s);
  }

  ghost predicate HasId(events: seq<Record>) {
    exists i :: 0 <= i < |events| && events[i].id.Some?
  }

  /** m is the least number that is not below `floor` or any id of the batch. */
  ghost predicate IsReached(events: seq<Record>, floor: int, m: int) {
    && floor <= m && (forall i :: 0 <= i < |events| && events[i].id.Some? ==> events[i].id.value <= m)
    && (m == floor || exists i :: 0 <= i < |events| && events[i].id == Some(m))
  }

  /**
    One poll.  A batch without ids changes nothing.  The first batch with ids sets
    the cursor to its largest id, at least zero, and forwards nothing.  Later ones
    move it to their largest id if that is above, and forward what is above it.
   */
  ghost predicate Polled(last: Option<int>, events: seq<Record>, next: Option<int>, r: seq<Record>) {
    if !HasId(events) then next == last && r == []
    else if last.None? then next.Some? && IsReached(events, 0, next.value) && r == []
    else
      && next.Some? && IsReached(events, last.value, next.value)
      && (forall x :: x in r <==> x in events && (if x.id.Some? then x.id.value else 0) > last.value)
      && AscendingBy(IdOrZero, r)
  }

  lemma {:induction false} PollMeaning(last: Option<int>, events: seq<Record>)
    ensures Polled(last, events, NextCursor(last, events), Forwarded(last, events))
  {
    if HasId(events) && last.Some? {
      SortMembers(Above(events, last.value));
      AboveMembers(events, last.value);
      SortBySorts(IdOrZero, Above(events, last.value));
    }
  }

  /** Records are forwarded as often as they were listed, and stay in order where ids are equal. */
  lemma {:induction false} ForwardedCopies(last: int, events: seq<Record>, x: Record)
    requires HasId(events) && IdOrZero(x) > last
    ensures multiset(Forwarded(Some(last), events))[x] == multiset(events)[x]
  {
    SortBySorts(IdOrZero, Above(events, last));
    AboveCopies(events, last, x);
  }

  lemma {:induction false} AboveCopies(events: seq<Record>, last: int, x: Record)
    requires IdOrZero(x) > last
    ensures multiset(Above(events, last))[x] == multiset(events)[x]
  {
    if events != [] {
      var n := |events| - 1;
      assert events == events[..n] + [events[n]];
      AboveCopies(events[..n], last, x);
    }
  }

  class CursorState {
    var last: Option<int>

    constructor (stored: Option<int>)
      ensures last == stored
    {
      last := stored;
    }

    /** One poll: what is forwarded, in order, and where the cursor ends. */
    method CollectNew(events: seq<Record>) returns (r: seq<Record>)
      modifies this
      ensures last == NextCursor(old(last), events)
      ensures r == Forwarded(old(last), events)
      ensures Polled(old(last), events, last, r)
    {
      PollMeaning(last, events);
      var max := MaxId(events);
      if max.None? {
        return [];
      }
      var before := last;
      last := Some(Advance(before, max.value));
      if before.None? {
        return [];
      }
      r := SortById(Above(events, before.value));
    }
  }

  ghost function NextCursor(last: Option<int>, events: seq<Record>): Option<int> {
    if MaxId(events).None? then last else Some(Advance(last, MaxId(events).value))
  }

  ghost function Forwarded(last: Option<int>, events: seq<Record>): seq<Record> {
    if MaxId(events).None? || last.None? then [] else SortById(Above(events, last.value))
  }

  // ---------- Runs ----------

  ghost function CursorAfter(stored: Option<int>, polls: seq<seq<Record>>): Option<int> {
    if polls == [] then stored
    else NextCursor(CursorAfter(stored, polls[..|polls| - 1]), polls[|polls| - 1])
  }

  ghost function Ids(s: seq<Record>): (r: seq<int>)
    ensures |r| == |s|
  {
    seq(|s|, i requires 0 <= i < |s| => IdOrZero(s[i]))
  }

  /** Ids forwarded over a run, in order of forwarding. */
  ghost function ForwardedIds(stored: Option<int>, polls: seq<seq<Record>>): seq<int> {
    if polls == [] then []
    else
      var n := |polls| - 1;
      ForwardedIds(stored, polls[..n]) + Ids(Forwarded(CursorAfter(stored, polls[..n]), polls[n]))
  }

  /** No two records of a batch share an id. */
  ghost predicate DistinctIds(events: seq<Record>) {
    forall i, j :: 0 <= i < j < |events| && events[i].id.Some? && events[j].id.Some? ==> events[i].id != events[j].id
  }

  /** Above a non-negative cursor only records with an id remain, so their ids are apart. */
  lemma {:induction false} AboveApart(events: seq<Record>, last: int)
    requires DistinctIds(events) && last >= 0
    ensures ApartBy(IdOrZero, Above(events, last))
  {
    if events != [] {
      var n := |events| - 1;
      AboveApart(events[..n], last);
      AboveMembers(events[..n], last);
      forall y | y in Above(events[..n], last) && IdOrZero(events[n]) > last
        ensures IdOrZero(y) != IdOrZero(events[n])
      {
        var i :| 0 <= i < n && events[..n][i] == y;
        assert events[i] == y;
      }
    }
  }

  /** The cursor, once set, never moves back; if it starts unset or non-negative it is never negative. */
  lemma {:induction false} CursorNeverDecreases(last: Option<int>, events: seq<Record>)
    ensures last.Some? ==> NextCursor(last, events).Some? && last.value <= NextCursor(last, events).value
    ensures (last.Some? ==> last.value >= 0) ==>
      NextCursor(last, events).Some? ==> NextCursor(last, events).value >= 0
  {
  }

  /** What is forwarded, as a set: the records above the old cursor, all at or below the new one. */
  lemma {:induction false} ForwardedExactly(last: Option<int>, events: seq<Record>)
    requires last.Some? && last.value >= 0
    ensures forall x :: x in Forwarded(last, events) <==> x in events && IdOrZero(x) > last.value
    ensures forall x :: x in Forwarded(last, events) ==> x.id.Some? && x.id.value <= NextCursor(last, events).value
  {
    SortMembers(Above(events, last.value));
    AboveMembers(events, last.value);
    forall x | x in events && IdOrZero(x) > last.value
      ensures x.id.Some? && MaxId(events).Some? && x.id.value <= MaxId(events).value
    {
      var i :| 0 <= i < |events| && events[i] == x;
    }
  }

  ghost predicate NonNegative(stored: Option<int>) {
    stored.Some? ==> stored.value >= 0
  }

  lemma {:induction false} CursorStaysNonNegative(stored: Option<int>, polls: seq<seq<Record>>)
    requires NonNegative(stored)
    ensures NonNegative(CursorAfter(stored, polls))
    ensures stored.Some? ==> CursorAfter(stored, polls).Some? && stored.value <= CursorAfter(stored, polls).value
  {
    if polls != [] {
      CursorStaysNonNegative(stored, polls[..|polls| - 1]);
      CursorNeverDecreases(CursorAfter(stored, polls[..|polls| - 1]), polls[|polls| - 1]);
    }
  }

  ghost predicate NoneBeyond(ids: seq<int>, cursor: Option<int>) {
    forall i :: 0 <= i < |ids| ==> cursor.Some? && ids[i] <= cursor.value
  }

  lemma {:induction false} NotBeyond(ids: seq<int>, cursor: Option<int>, r: int)
    requires NoneBeyond(ids, cursor)
    ensures r in ids ==> cursor.Some? && r <= cursor.value
  {
  }

  lemma {:induction false} PollBelowCursor(last: Option<int>, events: seq<Record>)
    requires NonNegative(last)
    ensures NoneBeyond(Ids(Forwarded(last, events)), NextCursor(last, events))
  {
    var f := Forwarded(last, events);
    if last.Some? {
      ForwardedExactly(last, events);
      CursorNeverDecreases(last, events);
      forall i | 0 <= i < |Ids(f)|
        ensures Ids(f)[i] <= NextCursor(last, events).value
      {
        assert f[i] in f;
      }
    }
  }

  lemma {:induction false} JoinBelow(a: seq<int>, b: seq<int>, before: Option<int>, after: Option<int>)
    requires NoneBeyond(a, before) && NoneBeyond(b, after)
    requires before.Some? ==> after.Some? && before.value <= after.value
    ensures NoneBeyond(a + b, after)
  {
    forall i | 0 <= i < |a|
      ensures after.Some? && a[i] <= after.value
    {
      assert a[i] in a;
    }
  }

  /** Forwarded ids of a run never exceed its cursor. */
  lemma {:induction false} ForwardedBelowCursor(stored: Option<int>, polls: seq<seq<Record>>)
    requires NonNegative(stored)
    ensures NoneBeyond(ForwardedIds(stored, polls), CursorAfter(stored, polls))
  {
    if polls != [] {
      var n := |polls| - 1;
      var before := CursorAfter(stored, polls[..n]);
      ForwardedBelowCursor(stored, polls[..n]);
      CursorStaysNonNegative(stored, polls[..n]);
      CursorNeverDecreases(before, polls[n]);
      PollBelowCursor(before, polls[n]);
      JoinBelow(ForwardedIds(stored, polls[..n]), Ids(Forwarded(before, polls[n])), before,
                NextCursor(before, polls[n]));
    }
  }

  lemma {:induction false} PollIncreases(last: Option<int>, events: seq<Record>)
    requires NonNegative(last) && DistinctIds(events)
    ensures StrictlyIncreasing(Ids(Forwarded(last, events)))
  {
    if last.Some? {
      AboveApart(events, last.value);
      SortByApart(IdOrZero, Above(events, last.value));
    }
  }

  /** Over any run whose polls list distinct ids, the forwarded ids strictly increase: none is sent twice. */
  lemma {:induction false} ForwardedIncrease(stored: Option<int>, polls: seq<seq<Record>>)
    requires NonNegative(stored) && forall k :: 0 <= k < |polls| ==> DistinctIds(polls[k])
    ensures StrictlyIncreasing(ForwardedIds(stored, polls))
  {
    if polls != [] {
      var n := |polls| - 1;
      var before := CursorAfter(stored, polls[..n]);
      ForwardedIncrease(stored, polls[..n]);
      ForwardedBelowCursor(stored, polls[..n]);
      CursorStaysNonNegative(stored, polls[..n]);
      PollIncreases(before, polls[n]);
      var f := Forwarded(before, polls[n]);
      if before.Some? {
        ForwardedExactly(before, polls[n]);
      }
      forall j | 0 <= j < |f|
        ensures before.Some? && Ids(f)[j] > before.value
      {
        assert f[j] in f;
      }
    }
  }

  /** The batch holds only records of the log. */
  ghost predicate ListedFrom(events: seq<Record>, log: set<int>) {
    forall x :: x in events && x.id.Some? ==> x.id.value in log
  }

  ghost predicate AllListed(polls: seq<seq<Record>>, log: set<int>) {
    forall k :: 0 <= k < |polls| ==> ListedFrom(polls[k], log)
  }

  /** The batch skips no record of the log between a set cursor and its own largest id. */
  ghost predicate Gapless(last: Option<int>, events: seq<Record>, log: set<int>) {
    forall r :: r in log && last.Some? && MaxId(events).Some? && last.value < r <= MaxId(events).value ==>
      exists x :: x in events && x.id == Some(r)
  }

  ghost predicate GaplessRun(stored: Option<int>, polls: seq<seq<Record>>, log: set<int>) {
    polls != [] ==>
      var n := |polls| - 1;
      GaplessRun(stored, polls[..n], log) && Gapless(CursorAfter(stored, polls[..n]), polls[n], log)
  }

  lemma {:induction false} ForwardedIsAbove(last: int, events: seq<Record>, r: int)
    requires last >= 0 && r in Ids(Forwarded(Some(last), events))
    ensures last < r <= NextCursor(Some(last), events).value
    ensures exists x :: x in events && x.id == Some(r)
  {
    var f := Forwarded(Some(last), events);
    ForwardedExactly(Some(last), events);
    var i :| 0 <= i < |f| && Ids(f)[i] == r;
    assert f[i] in f && f[i].id == Some(r);
  }

  lemma {:induction false} PollForwardsAll(last: int, events: seq<Record>, log: set<int>, r: int)
    requires last >= 0 && ListedFrom(events, log) && Gapless(Some(last), events, log)
    ensures r in Ids(Forwarded(Some(last), events))
      <==> r in log && last < r <= NextCursor(Some(last), events).value
  {
    if r in Ids(Forwarded(Some(last), events)) {
      ForwardedIsAbove(last, events, r);
    }
    if r in log && last < r <= NextCursor(Some(last), events).value {
      var f := Forwarded(Some(last), events);
      ForwardedExactly(Some(last), events);
      var x :| x in events && x.id == Some(r);
      assert x in f;
      var i :| 0 <= i < |f| && f[i] == x;
      assert Ids(f)[i] == r;
    }
  }

  /** The largest id of the first batch that has one, but at least zero. */
  ghost function FirstReached(polls: seq<seq<Record>>): Option<int> {
    if polls == [] then None
    else
      var before, n := FirstReached(polls[..|polls| - 1]), |polls| - 1;
      if before.Some? || MaxId(polls[n]).None? then before
      else Some(if MaxId(polls[n]).value > 0 then MaxId(polls[n]).value else 0)
  }

  lemma {:induction false} FirstReachedMeaning(polls: seq<seq<Record>>, f: nat)
    requires f < |polls| && HasId(polls[f]) && forall k :: 0 <= k < f ==> !HasId(polls[k])
    ensures FirstReached(polls).Some? && IsReached(polls[f], 0, FirstReached(polls).value)
  {
    var n := |polls| - 1;
    if f < n {
      FirstReachedMeaning(polls[..n], f);
    } else {
      NothingReached(polls[..n]);
    }
  }

  lemma {:induction false} NothingReached(polls: seq<seq<Record>>)
    requires forall k :: 0 <= k < |polls| ==> !HasId(polls[k])
    ensures FirstReached(polls).None?
  {
    if polls != [] {
      NothingReached(polls[..|polls| - 1]);
    }
  }

  /** Where forwarding starts: at the stored cursor or, if there is none, at the largest id of the first batch with ids. */
  ghost function Baseline(stored: Option<int>, polls: seq<seq<Record>>): Option<int> {
    if stored.Some? then stored else FirstReached(polls)
  }

  /** The records that a run should have forwarded. */
  ghost predicate Owed(stored: Option<int>, polls: seq<seq<Record>>, r: int) {
    && Baseline(stored, polls).Some? && CursorAfter(stored, polls).Some?
    && Baseline(stored, polls).value < r <= CursorAfter(stored, polls).value
  }

  lemma {:induction false} BaselineBelowCursor(stored: Option<int>, polls: seq<seq<Record>>)
    requires NonNegative(stored)
    ensures Baseline(stored, polls).Some? <==> CursorAfter(stored, polls).Some?
    ensures Baseline(stored, polls).Some? ==> Baseline(stored, polls).value <= CursorAfter(stored, polls).value
    ensures polls != [] && Baseline(stored, polls[..|polls| - 1]).Some? ==>
      Baseline(stored, polls) == Baseline(stored, polls[..|polls| - 1])
  {
    if polls != [] {
      var n := |polls| - 1;
      BaselineBelowCursor(stored, polls[..n]);
      CursorNeverDecreases(CursorAfter(stored, polls[..n]), polls[n]);
    }
  }

  /** Nothing at or below the start of forwarding is ever forwarded, so not the first batch with ids. */
  lemma {:induction false} NothingBelowBaseline(stored: Option<int>, polls: seq<seq<Record>>, r: int)
    requires NonNegative(stored) && r in ForwardedIds(stored, polls)
    ensures Baseline(stored, polls).Some? && r > Baseline(stored, polls).value
  {
    var n := |polls| - 1;
    BaselineBelowCursor(stored, polls);
    BaselineBelowCursor(stored, polls[..n]);
    if r in ForwardedIds(stored, polls[..n]) {
      NothingBelowBaseline(stored, polls[..n], r);
    } else {
      CursorStaysNonNegative(stored, polls[..n]);
      ForwardedIsAbove(CursorAfter(stored, polls[..n]).value, polls[n], r);
    }
  }

  /** Without a stored cursor, nothing up to the largest id of the first batch with ids is ever forwarded. */
  lemma {:induction false} FirstBatchNeverForwarded(polls: seq<seq<Record>>, f: nat, i: nat, r: int)
    requires f < |polls| && HasId(polls[f]) && forall k :: 0 <= k < f ==> !HasId(polls[k])
    requires i < |polls[f]| && polls[f][i].id.Some? && r <= polls[f][i].id.value
    ensures r !in ForwardedIds(None, polls)
  {
    FirstReachedMeaning(polls, f);
    if r in ForwardedIds(None, polls) {
      NothingBelowBaseline(None, polls, r);
    }
  }

  /**
    With gapless batches, exactly the log records above the baseline and up to
    the final cursor are forwarded; by ForwardedIncrease, once each.
   */
  lemma {:induction false} ForwardedOnce(stored: Option<int>, polls: seq<seq<Record>>, log: set<int>, r: int)
    requires NonNegative(stored) && AllListed(polls, log) && GaplessRun(stored, polls, log)
    ensures r in ForwardedIds(stored, polls) <==> r in log && Owed(stored, polls, r)
  {
    BaselineBelowCursor(stored, polls);
    if polls != [] {
      var n := |polls| - 1;
      var before := CursorAfter(stored, polls[..n]);
      CursorStaysNonNegative(stored, polls[..n]);
      assert AllListed(polls[..n], log);
      BaselineBelowCursor(stored, polls[..n]);
      ForwardedOnce(stored, polls[..n], log, r);
      CursorNeverDecreases(before, polls[n]);
      if before.Some? {
        PollForwardsAll(before.value, polls[n], log, r);
      }
    }
  }

  ghost predicate LossFree(stored: Option<int>, polls: seq<seq<Record>>, log: set<int>) {
    forall r :: r in log && Owed(stored, polls, r) ==> r in ForwardedIds(stored, polls)
  }

  /** What a run owes after a poll was owed before it, or lies between the two cursors. */
  lemma {:induction false} OwedParts(stored: Option<int>, polls: seq<seq<Record>>, r: int)
    requires NonNegative(stored) && polls != [] && CursorAfter(stored, polls[..|polls| - 1]).Some?
    ensures var before := CursorAfter(stored, polls[..|polls| - 1]).value;
      Owed(stored, polls, r) <==> Owed(stored, polls[..|polls| - 1], r) || before < r <= CursorAfter(stored, polls).value
  {
    BaselineBelowCursor(stored, polls);
    BaselineBelowCursor(stored, polls[..|polls| - 1]);
    CursorNeverDecreases(CursorAfter(stored, polls[..|polls| - 1]), polls[|polls| - 1]);
  }

  /** An owed record is forwarded in time or never. */
  lemma {:induction false} LossFreeSplits(stored: Option<int>, polls: seq<seq<Record>>, log: set<int>)
    requires NonNegative(stored) && polls != [] && LossFree(stored, polls, log)
    ensures LossFree(stored, polls[..|polls| - 1], log)
    ensures Gapless(CursorAfter(stored, polls[..|polls| - 1]), polls[|polls| - 1], log)
  {
    var n := |polls| - 1;
    var front, before, events := polls[..n], CursorAfter(stored, polls[..n]), polls[n];
    BaselineBelowCursor(stored, front);
    CursorStaysNonNegative(stored, front);
    ForwardedBelowCursor(stored, front);
    if before.Some? {
      forall r | r in log && Owed(stored, front, r)
        ensures r in ForwardedIds(stored, front)
      {
        OwedParts(stored, polls, r);
        if r in Ids(Forwarded(before, events)) {
          ForwardedIsAbove(before.value, events, r);
        }
      }
      forall r | r in log && MaxId(events).Some? && before.value < r <= MaxId(events).value
        ensures exists x :: x in events && x.id == Some(r)
      {
        OwedParts(stored, polls, r);
        NotBeyond(ForwardedIds(stored, front), before, r);
        ForwardedIsAbove(before.value, events, r);
      }
    }
  }

  /** No record is lost between the baseline and the final cursor, if and only if no batch of the run has a gap. */
  lemma {:induction false} LossFreeIffGapless(stored: Option<int>, polls: seq<seq<Record>>, log: set<int>)
    requires NonNegative(stored) && AllListed(polls, log)
    ensures LossFree(stored, polls, log) <==> GaplessRun(stored, polls, log)
  {
    if GaplessRun(stored, polls, log) {
      forall r | r in log && Owed(stored, polls, r)
        ensures r in ForwardedIds(stored, polls)
      {
        ForwardedOnce(stored, polls, log, r);
      }
    } else {
      var n := |polls| - 1;
      assert AllListed(polls[..n], log);
      LossFreeIffGapless(stored, polls[..n], log);
      if LossFree(stored, polls, log) {
        LossFreeSplits(stored, polls, log);
      }
    }
  }

  // ---------- Bursts ----------

  /** The collector lists this many of the newest records. */
  const BATCH_LIMIT: nat := 50

  ghost function IdSet(events: seq<Record>): set<int> {
    set x | x in events && x.id.Some? :: x.id.value
  }

  /** The batch is what the collector lists of the records present: the newest, up to the limit. */
  ghost predicate IsNewest(events: seq<Record>, present: set<int>) {
    && IdSet(events) <= present
    && |IdSet(events)| == (if |present| < BATCH_LIMIT then |present| else BATCH_LIMIT)
    && forall r, s :: r in present && r !in IdSet(events) && s in IdSet(events) ==> r < s
  }

  lemma {:induction false} IdSetMeaning(events: seq<Record>, r: int)
    ensures r in IdSet(events) <==> exists x :: x in events && x.id == Some(r)
    ensures r in IdSet(events) ==> MaxId(events).Some? && r <= MaxId(events).value
    ensures MaxId(events).Some? ==> MaxId(events).value in IdSet(events)
  {
    if r in IdSet(events) {
      var x :| x in events && x.id == Some(r);
      var i :| 0 <= i < |events| && events[i] == x;
    }
    if MaxId(events).Some? {
      var i :| 0 <= i < |events| && events[i].id == MaxId(events);
      assert events[i] in events;
    }
  }

  ghost function Since(present: set<int>, last: int): set<int> {
    set r | r in present && r > last
  }

  lemma {:induction false} GaplessIffListed(last: int, events: seq<Record>, present: set<int>, log: set<int>)
    requires IsNewest(events, present) && present <= log
    requires forall r, s :: r in log && r !in present && s in present ==> s < r
    ensures Gapless(Some(last), events, log) <==> Since(present, last) <= IdSet(events)
  {
    if Gapless(Some(last), events, log) {
      forall r | r in Since(present, last)
        ensures r in IdSet(events)
      {
        SomeListed(events, present, r);
        IdSetMeaning(events, r);
      }
    } else {
      var r :| r in log && MaxId(events).Some? && last < r <= MaxId(events).value
        && !exists x :: x in events && x.id == Some(r);
      IdSetMeaning(events, r);
      assert r in present;
      assert r in Since(present, last);
    }
  }

  lemma {:induction false} SomeListed(events: seq<Record>, present: set<int>, r: int)
    requires IsNewest(events, present) && r in present
    ensures MaxId(events).Some? && r <= MaxId(events).value
  {
    var listed := IdSet(events);
    SubsetSize({r}, present);
    assert |listed| > 0;
    var s := SomeElement(listed);
    IdSetMeaning(events, s);
    IdSetMeaning(events, r);
  }

  /** A poll is gapless exactly if at most as many records came since the cursor as the collector lists. */
  lemma {:induction false} GaplessIffNoBurst(last: int, events: seq<Record>, present: set<int>, log: set<int>)
    requires IsNewest(events, present) && present <= log
    requires forall r, s :: r in log && r !in present && s in present ==> s < r
    ensures Gapless(Some(last), events, log) <==> |Since(present, last)| <= BATCH_LIMIT
  {
    GaplessIffListed(last, events, present, log);
    var recent, listed := Since(present, last), IdSet(events);
    if recent <= listed {
      SubsetSize(recent, listed);
    } else {
      var r :| r in recent && r !in listed;
      assert listed <= recent;
      SubsetSize(listed + {r}, recent);
      SubsetSize(recent, present);
    }
  }

  /** A batch whose largest id is below a negative cursor c, beside a record without an id. */
  function StaleBatch(c: int): seq<Record> {
    [Record(None, "a"), Record(Some(c - 1), "b")]
  }

  lemma {:induction false} StalePoll(c: int)
    requires c < 0
    ensures DistinctIds(StaleBatch(c)) && NextCursor(Some(c), StaleBatch(c)) == Some(c)
    ensures Ids(Forwarded(Some(c), StaleBatch(c))) == [0]
  {
    var events := StaleBatch(c);
    assert events[..1] == [Record(None, "a")] && events[..1][..0] == [];
    assert Above([], c) == [];
    assert Above(events[..1], c) == [] + [Record(None, "a")];
    assert Above(events, c) == [Record(None, "a")] + [];
    assert SortById([Record(None, "a")])
      == InsertBy(IdOrZero, Record(None, "a"), SortById([Record(None, "a")][..0]));
  }

  /** Every negative stored cursor breaks ForwardedIncrease: a record without an id is forwarded by each poll. */
  lemma {:induction false} NegativeCursorRepeats(c: int)
    requires c < 0
    ensures var polls := [StaleBatch(c), StaleBatch(c)];
      && (forall k :: 0 <= k < |polls| ==> DistinctIds(polls[k]))
      && !StrictlyIncreasing(ForwardedIds(Some(c), polls))
  {
    var polls := [StaleBatch(c), StaleBatch(c)];
    StalePoll(c);
    assert polls[..1] == [StaleBatch(c)] && polls[..1][..0] == [];
    assert CursorAfter(Some(c), polls[..1]) == Some(c);
    assert ForwardedIds(Some(c), polls[..1]) == [0];
    assert ForwardedIds(Some(c), polls) == [0] + [0];
    assert ([0] + [0])[0] == 0 && ([0] + [0])[1] == 0;
  }

  ghost predicate DistinctPolls(polls: seq<seq<Record>>) {
    forall k :: 0 <= k < |polls| ==> DistinctIds(polls[k])
  }

  /** A stored cursor keeps every run of polls with distinct ids free of repeats exactly if it is not negative. */
  lemma {:induction false} NoRepeatsIffNonNegative(stored: Option<int>)
    ensures NonNegative(stored)
      <==> forall polls :: DistinctPolls(polls) ==> StrictlyIncreasing(ForwardedIds(stored, polls))
  {
    if NonNegative(stored) {
      forall polls | DistinctPolls(polls)
        ensures StrictlyIncreasing(ForwardedIds(stored, polls))
      {
        ForwardedIncrease(stored, polls);
      }
    } else {
      NegativeCursorRepeats(stored.value);
      assert DistinctPolls([StaleBatch(stored.value), StaleBatch(stored.value)]);
    }
  }
}
