/**
  The group-by that two loops perform in place: one group per key, in order of
  first appearance, each describing the events of its key.  A `Shape` says what
  the keys and counts are and when a group describes a list of events.
 */
module Grouping {

  /** The distinct elements of a sequence in order of first appearance. */
  ghost function FirstSeen<K>(keys: seq<K>): seq<K> {
    if keys == [] then []
    else
      var n := |keys| - 1;
      var before := FirstSeen(keys[..n]);
      if keys[n] in before then before else before + [keys[n]]
  }

  /** What FirstSeen means: no repetition, nothing lost, and ordered by first occurrence. */
  lemma {:induction false} FirstSeenMeaning<K(!new)>(keys: seq<K>)
    ensures forall k :: k in FirstSeen(keys) <==> k in keys
    ensures forall i, j :: 0 <= i < j < |FirstSeen(keys)| ==> FirstSeen(keys)[i] != FirstSeen(keys)[j]
    ensures forall i, j :: 0 <= i < j < |FirstSeen(keys)| ==>
      FirstIndex(keys, FirstSeen(keys)[i]) < FirstIndex(keys, FirstSeen(keys)[j])
  {
    if keys != [] {
      var n := |keys| - 1;
      FirstSeenMeaning(keys[..n]);
      assert keys == keys[..n] + [keys[n]];
      var before := FirstSeen(keys[..n]);
      forall k | k in keys[..n]
        ensures FirstIndex(keys, k) == FirstIndex(keys[..n], k) < n
      {
        FirstIndexPrefix(keys[..n], keys[n], k);
      }
      if keys[n] !in before {
        FirstIndexFresh(keys[..n], keys[n]);
      }
      forall i | 0 <= i < |before|
        ensures before[i] in keys[..n]
      {
        assert before[i] in before;
      }
    }
  }

  /** First position of k in keys, or |keys|. */
  ghost function FirstIndex<K>(keys: seq<K>, k: K): (r: nat)
    ensures r <= |keys| && (k in keys <==> r < |keys|)
    ensures r < |keys| ==> keys[r] == k
    ensures forall i :: 0 <= i < r ==> keys[i] != k
  {
    if keys == [] then 0 else if keys[0] == k then 0 else 1 + FirstIndex(keys[1..], k)
  }

  lemma {:induction false} FirstIndexPrefix<K>(keys: seq<K>, last: K, k: K)
    requires k in keys
    ensures FirstIndex(keys + [last], k) == FirstIndex(keys, k) < |keys|
  {
    var r, q := FirstIndex(keys, k), FirstIndex(keys + [last], k);
    assert (keys + [last])[r] == k;
    assert q <= r;
    assert (keys + [last])[q] == keys[q];
  }

  lemma {:induction false} FirstIndexFresh<K>(keys: seq<K>, last: K)
    requires last !in keys
    ensures FirstIndex(keys + [last], last) == |keys|
  {
    var q := FirstIndex(keys + [last], last);
    assert (keys + [last])[|keys|] == last;
    assert forall i :: 0 <= i < |keys| ==> (keys + [last])[i] == keys[i] && keys[i] in keys;
  }

  ghost function Total(counts: seq<nat>): nat {
    if counts == [] then 0 else Total(counts[..|counts| - 1]) + counts[|counts| - 1]
  }

  lemma {:induction false} TotalBumped(counts: seq<nat>, i: nat)
    requires i < |counts|
    ensures Total(counts[i := counts[i] + 1]) == Total(counts) + 1
  {
    var n := |counts| - 1;
    if i < n {
      TotalBumped(counts[..n], i);
      assert counts[i := counts[i] + 1][..n] == counts[..n][i := counts[i] + 1];
    } else {
      assert counts[i := counts[i] + 1][..n] == counts[..n];
    }
  }

  ghost function Map<A, B>(f: A -> B, s: seq<A>): (r: seq<B>)
    ensures |r| == |s|
    ensures forall i :: 0 <= i < |s| ==> r[i] == f(s[i])
  {
    seq(|s|, i requires 0 <= i < |s| => f(s[i]))
  }

  // ---------- Groups ----------

  datatype Shape<!E, !G, !K> = Shape(keyOf: E -> K, groupKey: G -> K, count: G -> nat, describes: (G, seq<E>) -> bool)

  /** The events of one key, in order. */
  ghost function Members<E, K>(keyOf: E -> K, events: seq<E>, key: K): seq<E> {
    if events == [] then []
    else
      var n := |events| - 1;
      Members(keyOf, events[..n], key) + if keyOf(events[n]) == key then [events[n]] else []
  }

  ghost predicate Ascends(at: seq<nat>) {
    forall j, k :: 0 <= j < k < |at| ==> at[j] < at[k]
  }

  ghost predicate Within<E>(events: seq<E>, p: E -> bool, i: nat) {
    i < |events| && p(events[i])
  }

  ghost predicate Has(at: seq<nat>, i: nat) {
    exists k :: 0 <= k < |at| && at[k] == i
  }

  /** The positions at which p holds, in increasing order. */
  ghost predicate Selects<E>(events: seq<E>, p: E -> bool, at: seq<nat>) {
    Ascends(at) && forall i :: Within(events, p, i) <==> Has(at, i)
  }

  /** The elements at the given positions. */
  ghost predicate Drawn<E>(events: seq<E>, at: seq<nat>, out: seq<E>) {
    |out| == |at| && forall k :: 0 <= k < |at| ==> at[k] < |events| && out[k] == events[at[k]]
  }

  lemma {:induction false} DrawnStep<E>(events: seq<E>, e: E, at: seq<nat>, out: seq<E>)
    requires Drawn(events, at, out)
    ensures Drawn(events + [e], at, out) && Drawn(events + [e], at + [|events|], out + [e])
  {
    assert forall i :: 0 <= i < |events| ==> (events + [e])[i] == events[i];
  }

  lemma {:induction false} HasAppended(at: seq<nat>, n: nat, i: nat)
    ensures Has(at + [n], i) <==> Has(at, i) || i == n
  {
    if Has(at, i) {
      var k :| 0 <= k < |at| && at[k] == i;
      assert (at + [n])[k] == i;
    }
    assert (at + [n])[|at|] == n;
  }

  lemma {:induction false} AscendsAppended(at: seq<nat>, n: nat)
    requires Ascends(at) && forall k :: 0 <= k < |at| ==> at[k] < n
    ensures Ascends(at + [n])
  {
  }

  lemma {:induction false} SelectsStep<E>(events: seq<E>, e: E, p: E -> bool, at: seq<nat>)
    requires Selects(events, p, at)
    ensures Selects(events + [e], p, if p(e) then at + [|events|] else at)
  {
    forall k | 0 <= k < |at|
      ensures at[k] < |events|
    {
      assert Has(at, at[k]) && Within(events, p, at[k]);
    }
    AscendsAppended(at, |events|);
    forall i: nat
      ensures Within(events + [e], p, i) <==> Within(events, p, i) || (i == |events| && p(e))
    {
    }
    forall i: nat
      ensures Has(at + [|events|], i) <==> Has(at, i) || i == |events|
    {
      HasAppended(at, |events|, i);
    }
  }

  /** The members of a key are the events at the positions of that key. */
  lemma {:induction false} MembersMeaning<E, K>(keyOf: E -> K, events: seq<E>, key: K) returns (at: seq<nat>)
    ensures Selects(events, e => keyOf(e) == key, at)
    ensures Drawn(events, at, Members(keyOf, events, key))
  {
    at := [];
    if events != [] {
      var n := |events| - 1;
      at := MembersMeaning(keyOf, events[..n], key);
      assert events == events[..n] + [events[n]];
      SelectsStep(events[..n], events[n], e => keyOf(e) == key, at);
      DrawnStep(events[..n], events[n], at, Members(keyOf, events[..n], key));
      if keyOf(events[n]) == key {
        at := at + [n];
      }
    }
  }

  lemma {:induction false} MembersStep<E, K>(keyOf: E -> K, events: seq<E>, e: E, key: K)
    ensures Members(keyOf, events + [e], key)
      == if keyOf(e) == key then Members(keyOf, events, key) + [e] else Members(keyOf, events, key)
  {
    assert (events + [e])[..|events|] == events;
  }

  lemma {:induction false} NoMembers<E, K>(keyOf: E -> K, events: seq<E>, key: K)
    requires key !in Map(keyOf, events)
    ensures Members(keyOf, events, key) == []
  {
    if events != [] {
      var n := |events| - 1;
      assert Map(keyOf, events)[n] == keyOf(events[n]);
      assert forall i :: 0 <= i < n ==> Map(keyOf, events[..n])[i] == Map(keyOf, events)[i];
      NoMembers(keyOf, events[..n], key);
    }
  }

  lemma {:induction false} FirstSeenStep<E, K>(keyOf: E -> K, events: seq<E>, e: E)
    ensures var seen := FirstSeen(Map(keyOf, events));
      FirstSeen(Map(keyOf, events + [e])) == if keyOf(e) in seen then seen else seen + [keyOf(e)]
  {
    assert Map(keyOf, events + [e]) == Map(keyOf, events) + [keyOf(e)];
    assert (Map(keyOf, events) + [keyOf(e)])[..|events|] == Map(keyOf, events);
  }

  ghost predicate DescribedIn<E, G, K>(shape: Shape<E, G, K>, g: G, events: seq<E>) {
    shape.describes(g, Members(shape.keyOf, events, shape.groupKey(g)))
  }

  ghost predicate AllDescribed<E, G, K>(shape: Shape<E, G, K>, groups: seq<G>, events: seq<E>) {
    forall i :: 0 <= i < |groups| ==> DescribedIn(shape, groups[i], events)
  }

  /** One group per key in order of first appearance, each describing its events, none lost. */
  ghost predicate Grouped<E, G, K>(shape: Shape<E, G, K>, groups: seq<G>, events: seq<E>) {
    && Map(shape.groupKey, groups) == FirstSeen(Map(shape.keyOf, events))
    && AllDescribed(shape, groups, events)
    && Total(Map(shape.count, groups)) == |events|
  }

  /** Position of the group with the given key, or |groups|. */
  function Find<G, K(==)>(groupKey: G -> K, groups: seq<G>, key: K): (r: nat)
    ensures r <= |groups| && (r < |groups| ==> groupKey(groups[r]) == key)
    ensures r == |groups| ==> forall i :: 0 <= i < |groups| ==> groupKey(groups[i]) != key
  {
    if groups == [] then 0 else if groupKey(groups[0]) == key then 0 else 1 + Find(groupKey, groups[1..], key)
  }

  /** Group keys are exactly the keys seen, each once. */
  lemma {:induction false} KeysApart<E, G, K(!new)>(shape: Shape<E, G, K>, groups: seq<G>, events: seq<E>)
    requires Map(shape.groupKey, groups) == FirstSeen(Map(shape.keyOf, events))
    ensures forall i, j :: 0 <= i < j < |groups| ==> shape.groupKey(groups[i]) != shape.groupKey(groups[j])
    ensures forall k :: k in Map(shape.keyOf, events) <==> k in Map(shape.groupKey, groups)
  {
    FirstSeenMeaning(Map(shape.keyOf, events));
    assert forall i :: 0 <= i < |groups| ==> Map(shape.groupKey, groups)[i] == shape.groupKey(groups[i]);
  }

  lemma {:induction false} OtherStaysDescribed<E, G, K>(shape: Shape<E, G, K>, g: G, events: seq<E>, e: E)
    requires DescribedIn(shape, g, events) && shape.groupKey(g) != shape.keyOf(e)
    ensures DescribedIn(shape, g, events + [e])
  {
    MembersStep(shape.keyOf, events, e, shape.groupKey(g));
  }

  lemma {:induction false} OthersStayDescribed<E, G, K>(shape: Shape<E, G, K>, groups: seq<G>, events: seq<E>, e: E, i: nat)
    requires i < |groups| && AllDescribed(shape, groups, events) && shape.groupKey(groups[i]) != shape.keyOf(e)
    ensures DescribedIn(shape, groups[i], events + [e])
  {
    OtherStaysDescribed(shape, groups[i], events, e);
  }

  lemma {:induction false} FreshIsDescribed<E, G, K>(shape: Shape<E, G, K>, g: G, events: seq<E>, e: E)
    requires shape.groupKey(g) == shape.keyOf(e) && shape.keyOf(e) !in Map(shape.keyOf, events)
    requires shape.describes(g, [e])
    ensures DescribedIn(shape, g, events + [e])
  {
    NoMembers(shape.keyOf, events, shape.keyOf(e));
    MembersStep(shape.keyOf, events, e, shape.keyOf(e));
    assert [] + [e] == [e];
  }

  lemma {:induction false} AllDescribedAfterAdd<E, G, K>(shape: Shape<E, G, K>, groups: seq<G>, events: seq<E>, e: E, g: G)
    requires AllDescribed(shape, groups, events) && DescribedIn(shape, g, events + [e])
    requires forall i :: 0 <= i < |groups| ==> shape.groupKey(groups[i]) != shape.keyOf(e)
    ensures AllDescribed(shape, groups + [g], events + [e])
  {
    var groups' := groups + [g];
    forall i | 0 <= i < |groups'|
      ensures DescribedIn(shape, groups'[i], events + [e])
    {
      if i < |groups| {
        OthersStayDescribed(shape, groups, events, e, i);
      }
    }
  }

  lemma {:induction false} TotalAdded<G>(count: G -> nat, groups: seq<G>, g: G)
    ensures Total(Map(count, groups + [g])) == Total(Map(count, groups)) + count(g)
  {
    assert Map(count, groups + [g])[..|groups|] == Map(count, groups);
  }

  /** A new group for the first event of a key. */
  lemma {:induction false} GroupAdded<E, G, K(!new)>(shape: Shape<E, G, K>, groups: seq<G>, events: seq<E>, e: E, g: G)
    requires Grouped(shape, groups, events)
    requires Find(shape.groupKey, groups, shape.keyOf(e)) == |groups|
    requires shape.groupKey(g) == shape.keyOf(e) && shape.count(g) == 1 && shape.describes(g, [e])
    ensures Grouped(shape, groups + [g], events + [e])
  {
    KeysApart(shape, groups, events);
    assert shape.keyOf(e) !in Map(shape.groupKey, groups);
    FirstSeenStep(shape.keyOf, events, e);
    assert Map(shape.groupKey, groups + [g]) == Map(shape.groupKey, groups) + [shape.keyOf(e)];
    FreshIsDescribed(shape, g, events, e);
    AllDescribedAfterAdd(shape, groups, events, e, g);
    TotalAdded(shape.count, groups, g);
  }

  /** A group updated with one more event of its key. */
  lemma {:induction false} GroupMerged<E, G, K(!new)>(shape: Shape<E, G, K>, groups: seq<G>, events: seq<E>, e: E, k: nat,
                                                      g: G)
    requires Grouped(shape, groups, events) && k < |groups|
    requires shape.groupKey(groups[k]) == shape.groupKey(g) == shape.keyOf(e)
    requires shape.count(g) == shape.count(groups[k]) + 1
    requires shape.describes(g, Members(shape.keyOf, events, shape.keyOf(e)) + [e])
    ensures Grouped(shape, groups[k := g], events + [e])
  {
    KeysApart(shape, groups, events);
    FirstSeenStep(shape.keyOf, events, e);
    assert Map(shape.groupKey, groups)[k] == shape.keyOf(e);
    assert Map(shape.groupKey, groups[k := g]) == Map(shape.groupKey, groups);
    MembersStep(shape.keyOf, events, e, shape.keyOf(e));
    var groups' := groups[k := g];
    forall i | 0 <= i < |groups'|
      ensures DescribedIn(shape, groups'[i], events + [e])
    {
      if i != k {
        OthersStayDescribed(shape, groups, events, e, i);
      }
    }
    var counts := Map(shape.count, groups);
    assert Map(shape.count, groups[k := g]) == counts[k := counts[k] + 1];
    TotalBumped(counts, k);
  }

  /** If the description of a group leaves no choice, neither does the grouping. */
  lemma {:induction false} GroupedUnique<E(!new), G(!new), K>(shape: Shape<E, G, K>, a: seq<G>, b: seq<G>, events: seq<E>)
    requires Grouped(shape, a, events) && Grouped(shape, b, events)
    requires forall g, h, f :: shape.describes(g, f) && shape.describes(h, f) && shape.groupKey(g) == shape.groupKey(h) ==>
      g == h
    ensures a == b
  {
    var keys := Map(shape.groupKey, a);
    assert |a| == |keys| == |b|;
    forall i | 0 <= i < |a|
      ensures a[i] == b[i]
    {
      assert keys[i] == shape.groupKey(a[i]) == shape.groupKey(b[i]);
      assert DescribedIn(shape, a[i], events) && DescribedIn(shape, b[i], events);
    }
  }
}
