/**
  The SOAR service's topological sort: Kahn's algorithm with in-degree
  counters, a first-in first-out queue, ties broken by input position, and the
  input order as fallback on a cycle.

  The order is specified without an algorithm.  In `KahnOrder` each node comes
  after all its predecessors, and nodes are sorted by the position of their last
  predecessor and then by input position.  `KahnOrderUnique` shows that this
  determines the order.
 */
module SoarRuntime {
  import opened Sorting
  import opened Wrappers
  import opened Playbooks

  // ---------- The declarative order ----------

  /** All predecessors of v are in `done`. */
  ghost predicate Ready(edges: seq<Edge>, done: seq<NodeId>, v: NodeId) {
    forall u :: HasEdge(edges, u, v) ==> u in done
  }

  /** Position in `done` of the last predecessor of v, or -1. */
  ghost function LastPred(edges: seq<Edge>, done: seq<NodeId>, v: NodeId): (r: int)
    ensures -1 <= r < |done|
    ensures r >= 0 ==> HasEdge(edges, done[r], v)
    ensures forall i :: r < i < |done| ==> !HasEdge(edges, done[i], v)
  {
    if |done| == 0 then -1
    else if HasEdge(edges, done[|done| - 1], v) then |done| - 1
    else LastPred(edges, done[..|done| - 1], v)
  }

  /** Input position of v. */
  function At(order: map<NodeId, nat>, v: NodeId): nat {
    if v in order then order[v] else |order|
  }

  ghost predicate Injective(order: map<NodeId, nat>) {
    forall v, w :: v in order && w in order && order[v] == order[w] ==> v == w
  }

  ghost predicate Before(order: map<NodeId, nat>, edges: seq<Edge>, done: seq<NodeId>, v: NodeId, w: NodeId) {
    || LastPred(edges, done, v) < LastPred(edges, done, w)
    || (LastPred(edges, done, v) == LastPred(edges, done, w) && At(order, v) < At(order, w))
  }

  ghost predicate SortedByKey(order: map<NodeId, nat>, edges: seq<Edge>, done: seq<NodeId>, s: seq<NodeId>) {
    forall i, j :: 0 <= i < j < |s| ==> Before(order, edges, done, s[i], s[j])
  }

  ghost predicate Topological(edges: seq<Edge>, out: seq<NodeId>) {
    forall i :: 0 <= i < |out| ==> Ready(edges, out[..i], out[i])
  }

  ghost predicate SameElements(s: seq<NodeId>, order: map<NodeId, nat>) {
    forall x :: x in s <==> x in order
  }

  ghost predicate KahnOrder(order: map<NodeId, nat>, edges: seq<Edge>, out: seq<NodeId>) {
    && Distinct(out)
    && SameElements(out, order)
    && Topological(edges, out)
    && SortedByKey(order, edges, out, out)
  }

  /** Later elements that are no predecessors of v do not move its last predecessor. */
  lemma {:induction false} LastPredStable(edges: seq<Edge>, done: seq<NodeId>, more: seq<NodeId>, v: NodeId)
    requires forall x :: x in more ==> !HasEdge(edges, x, v)
    ensures LastPred(edges, done + more, v) == LastPred(edges, done, v)
  {
    if more == [] {
      assert done + more == done;
    } else {
      var n := |more| - 1;
      assert (done + more)[..|done + more| - 1] == done + more[..n];
      assert more[n] in more;
      LastPredStable(edges, done, more[..n], v);
    }
  }

  /** In a topological order, a ready prefix already holds every predecessor. */
  lemma {:induction false} LastPredOfPrefix(edges: seq<Edge>, out: seq<NodeId>, k: nat, v: NodeId)
    requires k <= |out| && Distinct(out) && Ready(edges, out[..k], v)
    ensures LastPred(edges, out, v) == LastPred(edges, out[..k], v)
  {
    assert out == out[..k] + out[k..];
    forall x | x in out[k..]
      ensures !HasEdge(edges, x, v)
    {
      assert x !in out[..k];
    }
    LastPredStable(edges, out[..k], out[k..], v);
  }

  /** The specification leaves no choice: two orders of the same graph are equal. */
  lemma {:induction false} KahnOrderUnique(order: map<NodeId, nat>, edges: seq<Edge>, a: seq<NodeId>, b: seq<NodeId>)
    requires Injective(order)
    requires KahnOrder(order, edges, a) && KahnOrder(order, edges, b)
    ensures a == b
  {
    CoversAll(a, order);
    CoversAll(b, order);
    PrefixesAgree(order, edges, a, b, |a|);
    assert a[..|a|] == a && b[..|a|] == b;
  }

  lemma {:induction false} PrefixesAgree(order: map<NodeId, nat>, edges: seq<Edge>, a: seq<NodeId>, b: seq<NodeId>, k: nat)
    requires KahnOrder(order, edges, a) && KahnOrder(order, edges, b)
    requires k <= |a| == |b|
    ensures a[..k] == b[..k]
  {
    if k > 0 {
      var i := k - 1;
      PrefixesAgree(order, edges, a, b, i);
      SameNext(order, edges, a, b, i);
      assert a[..k] == a[..i] + [a[i]] && b[..k] == b[..i] + [b[i]];
    }
  }

  lemma {:induction false} SameNext(order: map<NodeId, nat>, edges: seq<Edge>, a: seq<NodeId>, b: seq<NodeId>, i: nat)
    requires KahnOrder(order, edges, a) && KahnOrder(order, edges, b)
    requires i < |a| == |b| && a[..i] == b[..i]
    ensures a[i] == b[i]
  {
    if a[i] != b[i] {
      NextIsLeast(order, edges, a, b, i);
      NextIsLeast(order, edges, b, a, i);
      assert false;
    }
  }

  /** With equal prefixes, the next element of one order is below that of the other. */
  lemma {:induction false} NextIsLeast(order: map<NodeId, nat>, edges: seq<Edge>, a: seq<NodeId>, b: seq<NodeId>, i: nat)
    requires KahnOrder(order, edges, a) && KahnOrder(order, edges, b)
    requires i < |a| == |b| && a[..i] == b[..i] && a[i] != b[i]
    ensures Before(order, edges, a[..i], a[i], b[i])
  {
    assert b[i] in a;
    var j :| 0 <= j < |a| && a[j] == b[i];
    assert b[i] !in b[..i];
    assert forall k :: 0 <= k < i ==> a[k] == a[..i][k];
    assert Before(order, edges, a, a[i], a[j]);
    LastPredOfPrefix(edges, a, i, a[i]);
    LastPredOfPrefix(edges, a, i, b[i]);
  }

  lemma {:induction false} CoversAll(s: seq<NodeId>, order: map<NodeId, nat>)
    requires Distinct(s) && SameElements(s, order)
    ensures |s| == |order|
  {
    DistinctSetSize(s);
    assert (set x | x in s) == order.Keys;
    assert |order.Keys| == |order|;
  }

  // ---------- Acyclicity ----------

  lemma {:induction false} TopologicalIsAcyclic(edges: seq<Edge>, out: seq<NodeId>)
    requires Distinct(out) && Topological(edges, out)
    requires forall k :: 0 <= k < |edges| ==> edges[k].target in out
    ensures !Cyclic(edges)
  {
    if Cyclic(edges) {
      var p :| IsPath(edges, p) && p[0] == p[|p| - 1];
      var i, j := PathClimbs(edges, out, p);
    }
  }

  lemma {:induction false} EdgeMovesUp(edges: seq<Edge>, out: seq<NodeId>, u: NodeId, v: NodeId)
      returns (i: nat, j: nat)
    requires Topological(edges, out) && HasEdge(edges, u, v)
    requires forall k :: 0 <= k < |edges| ==> edges[k].target in out
    ensures i < j < |out| && out[i] == u && out[j] == v
  {
    assert v in out;
    j :| 0 <= j < |out| && out[j] == v;
    assert Ready(edges, out[..j], out[j]);
    i :| 0 <= i < j && out[..j][i] == u;
  }

  /** Along a path of a topological order, positions strictly increase. */
  lemma {:induction false} PathClimbs(edges: seq<Edge>, out: seq<NodeId>, p: seq<NodeId>) returns (i: nat, j: nat)
    requires Distinct(out) && Topological(edges, out) && IsPath(edges, p)
    requires forall k :: 0 <= k < |edges| ==> edges[k].target in out
    ensures i < j < |out| && out[i] == p[0] && out[j] == p[|p| - 1]
  {
    var n := |p| - 1;
    assert PathStep(edges, p, n - 1);
    i, j := EdgeMovesUp(edges, out, p[n - 1], p[n]);
    if n > 1 {
      var q, last := p[..n], i;
      forall k | 0 <= k < n - 1
        ensures PathStep(edges, q, k)
      {
        assert PathStep(edges, p, k);
      }
      var m;
      i, m := PathClimbs(edges, out, q);
      assert out[m] == out[last];
    }
  }

  ghost predicate Blocked(edges: seq<Edge>, rest: set<NodeId>, v: NodeId) {
    exists u :: u in rest && HasEdge(edges, u, v)
  }

  /** If every node of a non-empty finite set has a predecessor in the set, the graph is cyclic. */
  lemma {:induction false} BlockedIsCyclic(edges: seq<Edge>, rest: set<NodeId>)
    requires rest != {}
    requires forall v {:trigger Blocked(edges, rest, v)} :: v in rest ==> Blocked(edges, rest, v)
    ensures Cyclic(edges)
  {
    assert |rest| >= 1 by {
      var v :| v in rest;
    }
    var p := BackwardWalk(edges, rest, |rest| + 1);
    var i, j := Repetition(p, rest);
    LoopIsCycle(edges, p, i, j);
  }

  lemma {:induction false} SliceStep(edges: seq<Edge>, p: seq<NodeId>, i: nat, j: nat, k: nat)
    requires IsPath(edges, p) && i < j < |p| && k < j - i
    ensures PathStep(edges, p[i..j + 1], k)
  {
    assert PathStep(edges, p, i + k);
    assert p[i..j + 1][k] == p[i + k] && p[i..j + 1][k + 1] == p[i + k + 1];
  }

  lemma {:induction false} ClosedPath(edges: seq<Edge>, c: seq<NodeId>)
    requires IsPath(edges, c) && c[0] == c[|c| - 1]
    ensures Cyclic(edges)
  {
  }

  lemma {:induction false} LoopIsCycle(edges: seq<Edge>, p: seq<NodeId>, i: nat, j: nat)
    requires IsPath(edges, p) && i < j < |p| && p[i] == p[j]
    ensures Cyclic(edges)
  {
    var c := p[i..j + 1];
    forall k | 0 <= k < |c| - 1
      ensures PathStep(edges, c, k)
    {
      SliceStep(edges, p, i, j, k);
    }
    ClosedPath(edges, c);
  }

  lemma {:induction false} BackwardWalk(edges: seq<Edge>, rest: set<NodeId>, n: nat) returns (p: seq<NodeId>)
    requires rest != {} && n >= 1
    requires forall v {:trigger Blocked(edges, rest, v)} :: v in rest ==> Blocked(edges, rest, v)
    ensures |p| == n
    ensures forall i :: 0 <= i < n ==> p[i] in rest
    ensures forall i :: 0 <= i < n - 1 ==> PathStep(edges, p, i)
  {
    if n == 1 {
      var v :| v in rest;
      p := [v];
    } else {
      var q := BackwardWalk(edges, rest, n - 1);
      assert Blocked(edges, rest, q[0]);
      var u :| u in rest && HasEdge(edges, u, q[0]);
      p := [u] + q;
      forall i | 0 <= i < n - 1
        ensures PathStep(edges, p, i)
      {
        assert i > 0 ==> PathStep(edges, q, i - 1);
      }
    }
  }

  /** Pigeonhole: a sequence longer than the set it is drawn from repeats an element. */
  lemma {:induction false} Repetition(p: seq<NodeId>, s: set<NodeId>) returns (i: nat, j: nat)
    requires |p| > |s| && forall k :: 0 <= k < |p| ==> p[k] in s
    ensures i < j < |p| && p[i] == p[j]
  {
    if Distinct(p) {
      DistinctSetSize(p);
      SubsetSize((set x | x in p), s);
      assert false;
    }
    i, j :| 0 <= i < j < |p| && p[i] == p[j];
  }

  // ---------- Counters and adjacency lists ----------

  /** Targets of the edges leaving u, in edge order, duplicates kept. */
  function Outgoing(edges: seq<Edge>, u: NodeId): (r: seq<NodeId>)
    ensures forall v :: v in r <==> HasEdge(edges, u, v)
  {
    if edges == [] then []
    else
      var n := |edges| - 1;
      assert edges == edges[..n] + [edges[n]];
      assert forall v :: HasEdge(edges, u, v) <==>
        HasEdge(edges[..n], u, v) || (edges[n].source == u && edges[n].target == v);
      Outgoing(edges[..n], u) + if edges[n].source == u then [edges[n].target] else []
  }

  /** Number of edges into v whose source is not yet in `done`. */
  ghost function Remaining(edges: seq<Edge>, done: seq<NodeId>, v: NodeId): nat {
    if edges == [] then 0
    else
      var e := edges[|edges| - 1];
      Remaining(edges[..|edges| - 1], done, v) + if e.target == v && e.source !in done then 1 else 0
  }

  lemma {:induction false} RemainingZeroIsReady(edges: seq<Edge>, done: seq<NodeId>, v: NodeId)
    ensures Remaining(edges, done, v) == 0 <==> Ready(edges, done, v)
  {
    if edges != [] {
      var n := |edges| - 1;
      RemainingZeroIsReady(edges[..n], done, v);
      assert edges == edges[..n] + [edges[n]];
      assert forall u :: HasEdge(edges, u, v) <==>
        HasEdge(edges[..n], u, v) || (edges[n].source == u && edges[n].target == v);
    }
  }

  /** Finishing u lowers the count of v by the number of edges from u to v. */
  lemma {:induction false} RemainingAfter(edges: seq<Edge>, done: seq<NodeId>, u: NodeId, v: NodeId)
    requires u !in done
    ensures Remaining(edges, done, v) == Remaining(edges, done + [u], v) + multiset(Outgoing(edges, u))[v]
  {
    if edges != [] {
      RemainingAfter(edges[..|edges| - 1], done, u, v);
    }
  }

  // ---------- Sorting by input position ----------

  ghost predicate Ascending(order: map<NodeId, nat>, s: seq<NodeId>) {
    forall i, j :: 0 <= i < j < |s| ==> At(order, s[i]) <= At(order, s[j])
  }

  ghost predicate StrictlyAscending(order: map<NodeId, nat>, s: seq<NodeId>) {
    forall i, j :: 0 <= i < j < |s| ==> At(order, s[i]) < At(order, s[j])
  }

  /** The sort key of a node: its input position. */
  function Position(order: map<NodeId, nat>): NodeId -> int {
    (v: NodeId) => At(order, v)
  }

  function SortByInput(order: map<NodeId, nat>, s: seq<NodeId>): seq<NodeId> {
    SortBy(Position(order), s)
  }

  lemma {:induction false} SortedByInput(order: map<NodeId, nat>, s: seq<NodeId>)
    ensures Ascending(order, SortByInput(order, s)) && multiset(SortByInput(order, s)) == multiset(s)
  {
    SortBySorts(Position(order), s);
    var t := SortByInput(order, s);
    forall i, j | 0 <= i < j < |t|
      ensures At(order, t[i]) <= At(order, t[j])
    {
      assert Position(order)(t[i]) <= Position(order)(t[j]);
    }
  }

  function ZeroDegree(nodes: seq<Node>, indegree: map<NodeId, int>): (r: seq<NodeId>)
    requires forall n :: n in nodes ==> n.id in indegree
    ensures forall v :: v in r <==> v in Ids(nodes) && indegree[v] == 0
    ensures Distinct(Ids(nodes)) ==> Distinct(r)
  {
    if nodes == [] then []
    else
      var n := |nodes| - 1;
      assert Ids(nodes) == Ids(nodes[..n]) + [nodes[n].id];
      assert forall i :: 0 <= i < n ==> Ids(nodes)[i] == Ids(nodes[..n])[i];
      ZeroDegree(nodes[..n], indegree) + if indegree[nodes[n].id] == 0 then [nodes[n].id] else []
  }

  lemma {:induction false} AscendingDistinct(order: map<NodeId, nat>, s: seq<NodeId>)
    requires Injective(order) && Ascending(order, s) && Distinct(s) && forall v :: v in s ==> v in order
    ensures StrictlyAscending(order, s)
  {
    forall i, j | 0 <= i < j < |s|
      ensures At(order, s[i]) < At(order, s[j])
    {
      assert s[i] != s[j] && s[i] in order && s[j] in order;
    }
  }

  lemma {:induction false} SameMultisetSameElements<T>(s: seq<T>, t: seq<T>)
    requires multiset(s) == multiset(t)
    ensures forall x :: x in s <==> x in t
  {
    assert forall x :: x in s <==> x in multiset(s);
    assert forall x :: x in t <==> x in multiset(t);
  }

  lemma {:induction false} DistinctMultiset<T(!new)>(s: seq<T>)
    ensures Distinct(s) <==> forall x :: x in s ==> multiset(s)[x] == 1
  {
    if s != [] {
      var n := |s| - 1;
      DistinctMultiset(s[..n]);
      assert s == s[..n] + [s[n]];
      assert forall x :: x in s[..n] <==> x in multiset(s[..n]);
      assert s[n] in s;
      if Distinct(s) {
        assert s[n] !in s[..n];
      } else if Distinct(s[..n]) {
        assert s[n] in s[..n];
      } else {
        var x :| x in s[..n] && multiset(s[..n])[x] != 1;
        assert x in s && multiset(s)[x] > 1;
      }
    }
  }

  // ---------- The main loop ----------

  /**
    Loop invariant: `done` and `queue` together hold exactly the nodes whose
    predecessors are all done, in final order.
   */
  ghost predicate Frontier(order: map<NodeId, nat>, edges: seq<Edge>, done: seq<NodeId>, queue: seq<NodeId>) {
    && Distinct(done + queue)
    && (forall v :: v in done + queue <==> v in order && Ready(edges, done, v))
    && SortedByKey(order, edges, done, done + queue)
    && Topological(edges, done)
  }

  ghost predicate Counts(order: map<NodeId, nat>, edges: seq<Edge>, done: seq<NodeId>, indegree: map<NodeId, int>) {
    forall v :: v in order ==> v in indegree && indegree[v] == Remaining(edges, done, v)
  }

  lemma {:induction false} HeadIsNew(order: map<NodeId, nat>, edges: seq<Edge>, done: seq<NodeId>, queue: seq<NodeId>)
    requires queue != [] && Frontier(order, edges, done, queue)
    ensures queue[0] in order && queue[0] !in done
  {
    var all := done + queue;
    assert all[|done|] == queue[0] && forall i :: 0 <= i < |done| ==> all[i] == done[i];
    assert queue[0] in all;
  }

  /** `added` lists the successors of u whose last missing predecessor was u. */
  ghost predicate Unblocked(order: map<NodeId, nat>, edges: seq<Edge>, done: seq<NodeId>, u: NodeId,
                            added: seq<NodeId>) {
    && StrictlyAscending(order, added)
    && forall v :: v in added <==> v in order && HasEdge(edges, u, v) && Ready(edges, done + [u], v)
  }

  /** A node that was ready before u keeps its key; a node that u unblocked has key |done|. */
  lemma {:induction false} KeysAfter(order: map<NodeId, nat>, edges: seq<Edge>, done: seq<NodeId>, u: NodeId, v: NodeId)
    requires u !in done
    ensures Ready(edges, done, v) ==>
      !HasEdge(edges, u, v) && LastPred(edges, done + [u], v) == LastPred(edges, done, v) < |done|
    ensures HasEdge(edges, u, v) ==> LastPred(edges, done + [u], v) == |done|
  {
    if Ready(edges, done, v) {
      LastPredStable(edges, done, [u], v);
    }
  }

  lemma {:induction false} AdvanceMembers(order: map<NodeId, nat>, edges: seq<Edge>, done: seq<NodeId>, queue: seq<NodeId>,
                       added: seq<NodeId>)
    requires queue != [] && Frontier(order, edges, done, queue)
    requires Unblocked(order, edges, done, queue[0], added)
    ensures forall v :: v in done + queue + added <==> v in order && Ready(edges, done + [queue[0]], v)
  {
    var u := queue[0];
    forall v
      ensures v in done + queue + added <==> v in order && Ready(edges, done + [u], v)
    {
      assert v in done + queue + added <==> v in done + queue || v in added;
      if v in order && Ready(edges, done + [u], v) && v !in done + queue {
        assert !Ready(edges, done, v);
      }
    }
  }

  lemma {:induction false} AdvanceDistinct(order: map<NodeId, nat>, edges: seq<Edge>, done: seq<NodeId>, queue: seq<NodeId>,
                        added: seq<NodeId>)
    requires queue != [] && Frontier(order, edges, done, queue)
    requires Unblocked(order, edges, done, queue[0], added)
    ensures Distinct(done + queue + added)
  {
    HeadIsNew(order, edges, done, queue);
    forall v | v in done + queue
      ensures v !in added
    {
      KeysAfter(order, edges, done, queue[0], v);
    }
    DistinctConcat(done + queue, added);
  }

  lemma {:induction false} DistinctConcat(a: seq<NodeId>, b: seq<NodeId>)
    requires Distinct(a) && forall v :: v in a ==> v !in b
    requires forall i, j :: 0 <= i < j < |b| ==> b[i] != b[j]
    ensures Distinct(a + b)
  {
    forall i, j | 0 <= i < j < |a + b|
      ensures (a + b)[i] != (a + b)[j]
    {
      if i < |a| <= j {
        assert a[i] in a && b[j - |a|] in b;
      }
    }
  }

  lemma {:induction false} OldBeforeOld(order: map<NodeId, nat>, edges: seq<Edge>, done: seq<NodeId>, u: NodeId, v: NodeId,
                                        w: NodeId)
    requires u !in done && Ready(edges, done, v) && Ready(edges, done, w) && Before(order, edges, done, v, w)
    ensures Before(order, edges, done + [u], v, w)
  {
    KeysAfter(order, edges, done, u, v);
    KeysAfter(order, edges, done, u, w);
  }

  lemma {:induction false} OldBeforeAdded(order: map<NodeId, nat>, edges: seq<Edge>, done: seq<NodeId>, u: NodeId,
                                          v: NodeId, w: NodeId)
    requires u !in done && Ready(edges, done, v) && HasEdge(edges, u, w)
    ensures Before(order, edges, done + [u], v, w)
  {
    KeysAfter(order, edges, done, u, v);
    KeysAfter(order, edges, done, u, w);
  }

  lemma {:induction false} AddedBeforeAdded(order: map<NodeId, nat>, edges: seq<Edge>, done: seq<NodeId>, u: NodeId,
                                            v: NodeId, w: NodeId)
    requires u !in done && HasEdge(edges, u, v) && HasEdge(edges, u, w) && At(order, v) < At(order, w)
    ensures Before(order, edges, done + [u], v, w)
  {
    KeysAfter(order, edges, done, u, v);
    KeysAfter(order, edges, done, u, w);
  }

  lemma {:induction false} OldAreReady(order: map<NodeId, nat>, edges: seq<Edge>, done: seq<NodeId>, queue: seq<NodeId>,
                                       i: nat)
    requires Frontier(order, edges, done, queue) && i < |done + queue|
    ensures Ready(edges, done, (done + queue)[i])
  {
    assert (done + queue)[i] in done + queue;
  }

  lemma {:induction false} AddedHaveEdge(order: map<NodeId, nat>, edges: seq<Edge>, done: seq<NodeId>, u: NodeId,
                                         added: seq<NodeId>, i: nat)
    requires Unblocked(order, edges, done, u, added) && i < |added|
    ensures HasEdge(edges, u, added[i])
  {
    assert added[i] in added;
  }

  lemma {:induction false} AdvancePair(order: map<NodeId, nat>, edges: seq<Edge>, done: seq<NodeId>, queue: seq<NodeId>,
                                       added: seq<NodeId>, i: nat, j: nat)
    requires queue != [] && Frontier(order, edges, done, queue) && queue[0] !in done
    requires Unblocked(order, edges, done, queue[0], added) && i < j < |done + queue| + |added|
    ensures var s := done + queue + added; Before(order, edges, done + [queue[0]], s[i], s[j])
  {
    var u, n := queue[0], |done + queue|;
    if j < n {
      OldAreReady(order, edges, done, queue, i);
      OldAreReady(order, edges, done, queue, j);
      OldBeforeOld(order, edges, done, u, (done + queue)[i], (done + queue)[j]);
    } else if i < n {
      OldAreReady(order, edges, done, queue, i);
      AddedHaveEdge(order, edges, done, u, added, j - n);
      OldBeforeAdded(order, edges, done, u, (done + queue)[i], added[j - n]);
    } else {
      AddedHaveEdge(order, edges, done, u, added, i - n);
      AddedHaveEdge(order, edges, done, u, added, j - n);
      AddedBeforeAdded(order, edges, done, u, added[i - n], added[j - n]);
    }
  }

  lemma {:induction false} AdvanceSorted(order: map<NodeId, nat>, edges: seq<Edge>, done: seq<NodeId>, queue: seq<NodeId>,
                      added: seq<NodeId>)
    requires queue != [] && Frontier(order, edges, done, queue)
    requires Unblocked(order, edges, done, queue[0], added)
    ensures SortedByKey(order, edges, done + [queue[0]], done + queue + added)
  {
    HeadIsNew(order, edges, done, queue);
    var s := done + queue + added;
    forall i, j | 0 <= i < j < |s|
      ensures Before(order, edges, done + [queue[0]], s[i], s[j])
    {
      AdvancePair(order, edges, done, queue, added, i, j);
    }
  }

  lemma {:induction false} AdvanceTopological(edges: seq<Edge>, done: seq<NodeId>, u: NodeId)
    requires Topological(edges, done) && Ready(edges, done, u)
    ensures Topological(edges, done + [u])
  {
    var s := done + [u];
    forall i | 0 <= i < |s|
      ensures Ready(edges, s[..i], s[i])
    {
      assert s[..i] == done[..i];
    }
    assert done[..|done|] == done;
  }

  /** Moving the head of the queue to `done` and appending what it released keeps the invariant. */
  lemma {:induction false} AdvanceFrontier(order: map<NodeId, nat>, edges: seq<Edge>, done: seq<NodeId>, queue: seq<NodeId>,
                        added: seq<NodeId>)
    requires queue != [] && Frontier(order, edges, done, queue)
    requires Unblocked(order, edges, done, queue[0], added)
    ensures Frontier(order, edges, done + [queue[0]], queue[1..] + added)
  {
    assert done + [queue[0]] + (queue[1..] + added) == done + queue + added;
    assert queue[0] in done + queue;
    AdvanceMembers(order, edges, done, queue, added);
    AdvanceDistinct(order, edges, done, queue, added);
    AdvanceSorted(order, edges, done, queue, added);
    AdvanceTopological(edges, done, queue[0]);
  }

  /** Inner-loop invariant: counters still include the edges from the current node to `rest`. */
  ghost predicate Pending(order: map<NodeId, nat>, edges: seq<Edge>, done: seq<NodeId>, rest: seq<NodeId>,
                          indegree: map<NodeId, int>) {
    forall v :: v in order ==> v in indegree && indegree[v] == Remaining(edges, done, v) + multiset(rest)[v]
  }

  /** Inner-loop invariant: the nodes of `seen` that no longer wait, in input order. */
  ghost predicate Released(order: map<NodeId, nat>, edges: seq<Edge>, done: seq<NodeId>, seen: seq<NodeId>,
                           rest: seq<NodeId>, added: seq<NodeId>) {
    && StrictlyAscending(order, added)
    && forall v :: v in added <==> v in seen && v !in rest && Remaining(edges, done, v) == 0
  }

  lemma {:induction false} CountDown(order: map<NodeId, nat>, edges: seq<Edge>, done: seq<NodeId>, t: NodeId, rest: seq<NodeId>,
                  indegree: map<NodeId, int>)
    requires t in order && Pending(order, edges, done, [t] + rest, indegree)
    ensures Pending(order, edges, done, rest, indegree[t := indegree[t] - 1])
    ensures indegree[t] - 1 == 0 <==> Remaining(edges, done, t) == 0 && t !in rest
  {
    assert multiset([t] + rest) == multiset{t} + multiset(rest);
    assert t in rest <==> t in multiset(rest);
  }

  lemma {:induction false} ReleaseOne(order: map<NodeId, nat>, edges: seq<Edge>, done: seq<NodeId>, seen: seq<NodeId>, t: NodeId,
                   rest: seq<NodeId>, added: seq<NodeId>)
    requires Injective(order) && t in order && forall v :: v in seen ==> v in order && At(order, v) <= At(order, t)
    requires Released(order, edges, done, seen, [t] + rest, added)
    ensures Released(order, edges, done, seen + [t], rest,
                     if Remaining(edges, done, t) == 0 && t !in rest then added + [t] else added)
  {
    assert t in [t] + rest;
    forall i | 0 <= i < |added|
      ensures At(order, added[i]) < At(order, t)
    {
      assert added[i] in added && added[i] in seen;
    }
    forall v
      ensures v in added || (v == t && v !in rest && Remaining(edges, done, v) == 0)
        <==> v in seen + [t] && v !in rest && Remaining(edges, done, v) == 0
    {
      assert v in [t] + rest <==> v == t || v in rest;
      assert v in seen + [t] <==> v in seen || v == t;
    }
  }

  lemma {:induction false} EarlierIsBelow(order: map<NodeId, nat>, targets: seq<NodeId>, k: nat)
    requires k < |targets| && Ascending(order, targets)
    ensures forall v :: v in targets[..k] ==> v in targets && At(order, v) <= At(order, targets[k])
  {
    forall v | v in targets[..k]
      ensures v in targets && At(order, v) <= At(order, targets[k])
    {
      var i :| 0 <= i < k && targets[..k][i] == v;
      assert targets[i] == v;
    }
  }

  lemma {:induction false} AppendAssociates<T>(a: seq<T>, b: seq<T>, c: seq<T>)
    ensures a + b + c == a + (b + c)
  {
  }

  lemma {:induction false} ReleaseStep(order: map<NodeId, nat>, edges: seq<Edge>, done: seq<NodeId>, targets: seq<NodeId>, k: nat,
                    added: seq<NodeId>, indegree: map<NodeId, int>)
    requires Injective(order) && Ascending(order, targets) && forall v :: v in targets ==> v in order
    requires k < |targets|
    requires Pending(order, edges, done, targets[k..], indegree)
    requires Released(order, edges, done, targets[..k], targets[k..], added)
    ensures targets[k] in indegree
    ensures Pending(order, edges, done, targets[k + 1..], indegree[targets[k] := indegree[targets[k]] - 1])
    ensures Released(order, edges, done, targets[..k + 1], targets[k + 1..],
                     if indegree[targets[k]] - 1 == 0 then added + [targets[k]] else added)
  {
    var t := targets[k];
    assert targets[k..] == [t] + targets[k + 1..];
    assert targets[..k + 1] == targets[..k] + [t];
    assert t in targets;
    EarlierIsBelow(order, targets, k);
    CountDown(order, edges, done, t, targets[k + 1..], indegree);
    ReleaseOne(order, edges, done, targets[..k], t, targets[k + 1..], added);
  }

  /** The inner loop: count down the targets of a finished node and queue those that reach zero. */
  method Release(order: map<NodeId, nat>, ghost edges: seq<Edge>, ghost done: seq<NodeId>, targets: seq<NodeId>,
                 queue0: seq<NodeId>, indegree0: map<NodeId, int>)
      returns (queue: seq<NodeId>, indegree: map<NodeId, int>, ghost added: seq<NodeId>)
    requires Injective(order) && Ascending(order, targets) && forall v :: v in targets ==> v in order
    requires Pending(order, edges, done, targets, indegree0)
    ensures Counts(order, edges, done, indegree)
    ensures queue == queue0 + added
    ensures Released(order, edges, done, targets, [], added)
  {
    queue, indegree, added := queue0, indegree0, [];
    assert targets[0..] == targets;
    for k := 0 to |targets|
      invariant queue == queue0 + added
      invariant Pending(order, edges, done, targets[k..], indegree)
      invariant Released(order, edges, done, targets[..k], targets[k..], added)
    {
      ReleaseStep(order, edges, done, targets, k, added, indegree);
      var t := targets[k];
      indegree := indegree[t := indegree[t] - 1];
      if indegree[t] == 0 {
        AppendAssociates(queue0, added, [t]);
        queue := queue + [t];
        added := added + [t];
      }
    }
    assert targets[..|targets|] == targets && targets[|targets|..] == [];
  }

  lemma {:induction false} CountOneMore(edges: seq<Edge>, k: nat)
    requires k < |edges|
    ensures forall v ::
      Outgoing(edges[..k + 1], v)
      == Outgoing(edges[..k], v) + if edges[k].source == v then [edges[k].target] else []
    ensures forall v ::
      Remaining(edges[..k + 1], [], v)
      == Remaining(edges[..k], [], v) + if edges[k].target == v then 1 else 0
  {
    assert edges[..k + 1][..k] == edges[..k];
  }

  /** Adjacency lists and in-degrees, built in one pass over the edges. */
  method CountEdges(order: map<NodeId, nat>, edges: seq<Edge>)
      returns (outgoing: map<NodeId, seq<NodeId>>, indegree: map<NodeId, int>)
    requires forall k :: 0 <= k < |edges| ==> edges[k].source in order && edges[k].target in order
    ensures forall v :: v in order ==> v in outgoing && outgoing[v] == Outgoing(edges, v)
    ensures Counts(order, edges, [], indegree)
  {
    outgoing := map v | v in order :: [];
    indegree := map v | v in order :: 0;
    for k := 0 to |edges|
      invariant forall v :: v in order ==> v in outgoing && outgoing[v] == Outgoing(edges[..k], v)
      invariant Counts(order, edges[..k], [], indegree)
    {
      var e := edges[k];
      CountOneMore(edges, k);
      outgoing := outgoing[e.source := outgoing[e.source] + [e.target]];
      indegree := indegree[e.target := indegree[e.target] + 1];
    }
    assert edges[..|edges|] == edges;
  }

  /** Input position of every node id. */
  function InputOrder(nodes: seq<Node>): map<NodeId, nat> {
    if nodes == [] then map[] else InputOrder(nodes[..|nodes| - 1])[nodes[|nodes| - 1].id := |nodes| - 1]
  }

  lemma {:induction false} InputOrderKeys(nodes: seq<Node>)
    ensures forall v :: v in InputOrder(nodes) <==> v in Ids(nodes)
    ensures forall v :: v in InputOrder(nodes) ==> InputOrder(nodes)[v] < |nodes|
    ensures forall v :: v in InputOrder(nodes) ==> nodes[InputOrder(nodes)[v]].id == v
  {
    if nodes != [] {
      var n := |nodes| - 1;
      InputOrderKeys(nodes[..n]);
      assert Ids(nodes) == Ids(nodes[..n]) + [nodes[n].id];
    }
  }

  lemma {:induction false} InputOrderSize(nodes: seq<Node>)
    requires Distinct(Ids(nodes))
    ensures |InputOrder(nodes)| == |nodes|
  {
    if nodes != [] {
      var n := |nodes| - 1;
      assert Ids(nodes) == Ids(nodes[..n]) + [nodes[n].id];
      assert Distinct(Ids(nodes[..n])) by {
        assert forall i :: 0 <= i < n ==> Ids(nodes)[i] == Ids(nodes[..n])[i];
      }
      InputOrderSize(nodes[..n]);
      InputOrderKeys(nodes[..n]);
      assert Ids(nodes)[n] == nodes[n].id && nodes[n].id !in Ids(nodes[..n]);
    }
  }

  lemma {:induction false} InitialFrontier(nodes: seq<Node>, order: map<NodeId, nat>, edges: seq<Edge>, indegree: map<NodeId, int>,
                        queue: seq<NodeId>)
    requires Distinct(Ids(nodes)) && order == InputOrder(nodes) && Counts(order, edges, [], indegree)
    requires forall n :: n in nodes ==> n.id in indegree
    requires queue == SortByInput(order, ZeroDegree(nodes, indegree))
    ensures Frontier(order, edges, [], queue)
  {
    InputOrderKeys(nodes);
    var zero := ZeroDegree(nodes, indegree);
    SortedByInput(order, zero);
    SameMultisetSameElements(queue, zero);
    DistinctMultiset(queue);
    DistinctMultiset(zero);
    AscendingDistinct(order, queue);
    assert [] + queue == queue;
    forall v | v in order
      ensures v in queue <==> Ready(edges, [], v)
    {
      RemainingZeroIsReady(edges, [], v);
    }
  }

  lemma {:induction false} PendingAfter(order: map<NodeId, nat>, edges: seq<Edge>, done: seq<NodeId>, u: NodeId, targets: seq<NodeId>,
                     indegree: map<NodeId, int>)
    requires u !in done && Counts(order, edges, done, indegree)
    requires multiset(targets) == multiset(Outgoing(edges, u))
    ensures Pending(order, edges, done + [u], targets, indegree)
  {
    forall v | v in order
      ensures indegree[v] == Remaining(edges, done + [u], v) + multiset(targets)[v]
    {
      RemainingAfter(edges, done, u, v);
    }
  }

  lemma {:induction false} AddedAreReady(order: map<NodeId, nat>, edges: seq<Edge>, done: seq<NodeId>, u: NodeId, targets: seq<NodeId>,
                      added: seq<NodeId>)
    requires forall v :: v in targets <==> HasEdge(edges, u, v)
    requires forall v :: v in targets ==> v in order
    requires Released(order, edges, done, targets, [], added)
    ensures forall v :: v in added <==> v in order && HasEdge(edges, u, v) && Ready(edges, done, v)
  {
    forall v
      ensures v in added <==> v in order && HasEdge(edges, u, v) && Ready(edges, done, v)
    {
      RemainingZeroIsReady(edges, done, v);
    }
  }

  /** Reached nodes are distinct input nodes, so there are at most as many. */
  lemma {:induction false} FrontierFits(order: map<NodeId, nat>, edges: seq<Edge>, done: seq<NodeId>, queue: seq<NodeId>)
    requires Frontier(order, edges, done, queue)
    ensures |done| + |queue| <= |order|
  {
    DistinctSetSize(done + queue);
    SubsetSize((set x | x in done + queue), order.Keys);
    assert |order.Keys| == |order|;
  }

  /** A drained queue that missed a node leaves a set of nodes that block each other. */
  lemma {:induction false} IncompleteIsCyclic(order: map<NodeId, nat>, edges: seq<Edge>, done: seq<NodeId>)
    requires Frontier(order, edges, done, []) && |done| != |order|
    requires forall k :: 0 <= k < |edges| ==> edges[k].source in order
    ensures Cyclic(edges)
  {
    assert done + [] == done;
    var rest := set v | v in order && v !in done;
    if rest == {} {
      assert forall v :: v in order ==> v in done || v in rest;
      CoversAll(done, order);
      assert false;
    }
    forall v {:trigger Blocked(edges, rest, v)} | v in rest
      ensures Blocked(edges, rest, v)
    {
      assert !Ready(edges, done, v);
    }
    BlockedIsCyclic(edges, rest);
  }

  lemma {:induction false} CompleteIsKahnOrder(order: map<NodeId, nat>, edges: seq<Edge>, done: seq<NodeId>)
    requires Frontier(order, edges, done, []) && |done| == |order|
    requires forall k :: 0 <= k < |edges| ==> edges[k].target in order
    ensures KahnOrder(order, edges, done) && !Cyclic(edges)
  {
    assert done + [] == done;
    var reached := set x | x in done;
    DistinctSetSize(done);
    SubsetSize(reached, order.Keys);
    forall k | 0 <= k < |edges|
      ensures edges[k].target in done
    {
      assert edges[k].target in reached;
    }
    TopologicalIsAcyclic(edges, done);
  }

  /** The nodes with the given ids; if all ids are listed, a permutation. */
  method NodesInOrder(nodes: seq<Node>, order: map<NodeId, nat>, ordered: seq<NodeId>) returns (r: seq<Node>)
    requires Distinct(Ids(nodes)) && order == InputOrder(nodes)
    requires Distinct(ordered) && SameElements(ordered, order)
    ensures Ids(r) == ordered && multiset(r) == multiset(nodes)
  {
    InputOrderKeys(nodes);
    r := [];
    for k := 0 to |ordered|
      invariant |r| == k
      invariant forall i :: 0 <= i < k ==> r[i] in nodes && r[i].id == ordered[i]
    {
      assert ordered[k] in ordered;
      r := r + [nodes[order[ordered[k]]]];
    }
    SamePermutation(nodes, r);
  }

  lemma {:induction false} DistinctIds(nodes: seq<Node>)
    requires Distinct(Ids(nodes))
    ensures Distinct(nodes)
  {
    forall i, j | 0 <= i < j < |nodes|
      ensures nodes[i] != nodes[j]
    {
      assert Ids(nodes)[i] != Ids(nodes)[j];
    }
  }

  lemma {:induction false} SamePermutation(nodes: seq<Node>, r: seq<Node>)
    requires Distinct(Ids(nodes)) && Distinct(Ids(r))
    requires forall v :: v in Ids(r) <==> v in Ids(nodes)
    requires forall i :: 0 <= i < |r| ==> r[i] in nodes
    ensures multiset(r) == multiset(nodes)
  {
    DistinctIds(nodes);
    DistinctIds(r);
    forall i | 0 <= i < |nodes|
      ensures nodes[i] in r
    {
      SameIdSameNode(nodes, r, i);
    }
    DistinctMultiset(r);
    DistinctMultiset(nodes);
    assert forall x :: x in r <==> x in nodes;
    forall x
      ensures multiset(r)[x] == multiset(nodes)[x]
    {
      assert x in r <==> x in multiset(r);
      assert x in nodes <==> x in multiset(nodes);
    }
  }

  lemma {:induction false} SameIdSameNode(nodes: seq<Node>, r: seq<Node>, i: nat)
    requires i < |nodes| && Distinct(Ids(nodes)) && nodes[i].id in Ids(r)
    requires forall k :: 0 <= k < |r| ==> r[k] in nodes
    ensures nodes[i] in r
  {
    var j :| 0 <= j < |r| && Ids(r)[j] == nodes[i].id;
    var k :| 0 <= k < |nodes| && nodes[k] == r[j];
    assert Ids(nodes)[k] == Ids(nodes)[i];
  }

  /** One turn of the main loop: the head of the queue is finished and releases its targets. */
  method FinishHead(order: map<NodeId, nat>, edges: seq<Edge>, outgoing: map<NodeId, seq<NodeId>>,
                    ordered0: seq<NodeId>, queue0: seq<NodeId>, indegree0: map<NodeId, int>)
      returns (ordered: seq<NodeId>, queue: seq<NodeId>, indegree: map<NodeId, int>)
    requires Injective(order) && queue0 != [] && Frontier(order, edges, ordered0, queue0) && Counts(order, edges, ordered0, indegree0)
    requires forall v :: v in order ==> v in outgoing && outgoing[v] == Outgoing(edges, v)
    requires forall k :: 0 <= k < |edges| ==> edges[k].target in order
    ensures ordered == ordered0 + [queue0[0]]
    ensures Frontier(order, edges, ordered, queue) && Counts(order, edges, ordered, indegree)
  {
    HeadIsNew(order, edges, ordered0, queue0);
    var u := queue0[0];
    ordered := ordered0 + [u];
    var targets := SortByInput(order, outgoing[u]);
    SortedByInput(order, outgoing[u]);
    SameMultisetSameElements(targets, outgoing[u]);
    TargetsExist(order, edges, u);
    PendingAfter(order, edges, ordered0, u, targets, indegree0);
    ghost var added;
    queue, indegree, added := Release(order, edges, ordered, targets, queue0[1..], indegree0);
    AddedAreReady(order, edges, ordered, u, targets, added);
    AdvanceFrontier(order, edges, ordered0, queue0, added);
  }

  lemma {:induction false} TargetsExist(order: map<NodeId, nat>, edges: seq<Edge>, u: NodeId)
    requires forall k :: 0 <= k < |edges| ==> edges[k].target in order
    ensures forall v :: v in Outgoing(edges, u) ==> v in order
  {
  }

  method OrderedNodes(pb: Playbook) returns (r: seq<Node>)
    requires WellFormed(pb)
    ensures multiset(r) == multiset(pb.nodes)
    ensures !Cyclic(pb.edges) ==> KahnOrder(InputOrder(pb.nodes), pb.edges, Ids(r))
    ensures Cyclic(pb.edges) ==> r == pb.nodes
  {
    var order, edges := InputOrder(pb.nodes), pb.edges;
    InputOrderKeys(pb.nodes);
    InputOrderSize(pb.nodes);
    var outgoing, indegree := CountEdges(order, edges);
    var queue := SortByInput(order, ZeroDegree(pb.nodes, indegree));
    var ordered: seq<NodeId> := [];
    InitialFrontier(pb.nodes, order, edges, indegree, queue);
    while queue != []
      invariant Frontier(order, edges, ordered, queue)
      invariant Counts(order, edges, ordered, indegree)
      decreases |order| - |ordered|
    {
      FrontierFits(order, edges, ordered, queue);
      ordered, queue, indegree := FinishHead(order, edges, outgoing, ordered, queue, indegree);
    }
    assert ordered + queue == ordered;
    if |ordered| != |pb.nodes| {
      IncompleteIsCyclic(order, edges, ordered);
      return pb.nodes;
    }
    CompleteIsKahnOrder(order, edges, ordered);
    r := NodesInOrder(pb.nodes, order, ordered);
  }

  // ---------- Runs ----------

  datatype StepRun = StepRun(node: NodeId, kind: NodeKind, waiting: bool, sensitive: bool)

  function StepOf(node: Node): StepRun {
    StepRun(node.id, node.kind, IsGate(node.kind), IsSensitive(node.kind))
  }

  function StepsOf(order: seq<Node>): (r: seq<StepRun>)
    ensures |r| == |order| && forall i :: 0 <= i < |r| ==> r[i] == StepOf(order[i])
  {
    seq(|order|, i requires 0 <= i < |order| => StepOf(order[i]))
  }

  /** What OrderedNodes promises. */
  ghost predicate IsOrderOf(pb: Playbook, order: seq<Node>)
    requires Distinct(Ids(pb.nodes))
  {
    && multiset(order) == multiset(pb.nodes)
    && if Cyclic(pb.edges) then order == pb.nodes else KahnOrder(InputOrder(pb.nodes), pb.edges, Ids(order))
  }

  // ---------- The order and the steps, spelled out on nodes and edges ----------

  /** Edges that lead from one to the next and from the last back to the first. */
  ghost predicate EdgeLoop(edges: seq<Edge>, ks: seq<nat>) {
    && ks != []
    && (forall i :: 0 <= i < |ks| ==> ks[i] < |edges|)
    && (forall i :: 0 <= i < |ks| - 1 ==> edges[ks[i]].target == edges[ks[i + 1]].source)
    && edges[ks[|ks| - 1]].target == edges[ks[0]].source
  }

  /** Some edge leads from node i of the list to node j. */
  ghost predicate Leads(edges: seq<Edge>, r: seq<Node>, i: nat, j: nat)
    requires i < |r| && j < |r|
  {
    exists k :: 0 <= k < |edges| && edges[k].source.text == r[i].id.text && edges[k].target.text == r[j].id.text
  }

  /** Position p is the last in the list from which an edge leads to node j, or -1 if there is none. */
  ghost predicate LastLeading(edges: seq<Edge>, r: seq<Node>, j: nat, p: int)
    requires j < |r|
  {
    && -1 <= p < |r|
    && (p >= 0 ==> Leads(edges, r, p, j))
    && forall i :: p < i < |r| ==> !Leads(edges, r, i, j)
  }

  lemma {:induction false} LoopOfPath(edges: seq<Edge>, p: seq<NodeId>) returns (ks: seq<nat>)
    requires IsPath(edges, p)
    ensures |ks| == |p| - 1 && forall i :: 0 <= i < |ks| ==> ks[i] < |edges|
    ensures forall i :: 0 <= i < |ks| ==> edges[ks[i]].source == p[i] && edges[ks[i]].target == p[i + 1]
  {
    ks := [];
    while |ks| < |p| - 1
      invariant |ks| <= |p| - 1 && forall i :: 0 <= i < |ks| ==> ks[i] < |edges|
      invariant forall i :: 0 <= i < |ks| ==> edges[ks[i]].source == p[i] && edges[ks[i]].target == p[i + 1]
    {
      assert PathStep(edges, p, |ks|);
      var k :| 0 <= k < |edges| && edges[k].source == p[|ks|] && edges[k].target == p[|ks| + 1];
      ks := ks + [k];
    }
  }

  lemma {:induction false} PathOfLoop(edges: seq<Edge>, ks: seq<nat>)
    requires EdgeLoop(edges, ks)
    ensures Cyclic(edges)
  {
    var p := seq(|ks|, i requires 0 <= i < |ks| => edges[ks[i]].source) + [edges[ks[0]].source];
    forall i | 0 <= i < |p| - 1
      ensures PathStep(edges, p, i)
    {
      assert edges[ks[i]].source == p[i] && edges[ks[i]].target == p[i + 1];
    }
    ClosedPath(edges, p);
  }

  /** Cyclic means that some edges form a loop. */
  lemma {:induction false} CyclicMeaning(edges: seq<Edge>)
    ensures Cyclic(edges) <==> exists ks :: EdgeLoop(edges, ks)
  {
    if Cyclic(edges) {
      var p :| IsPath(edges, p) && p[0] == p[|p| - 1];
      var ks := LoopOfPath(edges, p);
      assert EdgeLoop(edges, ks);
    }
    if ks :| EdgeLoop(edges, ks) {
      PathOfLoop(edges, ks);
    }
  }

  /** The end of an edge stands after its start. */
  lemma {:induction false} EdgesClimb(pb: Playbook, r: seq<Node>, k: nat) returns (i: nat, j: nat)
    requires WellFormed(pb) && multiset(r) == multiset(pb.nodes) && k < |pb.edges|
    requires KahnOrder(InputOrder(pb.nodes), pb.edges, Ids(r))
    ensures i < j < |r| && r[i].id.text == pb.edges[k].source.text && r[j].id.text == pb.edges[k].target.text
  {
    InputOrderKeys(pb.nodes);
    i, j := EdgeMovesUp(pb.edges, Ids(r), pb.edges[k].source, pb.edges[k].target);
  }

  lemma {:induction false} LastPredMeaning(edges: seq<Edge>, r: seq<Node>, j: nat, p: int)
    requires j < |r| && LastLeading(edges, r, j, p)
    ensures LastPred(edges, Ids(r), r[j].id) == p
  {
    var q := LastPred(edges, Ids(r), r[j].id);
    if q > p {
      assert Leads(edges, r, q, j);
    }
    if q < p {
      assert HasEdge(edges, Ids(r)[p], r[j].id);
    }
  }

  /** Of two nodes, the one whose last predecessor stands earlier comes first; on a tie, the one listed first. */
  lemma {:induction false} TiesBroken(pb: Playbook, r: seq<Node>, i: nat, j: nat, p: int, q: int, a: nat, b: nat)
    requires WellFormed(pb) && KahnOrder(InputOrder(pb.nodes), pb.edges, Ids(r))
    requires i < j < |r| && LastLeading(pb.edges, r, i, p) && LastLeading(pb.edges, r, j, q)
    requires a < |pb.nodes| && b < |pb.nodes| && pb.nodes[a].id == r[i].id && pb.nodes[b].id == r[j].id
    ensures p < q || (p == q && a < b)
  {
    LastPredMeaning(pb.edges, r, i, p);
    LastPredMeaning(pb.edges, r, j, q);
    InputPosition(pb.nodes, a);
    InputPosition(pb.nodes, b);
    assert Before(InputOrder(pb.nodes), pb.edges, Ids(r), Ids(r)[i], Ids(r)[j]);
  }

  lemma {:induction false} InputPosition(nodes: seq<Node>, a: nat)
    requires a < |nodes| && Distinct(Ids(nodes))
    ensures At(InputOrder(nodes), nodes[a].id) == a
  {
    InputOrderKeys(nodes);
    var v := nodes[a].id;
    assert Ids(nodes)[a] == v;
    assert v in InputOrder(nodes);
    assert Ids(nodes)[InputOrder(nodes)[v]] == v;
  }

  /** The step of a node carries its id and kind; which kinds wait and which are sensitive is a list of names. */
  lemma {:induction false} StepMeaning(node: Node)
    ensures StepOf(node).node.text == node.id.text && StepOf(node).kind == node.kind
    ensures StepOf(node).sensitive <==>
      node.kind in {FortigateRecommendBlock, FortigateTemporaryBlock, FortiwebRecommendBlock}
    ensures StepOf(node).waiting <==>
      node.kind in {ApprovalRequired, FortigateRecommendBlock, FortigateTemporaryBlock, FortiwebRecommendBlock}
  {
  }

  /** The steps of a recorded run: one per node, in the service's order. */
  ghost predicate IsRecorded(pb: Playbook, steps: seq<StepRun>)
    requires Distinct(Ids(pb.nodes))
  {
    exists order :: IsOrderOf(pb, order) && steps == StepsOf(order)
  }

  method AnyGate(nodes: seq<Node>) returns (b: bool)
    ensures b <==> exists n :: n in nodes && IsGate(n.kind)
  {
    for k := 0 to |nodes|
      invariant forall i :: 0 <= i < k ==> !IsGate(nodes[i].kind)
    {
      if IsGate(nodes[k].kind) {
        return true;
      }
    }
    return false;
  }

  /**
    The run that the service records: one step per node in topological order.
    It waits for approval exactly if the playbook has a gate anywhere.
   */
  method BuildPlaybookRun(pb: Playbook) returns (steps: seq<StepRun>, waiting: bool)
    requires WellFormed(pb)
    ensures IsRecorded(pb, steps)
    ensures waiting <==> exists n :: n in pb.nodes && IsGate(n.kind)
  {
    var order := OrderedNodes(pb);
    steps := StepsOf(order);
    waiting := AnyGate(order);
    SameMultisetSameElements(order, pb.nodes);
  }
}
