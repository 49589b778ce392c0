/**
  Linear playbooks, as the two small compilers of the API emit them.  On a chain
  both interpreters of the graph follow the node list.
 */
module Chains {
  import opened Wrappers
  import opened Effects
  import opened Playbooks
  import opened Running
  import opened SoarRuntime

  const TRIGGER := Node(NodeId("trigger"), TriggerIncidentCreated, NO_CONFIG)

  /** Distinct non-empty ids, a trigger in front, and one plain edge between neighbours. */
  ghost predicate IsChain(pb: Playbook) {
    && pb.nodes != [] && pb.nodes[0].kind.TriggerIncidentCreated?
    && Distinct(Ids(pb.nodes))
    && (forall i :: 0 <= i < |pb.nodes| ==> IsPlain(pb.nodes[i]))
    && Linked(pb.nodes, pb.edges)
  }

  predicate IsPlain(node: Node) {
    node.id.text != "" && !node.kind.ConditionSeverity? && !node.kind.OtherKind?
  }

  ghost predicate Linked(nodes: seq<Node>, edges: seq<Edge>)
    requires nodes != []
  {
    && |edges| == |nodes| - 1
    && forall i :: 0 <= i < |edges| ==>
      && edges[i].source == nodes[i].id && edges[i].target == nodes[i + 1].id
      && (edges[i].condition.None? || edges[i].condition == Some("success"))
  }

  /** Appends a node and the edge that leads to it from the previous one. */
  method AppendNode(nodes0: seq<Node>, edges0: seq<Edge>, previous: NodeId, node: Node)
      returns (nodes: seq<Node>, edges: seq<Edge>, id: NodeId)
    requires nodes0 != [] && previous == nodes0[|nodes0| - 1].id && Linked(nodes0, edges0)
    ensures nodes == nodes0 + [node] && Linked(nodes, edges) && id == node.id
  {
    nodes := nodes0 + [node];
    edges := edges0 + [Edge(previous, node.id, None)];
    id := node.id;
  }

  lemma {:induction false} IdsApart(nodes: seq<Node>, i: nat, j: nat)
    requires Distinct(Ids(nodes)) && i < |nodes| && j < |nodes| && nodes[i].id == nodes[j].id
    ensures i == j
  {
    assert Ids(nodes)[i] == Ids(nodes)[j];
  }

  lemma {:induction false} ChainEdge(pb: Playbook, u: NodeId, v: NodeId) returns (i: nat)
    requires IsChain(pb) && HasEdge(pb.edges, u, v)
    ensures i < |pb.nodes| - 1 && pb.nodes[i].id == u && pb.nodes[i + 1].id == v
  {
    i :| 0 <= i < |pb.edges| && pb.edges[i].source == u && pb.edges[i].target == v;
  }

  lemma {:induction false} ChainWellFormed(pb: Playbook)
    requires IsChain(pb)
    ensures WellFormed(pb)
  {
    forall k | 0 <= k < |pb.edges|
      ensures pb.edges[k].source in Ids(pb.nodes) && pb.edges[k].target in Ids(pb.nodes)
    {
      assert Ids(pb.nodes)[k] == pb.edges[k].source && Ids(pb.nodes)[k + 1] == pb.edges[k].target;
    }
  }

  /** Saving a chain passes the checks. */
  lemma {:induction false} ChainSavable(pb: Playbook)
    requires IsChain(pb)
    ensures Savable(pb)
  {
    ChainWellFormed(pb);
    assert pb.nodes[0] in pb.nodes;
  }

  // ---------- The order of the SOAR service ----------

  /** The only predecessor of node i is node i - 1. */
  lemma {:induction false} ChainKey(pb: Playbook, i: nat)
    requires IsChain(pb) && i < |pb.nodes|
    ensures Ready(pb.edges, Ids(pb.nodes)[..i], pb.nodes[i].id)
    ensures LastPred(pb.edges, Ids(pb.nodes), pb.nodes[i].id) == i - 1
  {
    var ids, v := Ids(pb.nodes), pb.nodes[i].id;
    forall u | HasEdge(pb.edges, u, v)
      ensures i > 0 && u == ids[i - 1]
    {
      var j := ChainEdge(pb, u, v);
      IdsApart(pb.nodes, i, j + 1);
    }
    if i > 0 {
      assert ids[..i][i - 1] == ids[i - 1];
      assert HasEdge(pb.edges, pb.edges[i - 1].source, v);
      var r := LastPred(pb.edges, ids, v);
      assert HasEdge(pb.edges, ids[i - 1], v);
      IdsApart(pb.nodes, r, i - 1);
    }
  }

  /** On a chain the SOAR order is the node list. */
  lemma {:induction false} ChainIsKahnOrder(pb: Playbook)
    requires IsChain(pb)
    ensures KahnOrder(InputOrder(pb.nodes), pb.edges, Ids(pb.nodes))
    ensures !Cyclic(pb.edges)
  {
    var ids, order := Ids(pb.nodes), InputOrder(pb.nodes);
    InputOrderKeys(pb.nodes);
    forall i | 0 <= i < |ids|
      ensures Ready(pb.edges, ids[..i], ids[i]) && LastPred(pb.edges, ids, ids[i]) == i - 1
    {
      ChainKey(pb, i);
    }
    ChainWellFormed(pb);
    TopologicalIsAcyclic(pb.edges, ids);
  }

  lemma {:induction false} SameIdsSameNodes(a: seq<Node>, b: seq<Node>)
    requires Ids(a) == Ids(b) && Distinct(Ids(a)) && multiset(a) == multiset(b)
    ensures a == b
  {
    forall i | 0 <= i < |a|
      ensures a[i] == b[i]
    {
      assert a[i] in multiset(b);
      var j :| 0 <= j < |b| && b[j] == a[i];
      assert Ids(b)[j] == Ids(a)[i] && Ids(a)[i] == a[i].id;
      IdsApart(b, j, i);
    }
  }

  /** Whatever OrderedNodes may return for a chain is the node list. */
  lemma {:induction false} ChainOrderUnchanged(pb: Playbook, r: seq<Node>)
    requires IsChain(pb) && multiset(r) == multiset(pb.nodes)
    requires KahnOrder(InputOrder(pb.nodes), pb.edges, Ids(r))
    ensures r == pb.nodes
  {
    ChainIsKahnOrder(pb);
    InputOrderInjective(pb.nodes);
    KahnOrderUnique(InputOrder(pb.nodes), pb.edges, Ids(r), Ids(pb.nodes));
    SameIdsSameNodes(pb.nodes, r);
  }

  lemma {:induction false} InputOrderInjective(nodes: seq<Node>)
    ensures Injective(InputOrder(nodes))
  {
    InputOrderKeys(nodes);
  }

  // ---------- The effect walk ----------

  lemma {:induction false} ChainEdgesFrom(pb: Playbook, i: nat)
    requires IsChain(pb) && i < |pb.nodes|
    ensures forall e :: e in EdgesFrom(pb.edges, pb.nodes[i].id) <==> i < |pb.edges| && e == pb.edges[i]
  {
    forall e | e in EdgesFrom(pb.edges, pb.nodes[i].id)
      ensures i < |pb.edges| && e == pb.edges[i]
    {
      var k :| 0 <= k < |pb.edges| && pb.edges[k] == e;
      IdsApart(pb.nodes, k, i);
    }
    if i < |pb.edges| {
      assert pb.edges[i].source == pb.nodes[i].id && pb.edges[i].target == pb.nodes[i + 1].id;
      assert IsPlain(pb.nodes[i]) && IsPlain(pb.nodes[i + 1]);
      assert Usable(pb.edges[i]);
    }
  }

  lemma {:induction false} LookupById(nodes: seq<Node>, i: nat)
    requires Distinct(Ids(nodes)) && i < |nodes|
    ensures NodeById(nodes, nodes[i].id) == Some(nodes[i])
  {
    var r := NodeById(nodes, nodes[i].id);
    assert nodes[i] in nodes;
    var j :| 0 <= j < |nodes| && nodes[j] == r.value;
    IdsApart(nodes, j, i);
  }

  lemma {:induction false} ChainNext(pb: Playbook, incident: Incident, i: nat)
    requires IsChain(pb) && i < |pb.nodes|
    ensures NextNode(pb, incident, pb.nodes[i]) == if i + 1 < |pb.nodes| then Some(pb.nodes[i + 1]) else None
  {
    var from := EdgesFrom(pb.edges, pb.nodes[i].id);
    ChainEdgesFrom(pb, i);
    assert IsPlain(pb.nodes[i]);
    assert from != [] ==> from[0] in from;
    if i < |pb.edges| {
      assert pb.edges[i] in from;
      assert pb.edges[i].target == pb.nodes[i + 1].id && Plain(pb.edges[i].condition);
      LookupById(pb.nodes, i + 1);
    }
  }

  /** On a chain the walk is the node list, for every incident. */
  lemma {:induction false} ChainIsWalk(pb: Playbook, incident: Incident)
    requires IsChain(pb)
    ensures IsWalk(pb, incident, pb.nodes)
  {
    forall i | 0 <= i < |pb.nodes| - 1
      ensures Follows(pb, incident, pb.nodes, i)
    {
      ChainNext(pb, incident, i);
    }
    ChainNext(pb, incident, |pb.nodes| - 1);
    assert pb.nodes[0] in pb.nodes;
  }

  /** A run of a chain performs its node list up to the first gate. */
  lemma {:induction false} ChainRun(pb: Playbook, env: Env, outcome: Outcome)
    requires IsChain(pb) && IsRun(pb, env, outcome)
    ensures outcome == RunNodes(env, UpToGate(pb.nodes))
  {
    var w :| IsWalk(pb, env.incident, w) && outcome == RunNodes(env, UpToGate(w));
    ChainIsWalk(pb, env.incident);
    WalkUnique(pb, env.incident, w, pb.nodes);
  }

  // ---------- Saving ----------

  /** Saving a playbook fills in the default edge condition. */
  function Stored(pb: Playbook): (r: Playbook) {
    pb.(edges := seq(|pb.edges|, i requires 0 <= i < |pb.edges| =>
      if pb.edges[i].condition.None? then pb.edges[i].(condition := Some("success")) else pb.edges[i]))
  }

  /** Saving changes nothing but missing conditions, which become "success". */
  lemma {:induction false} StoredMeaning(pb: Playbook, k: nat)
    requires k < |pb.edges|
    ensures Stored(pb).nodes == pb.nodes && |Stored(pb).edges| == |pb.edges|
    ensures Stored(pb).edges[k].source == pb.edges[k].source && Stored(pb).edges[k].target == pb.edges[k].target
    ensures Stored(pb).edges[k].condition
      == if pb.edges[k].condition.None? then Some("success") else pb.edges[k].condition
  {
  }

  lemma {:induction false} StoredChain(pb: Playbook)
    requires IsChain(pb)
    ensures IsChain(Stored(pb))
  {
    forall i | 0 <= i < |pb.edges|
      ensures Stored(pb).edges[i].source == pb.nodes[i].id && Stored(pb).edges[i].target == pb.nodes[i + 1].id
      ensures Stored(pb).edges[i].condition == Some("success")
    {
      assert pb.edges[i].source == pb.nodes[i].id;
    }
  }

  /** Saving, previewing and running a chain. */
  method SavePreviewAndRun(draft: Playbook, env: Env)
      returns (pb: Playbook, preview: seq<Node>, waiting: bool, outcome: Outcome)
    requires IsChain(draft)
    ensures pb == Stored(draft) && IsChain(pb) && Savable(pb) && preview == pb.nodes
    ensures waiting <==> exists n :: n in draft.nodes && IsGate(n.kind)
    ensures IsRun(pb, env, outcome)
  {
    pb := Stored(draft);
    StoredChain(draft);
    ChainSavable(pb);
    preview := OrderedNodes(pb);
    ChainIsKahnOrder(pb);
    ChainOrderUnchanged(pb, preview);
    var _, pending, run := RunPlaybook(pb, env);
    waiting, outcome := pending, run;
  }

  // ---------- Gates of a chain ----------

  /** Every node that changes a firewall sits directly after an approval node. */
  ghost predicate SensitiveAfterApproval(nodes: seq<Node>) {
    forall i :: 0 <= i < |nodes| && IsSensitive(nodes[i].kind) ==> i > 0 && nodes[i - 1].kind.ApprovalRequired?
  }

  /** Then a run never gets to a sensitive node: it stops at an approval before it. */
  lemma {:induction false} RunMissesSensitive(nodes: seq<Node>)
    requires SensitiveAfterApproval(nodes)
    ensures forall i :: 0 <= i < |UpToGate(nodes)| ==> !IsSensitive(UpToGate(nodes)[i].kind)
  {
    var g := FirstGate(nodes);
    assert g < |nodes| && IsSensitive(nodes[g].kind) ==> IsGate(nodes[g - 1].kind);
  }

  lemma {:induction false} NoSensitiveEffect(env: Env, w: seq<Node>)
    requires forall i :: 0 <= i < |w| ==> !IsSensitive(w[i].kind)
    ensures forall i :: 0 <= i < |VisitAll(env, w).effects| ==> !IsSensitive(VisitAll(env, w).effects[i].kind)
  {
    if w != [] {
      NoSensitiveEffect(env, w[..|w| - 1]);
    }
  }

  /** If sensitive nodes sit behind approvals, no run has an effect of one. */
  lemma {:induction false} SensitiveNotReached(env: Env, w: seq<Node>)
    requires SensitiveAfterApproval(w)
    ensures var r := RunNodes(env, UpToGate(w));
      r.Finished? ==> forall i :: 0 <= i < |r.trace.effects| ==> !IsSensitive(r.trace.effects[i].kind)
  {
    RunMissesSensitive(w);
    FinishesIffAnswered(env, UpToGate(w));
    NoSensitiveEffect(env, UpToGate(w));
  }

  // ---------- Calls of a chain ----------

  /** A node that may only put notes on the ticket. */
  ghost predicate OnlyNotes(env: Env, node: Node) {
    !node.kind.AuditNote? && (node.kind.NotifyWebhook? ==> LacksDestination(env, node))
  }

  ghost predicate AreNotes(env: Env, calls: seq<Call>) {
    forall i :: 0 <= i < |calls| ==> calls[i].PatchTriage? && calls[i].incidentId == env.runIncidentId
  }

  lemma {:induction false} NotesOnly(env: Env, w: seq<Node>)
    requires forall i :: 0 <= i < |w| ==> OnlyNotes(env, w[i])
    ensures AreNotes(env, CallsMade(RunNodes(env, w)))
  {
    if w != [] {
      var n := |w| - 1;
      NotesOnly(env, w[..n]);
      if RunNodes(env, w[..n]).Finished? {
        var t := RunNodes(env, w[..n]).trace;
        assert OnlyNotes(env, w[n]);
        MadeFacts(env, t.calls, PlannedCalls(env, t, w[n]));
      }
    }
  }
}
