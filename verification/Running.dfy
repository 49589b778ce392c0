/**
  Running a playbook: the SOAR service records a run in its order, and the API
  performs the effects of its walk.  On every acyclic playbook the walk only moves
  forward in that order.
 */
module Running {
  import opened Effects
  import opened Grouping
  import opened Playbooks
  import opened SoarRuntime

  // ---------- Running any playbook ----------

  /** The API performs the effects of a playbook if it has nodes that can have any. */
  method RunEffects(pb: Playbook, env: Env) returns (outcome: Outcome)
    ensures IsRun(pb, env, outcome)
  {
    if HasEffectNodes(pb) {
      outcome := ExecuteEffects(pb, env);
    } else {
      outcome := Finished(NO_TRACE);
      NoEffectNodesRun(pb, env);
    }
  }

  lemma {:induction false} NoEffectNodesRun(pb: Playbook, env: Env)
    requires !HasEffectNodes(pb)
    ensures IsRun(pb, env, Finished(NO_TRACE))
  {
    var w := WalkExists(pb, env.incident);
    assert IsRun(pb, env, RunNodes(env, UpToGate(w)));
    NoEffectNodesNoEffects(pb, env, RunNodes(env, UpToGate(w)));
  }

  /** Running a playbook: the SOAR service records the run, then the API performs the effects. */
  method RunPlaybook(pb: Playbook, env: Env) returns (steps: seq<StepRun>, waiting: bool, outcome: Outcome)
    requires WellFormed(pb)
    ensures IsRecorded(pb, steps)
    ensures waiting <==> exists n :: n in pb.nodes && IsGate(n.kind)
    ensures IsRun(pb, env, outcome) && (Waits(outcome) ==> waiting)
  {
    steps, waiting := BuildPlaybookRun(pb);
    outcome := RunEffects(pb, env);
    if Waits(outcome) {
      WaitingNeedsGate(pb, env, outcome);
    }
  }

  lemma {:induction false} WaitingNeedsGate(pb: Playbook, env: Env, outcome: Outcome)
    requires IsRun(pb, env, outcome) && Waits(outcome)
    ensures exists n :: n in pb.nodes && IsGate(n.kind)
  {
    var w :| IsWalk(pb, env.incident, w) && outcome == RunNodes(env, UpToGate(w));
    WaitsAtMostOnceAndLast(env, w);
    WalkUsesEdges(pb, env.incident, w, FirstGate(w));
  }

  // ---------- The walk in the order of the service ----------

  /** Position of a node in the order of the SOAR service. */
  ghost function Place(order: seq<Node>, v: NodeId): nat {
    FirstIndex(Ids(order), v)
  }

  lemma {:induction false} TopologicalClimbs(edges: seq<Edge>, ids: seq<NodeId>, u: NodeId, v: NodeId)
    requires Topological(edges, ids) && HasEdge(edges, u, v) && v in ids
    ensures FirstIndex(ids, u) < FirstIndex(ids, v) < |ids|
  {
    var j := FirstIndex(ids, v);
    assert Ready(edges, ids[..j], ids[j]);
    var i :| 0 <= i < j && ids[..j][i] == u;
    assert ids[i] == u;
  }

  lemma {:induction false} EdgeClimbs(pb: Playbook, order: seq<Node>, u: NodeId, v: NodeId)
    requires WellFormed(pb) && !Cyclic(pb.edges) && IsOrderOf(pb, order)
    requires HasEdge(pb.edges, u, v) && v in Ids(pb.nodes)
    ensures Place(order, u) < Place(order, v) < |order|
  {
    InputOrderKeys(pb.nodes);
    assert v in InputOrder(pb.nodes);
    TopologicalClimbs(pb.edges, Ids(order), u, v);
  }

  /** Each step of the walk moves forward in the order. */
  ghost predicate Climbs(order: seq<Node>, w: seq<Node>) {
    forall k {:trigger w[k]} :: 0 < k < |w| ==> Place(order, w[k - 1].id) < Place(order, w[k].id) < |order|
  }

  lemma {:induction false} ClimbsThroughout(order: seq<Node>, w: seq<Node>, i: nat, j: nat)
    requires Climbs(order, w) && i < j < |w|
    ensures Place(order, w[i].id) < Place(order, w[j].id)
  {
    if i < j - 1 {
      ClimbsThroughout(order, w, i, j - 1);
    }
  }

  lemma {:induction false} StepClimbs(pb: Playbook, order: seq<Node>, incident: Incident, w: seq<Node>, j: nat)
    requires WellFormed(pb) && !Cyclic(pb.edges) && IsOrderOf(pb, order) && IsWalk(pb, incident, w)
    requires 0 < j < |w|
    ensures Place(order, w[j - 1].id) < Place(order, w[j].id) < |order|
  {
    WalkUsesEdges(pb, incident, w, j);
    NodeIdListed(pb.nodes, w[j]);
    EdgeClimbs(pb, order, w[j - 1].id, w[j].id);
  }

  lemma {:induction false} ClimbsEverywhere(order: seq<Node>, w: seq<Node>)
    requires Climbs(order, w)
    ensures forall i, j :: 0 <= i < j < |w| ==> Place(order, w[i].id) < Place(order, w[j].id)
  {
    forall i, j | 0 <= i < j < |w|
      ensures Place(order, w[i].id) < Place(order, w[j].id)
    {
      ClimbsThroughout(order, w, i, j);
    }
  }

  /** On every acyclic playbook the effect walk only moves forward in the order of the SOAR service. */
  lemma {:induction false} WalkClimbs(pb: Playbook, order: seq<Node>, incident: Incident, w: seq<Node>)
    requires WellFormed(pb) && !Cyclic(pb.edges) && IsOrderOf(pb, order) && IsWalk(pb, incident, w)
    ensures Climbs(order, w)
    ensures forall i, j :: 0 <= i < j < |w| ==> Place(order, w[i].id) < Place(order, w[j].id)
  {
    forall k | 0 < k < |w|
      ensures Place(order, w[k - 1].id) < Place(order, w[k].id) < |order|
    {
      StepClimbs(pb, order, incident, w, k);
    }
    ClimbsEverywhere(order, w);
  }
}
