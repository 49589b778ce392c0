/**
  The playbook that the API drafts from AI containment steps, composed with both
  interpreters of the graph.  What a run of a draft does outside the process is
  fixed by the steps before the first one that needs a decision.  A drafted
  webhook node names no destination, so a notifying step among them aborts the run.
 */
module Draft {
  import opened Wrappers
  import opened Chains
  import opened Effects
  import opened Playbooks
  import opened SoarRuntime

  // ---------- The draft ----------

  datatype Step = Step(nodeType: string, requiresApproval: bool, title: string)

  /** Node kind and sensitivity of an AI step; an unknown type becomes an inert note. */
  function MapStep(nodeType: string): (NodeKind, bool) {
    if nodeType == "firewall.block_ip" || nodeType == "fortigate.block_ip"
       || nodeType == "fortigate.recommend_block" || nodeType == "fortigate.temporary_block" then
      (FortigateTemporaryBlock, true)
    else if nodeType == "notify.slack" || nodeType == "notify.email" || nodeType == "notify.teams"
            || nodeType == "notify.webhook" then
      (NotifyWebhook, false)
    else if nodeType == "endpoint.collect_telemetry" || nodeType == "enrich.ip" || nodeType == "enrich.hostname" then
      (EnrichIp, false)
    else if nodeType == "endpoint.isolate" then (ApprovalRequired, true)
    else if nodeType == "approval.required" then (ApprovalRequired, false)
    else (CaseNote, false)
  }

  predicate NeedsApproval(step: Step) {
    step.requiresApproval || MapStep(step.nodeType).1
  }

  function Digit(d: nat): char
    requires d < 10
  {
    '0' + d as char
  }

  function Decimal(n: nat): (r: string)
    ensures r != ""
  {
    if n < 10 then [Digit(n)] else Decimal(n / 10) + [Digit(n % 10)]
  }

  lemma {:induction false} DecimalInjective(m: nat, n: nat)
    requires Decimal(m) == Decimal(n)
    ensures m == n
  {
    var s, t := Decimal(m), Decimal(n);
    assert s[|s| - 1] == Digit(m % 10) && t[|t| - 1] == Digit(n % 10);
    if m >= 10 && n >= 10 {
      assert s[..|s| - 1] == Decimal(m / 10) && t[..|t| - 1] == Decimal(n / 10);
      DecimalInjective(m / 10, n / 10);
    }
  }

  function StepId(index: nat): NodeId {
    NodeId("step_" + Decimal(index))
  }

  function ApprovalId(index: nat): NodeId {
    NodeId("approval_" + Decimal(index))
  }

  function ApprovalNode(index: nat): Node {
    Node(ApprovalId(index), ApprovalRequired, NO_CONFIG.(role := "admin"))
  }

  function StepNode(index: nat, step: Step): Node {
    Node(StepId(index), MapStep(step.nodeType).0, NO_CONFIG)
  }

  /** The nodes drafted for the step with this one-based index. */
  ghost function StepNodes(index: nat, step: Step): seq<Node> {
    (if NeedsApproval(step) then [ApprovalNode(index)] else []) + [StepNode(index, step)]
  }

  ghost function DraftNodes(steps: seq<Step>): (r: seq<Node>)
    ensures r != [] && r[0] == TRIGGER
  {
    if steps == [] then [TRIGGER]
    else DraftNodes(steps[..|steps| - 1]) + StepNodes(|steps|, steps[|steps| - 1])
  }

  lemma {:induction false} StepIdsApart(i: nat, j: nat)
    ensures StepId(i) == StepId(j) ==> i == j
    ensures ApprovalId(i) == ApprovalId(j) ==> i == j
    ensures StepId(i) != ApprovalId(j) && StepId(i) != TRIGGER.id && ApprovalId(j) != TRIGGER.id
  {
    assert StepId(i).text[5..] == Decimal(i) && ApprovalId(j).text[9..] == Decimal(j);
    assert StepId(j).text[5..] == Decimal(j) && ApprovalId(i).text[9..] == Decimal(i);
    assert StepId(i).text[0] == 's' && ApprovalId(j).text[0] == 'a';
    if StepId(i) == StepId(j) || ApprovalId(i) == ApprovalId(j) {
      DecimalInjective(i, j);
    }
  }

  ghost predicate DraftedId(id: NodeId, n: nat) {
    id == TRIGGER.id || exists k :: 1 <= k <= n && (id == StepId(k) || id == ApprovalId(k))
  }

  lemma {:induction false} DraftIds(steps: seq<Step>)
    ensures forall i :: 0 <= i < |DraftNodes(steps)| ==> DraftedId(DraftNodes(steps)[i].id, |steps|)
  {
    if steps != [] {
      var n := |steps| - 1;
      DraftIds(steps[..n]);
      forall i | 0 <= i < |DraftNodes(steps)|
        ensures DraftedId(DraftNodes(steps)[i].id, |steps|)
      {
        if i < |DraftNodes(steps[..n])| {
          assert DraftedId(DraftNodes(steps[..n])[i].id, n);
        }
      }
    }
  }

  lemma {:induction false} OtherStep(k: nat, m: nat)
    requires k != m
    ensures StepId(k) != StepId(m) && StepId(k) != ApprovalId(m)
    ensures ApprovalId(k) != StepId(m) && ApprovalId(k) != ApprovalId(m)
  {
    StepIdsApart(k, m);
    StepIdsApart(m, k);
  }

  lemma {:induction false} FreshStepIds(id: NodeId, n: nat)
    requires DraftedId(id, n)
    ensures id != StepId(n + 1) && id != ApprovalId(n + 1)
  {
    if id == TRIGGER.id {
      StepIdsApart(n + 1, n + 1);
    } else {
      var k :| 1 <= k <= n && (id == StepId(k) || id == ApprovalId(k));
      OtherStep(k, n + 1);
    }
  }

  lemma {:induction false} DraftIdsDistinct(steps: seq<Step>)
    ensures Distinct(Ids(DraftNodes(steps)))
  {
    if steps != [] {
      var n := |steps| - 1;
      var before, added := DraftNodes(steps[..n]), StepNodes(|steps|, steps[n]);
      DraftIdsDistinct(steps[..n]);
      DraftIds(steps[..n]);
      StepIdsApart(|steps|, |steps|);
      assert Ids(DraftNodes(steps)) == Ids(before) + Ids(added);
      forall v | v in Ids(before)
        ensures v !in Ids(added)
      {
        var i :| 0 <= i < |before| && Ids(before)[i] == v;
        FreshStepIds(before[i].id, n);
      }
      DistinctConcat(Ids(before), Ids(added));
    }
  }

  lemma {:induction false} DraftNodesPlain(steps: seq<Step>)
    ensures forall i :: 0 <= i < |DraftNodes(steps)| ==> IsPlain(DraftNodes(steps)[i])
  {
    if steps != [] {
      DraftNodesPlain(steps[..|steps| - 1]);
    }
  }

  lemma {:induction false} DraftIsChain(steps: seq<Step>, edges: seq<Edge>)
    requires Linked(DraftNodes(steps), edges)
    ensures IsChain(Playbook(DraftNodes(steps), edges))
  {
    DraftIdsDistinct(steps);
    DraftNodesPlain(steps);
  }

  method DraftPlaybook(steps: seq<Step>) returns (pb: Playbook)
    ensures IsChain(pb) && pb.nodes == DraftNodes(steps)
  {
    var nodes, edges, previous := [TRIGGER], [], TRIGGER.id;
    for index := 0 to |steps|
      invariant nodes == DraftNodes(steps[..index]) && Linked(nodes, edges) && previous == nodes[|nodes| - 1].id
    {
      var step := steps[index];
      assert steps[..index + 1][..index] == steps[..index];
      if NeedsApproval(step) {
        nodes, edges, previous := AppendNode(nodes, edges, previous, ApprovalNode(index + 1));
      }
      nodes, edges, previous := AppendNode(nodes, edges, previous, StepNode(index + 1, step));
    }
    assert steps[..|steps|] == steps;
    pb := Playbook(nodes, edges);
    DraftIsChain(steps, edges);
  }

  // ---------- Gates of a draft ----------

  lemma {:induction false} DraftGatesSensitive(steps: seq<Step>)
    ensures SensitiveAfterApproval(DraftNodes(steps))
  {
    if steps != [] {
      DraftGatesSensitive(steps[..|steps| - 1]);
    }
  }

  /** The node of every step that needs approval, sensitive or not, sits directly after its approval node. */
  lemma {:induction false} ApprovalPrecedesStep(steps: seq<Step>, k: nat)
    requires k < |steps| && NeedsApproval(steps[k])
    ensures exists i ::
      && 0 < i < |DraftNodes(steps)|
      && DraftNodes(steps)[i] == StepNode(k + 1, steps[k])
      && DraftNodes(steps)[i - 1] == ApprovalNode(k + 1)
  {
    DraftPrefix(steps, k + 1);
    var upTo := DraftNodes(steps[..k + 1]);
    assert steps[..k + 1][..k] == steps[..k];
    var i := |upTo| - 1;
    assert upTo[i] == StepNode(k + 1, steps[k]) && upTo[i - 1] == ApprovalNode(k + 1);
  }

  /** Drafting step by step only ever extends the node list. */
  lemma {:induction false} DraftPrefix(steps: seq<Step>, k: nat)
    requires k <= |steps|
    ensures |DraftNodes(steps[..k])| <= |DraftNodes(steps)|
    ensures DraftNodes(steps)[..|DraftNodes(steps[..k])|] == DraftNodes(steps[..k])
  {
    var n := |steps| - 1;
    if k == |steps| {
      assert steps[..k] == steps;
    } else {
      DraftPrefix(steps[..n], k);
      assert steps[..n][..k] == steps[..k];
    }
  }

  /** A step at which a run of the draft waits: it needs approval or is itself an approval. */
  predicate Decides(step: Step) {
    NeedsApproval(step) || MapStep(step.nodeType).0.ApprovalRequired?
  }

  /** Index of the first deciding step, or |steps|. */
  function FirstDecision(steps: seq<Step>): (k: nat)
    ensures k <= |steps|
    ensures k < |steps| ==> Decides(steps[k])
    ensures forall j :: 0 <= j < k ==> !Decides(steps[j])
  {
    FirstWhere(steps, Decides)
  }

  lemma {:induction false} UndecidedHasNoGate(steps: seq<Step>)
    requires forall j :: 0 <= j < |steps| ==> !Decides(steps[j])
    ensures forall i :: 0 <= i < |DraftNodes(steps)| ==> !IsGate(DraftNodes(steps)[i].kind)
  {
    if steps != [] {
      UndecidedHasNoGate(steps[..|steps| - 1]);
      assert !Decides(steps[|steps| - 1]);
    }
  }

  /** The first node drafted for a deciding step is gated. */
  lemma {:induction false} DecidingStepGates(steps: seq<Step>, k: nat)
    requires k < |steps| && Decides(steps[k])
    ensures var before, nodes := DraftNodes(steps[..k]), DraftNodes(steps);
      |before| < |nodes| && nodes[..|before|] == before && IsGate(nodes[|before|].kind)
  {
    DraftPrefix(steps, k);
    DraftPrefix(steps, k + 1);
    var nodes, before, upTo := DraftNodes(steps), DraftNodes(steps[..k]), DraftNodes(steps[..k + 1]);
    assert steps[..k + 1][..k] == steps[..k];
    assert upTo == before + StepNodes(k + 1, steps[k]);
    assert nodes[|before|] == nodes[..|upTo|][|before|] == StepNodes(k + 1, steps[k])[0];
  }

  /** A run of the draft visits the nodes of the steps before the first decision, then waits. */
  lemma {:induction false} DraftStopsAtFirstDecision(steps: seq<Step>)
    ensures var k, nodes := FirstDecision(steps), DraftNodes(steps);
      && nodes[..FirstGate(nodes)] == DraftNodes(steps[..k])
      && (k < |steps| <==> FirstGate(nodes) < |nodes|)
  {
    var k, nodes := FirstDecision(steps), DraftNodes(steps);
    UndecidedHasNoGate(steps[..k]);
    if k < |steps| {
      DecidingStepGates(steps, k);
      GateAfterPrefix(nodes, DraftNodes(steps[..k]));
    } else {
      assert steps[..k] == steps;
    }
  }

  lemma {:induction false} DraftWaits(steps: seq<Step>)
    ensures (exists n :: n in DraftNodes(steps) && IsGate(n.kind)) <==> FirstDecision(steps) < |steps|
  {
    var nodes := DraftNodes(steps);
    DraftStopsAtFirstDecision(steps);
    if FirstGate(nodes) < |nodes| {
      assert nodes[FirstGate(nodes)] in nodes;
    }
  }

  // ---------- Steps that notify ----------

  /** A step whose node notifies a webhook; a drafted one names no destination. */
  predicate Notifies(step: Step) {
    MapStep(step.nodeType).0.NotifyWebhook?
  }

  ghost predicate NoNotify(steps: seq<Step>) {
    forall j :: 0 <= j < |steps| ==> !Notifies(steps[j])
  }

  /** Index of the first notifying step, or |steps|. */
  function FirstNotify(steps: seq<Step>): (k: nat)
    ensures k <= |steps|
    ensures k < |steps| ==> Notifies(steps[k])
    ensures forall j :: 0 <= j < k ==> !Notifies(steps[j])
  {
    FirstWhere(steps, Notifies)
  }

  lemma {:induction false} NoNotifyIffLate(steps: seq<Step>, k: nat)
    requires k <= |steps|
    ensures NoNotify(steps[..k]) <==> FirstNotify(steps) >= k
  {
    var n := FirstNotify(steps);
    if n < k {
      assert steps[..k][n] == steps[n];
    } else {
      assert forall j :: 0 <= j < k ==> steps[..k][j] == steps[j];
    }
  }

  lemma {:induction false} NoNotifyParts(steps: seq<Step>)
    requires steps != []
    ensures NoNotify(steps) <==> NoNotify(steps[..|steps| - 1]) && !Notifies(steps[|steps| - 1])
  {
  }

  lemma {:induction false} StepLacksIffNotifies(index: nat, step: Step, env: Env)
    ensures AllKnown(env, StepNodes(index, step)) <==> !Notifies(step)
  {
    var nodes := StepNodes(index, step);
    assert nodes[|nodes| - 1] == StepNode(index, step);
  }

  lemma {:induction false} DraftLacksIffNotifies(steps: seq<Step>, env: Env)
    ensures AllKnown(env, DraftNodes(steps)) <==> NoNotify(steps)
  {
    if steps != [] {
      var n := |steps| - 1;
      var before, added := DraftNodes(steps[..n]), StepNodes(|steps|, steps[n]);
      DraftLacksIffNotifies(steps[..n], env);
      KnownConcat(env, before, added);
      StepLacksIffNotifies(|steps|, steps[n], env);
      NoNotifyParts(steps);
    }
  }

  // ---------- Runs of a draft ----------

  /** The drafted nodes before the first decision, which a run of the draft visits. */
  ghost function OpenNodes(steps: seq<Step>): seq<Node> {
    DraftNodes(steps[..FirstDecision(steps)])
  }

  lemma {:induction false} DraftRunStops(steps: seq<Step>, env: Env)
    ensures var r, before := RunNodes(env, UpToGate(DraftNodes(steps))), RunNodes(env, OpenNodes(steps));
      CallsMade(r) == CallsMade(before) && (r.Finished? <==> before.Finished?)
  {
    DraftStopsAtFirstDecision(steps);
    CallsStopBeforeGate(env, DraftNodes(steps));
  }

  /**
    A run of a draft finishes exactly if no step before the first decision
    notifies and every call of those steps returns.
   */
  lemma {:induction false} DraftFinishesIff(steps: seq<Step>, pb: Playbook, env: Env, outcome: Outcome)
    requires IsChain(pb) && pb.nodes == DraftNodes(steps) && IsRun(pb, env, outcome)
    ensures outcome.Finished?
      <==> NoNotify(steps[..FirstDecision(steps)]) && Answered(env, [], VisitAll(env, OpenNodes(steps)).calls)
  {
    ChainRun(pb, env, outcome);
    DraftRunStops(steps, env);
    FinishesIffAnswered(env, OpenNodes(steps));
    DraftLacksIffNotifies(steps[..FirstDecision(steps)], env);
  }

  /** If every call returns, a draft finishes exactly if no step before its first decision notifies. */
  lemma {:induction false} DraftFinishesWhenAnswered(steps: seq<Step>, pb: Playbook, env: Env, outcome: Outcome)
    requires IsChain(pb) && pb.nodes == DraftNodes(steps) && IsRun(pb, env, outcome)
    requires forall cs :: env.answers(cs)
    ensures outcome.Finished? <==> FirstNotify(steps) >= FirstDecision(steps)
  {
    NoNotifyIffLate(steps, FirstDecision(steps));
    DraftFinishesIff(steps, pb, env, outcome);
    AlwaysAnswered(env, [], VisitAll(env, OpenNodes(steps)).calls);
  }

  /** What a finished run of a draft did: the calls and effects of the steps before the first decision, then it waits. */
  ghost predicate RanToDecision(steps: seq<Step>, env: Env, t: Trace) {
    var before := VisitAll(env, OpenNodes(steps));
    && t.calls == before.calls && NoneWaits(before.effects)
    && (FirstDecision(steps) == |steps| ==> t.effects == before.effects)
    && (FirstDecision(steps) < |steps| ==>
          && |t.effects| == |before.effects| + 1 && t.effects[..|before.effects|] == before.effects
          && t.effects[|before.effects|].status == WaitingApproval)
    && forall i :: 0 <= i < |t.effects| ==> !IsSensitive(t.effects[i].kind)
  }

  lemma {:induction false} FinishedDraft(steps: seq<Step>, pb: Playbook, env: Env, outcome: Outcome)
    requires IsChain(pb) && pb.nodes == DraftNodes(steps) && IsRun(pb, env, outcome) && outcome.Finished?
    ensures RanToDecision(steps, env, outcome.trace)
  {
    ChainRun(pb, env, outcome);
    DraftRunStops(steps, env);
    DraftStopsAtFirstDecision(steps);
    FinishesIffAnswered(env, OpenNodes(steps));
    FinishedRun(env, pb.nodes);
    GateWaits(env, pb.nodes);
    DraftGatesSensitive(steps);
    SensitiveNotReached(env, pb.nodes);
  }

  lemma {:induction false} FinishedWaits(steps: seq<Step>, env: Env, outcome: Outcome)
    requires outcome.Finished? && RanToDecision(steps, env, outcome.trace)
    ensures Waits(outcome) <==> FirstDecision(steps) < |steps|
  {
  }

  /** The node of an undecided notifying step aborts the run without a call. */
  lemma {:induction false} NotifyAborts(steps: seq<Step>, env: Env)
    requires steps != [] && Notifies(steps[|steps| - 1]) && !Decides(steps[|steps| - 1])
    ensures RunNodes(env, DraftNodes(steps))
      == Aborted(CallsMade(RunNodes(env, DraftNodes(steps[..|steps| - 1]))))
  {
    var n := |steps| - 1;
    var before, node := DraftNodes(steps[..n]), StepNode(|steps|, steps[n]);
    assert StepNodes(|steps|, steps[n]) == [node];
    assert DraftNodes(steps)[..|before|] == before && DraftNodes(steps)[|before|] == node;
    assert LacksDestination(env, node);
  }

  /** Nodes drafted up to an aborting point decide the run of all open nodes. */
  lemma {:induction false} OpenNodesAbort(steps: seq<Step>, env: Env, n: nat)
    requires n <= FirstDecision(steps) && RunNodes(env, DraftNodes(steps[..n])).Aborted?
    ensures RunNodes(env, OpenNodes(steps)) == RunNodes(env, DraftNodes(steps[..n]))
  {
    var k := FirstDecision(steps);
    assert steps[..k][..n] == steps[..n];
    DraftPrefix(steps[..k], n);
    AbortStays(env, OpenNodes(steps), |DraftNodes(steps[..n])|);
  }

  lemma {:induction false} NotifyingRunAborts(steps: seq<Step>, env: Env)
    requires FirstNotify(steps) < FirstDecision(steps)
    ensures RunNodes(env, UpToGate(DraftNodes(steps)))
      == Aborted(CallsMade(RunNodes(env, DraftNodes(steps[..FirstNotify(steps)]))))
  {
    var n := FirstNotify(steps);
    DraftRunStops(steps, env);
    assert steps[..n + 1][..n] == steps[..n];
    NotifyAborts(steps[..n + 1], env);
    OpenNodesAbort(steps, env, n + 1);
  }

  /** With a notifying step before the first decision, exactly the steps before it make their calls, and the run aborts. */
  lemma {:induction false} NotifyingDraftAborts(steps: seq<Step>, pb: Playbook, env: Env, outcome: Outcome)
    requires IsChain(pb) && pb.nodes == DraftNodes(steps) && IsRun(pb, env, outcome)
    requires FirstNotify(steps) < FirstDecision(steps)
    ensures outcome == Aborted(CallsMade(RunNodes(env, DraftNodes(steps[..FirstNotify(steps)]))))
  {
    ChainRun(pb, env, outcome);
    NotifyingRunAborts(steps, env);
  }

  lemma {:induction false} DraftHasOnlyNotes(steps: seq<Step>, env: Env)
    ensures forall i :: 0 <= i < |DraftNodes(steps)| ==> OnlyNotes(env, DraftNodes(steps)[i])
  {
    if steps != [] {
      DraftHasOnlyNotes(steps[..|steps| - 1], env);
    }
  }

  /** Whatever a drafted playbook calls, it sends no webhook: it only puts notes on the ticket of its run. */
  lemma {:induction false} DraftOnlyNotes(steps: seq<Step>, pb: Playbook, env: Env, outcome: Outcome)
    requires IsChain(pb) && pb.nodes == DraftNodes(steps) && IsRun(pb, env, outcome)
    ensures AreNotes(env, CallsMade(outcome))
  {
    ChainRun(pb, env, outcome);
    DraftHasOnlyNotes(steps, env);
    NotesOnly(env, UpToGate(pb.nodes));
  }

  /**
    How a run of a draft ends.  It finishes exactly if no step before the first
    decision notifies and all calls of those steps return; then it ran up to the
    decision.  A notifying step before the decision aborts it after exactly the
    calls of the steps before.  It never does more than put notes on its ticket.
   */
  ghost predicate DraftOutcome(steps: seq<Step>, env: Env, outcome: Outcome) {
    var n, k := FirstNotify(steps), FirstDecision(steps);
    && (outcome.Finished? <==> n >= k && Answered(env, [], VisitAll(env, OpenNodes(steps)).calls))
    && (outcome.Finished? ==> RanToDecision(steps, env, outcome.trace))
    && (Waits(outcome) <==> outcome.Finished? && k < |steps|)
    && (n < k ==> outcome == Aborted(CallsMade(RunNodes(env, DraftNodes(steps[..n])))))
    && AreNotes(env, CallsMade(outcome))
  }

  lemma {:induction false} RunOfDraft(steps: seq<Step>, pb: Playbook, env: Env, outcome: Outcome)
    requires IsChain(pb) && pb.nodes == DraftNodes(steps) && IsRun(pb, env, outcome)
    ensures DraftOutcome(steps, env, outcome)
  {
    NoNotifyIffLate(steps, FirstDecision(steps));
    DraftFinishesIff(steps, pb, env, outcome);
    if outcome.Finished? {
      FinishedDraft(steps, pb, env, outcome);
      FinishedWaits(steps, env, outcome);
    } else if FirstNotify(steps) < FirstDecision(steps) {
      NotifyingDraftAborts(steps, pb, env, outcome);
    }
    DraftOnlyNotes(steps, pb, env, outcome);
  }

  /**
    Draft, save, preview and run.  The draft can be saved and the preview lists
    its nodes in order.  The recorded run waits exactly if some step needs a
    decision; the effects agree with that exactly if they finish or no step does.
   */
  method DraftPreviewAndRun(steps: seq<Step>, env: Env)
      returns (pb: Playbook, preview: seq<Node>, waiting: bool, outcome: Outcome)
    ensures IsChain(pb) && Savable(pb) && preview == pb.nodes == DraftNodes(steps)
    ensures waiting <==> FirstDecision(steps) < |steps|
    ensures DraftOutcome(steps, env, outcome)
    ensures (Waits(outcome) <==> waiting) <==> outcome.Finished? || !waiting
  {
    var draft := DraftPlaybook(steps);
    pb, preview, waiting, outcome := SavePreviewAndRun(draft, env);
    DraftWaits(steps);
    RunOfDraft(steps, pb, env, outcome);
  }

  // ---------- A draft that aborts ----------

  const NOTIFY_THEN_BLOCK := [Step("notify.slack", false, "Tell the team"), Step("firewall.block_ip", false, "Block")]

  lemma {:induction false} NotifiesThenDecides()
    ensures FirstNotify(NOTIFY_THEN_BLOCK) == 0 && FirstDecision(NOTIFY_THEN_BLOCK) == 1
  {
    var notify, block := NOTIFY_THEN_BLOCK[0], NOTIFY_THEN_BLOCK[1];
    assert Notifies(notify) && !Decides(notify) && Decides(block);
  }

  lemma {:induction false} TriggerRun(env: Env)
    ensures RunNodes(env, DraftNodes([])) == Finished(NO_TRACE)
  {
    assert [TRIGGER][..0] == [];
  }

  /** A draft whose effects abort at once, whatever the surroundings, while the recorded run waits for its second step. */
  lemma {:induction false} NotifyThenBlockAborts(pb: Playbook, env: Env, outcome: Outcome)
    requires IsChain(pb) && pb.nodes == DraftNodes(NOTIFY_THEN_BLOCK) && IsRun(pb, env, outcome)
    ensures outcome == Aborted([])
    ensures exists n :: n in pb.nodes && IsGate(n.kind)
  {
    NotifiesThenDecides();
    NotifyingDraftAborts(NOTIFY_THEN_BLOCK, pb, env, outcome);
    assert NOTIFY_THEN_BLOCK[..0] == [];
    TriggerRun(env);
    DraftWaits(NOTIFY_THEN_BLOCK);
  }

  // ---------- The draft, node by node ----------

  const BLOCKING := {"firewall.block_ip", "fortigate.block_ip", "fortigate.recommend_block", "fortigate.temporary_block"}
  const TELLING := {"notify.slack", "notify.email", "notify.teams", "notify.webhook"}
  const LOOKING_UP := {"endpoint.collect_telemetry", "enrich.ip", "enrich.hostname"}
  const DECIDING := {"endpoint.isolate", "approval.required"}

  /** Which types of steps become which kinds of nodes; all others become notes, so that they are inert. */
  lemma {:induction false} MapStepMeaning(nodeType: string)
    ensures MapStep(nodeType).0.FortigateTemporaryBlock? <==> nodeType in BLOCKING
    ensures MapStep(nodeType).0.NotifyWebhook? <==> nodeType in TELLING
    ensures MapStep(nodeType).0.EnrichIp? <==> nodeType in LOOKING_UP
    ensures MapStep(nodeType).0.ApprovalRequired? <==> nodeType in DECIDING
    ensures MapStep(nodeType).0.CaseNote? <==> nodeType !in BLOCKING + TELLING + LOOKING_UP + DECIDING
    ensures MapStep(nodeType).1 <==> nodeType in BLOCKING || nodeType == "endpoint.isolate"
  {
  }

  /** A step gets an approval node if it asks for one, blocks, or isolates. */
  ghost predicate Approved(step: Step) {
    step.requiresApproval || step.nodeType in BLOCKING || step.nodeType == "endpoint.isolate"
  }

  ghost function Approvals(steps: seq<Step>): nat {
    if steps == [] then 0 else Approvals(steps[..|steps| - 1]) + if Approved(steps[|steps| - 1]) then 1 else 0
  }

  /** Node number of a step: one for the trigger, one for each step before, and one for each approval up to its own. */
  ghost function NodeNumber(steps: seq<Step>, k: nat): nat
    requires k < |steps|
  {
    1 + k + Approvals(steps[..k + 1])
  }

  /** The node of the step with this number, its kind as mapped, and before it, where it is approved, the approval node. */
  ghost predicate DraftedAt(nodes: seq<Node>, n: nat, number: nat, step: Step) {
    && 0 < n < |nodes|
    && nodes[n].id.text == "step_" + Decimal(number) && nodes[n].kind == MapStep(step.nodeType).0
    && nodes[n].config == NO_CONFIG
    && (Approved(step) ==>
          && nodes[n - 1].id.text == "approval_" + Decimal(number) && nodes[n - 1].kind == ApprovalRequired
          && nodes[n - 1].config == Config(None, "", "", "", "", "admin"))
  }

  lemma {:induction false} ApprovedMeaning(step: Step)
    ensures NeedsApproval(step) <==> Approved(step)
    ensures Decides(step) <==> Approved(step) || step.nodeType == "approval.required"
    ensures Notifies(step) <==> step.nodeType in TELLING
  {
    MapStepMeaning(step.nodeType);
  }

  lemma {:induction false} DraftLength(steps: seq<Step>)
    ensures |DraftNodes(steps)| == 1 + |steps| + Approvals(steps)
  {
    if steps != [] {
      DraftLength(steps[..|steps| - 1]);
      ApprovedMeaning(steps[|steps| - 1]);
    }
  }

  /** Every node of a draft is the trigger, the node of its step, or the approval node of its step. */
  lemma {:induction false} DraftNodeByNode(steps: seq<Step>, k: nat)
    requires k < |steps|
    ensures DraftNodes(steps)[0] == Node(NodeId("trigger"), TriggerIncidentCreated, NO_CONFIG)
    ensures |DraftNodes(steps)| == 1 + |steps| + Approvals(steps)
    ensures DraftedAt(DraftNodes(steps), NodeNumber(steps, k), k + 1, steps[k])
  {
    DraftLength(steps);
    LastDrafted(steps[..k + 1]);
    DraftLength(steps[..k + 1]);
    DraftPrefix(steps, k + 1);
    DraftedInPrefix(DraftNodes(steps), |DraftNodes(steps[..k + 1])|, NodeNumber(steps, k), k + 1, steps[k]);
  }

  lemma {:induction false} DraftedInPrefix(nodes: seq<Node>, m: nat, n: nat, number: nat, step: Step)
    requires m <= |nodes| && DraftedAt(nodes[..m], n, number, step)
    ensures DraftedAt(nodes, n, number, step)
  {
  }

  lemma {:induction false} LastDrafted(steps: seq<Step>)
    requires steps != []
    ensures DraftedAt(DraftNodes(steps), |DraftNodes(steps)| - 1, |steps|, steps[|steps| - 1])
  {
    ApprovedMeaning(steps[|steps| - 1]);
  }

  // ---------- Decimal texts ----------

  function DigitValue(c: char): int {
    c as int - '0' as int
  }

  /** The number that a text of digits denotes. */
  ghost function NumberOf(s: string): int {
    if s == "" then 0 else 10 * NumberOf(s[..|s| - 1]) + DigitValue(s[|s| - 1])
  }

  /** A decimal text consists of digits, does not start with zero unless it is zero, and denotes its number. */
  lemma {:induction false} DecimalMeaning(n: nat)
    ensures NumberOf(Decimal(n)) == n
    ensures forall i :: 0 <= i < |Decimal(n)| ==> '0' <= Decimal(n)[i] <= '9'
    ensures n > 0 ==> Decimal(n)[0] != '0'
  {
    if n < 10 {
      assert [Digit(n)][..0] == "";
    } else {
      DecimalMeaning(n / 10);
      assert Decimal(n)[..|Decimal(n)| - 1] == Decimal(n / 10);
    }
  }
}
