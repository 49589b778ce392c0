/**
  The recommended template playbook, composed with both interpreters of the graph.
 */
module Templates {
  import opened Wrappers
  import opened Chains
  import opened Effects
  import opened Playbooks
  import opened SoarRuntime

  // ---------- The template ----------

  predicate BlocksAtFirewall(templateId: string) {
    templateId in {"pb_network_scan_triage", "pb_fortigate_temp_block", "pb_auth_bruteforce_triage"}
  }

  /** What a template playbook depends on; `identity` is the text of the account review, if there is one. */
  datatype Template = Template(triageText: string, source: bool, block: bool, identity: Option<string>)

  function NoteNode(id: string, text: string): Node {
    Node(NodeId(id), CaseNote, NO_CONFIG.(text := text))
  }







  const FINAL_NOTE := NoteNode("final_note", "Append outcome and approval status to the ticket timeline.")
  const SOURCE_NODE := Node(NodeId("enrich_source_ip"), EnrichIp, NO_CONFIG.(field := "entities.sourceIp"))
  const APPROVAL_NODE := Node(NodeId("approval"), ApprovalRequired, NO_CONFIG.(role := "admin"))
  const BLOCK_NODE := Node(NodeId("temporary_block"), FortigateTemporaryBlock, NO_CONFIG)

  ghost function SourcePart(t: Template): seq<Node> {
    if t.source then [SOURCE_NODE] else []
  }

  ghost function BlockPart(t: Template): seq<Node> {
    if t.block then [APPROVAL_NODE, BLOCK_NODE] else []
  }

  ghost function IdentityPart(t: Template): seq<Node> {
    if t.identity.Some? then [NoteNode("identity_review_note", t.identity.value)] else []
  }

  ghost function HeadPart(t: Template): seq<Node> {
    [TRIGGER, NoteNode("triage_note", t.triageText)] + SourcePart(t)
  }

  /** The template's nodes: triage note, source, gated block and account review where they apply, final note. */
  ghost function TemplateNodes(t: Template): seq<Node> {
    HeadPart(t) + BlockPart(t) + IdentityPart(t) + [FINAL_NOTE]
  }

  /** Distinct ids whose lengths all lie in the given set. */
  ghost predicate ApartByLength(nodes: seq<Node>, lengths: set<nat>) {
    && Distinct(Ids(nodes))
    && forall i :: 0 <= i < |nodes| ==> |nodes[i].id.text| in lengths
  }

  lemma {:induction false} JoinApart(a: seq<Node>, b: seq<Node>, s: set<nat>, t: set<nat>)
    requires ApartByLength(a, s) && ApartByLength(b, t) && s !! t
    ensures ApartByLength(a + b, s + t)
  {
    assert Ids(a + b) == Ids(a) + Ids(b);
    forall v | v in Ids(a)
      ensures v !in Ids(b)
    {
      var i :| 0 <= i < |a| && Ids(a)[i] == v;
      assert |a[i].id.text| in s;
    }
    DistinctConcat(Ids(a), Ids(b));
  }

  lemma {:induction false} TemplateIdsDistinct(t: Template)
    ensures Distinct(Ids(TemplateNodes(t)))
  {
    var a := [TRIGGER, NoteNode("triage_note", t.triageText)];
    var b := HeadPart(t);
    var c := b + BlockPart(t);
    var d := c + IdentityPart(t);
    JoinApart(a, SourcePart(t), {7, 11}, {16});
    JoinApart(b, BlockPart(t), {7, 11, 16}, {8, 15});
    JoinApart(c, IdentityPart(t), {7, 11, 16, 8, 15}, {20});
    JoinApart(d, [FINAL_NOTE], {7, 11, 16, 8, 15, 20}, {10});
  }

  lemma {:induction false} TemplateNodesPlain(t: Template)
    ensures TemplateNodes(t)[0] == TRIGGER
    ensures forall i :: 0 <= i < |TemplateNodes(t)| ==> IsPlain(TemplateNodes(t)[i])
  {
    var nodes := TemplateNodes(t);
    forall n | n in nodes
      ensures IsPlain(n)
    {
      assert n in HeadPart(t) || n in BlockPart(t) || n in IdentityPart(t) || n == FINAL_NOTE;
    }
  }

  lemma {:induction false} TemplateIsChain(t: Template, edges: seq<Edge>)
    requires Linked(TemplateNodes(t), edges)
    ensures IsChain(Playbook(TemplateNodes(t), edges))
  {
    TemplateIdsDistinct(t);
    TemplateNodesPlain(t);
  }

  ghost predicate HasBlock(nodes: seq<Node>) {
    exists i :: 0 <= i < |nodes| && nodes[i].kind.FortigateTemporaryBlock?
  }

  lemma {:induction false} TemplateGates(t: Template)
    ensures SensitiveAfterApproval(TemplateNodes(t)) && (HasBlock(TemplateNodes(t)) <==> t.block)
  {
    var nodes := TemplateNodes(t);
    if t.block {
      assert nodes[|HeadPart(t)| + 1] == BLOCK_NODE;
    }
  }

  function TemplateOf(templateId: string, triageText: string, sourceIp: string, integrationId: string, username: string):
      Template {
    Template(triageText, sourceIp != "", BlocksAtFirewall(templateId) && sourceIp != "" && integrationId != "",
             ReviewOf(templateId, username))
  }

  function ReviewOf(templateId: string, username: string): Option<string> {
    if templateId == "pb_auth_bruteforce_triage"
    then Some("Review account activity for " + OrElse(username, "the user") + ".") else None
  }

  /**
    The template playbook, or None when the template is not eligible.  It blocks
    exactly when the template asks for it and both a source and an integration
    are known, and never without an approval directly before.
   */
  method RecommendedTemplate(eligible: set<string>, templateId: string, triageText: string, sourceIp: string,
                             integrationId: string, username: string)
      returns (r: Option<Playbook>)
    ensures r.None? <==> templateId !in eligible
    ensures r.Some? ==>
      r.value.nodes == TemplateNodes(TemplateOf(templateId, triageText, sourceIp, integrationId, username))
    ensures r.Some? ==> IsChain(r.value) && SensitiveAfterApproval(r.value.nodes)
    ensures r.Some? ==>
      (HasBlock(r.value.nodes) <==> BlocksAtFirewall(templateId) && sourceIp != "" && integrationId != "")
  {
    if templateId !in eligible {
      return None;
    }
    ghost var t := TemplateOf(templateId, triageText, sourceIp, integrationId, username);
    var nodes, edges, previous := [TRIGGER], [], TRIGGER.id;
    nodes, edges, previous := AppendNode(nodes, edges, previous, NoteNode("triage_note", triageText));
    if sourceIp != "" {
      nodes, edges, previous := AppendNode(nodes, edges, previous, SOURCE_NODE);
    }
    assert nodes == HeadPart(t);
    if BlocksAtFirewall(templateId) && sourceIp != "" && integrationId != "" {
      nodes, edges, previous := AppendNode(nodes, edges, previous, APPROVAL_NODE);
      nodes, edges, previous := AppendNode(nodes, edges, previous, BLOCK_NODE);
    }
    assert nodes == HeadPart(t) + BlockPart(t);
    nodes, edges := AppendReview(t, nodes, edges, previous, templateId, username);
    TemplateIsChain(t, edges);
    TemplateGates(t);
    r := Some(Playbook(nodes, edges));
  }

  /** The last nodes: the account review of one template, and the final note of all. */
  method AppendReview(ghost t: Template, nodes0: seq<Node>, edges0: seq<Edge>, previous0: NodeId, templateId: string,
                      username: string)
      returns (nodes: seq<Node>, edges: seq<Edge>)
    requires t.identity == ReviewOf(templateId, username)
    requires nodes0 != [] && previous0 == nodes0[|nodes0| - 1].id && Linked(nodes0, edges0)
    ensures nodes == nodes0 + IdentityPart(t) + [FINAL_NOTE] && Linked(nodes, edges)
  {
    var previous;
    nodes, edges, previous := nodes0, edges0, previous0;
    if templateId == "pb_auth_bruteforce_triage" {
      var text := "Review account activity for " + OrElse(username, "the user") + ".";
      nodes, edges, previous := AppendNode(nodes, edges, previous, NoteNode("identity_review_note", text));
    }
    assert nodes == nodes0 + IdentityPart(t);
    nodes, edges, previous := AppendNode(nodes, edges, previous, FINAL_NOTE);
  }

  // ---------- Runs of the template ----------

  /** The nodes that a run of the template visits before it waits, if it does. */
  ghost function OpenPart(t: Template): seq<Node> {
    if t.block then HeadPart(t) else TemplateNodes(t)
  }

  lemma {:induction false} TemplateStops(t: Template)
    ensures var nodes := TemplateNodes(t);
      nodes[..FirstGate(nodes)] == OpenPart(t) && (FirstGate(nodes) < |nodes| <==> t.block)
  {
    var nodes := TemplateNodes(t);
    HeadHasNoGate(t);
    if t.block {
      assert nodes[|HeadPart(t)|] == APPROVAL_NODE && nodes[..|HeadPart(t)|] == HeadPart(t);
      GateAfterPrefix(nodes, HeadPart(t));
    } else {
      assert nodes == HeadPart(t) + IdentityPart(t) + [FINAL_NOTE];
      assert FirstGate(nodes) == |nodes|;
    }
  }

  lemma {:induction false} HeadHasNoGate(t: Template)
    ensures forall i :: 0 <= i < |HeadPart(t)| ==> !IsGate(HeadPart(t)[i].kind)
  {
  }

  lemma {:induction false} TemplateHasOnlyNotes(t: Template, env: Env)
    ensures forall i :: 0 <= i < |TemplateNodes(t)| ==>
      OnlyNotes(env, TemplateNodes(t)[i]) && !TemplateNodes(t)[i].kind.NotifyWebhook?
  {
  }

  /** A run of a blocking template calls once, for the triage note, whether or not that call returns. */
  lemma {:induction false} HeadRun(t: Template, env: Env)
    ensures CallsMade(RunNodes(env, HeadPart(t))) == [PatchTriage(env.runIncidentId, env.render(t.triageText, map[]))]
  {
    var note := NoteNode("triage_note", t.triageText);
    var call := PatchTriage(env.runIncidentId, env.render(t.triageText, map[]));
    RunAppended(env, [], TRIGGER);
    RunAppended(env, [TRIGGER], note);
    OneCall(env, [], call);
    assert [] + [TRIGGER] == [TRIGGER] && [TRIGGER] + [note] == [TRIGGER, note] && [] + [call] == [call];
    assert HeadPart(t) == if t.source then [TRIGGER, note] + [SOURCE_NODE] else [TRIGGER, note];
    RunAppended(env, [TRIGGER, note], SOURCE_NODE);
  }

  lemma {:induction false} TemplateCalls(t: Template, env: Env)
    ensures var r := RunNodes(env, UpToGate(TemplateNodes(t)));
      && (r.Finished? <==> Answered(env, [], VisitAll(env, OpenPart(t)).calls))
      && CallsMade(r) == CallsMade(RunNodes(env, OpenPart(t)))
      && AreNotes(env, CallsMade(r))
  {
    TemplateStops(t);
    CallsStopBeforeGate(env, TemplateNodes(t));
    OpenPartNotes(t, env);
    FinishesIffAnswered(env, OpenPart(t));
    NotesOnly(env, OpenPart(t));
  }

  lemma {:induction false} OpenPartNotes(t: Template, env: Env)
    ensures AllKnown(env, OpenPart(t)) && forall i :: 0 <= i < |OpenPart(t)| ==> OnlyNotes(env, OpenPart(t)[i])
  {
    TemplateHasOnlyNotes(t, env);
    assert forall i :: 0 <= i < |HeadPart(t)| ==> HeadPart(t)[i] == TemplateNodes(t)[i];
  }

  lemma {:induction false} TemplateWaits(t: Template, env: Env)
    ensures var r := RunNodes(env, UpToGate(TemplateNodes(t)));
      && (Waits(r) <==> r.Finished? && t.block)
      && (r.Finished? ==> forall i :: 0 <= i < |r.trace.effects| ==> !IsSensitive(r.trace.effects[i].kind))
  {
    TemplateStops(t);
    WaitsAtMostOnceAndLast(env, TemplateNodes(t));
    TemplateGates(t);
    SensitiveNotReached(env, TemplateNodes(t));
  }

  /**
    A run of the template waits exactly if it blocks and the triage note got
    through; it reaches no sensitive node and only puts notes on its ticket.
   */
  ghost predicate TemplateOutcome(t: Template, env: Env, outcome: Outcome) {
    && (outcome.Finished? <==> Answered(env, [], VisitAll(env, OpenPart(t)).calls))
    && (Waits(outcome) <==> outcome.Finished? && t.block)
    && AreNotes(env, CallsMade(outcome))
    && (t.block ==> CallsMade(outcome) == [PatchTriage(env.runIncidentId, env.render(t.triageText, map[]))])
    && (outcome.Finished? ==>
          forall i :: 0 <= i < |outcome.trace.effects| ==> !IsSensitive(outcome.trace.effects[i].kind))
  }

  lemma {:induction false} TemplateRun(t: Template, pb: Playbook, env: Env, outcome: Outcome)
    requires IsChain(pb) && pb.nodes == TemplateNodes(t) && IsRun(pb, env, outcome)
    ensures TemplateOutcome(t, env, outcome)
  {
    ChainRun(pb, env, outcome);
    TemplateCalls(t, env);
    TemplateWaits(t, env);
    HeadRun(t, env);
  }

  lemma {:induction false} TemplateGated(t: Template)
    ensures (exists n :: n in TemplateNodes(t) && IsGate(n.kind)) <==> t.block
  {
    var nodes := TemplateNodes(t);
    TemplateStops(t);
    if t.block {
      assert nodes[FirstGate(nodes)] in nodes;
    }
  }

  /** Instantiate, save, preview and run a template: as for a draft, except that nothing in it can lack a destination. */
  method TemplatePreviewAndRun(eligible: set<string>, templateId: string, triageText: string, sourceIp: string,
                               integrationId: string, username: string, env: Env)
      returns (r: Option<Playbook>, preview: seq<Node>, waiting: bool, outcome: Outcome)
    ensures r.None? <==> templateId !in eligible
    ensures r.Some? ==>
      var t := TemplateOf(templateId, triageText, sourceIp, integrationId, username);
      && Savable(r.value) && preview == r.value.nodes == TemplateNodes(t)
      && (waiting <==> t.block) && TemplateOutcome(t, env, outcome)
  {
    preview, waiting, outcome := [], false, Finished(NO_TRACE);
    r := RecommendedTemplate(eligible, templateId, triageText, sourceIp, integrationId, username);
    if r.None? {
      return;
    }
    ghost var t := TemplateOf(templateId, triageText, sourceIp, integrationId, username);
    var pb;
    pb, preview, waiting, outcome := SavePreviewAndRun(r.value, env);
    TemplateGated(t);
    TemplateRun(t, pb, env, outcome);
    r := Some(pb);
  }

  // ---------- The template, node by node ----------

  /** The ids of a template's nodes in order. */
  ghost function TemplateIds(source: bool, block: bool, identity: bool): seq<string> {
    ["trigger", "triage_note"] + (if source then ["enrich_source_ip"] else [])
    + (if block then ["approval", "temporary_block"] else [])
    + (if identity then ["identity_review_note"] else []) + ["final_note"]
  }

  /** What a node with one of these ids does. */
  ghost predicate IsTemplateNode(node: Node, triageText: string, username: string) {
    && (node.id.text == "trigger" ==> node.kind == TriggerIncidentCreated)
    && (node.id.text == "triage_note" ==> node.kind == CaseNote && node.config.text == triageText)
    && (node.id.text == "enrich_source_ip" ==> node.kind == EnrichIp && node.config.field == "entities.sourceIp")
    && (node.id.text == "approval" ==> node.kind == ApprovalRequired && node.config.role == "admin")
    && (node.id.text == "temporary_block" ==> node.kind == FortigateTemporaryBlock)
    && (node.id.text == "identity_review_note" ==>
          && node.kind == CaseNote
          && node.config.text
             == "Review account activity for " + (if username == "" then "the user" else username) + ".")
    && (node.id.text == "final_note" ==>
          node.kind == CaseNote && node.config.text == "Append outcome and approval status to the ticket timeline.")
  }

  /** The nodes have these ids in order, and do what the ids say. */
  ghost predicate AreTemplateNodes(nodes: seq<Node>, ids: seq<string>, triageText: string, username: string) {
    |nodes| == |ids|
    && forall i :: 0 <= i < |nodes| ==> nodes[i].id.text == ids[i] && IsTemplateNode(nodes[i], triageText, username)
  }

  lemma {:induction false} JoinNodes(a: seq<Node>, b: seq<Node>, x: seq<string>, y: seq<string>, triageText: string,
                                     username: string)
    requires AreTemplateNodes(a, x, triageText, username) && AreTemplateNodes(b, y, triageText, username)
    ensures AreTemplateNodes(a + b, x + y, triageText, username)
  {
  }

  lemma {:induction false} HeadNodes(t: Template, username: string)
    ensures AreTemplateNodes(HeadPart(t), ["trigger", "triage_note"] + (if t.source then ["enrich_source_ip"] else []),
                             t.triageText, username)
  {
    var first := [TRIGGER, NoteNode("triage_note", t.triageText)];
    assert AreTemplateNodes(first, ["trigger", "triage_note"], t.triageText, username);
    assert AreTemplateNodes(SourcePart(t), if t.source then ["enrich_source_ip"] else [], t.triageText, username);
    JoinNodes(first, SourcePart(t), ["trigger", "triage_note"], if t.source then ["enrich_source_ip"] else [],
              t.triageText, username);
  }

  lemma {:induction false} BlockNodes(t: Template, username: string)
    ensures AreTemplateNodes(BlockPart(t), if t.block then ["approval", "temporary_block"] else [], t.triageText, username)
  {
  }

  lemma {:induction false} ReviewNodes(t: Template, templateId: string, username: string)
    requires t.identity == ReviewOf(templateId, username)
    ensures AreTemplateNodes(IdentityPart(t),
                             if templateId == "pb_auth_bruteforce_triage" then ["identity_review_note"] else [],
                             t.triageText, username)
  {
  }

  lemma {:induction false} FinalNodes(triageText: string, username: string)
    ensures AreTemplateNodes([FINAL_NOTE], ["final_note"], triageText, username)
  {
  }

  ghost predicate BlockingTemplate(templateId: string) {
    || templateId == "pb_network_scan_triage" || templateId == "pb_fortigate_temp_block"
    || templateId == "pb_auth_bruteforce_triage"
  }

  /** The source is looked up if it is known; three templates block, if an integration is known too; one reviews the account. */
  lemma {:induction false} TemplateNodeByNode(templateId: string, triageText: string, sourceIp: string,
                                              integrationId: string, username: string)
    ensures AreTemplateNodes(
              TemplateNodes(TemplateOf(templateId, triageText, sourceIp, integrationId, username)),
              TemplateIds(sourceIp != "", BlockingTemplate(templateId) && sourceIp != "" && integrationId != "",
                          templateId == "pb_auth_bruteforce_triage"),
              triageText, username)
  {
    var t := TemplateOf(templateId, triageText, sourceIp, integrationId, username);
    var head := ["trigger", "triage_note"] + (if t.source then ["enrich_source_ip"] else []);
    var block := if t.block then ["approval", "temporary_block"] else [];
    var review := if templateId == "pb_auth_bruteforce_triage" then ["identity_review_note"] else [];
    HeadNodes(t, username);
    BlockNodes(t, username);
    ReviewNodes(t, templateId, username);
    FinalNodes(triageText, username);
    JoinNodes(HeadPart(t), BlockPart(t), head, block, triageText, username);
    JoinNodes(HeadPart(t) + BlockPart(t), IdentityPart(t), head + block, review, triageText, username);
    JoinNodes(HeadPart(t) + BlockPart(t) + IdentityPart(t), [FINAL_NOTE], head + block + review, ["final_note"], triageText,
              username);
  }
}
