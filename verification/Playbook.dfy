/**
  The playbook graph shared by the SOAR service (which orders its nodes) and by
  the API (which walks it and produces effects).
  Node ids and edge ends are wrapped strings.  The SOAR service checks a playbook
  when it is saved (`Savable`); its sort relies on unique ids and existing edge
  ends (`WellFormed`), the walk on neither.
 */
module Playbooks {
  import opened Wrappers

  datatype NodeKind =
    | TriggerIncidentCreated
    | ConditionSeverity
    | EnrichIp
    | CaseNote
    | AuditNote
    | ApprovalRequired
    | NotifyWebhook
    | FortigateRecommendBlock
    | FortiwebRecommendBlock
    | FortigateTemporaryBlock
    | WebhookDryRun
    | OtherKind(name: string)

  /**
    The configuration that the interpreters read; a missing text is "".  `text` is
    the template, message, content or method that the kind of the node uses.
   */
  datatype Config = Config(
    severity: Option<seq<string>>,
    field: string,
    text: string,
    destinationId: string,
    username: string,
    role: string)

  const NO_CONFIG := Config(None, "", "", "", "", "")

  datatype NodeId = NodeId(text: string)

  datatype Node = Node(id: NodeId, kind: NodeKind, config: Config)

  datatype Edge = Edge(source: NodeId, target: NodeId, condition: Option<string>)

  datatype Playbook = Playbook(nodes: seq<Node>, edges: seq<Edge>)

  function Ids(nodes: seq<Node>): (r: seq<NodeId>)
    ensures |r| == |nodes|
    ensures forall i :: 0 <= i < |nodes| ==> r[i] == nodes[i].id
  {
    seq(|nodes|, i requires 0 <= i < |nodes| => nodes[i].id)
  }

  ghost predicate Distinct<T(!new)>(s: seq<T>) {
    forall i, j :: 0 <= i < j < |s| ==> s[i] != s[j]
  }

  lemma {:induction false} DistinctSetSize<T(!new)>(s: seq<T>)
    requires Distinct(s)
    ensures |set x | x in s| == |s|
  {
    if s != [] {
      var n := |s| - 1;
      DistinctSetSize(s[..n]);
      assert s == s[..n] + [s[n]];
      assert (set x | x in s) == (set x | x in s[..n]) + {s[n]};
    }
  }

  /** Unique ids, and edges between existing nodes. */
  ghost predicate WellFormed(pb: Playbook) {
    && Distinct(Ids(pb.nodes))
    && forall k :: 0 <= k < |pb.edges| ==>
      pb.edges[k].source in Ids(pb.nodes) && pb.edges[k].target in Ids(pb.nodes)
  }

  const EDGE_CONDITIONS := {"success", "failure", "true", "false", "approved", "rejected", "loop_next", "loop_done"}

  /** What the SOAR service checks before it stores a playbook: a known shape, a trigger, and a well-formed graph. */
  ghost predicate Savable(pb: Playbook) {
    && WellFormed(pb)
    && (exists n :: n in pb.nodes && n.kind.TriggerIncidentCreated?)
    && (forall n :: n in pb.nodes ==> n.id.text != "" && !n.kind.OtherKind?)
    && (forall e :: e in pb.edges ==> e.condition.None? || e.condition.value in EDGE_CONDITIONS)
  }

  ghost predicate HasEdge(edges: seq<Edge>, u: NodeId, v: NodeId) {
    exists k :: 0 <= k < |edges| && edges[k].source == u && edges[k].target == v
  }

  ghost predicate PathStep(edges: seq<Edge>, p: seq<NodeId>, i: int)
    requires 0 <= i < |p| - 1
  {
    HasEdge(edges, p[i], p[i + 1])
  }

  ghost predicate IsPath(edges: seq<Edge>, p: seq<NodeId>) {
    && |p| >= 2
    && forall i :: 0 <= i < |p| - 1 ==> PathStep(edges, p, i)
  }

  /** Some non-empty path leads from a node back to itself; a self-loop is one. */
  ghost predicate Cyclic(edges: seq<Edge>) {
    exists p :: IsPath(edges, p) && p[0] == p[|p| - 1]
  }

  /** Node kinds on which both interpreters wait for a human decision. */
  predicate IsGate(kind: NodeKind) {
    kind.ApprovalRequired? || IsSensitive(kind)
  }

  predicate IsSensitive(kind: NodeKind) {
    kind.FortigateRecommendBlock? || kind.FortigateTemporaryBlock? || kind.FortiwebRecommendBlock?
  }
}
