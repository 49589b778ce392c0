/**
  The API's interpreter of a playbook: it walks one path through the graph,
  branching on the incident severity, and performs the effects of the nodes on
  the path until a node waits for a human decision.

  The walk is specified without an algorithm by `IsWalk`, which `WalkUnique`
  shows to be exact.  External calls are a recorded trace; a call may raise, which
  aborts the run.  Template rendering, payload lookup, webhook replies and what
  raises are parameters (`Env`).
 */
module Effects {
  import opened Wrappers
  import opened Playbooks

  datatype Incident = Incident(id: string, severity: string)

  // ---------- Choosing the next node ----------

  predicate SeverityMatches(config: Config, incident: Incident) {
    config.severity.None?
    || exists k :: 0 <= k < |config.severity.value| && Lower(config.severity.value[k]) == Lower(incident.severity)
  }

  /** Conditions under which an edge is followed by default. */
  predicate Plain(condition: Option<string>) {
    condition.None? || condition.value == "" || condition.value == "success"
  }

  predicate Usable(e: Edge) {
    e.source.text != "" && e.target.text != ""
  }

  function EdgesFrom(edges: seq<Edge>, u: NodeId): (r: seq<Edge>)
    ensures forall e :: e in r <==> e in edges && Usable(e) && e.source == u
  {
    if edges == [] then []
    else (if Usable(edges[0]) && edges[0].source == u then [edges[0]] else []) + EdgesFrom(edges[1..], u)
  }

  function FirstWith(edges: seq<Edge>, pred: Edge -> bool): (r: Option<Edge>)
    ensures r.Some? ==> r.value in edges && pred(r.value)
    ensures r.None? ==> forall e :: e in edges ==> !pred(e)
  {
    if edges == [] then None
    else if pred(edges[0]) then Some(edges[0])
    else FirstWith(edges[1..], pred)
  }

  /** Dictionary lookup by id: with repeated ids the last node wins. */
  function NodeById(nodes: seq<Node>, id: NodeId): (r: Option<Node>)
    ensures r.Some? ==> r.value in nodes && r.value.id == id
    ensures r.None? ==> forall n :: n in nodes ==> n.id != id
  {
    if nodes == [] then None
    else if nodes[|nodes| - 1].id == id then Some(nodes[|nodes| - 1])
    else NodeById(nodes[..|nodes| - 1], id)
  }

  function FirstNode(nodes: seq<Node>, pred: Node -> bool): (r: Option<Node>)
    ensures r.Some? ==> r.value in nodes && pred(r.value)
    ensures r.None? ==> forall n :: n in nodes ==> !pred(n)
  {
    if nodes == [] then None
    else if pred(nodes[0]) then Some(nodes[0])
    else FirstNode(nodes[1..], pred)
  }

  /** The first trigger, else the first node without a usable incoming edge, else the first node. */
  function StartNode(pb: Playbook): (r: Node)
    requires pb.nodes != []
    ensures r in pb.nodes
  {
    var trigger := FirstNode(pb.nodes, (n: Node) => n.kind.TriggerIncidentCreated?);
    if trigger.Some? then trigger.value
    else
      var root := FirstNode(pb.nodes, (n: Node) => forall e :: e in pb.edges && Usable(e) ==> e.target != n.id);
      if root.Some? then root.value else pb.nodes[0]
  }

  function ChosenEdge(pb: Playbook, incident: Incident, node: Node): Option<Edge> {
    var edges := EdgesFrom(pb.edges, node.id);
    if edges == [] then None
    else if node.kind.ConditionSeverity? then
      if SeverityMatches(node.config, incident) then
        var matched := FirstWith(edges, (e: Edge) => e.condition == Some("true"));
        if matched.Some? then matched else FirstWith(edges, (e: Edge) => Plain(e.condition))
      else FirstWith(edges, (e: Edge) => e.condition == Some("false"))
    else
      var plain := FirstWith(edges, (e: Edge) => Plain(e.condition));
      if plain.Some? then plain else Some(edges[0])
  }

  function NextNode(pb: Playbook, incident: Incident, node: Node): Option<Node> {
    var edge := ChosenEdge(pb, incident, node);
    if edge.None? then None else NodeById(pb.nodes, edge.value.target)
  }

  predicate HasFalseEdge(pb: Playbook, id: NodeId) {
    exists k :: 0 <= k < |pb.edges| && pb.edges[k].source == id && pb.edges[k].condition == Some("false")
  }

  // ---------- The walk ----------

  ghost predicate Follows(pb: Playbook, incident: Incident, w: seq<Node>, i: int)
    requires 0 <= i < |w| - 1
  {
    NextNode(pb, incident, w[i]) == Some(w[i + 1])
  }

  ghost predicate Chained(pb: Playbook, incident: Incident, w: seq<Node>) {
    && pb.nodes != [] && w != [] && w[0] == StartNode(pb)
    && forall i :: 0 <= i < |w| - 1 ==> Follows(pb, incident, w, i)
  }

  ghost predicate WalkPrefix(pb: Playbook, incident: Incident, w: seq<Node>) {
    Chained(pb, incident, w) && Distinct(Ids(w))
  }

  /** The walk goes on until there is no next node or the next node was visited. */
  ghost predicate IsWalk(pb: Playbook, incident: Incident, w: seq<Node>) {
    if pb.nodes == [] then w == []
    else
      && WalkPrefix(pb, incident, w)
      && var next := NextNode(pb, incident, w[|w| - 1]); next.None? || next.value.id in Ids(w)
  }

  lemma {:induction false} PrefixAgrees(pb: Playbook, incident: Incident, a: seq<Node>, b: seq<Node>, k: nat)
    requires Chained(pb, incident, a) && Chained(pb, incident, b) && k < |a| && k < |b|
    ensures a[k] == b[k]
  {
    if k > 0 {
      PrefixAgrees(pb, incident, a, b, k - 1);
      assert Follows(pb, incident, a, k - 1) && Follows(pb, incident, b, k - 1);
    }
  }

  /** A walk that goes on past k goes on to an unvisited node. */
  lemma {:induction false} GoesOnUnvisited(pb: Playbook, incident: Incident, w: seq<Node>, k: nat)
    requires WalkPrefix(pb, incident, w) && k + 1 < |w|
    ensures NextNode(pb, incident, w[k]) == Some(w[k + 1])
    ensures w[k + 1].id !in Ids(w[..k + 1])
  {
    assert Follows(pb, incident, w, k);
    assert Ids(w)[k + 1] == w[k + 1].id;
    forall i | 0 <= i <= k
      ensures w[i].id != w[k + 1].id
    {
      assert Ids(w)[i] == w[i].id;
    }
  }

  lemma {:induction false} NotShorter(pb: Playbook, incident: Incident, a: seq<Node>, b: seq<Node>)
    requires pb.nodes != [] && IsWalk(pb, incident, a) && WalkPrefix(pb, incident, b)
    ensures |b| <= |a|
  {
    if |a| < |b| {
      forall k | 0 <= k < |a|
        ensures a[k] == b[k]
      {
        PrefixAgrees(pb, incident, a, b, k);
      }
      assert a == b[..|a|];
      GoesOnUnvisited(pb, incident, b, |a| - 1);
    }
  }

  /** A playbook and an incident have one walk. */
  lemma {:induction false} WalkUnique(pb: Playbook, incident: Incident, a: seq<Node>, b: seq<Node>)
    requires IsWalk(pb, incident, a) && IsWalk(pb, incident, b)
    ensures a == b
  {
    if pb.nodes != [] {
      NotShorter(pb, incident, a, b);
      NotShorter(pb, incident, b, a);
      forall k | 0 <= k < |a|
        ensures a[k] == b[k]
      {
        PrefixAgrees(pb, incident, a, b, k);
      }
    }
  }

  lemma {:induction false} ChoiceLeaves(pb: Playbook, incident: Incident, node: Node)
    requires ChosenEdge(pb, incident, node).Some?
    ensures ChosenEdge(pb, incident, node).value in EdgesFrom(pb.edges, node.id)
  {
  }

  lemma {:induction false} EdgeListed(edges: seq<Edge>, e: Edge)
    requires e in edges
    ensures HasEdge(edges, e.source, e.target)
  {
    var k :| 0 <= k < |edges| && edges[k] == e;
  }

  /** A walk moves along edges of the playbook between nodes of the playbook. */
  lemma {:induction false} WalkUsesEdges(pb: Playbook, incident: Incident, w: seq<Node>, i: nat)
    requires IsWalk(pb, incident, w) && i < |w|
    ensures w[i] in pb.nodes
    ensures i > 0 ==> HasEdge(pb.edges, w[i - 1].id, w[i].id)
  {
    if i > 0 {
      assert Follows(pb, incident, w, i - 1);
      ChoiceLeaves(pb, incident, w[i - 1]);
      EdgeListed(pb.edges, ChosenEdge(pb, incident, w[i - 1]).value);
    }
  }

  /** The name that effects use for a node. */
  function NodeRef(node: Node): NodeId {
    if node.id.text != "" then node.id else NodeId(KindName(node.kind))
  }

  function KindName(kind: NodeKind): string {
    match kind
    case TriggerIncidentCreated => "trigger.incident_created"
    case ConditionSeverity => "condition.severity"
    case EnrichIp => "enrich.ip"
    case CaseNote => "case.note"
    case AuditNote => "audit.note"
    case ApprovalRequired => "approval.required"
    case NotifyWebhook => "notify.webhook"
    case FortigateRecommendBlock => "fortigate.recommend_block"
    case FortiwebRecommendBlock => "fortiweb.recommend_block"
    case FortigateTemporaryBlock => "fortigate.temporary_block"
    case WebhookDryRun => "webhook.dry_run"
    case OtherKind(name) => name
  }

  /** After a severity mismatch only an edge marked "false" is followed. */
  lemma {:induction false} MismatchFollowsFalse(pb: Playbook, incident: Incident, w: seq<Node>, i: nat)
    requires IsWalk(pb, incident, w) && i + 1 < |w|
    requires w[i].kind.ConditionSeverity? && !SeverityMatches(w[i].config, incident)
    ensures exists e :: e in pb.edges && e.source == w[i].id && e.target == w[i + 1].id && e.condition == Some("false")
    ensures HasFalseEdge(pb, NodeRef(w[i]))
  {
    assert Follows(pb, incident, w, i);
    var edge := ChosenEdge(pb, incident, w[i]).value;
    assert edge in EdgesFrom(pb.edges, w[i].id);
    var k :| 0 <= k < |pb.edges| && pb.edges[k] == edge;
  }

  /** Where the executor stops on a mismatch, the walk has already ended. */
  lemma {:induction false} MismatchBreakIsLast(pb: Playbook, incident: Incident, w: seq<Node>, i: nat)
    requires IsWalk(pb, incident, w) && i < |w|
    requires w[i].kind.ConditionSeverity? && !SeverityMatches(w[i].config, incident)
    requires !HasFalseEdge(pb, NodeRef(w[i]))
    ensures i == |w| - 1
  {
    if i + 1 < |w| {
      MismatchFollowsFalse(pb, incident, w, i);
    }
  }

  lemma {:induction false} ExtendWalk(pb: Playbook, incident: Incident, w: seq<Node>, next: Node)
    requires WalkPrefix(pb, incident, w)
    requires NextNode(pb, incident, w[|w| - 1]) == Some(next) && next.id !in Ids(w)
    ensures WalkPrefix(pb, incident, w + [next])
  {
    var w' := w + [next];
    assert Ids(w') == Ids(w) + [next.id];
    forall i | 0 <= i < |w'| - 1
      ensures Follows(pb, incident, w', i)
    {
      assert i < |w| - 1 ==> Follows(pb, incident, w, i);
    }
  }

  lemma {:induction false} VisitedFits(pb: Playbook, ids: seq<NodeId>)
    requires Distinct(ids) && forall i :: 0 <= i < |ids| ==> ids[i] in Ids(pb.nodes)
    ensures |ids| <= |pb.nodes|
  {
    var all := set v | v in Ids(pb.nodes);
    ElementCount(Ids(pb.nodes));
    DistinctSetSize(ids);
    var some := set v | v in ids;
    assert some <= all;
    assert all == some + (all - some);
  }

  lemma {:induction false} ElementCount<T>(s: seq<T>)
    ensures |set x | x in s| <= |s|
  {
    if s != [] {
      var n := |s| - 1;
      ElementCount(s[..n]);
      assert s == s[..n] + [s[n]];
      assert (set x | x in s) == (set x | x in s[..n]) + {s[n]};
    }
  }

  method WalkNodes(pb: Playbook, incident: Incident) returns (ordered: seq<Node>)
    ensures IsWalk(pb, incident, ordered)
  {
    if pb.nodes == [] {
      return [];
    }
    var current := Some(StartNode(pb));
    var visited: set<NodeId> := {};
    ordered := [];
    while current.Some?
      invariant ordered == [] ==> current == Some(StartNode(pb))
      invariant ordered != [] ==>
        WalkPrefix(pb, incident, ordered) && current == NextNode(pb, incident, ordered[|ordered| - 1])
      invariant forall v :: v in visited <==> v in Ids(ordered)
      invariant forall i :: 0 <= i < |ordered| ==> ordered[i] in pb.nodes
      invariant |ordered| <= |pb.nodes|
      decreases |pb.nodes| - |ordered|, current.Some?
    {
      var node := current.value;
      if node.id in visited {
        break;
      }
      if ordered == [] {
        assert Ids([node]) == [node.id];
      } else {
        ExtendWalk(pb, incident, ordered, node);
      }
      visited := visited + {node.id};
      assert Ids(ordered + [node]) == Ids(ordered) + [node.id];
      ordered := ordered + [node];
      forall i | 0 <= i < |ordered|
        ensures Ids(ordered)[i] in Ids(pb.nodes)
      {
        NodeIdListed(pb.nodes, ordered[i]);
      }
      VisitedFits(pb, Ids(ordered));
      current := NextNode(pb, incident, node);
    }
  }

  lemma {:induction false} NodeIdListed(nodes: seq<Node>, n: Node)
    requires n in nodes
    ensures n.id in Ids(nodes)
  {
    var i :| 0 <= i < |nodes| && nodes[i] == n;
    assert Ids(nodes)[i] == n.id;
  }

  /** Every start of a walk can be completed. */
  lemma {:induction false} CompleteWalk(pb: Playbook, incident: Incident, start: seq<Node>) returns (w: seq<Node>)
    requires WalkPrefix(pb, incident, start) && forall i :: 0 <= i < |start| ==> start[i] in pb.nodes
    requires |start| <= |pb.nodes|
    ensures IsWalk(pb, incident, w)
    decreases |pb.nodes| - |start|
  {
    var next := NextNode(pb, incident, start[|start| - 1]);
    if next.None? || next.value.id in Ids(start) {
      w := start;
    } else {
      ExtendWalk(pb, incident, start, next.value);
      var longer := start + [next.value];
      forall i | 0 <= i < |longer|
        ensures Ids(longer)[i] in Ids(pb.nodes)
      {
        NodeIdListed(pb.nodes, longer[i]);
      }
      VisitedFits(pb, Ids(longer));
      w := CompleteWalk(pb, incident, longer);
    }
  }

  lemma {:induction false} WalkExists(pb: Playbook, incident: Incident) returns (w: seq<Node>)
    ensures IsWalk(pb, incident, w)
  {
    if pb.nodes == [] {
      w := [];
    } else {
      assert Ids([StartNode(pb)]) == [StartNode(pb).id];
      w := CompleteWalk(pb, incident, [StartNode(pb)]);
    }
  }

  // ---------- The walk, edge by edge ----------

  /** The edges that a node looks for: those with a mark, those without a special one, or any. */
  datatype Want = Marked(mark: string) | Unmarked | AnyEdge

  /** Edge k leaves u, has both ends, and is wanted. */
  ghost predicate Wanted(pb: Playbook, u: NodeId, want: Want, k: int) {
    && 0 <= k < |pb.edges| && pb.edges[k].source == u
    && pb.edges[k].source.text != "" && pb.edges[k].target.text != ""
    && match want
       case Marked(mark) => pb.edges[k].condition == Some(mark)
       case Unmarked =>
         pb.edges[k].condition.None? || pb.edges[k].condition.value == "" || pb.edges[k].condition.value == "success"
       case AnyEdge => true
  }

  ghost predicate FirstWanted(pb: Playbook, u: NodeId, want: Want, k: int) {
    Wanted(pb, u, want, k) && forall j :: 0 <= j < k ==> !Wanted(pb, u, want, j)
  }

  ghost predicate SomeWanted(pb: Playbook, u: NodeId, want: Want) {
    exists k :: Wanted(pb, u, want, k)
  }

  /** The condition names no severities, or that of the incident in any case. */
  ghost predicate ConditionHolds(config: Config, incident: Incident) {
    config.severity.None?
    || exists k :: 0 <= k < |config.severity.value| && SameIgnoringCase(config.severity.value[k], incident.severity)
  }

  /** Node b is the last with the id. */
  ghost predicate LastNamed(nodes: seq<Node>, id: NodeId, b: int) {
    0 <= b < |nodes| && nodes[b].id == id && forall c :: b < c < |nodes| ==> nodes[c].id != id
  }

  /** From position i the walk goes on to the target of edge k, unless that does not exist or was visited; then it ends. */
  ghost predicate GoesAlong(pb: Playbook, w: seq<Node>, i: nat, k: int)
    requires i < |w| && 0 <= k < |pb.edges|
  {
    var target := pb.edges[k].target;
    if i + 1 == |w| then
      (forall b :: 0 <= b < |pb.nodes| ==> pb.nodes[b].id != target) || exists j :: 0 <= j <= i && w[j].id == target
    else
      && (forall j :: 0 <= j <= i ==> w[j].id != target)
      && exists b :: LastNamed(pb.nodes, target, b) && w[i + 1] == pb.nodes[b]
  }

  ghost predicate AlongFirst(pb: Playbook, w: seq<Node>, i: nat, want: Want)
    requires i < |w|
  {
    exists k :: FirstWanted(pb, w[i].id, want, k) && GoesAlong(pb, w, i, k)
  }

  /** What a node looks for first, and what instead if there is no such edge. */
  ghost function Wishes(node: Node, incident: Incident): seq<Want> {
    if !node.kind.ConditionSeverity? then [Unmarked, AnyEdge]
    else if ConditionHolds(node.config, incident) then [Marked("true"), Unmarked]
    else [Marked("false")]
  }

  /** From position i the walk goes along the first edge of the first wish that some edge meets; it ends if none does. */
  ghost predicate FollowsWishes(pb: Playbook, w: seq<Node>, i: nat, wishes: seq<Want>)
    requires i < |w|
  {
    if wishes == [] then i + 1 == |w|
    else if SomeWanted(pb, w[i].id, wishes[0]) then AlongFirst(pb, w, i, wishes[0])
    else FollowsWishes(pb, w, i, wishes[1..])
  }

  lemma {:induction false} SeverityMeaning(config: Config, incident: Incident)
    ensures SeverityMatches(config, incident) <==> ConditionHolds(config, incident)
  {
    if config.severity.Some? {
      forall k | 0 <= k < |config.severity.value|
        ensures Lower(config.severity.value[k]) == Lower(incident.severity)
          <==> SameIgnoringCase(config.severity.value[k], incident.severity)
      {
        LowerIgnoresCase(config.severity.value[k], incident.severity);
      }
    }
  }

  lemma {:induction false} FirstWithCons(e: Edge, s: seq<Edge>, pred: Edge -> bool)
    ensures FirstWith([e] + s, pred) == if pred(e) then Some(e) else FirstWith(s, pred)
  {
    assert ([e] + s)[1..] == s;
  }

  lemma {:induction false} SearchStep(edges: seq<Edge>, u: NodeId, pred: Edge -> bool)
    requires edges != []
    ensures FirstWith(EdgesFrom(edges, u), pred)
      == if Usable(edges[0]) && edges[0].source == u && pred(edges[0]) then Some(edges[0])
         else FirstWith(EdgesFrom(edges[1..], u), pred)
  {
    if Usable(edges[0]) && edges[0].source == u {
      FirstWithCons(edges[0], EdgesFrom(edges[1..], u), pred);
    } else {
      assert [] + EdgesFrom(edges[1..], u) == EdgesFrom(edges[1..], u);
    }
  }

  ghost predicate Hit(u: NodeId, pred: Edge -> bool, e: Edge) {
    Usable(e) && e.source == u && pred(e)
  }

  /** Searching the edges that leave u is searching all edges. */
  lemma {:induction false} SearchLeaving(edges: seq<Edge>, u: NodeId, pred: Edge -> bool) returns (k: nat)
    ensures k <= |edges|
    ensures forall j :: 0 <= j < k ==> !Hit(u, pred, edges[j])
    ensures k < |edges| ==> Hit(u, pred, edges[k])
    ensures FirstWith(EdgesFrom(edges, u), pred) == if k < |edges| then Some(edges[k]) else None
  {
    k := 0;
    if edges != [] {
      SearchStep(edges, u, pred);
      if !Hit(u, pred, edges[0]) {
        var m := SearchLeaving(edges[1..], u, pred);
        k := m + 1;
        assert forall j :: 0 < j < k ==> edges[j] == edges[1..][j - 1];
      }
    }
  }

  /** Node lookup returns the last node of the name. */
  lemma {:induction false} LookupIsLast(nodes: seq<Node>, id: NodeId)
    ensures NodeById(nodes, id).None? <==> forall b :: 0 <= b < |nodes| ==> nodes[b].id != id
    ensures NodeById(nodes, id).Some? ==> exists b :: LastNamed(nodes, id, b) && nodes[b] == NodeById(nodes, id).value
  {
    if nodes != [] {
      var n := |nodes| - 1;
      if nodes[n].id == id {
        assert LastNamed(nodes, id, n);
      } else {
        LookupIsLast(nodes[..n], id);
        if NodeById(nodes, id).Some? {
          var b :| LastNamed(nodes[..n], id, b) && nodes[..n][b] == NodeById(nodes, id).value;
          assert LastNamed(nodes, id, b);
        } else {
          assert forall b :: 0 <= b < n ==> nodes[b] == nodes[..n][b];
        }
      }
    }
  }

  /** If the chosen edge is edge k, the walk goes along it. */
  lemma {:induction false} ChoiceIsFollowed(pb: Playbook, incident: Incident, w: seq<Node>, i: nat, k: nat)
    requires IsWalk(pb, incident, w) && i < |w| && k < |pb.edges|
    requires ChosenEdge(pb, incident, w[i]) == Some(pb.edges[k])
    ensures GoesAlong(pb, w, i, k)
  {
    var target := pb.edges[k].target;
    LookupIsLast(pb.nodes, target);
    if i + 1 < |w| {
      assert Follows(pb, incident, w, i);
      GoesOnUnvisited(pb, incident, w, i);
      assert forall j :: 0 <= j <= i ==> Ids(w[..i + 1])[j] == w[j].id;
    } else if NodeById(pb.nodes, target).Some? {
      var j :| 0 <= j < |w| && Ids(w)[j] == target;
      assert w[j].id == target;
    }
  }

  lemma {:induction false} NoChoiceEnds(pb: Playbook, incident: Incident, w: seq<Node>, i: nat)
    requires IsWalk(pb, incident, w) && i < |w| && ChosenEdge(pb, incident, w[i]).None?
    ensures i + 1 == |w|
  {
    assert i + 1 < |w| ==> Follows(pb, incident, w, i);
  }

  ghost function Meets(want: Want): Edge -> bool {
    match want
    case Marked(mark) => (e: Edge) => e.condition == Some(mark)
    case Unmarked => (e: Edge) => Plain(e.condition)
    case AnyEdge => (e: Edge) => true
  }

  /** The first wanted edge, if there is one, is what a search among the leaving edges finds. */
  lemma {:induction false} SearchWanted(pb: Playbook, u: NodeId, want: Want) returns (k: nat)
    ensures k < |pb.edges| ==> FirstWanted(pb, u, want, k)
    ensures SomeWanted(pb, u, want) <==> k < |pb.edges|
    ensures FirstWith(EdgesFrom(pb.edges, u), Meets(want)) == if k < |pb.edges| then Some(pb.edges[k]) else None
  {
    k := SearchLeaving(pb.edges, u, Meets(want));
    forall j | 0 <= j < |pb.edges|
      ensures Wanted(pb, u, want, j)
        <==> Hit(u, Meets(want), pb.edges[j])
    {
    }
  }

  /** The choice of the next edge, as a search for the first wish and then the second. */
  lemma {:induction false} ChoiceOfWishes(pb: Playbook, incident: Incident, node: Node)
    ensures var from, wishes := EdgesFrom(pb.edges, node.id), Wishes(node, incident);
      var first := FirstWith(from, Meets(wishes[0]));
      ChosenEdge(pb, incident, node)
      == if first.Some? || |wishes| == 1 then first else FirstWith(from, Meets(wishes[1]))
  {
    SeverityMeaning(node.config, incident);
  }

  /** On every playbook, at every position, the walk follows the wishes of its node. */
  lemma {:induction false} WalkFollowsWishes(pb: Playbook, incident: Incident, w: seq<Node>, i: nat)
    requires IsWalk(pb, incident, w) && i < |w|
    ensures FollowsWishes(pb, w, i, Wishes(w[i], incident))
  {
    var wishes := Wishes(w[i], incident);
    ChoiceOfWishes(pb, incident, w[i]);
    var k := SearchWanted(pb, w[i].id, wishes[0]);
    if k < |pb.edges| {
      ChoiceIsFollowed(pb, incident, w, i, k);
    } else if |wishes| == 2 {
      var m := SearchWanted(pb, w[i].id, wishes[1]);
      if m < |pb.edges| {
        ChoiceIsFollowed(pb, incident, w, i, m);
      } else {
        NoChoiceEnds(pb, incident, w, i);
      }
      assert wishes[1..][0] == wishes[1] && wishes[1..][1..] == [];
    } else {
      NoChoiceEnds(pb, incident, w, i);
      assert wishes[1..] == [];
    }
  }

  /** The walk starts at the first trigger, else at the first node that no usable edge enters, else at the first node. */
  ghost predicate StartsAt(pb: Playbook, a: int) {
    && 0 <= a < |pb.nodes|
    && if exists b :: 0 <= b < |pb.nodes| && pb.nodes[b].kind.TriggerIncidentCreated?
       then pb.nodes[a].kind.TriggerIncidentCreated?
            && forall b :: 0 <= b < a ==> !pb.nodes[b].kind.TriggerIncidentCreated?
       else if exists b :: 0 <= b < |pb.nodes| && !Entered(pb, pb.nodes[b].id)
       then !Entered(pb, pb.nodes[a].id) && forall b :: 0 <= b < a ==> Entered(pb, pb.nodes[b].id)
       else a == 0
  }

  ghost predicate Entered(pb: Playbook, id: NodeId) {
    exists k :: 0 <= k < |pb.edges| && pb.edges[k].source.text != "" && pb.edges[k].target.text != ""
      && pb.edges[k].target == id
  }

  lemma {:induction false} FirstNodeIndex(nodes: seq<Node>, pred: Node -> bool) returns (a: nat)
    ensures a <= |nodes| && forall b :: 0 <= b < a ==> !pred(nodes[b])
    ensures a < |nodes| ==> pred(nodes[a])
    ensures FirstNode(nodes, pred) == if a < |nodes| then Some(nodes[a]) else None
  {
    if nodes == [] || pred(nodes[0]) {
      a := 0;
    } else {
      var b := FirstNodeIndex(nodes[1..], pred);
      a := b + 1;
    }
  }

  lemma {:induction false} EnteredMeaning(pb: Playbook, id: NodeId)
    ensures Entered(pb, id) <==> exists e :: e in pb.edges && Usable(e) && e.target == id
  {
    if Entered(pb, id) {
      var k :| 0 <= k < |pb.edges| && Usable(pb.edges[k]) && pb.edges[k].target == id;
      assert pb.edges[k] in pb.edges;
    }
  }

  lemma {:induction false} StartIndex(pb: Playbook) returns (a: nat)
    requires pb.nodes != []
    ensures StartsAt(pb, a) && StartNode(pb) == pb.nodes[a]
  {
    var t := FirstNodeIndex(pb.nodes, (n: Node) => n.kind.TriggerIncidentCreated?);
    var r := FirstNodeIndex(pb.nodes, (n: Node) => forall e :: e in pb.edges && Usable(e) ==> e.target != n.id);
    forall b | 0 <= b < |pb.nodes|
      ensures Entered(pb, pb.nodes[b].id) <==> exists e :: e in pb.edges && Usable(e) && e.target == pb.nodes[b].id
    {
      EnteredMeaning(pb, pb.nodes[b].id);
    }
    a := if t < |pb.nodes| then t else if r < |pb.nodes| then r else 0;
  }

  lemma {:induction false} WalkStarts(pb: Playbook, incident: Incident, w: seq<Node>) returns (a: nat)
    requires IsWalk(pb, incident, w) && pb.nodes != []
    ensures StartsAt(pb, a) && w != [] && w[0] == pb.nodes[a]
  {
    a := StartIndex(pb);
  }

  // ---------- Effects and external calls ----------

  datatype Status = Completed | Skipped | Failed | WaitingApproval

  datatype Output =
    | SeverityOutput(matched: bool, severity: string)
    | FieldOutput(field: string, value: Option<string>)
    | TextOutput(text: string)
    | WebhookOutput(destinationId: string, reply: Reply)
    | DryRunOutput(httpMethod: string)
    | ApprovalOutput(role: string)
    | ReviewOutput(kind: NodeKind)

  datatype Effect = Effect(node: NodeId, kind: NodeKind, status: Status, output: Output)

  datatype Reply = Reply(ok: bool, statusCode: int)

  /** Requests that leave the interpreter. */
  datatype Call =
    | PatchTriage(incidentId: string, note: string)
    | AuditNoteRecord(node: NodeId, message: string)
    | SendWebhook(destinationId: string, content: string, username: string)
    | WebhookAuditRecord(node: NodeId, destinationId: string, reply: Reply)

  type Outputs = map<NodeId, Output>

  /**
    The surroundings.  `destinations` holds the tokens of the actor's webhook
    destinations.  Whether the last call of a sequence returns or raises, and what
    a webhook replies, may depend on every call made so far.
   */
  datatype Env = Env(
    incident: Incident,
    runIncidentId: string,
    valueAt: string -> Option<string>,
    render: (string, Outputs) -> string,
    destinations: set<string>,
    answers: seq<Call> -> bool,
    reply: seq<Call> -> Reply)

  /** Destination ids are issued as a prefix and a token; looking up any other id raises. */
  predicate Known(env: Env, id: string) {
    |id| >= 4 && id[..4] == "pwd_" && id[4..] in env.destinations
  }

  predicate LacksDestination(env: Env, node: Node) {
    node.kind.NotifyWebhook? && !Known(env, node.config.destinationId)
  }

  datatype Trace = Trace(effects: seq<Effect>, outputs: Outputs, calls: seq<Call>)

  const NO_TRACE := Trace([], map[], [])

  /** An exception ends a run: its effects are lost, the calls made are not. */
  datatype Outcome = Finished(trace: Trace) | Aborted(calls: seq<Call>)

  function CallsMade(o: Outcome): seq<Call> {
    if o.Finished? then o.trace.calls else o.calls
  }

  function OrElse(s: string, default: string): string {
    if s != "" then s else default
  }

  // ---------- What a node adds, aspect by aspect ----------

  predicate IsSilent(kind: NodeKind) {
    kind.TriggerIncidentCreated? || kind.OtherKind?
  }

  ghost function Message(env: Env, t: Trace, node: Node): Call {
    SendWebhook(node.config.destinationId, env.render(node.config.text, t.outputs), node.config.username)
  }

  /** The calls of a node, if none of them raises. */
  ghost function PlannedCalls(env: Env, t: Trace, node: Node): seq<Call> {
    match node.kind
    case CaseNote => [PatchTriage(env.runIncidentId, env.render(node.config.text, t.outputs))]
    case AuditNote => [AuditNoteRecord(NodeRef(node), env.render(node.config.text, t.outputs))]
    case NotifyWebhook =>
      [Message(env, t, node), WebhookAuditRecord(NodeRef(node), node.config.destinationId, ReplyTo(env, t, node))]
    case _ => []
  }

  ghost function ReplyTo(env: Env, t: Trace, node: Node): Reply {
    env.reply(t.calls + [Message(env, t, node)])
  }

  ghost function StatusOf(env: Env, t: Trace, node: Node): Status {
    if IsGate(node.kind) then WaitingApproval
    else if node.kind.ConditionSeverity? && !SeverityMatches(node.config, env.incident) then Skipped
    else if node.kind.NotifyWebhook? && !ReplyTo(env, t, node).ok then Failed
    else Completed
  }

  ghost function OutputOf(env: Env, t: Trace, node: Node): Output {
    match node.kind
    case ConditionSeverity => SeverityOutput(SeverityMatches(node.config, env.incident), env.incident.severity)
    case EnrichIp => FieldOutput(node.config.field, env.valueAt(node.config.field))
    case NotifyWebhook => WebhookOutput(node.config.destinationId, ReplyTo(env, t, node))
    case WebhookDryRun => DryRunOutput(OrElse(node.config.text, "POST"))
    case ApprovalRequired => ApprovalOutput(OrElse(node.config.role, "admin"))
    case CaseNote => TextOutput(env.render(node.config.text, t.outputs))
    case AuditNote => TextOutput(env.render(node.config.text, t.outputs))
    case _ => ReviewOutput(node.kind)
  }

  ghost function EffectsOf(env: Env, t: Trace, node: Node): seq<Effect> {
    if IsSilent(node.kind) then []
    else [Effect(NodeRef(node), node.kind, StatusOf(env, t, node), OutputOf(env, t, node))]
  }

  /** Outputs that later templates can refer to. */
  ghost function OutputsAfter(env: Env, t: Trace, node: Node): Outputs {
    if node.kind.ConditionSeverity? || node.kind.EnrichIp? then t.outputs[NodeRef(node) := OutputOf(env, t, node)]
    else t.outputs
  }

  /** What a node adds, if nothing raises. */
  ghost function Visit(env: Env, t: Trace, node: Node): Trace {
    Trace(t.effects + EffectsOf(env, t, node), OutputsAfter(env, t, node), t.calls + PlannedCalls(env, t, node))
  }

  ghost function VisitAll(env: Env, w: seq<Node>): Trace {
    if w == [] then NO_TRACE else Visit(env, VisitAll(env, w[..|w| - 1]), w[|w| - 1])
  }

  // ---------- Calls that raise ----------

  /** After the calls `before`, every one of `cs` in turn returns. */
  ghost predicate Answered(env: Env, before: seq<Call>, cs: seq<Call>)
    decreases cs
  {
    cs != [] ==> env.answers(before + [cs[0]]) && Answered(env, before + [cs[0]], cs[1..])
  }

  /** All calls made, up to and including the first one that raises. */
  ghost function Made(env: Env, before: seq<Call>, cs: seq<Call>): seq<Call>
    decreases cs
  {
    if cs == [] then before
    else if !env.answers(before + [cs[0]]) then before + [cs[0]]
    else Made(env, before + [cs[0]], cs[1..])
  }

  ghost function Attempt(env: Env, t: Trace, node: Node): Outcome {
    if LacksDestination(env, node) then Aborted(t.calls)
    else if Answered(env, t.calls, PlannedCalls(env, t, node)) then Finished(Visit(env, t, node))
    else Aborted(Made(env, t.calls, PlannedCalls(env, t, node)))
  }

  ghost function RunNodes(env: Env, w: seq<Node>): Outcome {
    if w == [] then Finished(NO_TRACE)
    else
      var before := RunNodes(env, w[..|w| - 1]);
      if before.Aborted? then before else Attempt(env, before.trace, w[|w| - 1])
  }

  lemma {:induction false} MadeFacts(env: Env, before: seq<Call>, cs: seq<Call>)
    ensures Answered(env, before, cs) ==> Made(env, before, cs) == before + cs
    ensures !Answered(env, before, cs) ==> before < Made(env, before, cs) && !env.answers(Made(env, before, cs))
    ensures Made(env, before, cs) <= before + cs
    decreases cs
  {
    if cs != [] {
      MadeFacts(env, before + [cs[0]], cs[1..]);
      assert before + [cs[0]] + cs[1..] == before + cs;
    } else {
      assert before + cs == before;
    }
  }

  lemma {:induction false} AnsweredParts(env: Env, before: seq<Call>, a: seq<Call>, b: seq<Call>)
    ensures Answered(env, before, a + b) <==> Answered(env, before, a) && Answered(env, before + a, b)
    decreases a
  {
    if a == [] {
      assert a + b == b && before + a == before;
    } else {
      assert (a + b)[1..] == a[1..] + b;
      assert before + [a[0]] + a[1..] == before + a;
      AnsweredParts(env, before + [a[0]], a[1..], b);
    }
  }

  ghost predicate AllKnown(env: Env, w: seq<Node>) {
    forall i :: 0 <= i < |w| ==> !LacksDestination(env, w[i])
  }

  /**
    A run finishes exactly if every notified destination is known and every call
    returns; then it did what it would do if nothing ever raised.
   */
  lemma {:induction false} FinishesIffAnswered(env: Env, w: seq<Node>)
    ensures RunNodes(env, w).Finished? <==> AllKnown(env, w) && Answered(env, [], VisitAll(env, w).calls)
    ensures RunNodes(env, w).Finished? ==> RunNodes(env, w).trace == VisitAll(env, w)
  {
    if w != [] {
      var n := |w| - 1;
      var t := VisitAll(env, w[..n]);
      FinishesIffAnswered(env, w[..n]);
      AnsweredParts(env, [], t.calls, PlannedCalls(env, t, w[n]));
      assert [] + t.calls == t.calls;
      KnownParts(env, w);
    }
  }

  lemma {:induction false} KnownParts(env: Env, w: seq<Node>)
    requires w != []
    ensures AllKnown(env, w) <==> AllKnown(env, w[..|w| - 1]) && !LacksDestination(env, w[|w| - 1])
  {
  }

  lemma {:induction false} KnownConcat(env: Env, a: seq<Node>, b: seq<Node>)
    ensures AllKnown(env, a + b) <==> AllKnown(env, a) && AllKnown(env, b)
  {
    if AllKnown(env, a + b) {
      assert forall i :: 0 <= i < |a| ==> (a + b)[i] == a[i];
      assert forall i :: 0 <= i < |b| ==> (a + b)[|a| + i] == b[i];
    }
  }

  lemma {:induction false} AlwaysAnswered(env: Env, before: seq<Call>, cs: seq<Call>)
    requires forall calls :: env.answers(calls)
    ensures Answered(env, before, cs)
    decreases cs
  {
    if cs != [] {
      AlwaysAnswered(env, before + [cs[0]], cs[1..]);
    }
  }

  lemma {:induction false} RunAppended(env: Env, w: seq<Node>, node: Node)
    ensures RunNodes(env, w + [node])
      == if RunNodes(env, w).Aborted? then RunNodes(env, w) else Attempt(env, RunNodes(env, w).trace, node)
  {
    assert (w + [node])[..|w|] == w;
  }

  /** Whatever raises, the calls made are a prefix of those of a run in which nothing does. */
  lemma {:induction false} RunIsPrefix(env: Env, w: seq<Node>)
    ensures CallsMade(RunNodes(env, w)) <= VisitAll(env, w).calls
  {
    if w != [] {
      var n := |w| - 1;
      var t := VisitAll(env, w[..n]);
      RunIsPrefix(env, w[..n]);
      FinishesIffAnswered(env, w[..n]);
      MadeFacts(env, t.calls, PlannedCalls(env, t, w[n]));
    }
  }

  lemma {:induction false} AbortStays(env: Env, w: seq<Node>, k: nat)
    requires k <= |w| && RunNodes(env, w[..k]).Aborted?
    ensures RunNodes(env, w) == RunNodes(env, w[..k])
  {
    if k == |w| {
      assert w[..k] == w;
    } else {
      assert w[..|w| - 1][..k] == w[..k];
      AbortStays(env, w[..|w| - 1], k);
    }
  }

  /**
    Where an aborted run stopped: node k is the first that did not get through.
    It raised before any call of its own, or its last call is the one that raised.
   */
  lemma {:induction false} AbortedAt(env: Env, w: seq<Node>) returns (k: nat)
    requires RunNodes(env, w).Aborted?
    ensures k < |w| && RunNodes(env, w[..k]).Finished?
    ensures var done, made := VisitAll(env, w[..k]).calls, RunNodes(env, w).calls;
      if LacksDestination(env, w[k]) then made == done else done < made && !env.answers(made)
  {
    var n := |w| - 1;
    if RunNodes(env, w[..n]).Aborted? {
      k := AbortedAt(env, w[..n]);
      assert w[..n][..k] == w[..k];
    } else {
      k := n;
      FinishesIffAnswered(env, w[..n]);
      MadeFacts(env, VisitAll(env, w[..n]).calls, PlannedCalls(env, VisitAll(env, w[..n]), w[n]));
    }
  }

  // ---------- Gates ----------

  /** Index of the first node that waits for a decision, or |w|. */
  ghost function FirstGate(w: seq<Node>): (g: nat)
    ensures g <= |w|
    ensures g < |w| ==> IsGate(w[g].kind)
    ensures forall i :: 0 <= i < g ==> !IsGate(w[i].kind)
  {
    FirstWhere(w, (n: Node) => IsGate(n.kind))
  }

  ghost function UpToGate(w: seq<Node>): seq<Node> {
    if FirstGate(w) < |w| then w[..FirstGate(w) + 1] else w
  }

  /** A node waits for a decision exactly if it is gated; a gated node calls nobody, so it cannot raise. */
  lemma {:induction false} GateMeaning(env: Env, t: Trace, node: Node)
    ensures |EffectsOf(env, t, node)| <= 1
    ensures IsGate(node.kind) <==>
      EffectsOf(env, t, node) != [] && EffectsOf(env, t, node)[0].status == WaitingApproval
    ensures IsGate(node.kind) ==>
      Attempt(env, t, node) == Finished(Trace(t.effects + EffectsOf(env, t, node), t.outputs, t.calls))
  {
    assert t.calls + [] == t.calls;
  }

  /**
    What one node can do to a run.  If it gets through it adds one effect of its
    own, which waits exactly if the node is gated, or none if it is silent; a
    gated node calls nobody.  If it aborts, it is a node that calls, and either
    its destination is unknown and nothing was called, or its last call raised.
   */
  ghost predicate Performed(env: Env, t: Trace, node: Node, o: Outcome) {
    && t.calls <= CallsMade(o)
    && (o.Finished? ==>
          && t.effects <= o.trace.effects
          && |o.trace.effects| == |t.effects| + (if IsSilent(node.kind) then 0 else 1)
          && (!IsSilent(node.kind) ==>
                var e := o.trace.effects[|t.effects|];
                e.node == NodeRef(node) && e.kind == node.kind && (e.status == WaitingApproval <==> IsGate(node.kind)))
          && (IsGate(node.kind) ==> o.trace.calls == t.calls && o.trace.outputs == t.outputs))
    && (o.Aborted? ==>
          && (node.kind.CaseNote? || node.kind.AuditNote? || node.kind.NotifyWebhook?)
          && if LacksDestination(env, node) then o.calls == t.calls else t.calls < o.calls && !env.answers(o.calls))
  }

  lemma {:induction false} AttemptPerforms(env: Env, t: Trace, node: Node)
    ensures Performed(env, t, node, Attempt(env, t, node))
  {
    MadeFacts(env, t.calls, PlannedCalls(env, t, node));
    GateMeaning(env, t, node);
  }

  lemma {:induction false} NoGateNoWait(env: Env, w: seq<Node>)
    requires forall i :: 0 <= i < |w| ==> !IsGate(w[i].kind)
    ensures NoneWaits(VisitAll(env, w).effects)
  {
    if w != [] {
      NoGateNoWait(env, w[..|w| - 1]);
    }
  }

  lemma {:induction false} GateWaits(env: Env, w: seq<Node>)
    ensures FirstGate(w) < |w| ==>
      var es := EffectsOf(env, VisitAll(env, w[..FirstGate(w)]), w[FirstGate(w)]);
      |es| == 1 && es[0].status == WaitingApproval
  {
    if FirstGate(w) < |w| {
      GateMeaning(env, VisitAll(env, w[..FirstGate(w)]), w[FirstGate(w)]);
    }
  }

  lemma {:induction false} GateAfterPrefix(w: seq<Node>, before: seq<Node>)
    requires |before| < |w| && w[..|before|] == before && IsGate(w[|before|].kind)
    requires forall i :: 0 <= i < |before| ==> !IsGate(before[i].kind)
    ensures FirstGate(w) == |before|
  {
    assert forall i :: 0 <= i < |before| ==> w[i] == before[i];
  }

  ghost predicate Waits(o: Outcome) {
    && o.Finished? && o.trace.effects != []
    && o.trace.effects[|o.trace.effects| - 1].status == WaitingApproval
  }

  ghost predicate NoneWaits(effects: seq<Effect>) {
    forall i :: 0 <= i < |effects| ==> effects[i].status != WaitingApproval
  }

  /** What a run that is not aborted does: nobody waits before its first gate, and the gate waits. */
  lemma {:induction false} FinishedRun(env: Env, w: seq<Node>)
    requires RunNodes(env, UpToGate(w)).Finished?
    ensures var g, t := FirstGate(w), RunNodes(env, UpToGate(w)).trace;
      var before := VisitAll(env, w[..g]);
      && NoneWaits(before.effects)
      && t.effects == if g < |w| then before.effects + EffectsOf(env, before, w[g]) else before.effects
  {
    var g := FirstGate(w);
    NoGateNoWait(env, w[..g]);
    FinishesIffAnswered(env, UpToGate(w));
    if g < |w| {
      assert UpToGate(w)[..g] == w[..g];
    } else {
      assert w[..g] == w;
    }
  }

  /** A run waits on at most one effect, the last, and does so exactly when it finishes and its walk has a gate. */
  lemma {:induction false} WaitsAtMostOnceAndLast(env: Env, w: seq<Node>)
    ensures var r := RunNodes(env, UpToGate(w));
      && (r.Finished? && r.trace.effects != [] ==> NoneWaits(r.trace.effects[..|r.trace.effects| - 1]))
      && (Waits(r) <==> r.Finished? && FirstGate(w) < |w|)
  {
    if RunNodes(env, UpToGate(w)).Finished? {
      var g := FirstGate(w);
      FinishedRun(env, w);
      if g < |w| {
        GateMeaning(env, VisitAll(env, w[..g]), w[g]);
      }
    }
  }

  /** A run, finished or not, calls exactly what the nodes before the first gate call, and finishes exactly if they do. */
  lemma {:induction false} CallsStopBeforeGate(env: Env, w: seq<Node>)
    ensures var r, before := RunNodes(env, UpToGate(w)), RunNodes(env, w[..FirstGate(w)]);
      CallsMade(r) == CallsMade(before) && (r.Finished? <==> before.Finished?)
  {
    var g := FirstGate(w);
    if g < |w| {
      assert UpToGate(w)[..g] == w[..g];
      if RunNodes(env, w[..g]).Finished? {
        GateMeaning(env, RunNodes(env, w[..g]).trace, w[g]);
      }
    } else {
      assert w[..g] == w;
    }
  }

  // ---------- The executor ----------

  lemma {:induction false} OneCall(env: Env, before: seq<Call>, c: Call)
    ensures Answered(env, before, [c]) <==> env.answers(before + [c])
    ensures Made(env, before, [c]) == before + [c]
  {
    assert [c][1..] == [];
  }

  lemma {:induction false} TwoCalls(env: Env, before: seq<Call>, c: Call, d: Call)
    ensures before + [c, d] == before + [c] + [d]
    ensures Answered(env, before, [c, d]) <==> env.answers(before + [c]) && env.answers(before + [c] + [d])
    ensures Made(env, before, [c, d]) == if env.answers(before + [c]) then before + [c] + [d] else before + [c]
  {
    assert [c, d][1..] == [d];
    OneCall(env, before + [c], d);
  }

  lemma {:induction false} NoCall(env: Env, t: Trace, node: Node)
    requires PlannedCalls(env, t, node) == [] && !LacksDestination(env, node)
    ensures Attempt(env, t, node) == Finished(Trace(t.effects + EffectsOf(env, t, node), OutputsAfter(env, t, node), t.calls))
  {
    assert t.calls + [] == t.calls;
  }

  /** The effect and the calls of one node; `ok` is false if something raised. */
  method PerformNode(env: Env, node: Node, effects0: seq<Effect>, outputs0: Outputs, calls0: seq<Call>)
      returns (ok: bool, effects: seq<Effect>, outputs: Outputs, calls: seq<Call>)
    ensures Attempt(env, Trace(effects0, outputs0, calls0), node)
      == if ok then Finished(Trace(effects, outputs, calls)) else Aborted(calls)
    ensures Performed(env, Trace(effects0, outputs0, calls0), node,
                      if ok then Finished(Trace(effects, outputs, calls)) else Aborted(calls))
  {
    ok, effects, outputs, calls := true, effects0, outputs0, calls0;
    var id, c := NodeRef(node), node.config;
    ghost var t := Trace(effects0, outputs0, calls0);
    AttemptPerforms(env, t, node);
    if !node.kind.CaseNote? && !node.kind.AuditNote? && !node.kind.NotifyWebhook? {
      NoCall(env, t, node);
    }
    match node.kind {
      case TriggerIncidentCreated => assert effects0 + [] == effects0;
      case OtherKind(_) => assert effects0 + [] == effects0;
      case ConditionSeverity =>
        var matched := SeverityMatches(c, env.incident);
        var out := SeverityOutput(matched, env.incident.severity);
        effects := effects + [Effect(id, node.kind, if matched then Completed else Skipped, out)];
        outputs := outputs[id := out];
      case EnrichIp =>
        var out := FieldOutput(c.field, env.valueAt(c.field));
        effects := effects + [Effect(id, node.kind, Completed, out)];
        outputs := outputs[id := out];
      case CaseNote =>
        var note := env.render(c.text, outputs);
        OneCall(env, calls0, PatchTriage(env.runIncidentId, note));
        calls := calls + [PatchTriage(env.runIncidentId, note)];
        ok := env.answers(calls);
        if ok {
          effects := effects + [Effect(id, node.kind, Completed, TextOutput(note))];
        }
      case AuditNote =>
        var message := env.render(c.text, outputs);
        OneCall(env, calls0, AuditNoteRecord(id, message));
        calls := calls + [AuditNoteRecord(id, message)];
        ok := env.answers(calls);
        if ok {
          effects := effects + [Effect(id, node.kind, Completed, TextOutput(message))];
        }
      case NotifyWebhook =>
        ok, effects, calls := Notify(env, node, effects, outputs, calls);
      case WebhookDryRun =>
        effects := effects + [Effect(id, node.kind, Completed, DryRunOutput(OrElse(c.text, "POST")))];
      case ApprovalRequired =>
        effects := effects + [Effect(id, node.kind, WaitingApproval, ApprovalOutput(OrElse(c.role, "admin")))];
      case FortigateRecommendBlock =>
        effects := effects + [Effect(id, node.kind, WaitingApproval, ReviewOutput(node.kind))];
      case FortiwebRecommendBlock =>
        effects := effects + [Effect(id, node.kind, WaitingApproval, ReviewOutput(node.kind))];
      case FortigateTemporaryBlock =>
        effects := effects + [Effect(id, node.kind, WaitingApproval, ReviewOutput(node.kind))];
    }
  }

  /** The webhook branch: look the destination up, send, record. */
  method Notify(env: Env, node: Node, effects0: seq<Effect>, outputs: Outputs, calls0: seq<Call>)
      returns (ok: bool, effects: seq<Effect>, calls: seq<Call>)
    requires node.kind.NotifyWebhook?
    ensures Attempt(env, Trace(effects0, outputs, calls0), node)
      == if ok then Finished(Trace(effects, outputs, calls)) else Aborted(calls)
  {
    ok, effects, calls := Known(env, node.config.destinationId), effects0, calls0;
    if !ok {
      return;
    }
    var id, c := NodeRef(node), node.config;
    var send := SendWebhook(c.destinationId, env.render(c.text, outputs), c.username);
    calls := calls + [send];
    TwoCalls(env, calls0, send, WebhookAuditRecord(id, c.destinationId, env.reply(calls)));
    ok := env.answers(calls);
    if !ok {
      return;
    }
    var reply := env.reply(calls);
    calls := calls + [WebhookAuditRecord(id, c.destinationId, reply)];
    ok := env.answers(calls);
    if ok {
      effects := effects + [Effect(id, node.kind, if reply.ok then Completed else Failed,
                                   WebhookOutput(c.destinationId, reply))];
    }
  }

  // ---------- What single kinds of nodes do ----------

  /** An issued destination id: the prefix and the token of a destination of the actor. */
  ghost predicate Issued(env: Env, id: string) {
    exists token :: token in env.destinations && id == "pwd_" + token
  }

  lemma {:induction false} KnownMeaning(env: Env, id: string)
    ensures Known(env, id) <==> Issued(env, id)
  {
    if Known(env, id) {
      assert id == id[..4] + id[4..];
    }
    if Issued(env, id) {
      var token :| token in env.destinations && id == "pwd_" + token;
      assert id[..4] == "pwd_" && id[4..] == token;
    }
  }

  /** A webhook node: unknown destination, failed sending, failed recording, or an effect that tells the reply. */
  lemma {:induction false} NotifyMeaning(env: Env, t: Trace, node: Node)
    requires node.kind.NotifyWebhook?
    ensures var c, o := node.config, Attempt(env, t, node);
      var sent := t.calls + [SendWebhook(c.destinationId, env.render(c.text, t.outputs), c.username)];
      var recorded := sent + [WebhookAuditRecord(NodeRef(node), c.destinationId, env.reply(sent))];
      if !Issued(env, c.destinationId) then o == Aborted(t.calls)
      else if !env.answers(sent) then o == Aborted(sent)
      else if !env.answers(recorded) then o == Aborted(recorded)
      else
        o == Finished(Trace(t.effects + [Effect(NodeRef(node), NotifyWebhook,
                                                if env.reply(sent).ok then Completed else Failed,
                                                WebhookOutput(c.destinationId, env.reply(sent)))],
                            t.outputs, recorded))
  {
    var c := node.config;
    var send := SendWebhook(c.destinationId, env.render(c.text, t.outputs), c.username);
    KnownMeaning(env, c.destinationId);
    TwoCalls(env, t.calls, send, WebhookAuditRecord(NodeRef(node), c.destinationId, env.reply(t.calls + [send])));
  }

  /** A note node makes one call with its rendered text, and its effect tells the text. */
  lemma {:induction false} NoteMeaning(env: Env, t: Trace, node: Node)
    requires node.kind.CaseNote? || node.kind.AuditNote?
    ensures var text := env.render(node.config.text, t.outputs);
      var call := if node.kind.CaseNote? then PatchTriage(env.runIncidentId, text) else AuditNoteRecord(NodeRef(node), text);
      Attempt(env, t, node)
      == if !env.answers(t.calls + [call]) then Aborted(t.calls + [call])
         else Finished(Trace(t.effects + [Effect(NodeRef(node), node.kind, Completed, TextOutput(text))], t.outputs,
                             t.calls + [call]))
  {
    var text := env.render(node.config.text, t.outputs);
    OneCall(env, t.calls,
            if node.kind.CaseNote? then PatchTriage(env.runIncidentId, text) else AuditNoteRecord(NodeRef(node), text));
  }

  /** A severity condition is skipped exactly on a mismatch; it and an enrichment leave an output for later templates. */
  lemma {:induction false} LookupMeaning(env: Env, t: Trace, node: Node)
    requires node.kind.ConditionSeverity? || node.kind.EnrichIp?
    ensures var o := Attempt(env, t, node);
      && o.Finished? && o.trace.calls == t.calls && |o.trace.effects| == |t.effects| + 1
      && var e := o.trace.effects[|t.effects|];
         && o.trace.outputs == t.outputs[NodeRef(node) := e.output]
         && (e.status == Skipped <==> node.kind.ConditionSeverity? && !ConditionHolds(node.config, env.incident))
         && (e.status == Skipped || e.status == Completed)
         && e.output == if node.kind.EnrichIp? then FieldOutput(node.config.field, env.valueAt(node.config.field))
                        else SeverityOutput(e.status == Completed, env.incident.severity)
  {
    NoCall(env, t, node);
    SeverityMeaning(node.config, env.incident);
  }

  /** Dry runs and approvals fill in the method POST and the role admin; blocks ask for a review of their own kind. */
  lemma {:induction false} SilentCallMeaning(env: Env, t: Trace, node: Node)
    requires node.kind.WebhookDryRun? || IsGate(node.kind)
    ensures var o, c := Attempt(env, t, node), node.config;
      && o.Finished? && o.trace.calls == t.calls && o.trace.outputs == t.outputs && |o.trace.effects| == |t.effects| + 1
      && o.trace.effects[|t.effects|].output
         == match node.kind
            case WebhookDryRun => DryRunOutput(if c.text == "" then "POST" else c.text)
            case ApprovalRequired => ApprovalOutput(if c.role == "" then "admin" else c.role)
            case _ => ReviewOutput(node.kind)
  {
    NoCall(env, t, node);
  }

  /** The type names of nodes, read back. */
  function KindOf(name: string): NodeKind {
    if name == "trigger.incident_created" then TriggerIncidentCreated
    else if name == "condition.severity" then ConditionSeverity
    else if name == "enrich.ip" then EnrichIp
    else if name == "case.note" then CaseNote
    else if name == "audit.note" then AuditNote
    else if name == "approval.required" then ApprovalRequired
    else if name == "notify.webhook" then NotifyWebhook
    else if name == "fortigate.recommend_block" then FortigateRecommendBlock
    else if name == "fortiweb.recommend_block" then FortiwebRecommendBlock
    else if name == "fortigate.temporary_block" then FortigateTemporaryBlock
    else if name == "webhook.dry_run" then WebhookDryRun
    else OtherKind(name)
  }

  /** Every type name is the name of the kind it is read as. */
  lemma {:induction false} KindNameRoundTrip(name: string)
    ensures KindName(KindOf(name)) == name
  {
  }

  /** A run of a playbook performs its walk up to the first gate, or until something raises. */
  ghost predicate IsRun(pb: Playbook, env: Env, outcome: Outcome) {
    exists w :: IsWalk(pb, env.incident, w) && outcome == RunNodes(env, UpToGate(w))
  }

  ghost predicate Ungated(w: seq<Node>, i: nat)
    requires i <= |w|
  {
    forall j :: 0 <= j < i ==> !IsGate(w[j].kind)
  }

  lemma {:induction false} UngatedStep(w: seq<Node>, i: nat)
    requires i < |w| && Ungated(w, i) && !IsGate(w[i].kind)
    ensures Ungated(w, i + 1)
  {
  }

  /** The executor's loop over the nodes of a walk. */
  method PerformWalk(pb: Playbook, env: Env, w: seq<Node>) returns (outcome: Outcome)
    requires IsWalk(pb, env.incident, w)
    ensures outcome == RunNodes(env, UpToGate(w))
  {
    var effects: seq<Effect>, outputs: Outputs, calls: seq<Call> := [], map[], [];
    var i := 0;
    while i < |w|
      invariant i <= |w|
      invariant Finished(Trace(effects, outputs, calls)) == RunNodes(env, w[..i])
      invariant Ungated(w, i)
    {
      var node := w[i];
      RunStep(env, w, i);
      var ok;
      ok, effects, outputs, calls := PerformNode(env, node, effects, outputs, calls);
      if !ok {
        AbortsHere(env, w, i);
        return Aborted(calls);
      }
      if IsGate(node.kind) {
        GateFound(w, i);
        return Finished(Trace(effects, outputs, calls));
      }
      UngatedStep(w, i);
      i := i + 1;
      if node.kind.ConditionSeverity? && !SeverityMatches(node.config, env.incident)
         && !HasFalseEdge(pb, NodeRef(node)) {
        MismatchBreakIsLast(pb, env.incident, w, i - 1);
        break;
      }
    }
    UngatedRun(w, i);
    outcome := Finished(Trace(effects, outputs, calls));
  }

  method ExecuteEffects(pb: Playbook, env: Env) returns (outcome: Outcome)
    ensures IsRun(pb, env, outcome)
  {
    var w := WalkNodes(pb, env.incident);
    outcome := PerformWalk(pb, env, w);
  }

  lemma {:induction false} GateFound(w: seq<Node>, i: nat)
    requires i < |w| && IsGate(w[i].kind) && Ungated(w, i)
    ensures UpToGate(w) == w[..i + 1]
  {
    var g := FirstGate(w);
    assert g == i;
  }

  lemma {:induction false} UngatedRun(w: seq<Node>, i: nat)
    requires i == |w| && Ungated(w, i)
    ensures w[..i] == w && UpToGate(w) == w
  {
    assert FirstGate(w) == |w|;
  }

  lemma {:induction false} RunStep(env: Env, w: seq<Node>, i: nat)
    requires i < |w| && RunNodes(env, w[..i]).Finished?
    ensures RunNodes(env, w[..i + 1]) == Attempt(env, RunNodes(env, w[..i]).trace, w[i])
  {
    assert w[..i + 1][..i] == w[..i];
  }

  lemma {:induction false} AbortsHere(env: Env, w: seq<Node>, i: nat)
    requires i < |w| && Ungated(w, i)
    requires RunNodes(env, w[..i + 1]).Aborted?
    ensures RunNodes(env, UpToGate(w)) == RunNodes(env, w[..i + 1])
  {
    assert FirstGate(w) >= i;
    assert UpToGate(w)[..i + 1] == w[..i + 1];
    AbortStays(env, UpToGate(w), i + 1);
  }

  // ---------- Running a playbook ----------

  /** Kinds for which the API starts the executor at all. */
  predicate HasEffectNodes(pb: Playbook) {
    exists k :: 0 <= k < |pb.nodes| && !IsSilent(pb.nodes[k].kind)
  }

  /** The check before the executor changes nothing: without such nodes every run finishes empty. */
  lemma {:induction false} NoEffectNodesNoEffects(pb: Playbook, env: Env, outcome: Outcome)
    requires !HasEffectNodes(pb) && IsRun(pb, env, outcome)
    ensures outcome == Finished(NO_TRACE)
  {
    var w: seq<Node> :| IsWalk(pb, env.incident, w) && outcome == RunNodes(env, UpToGate(w));
    forall i | 0 <= i < |w|
      ensures IsSilent(w[i].kind)
    {
      WalkUsesEdges(pb, env.incident, w, i);
    }
    SilentRun(env, UpToGate(w));
  }

  lemma {:induction false} SilentRun(env: Env, w: seq<Node>)
    requires forall i :: 0 <= i < |w| ==> IsSilent(w[i].kind)
    ensures RunNodes(env, w) == Finished(NO_TRACE)
  {
    if w != [] {
      SilentRun(env, w[..|w| - 1]);
    }
  }
}
