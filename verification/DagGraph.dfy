/**
 The graph checks of a DAG script (backend/schemas/dag.py). References may form cycles and node
 ids may repeat.
 */
module DagGraph {
  import opened Prelude

  type NodeId = string

  /** What the graph checks read of a node; `kind` is the action type. */
  datatype Node = Node(
    id: NodeId, kind: string, onSuccess: Option<NodeId>, onFailure: Option<NodeId>,
    onTrue: Option<NodeId>, onFalse: Option<NodeId>)

  datatype Script = Script(nodes: seq<Node>, entry: NodeId)

  /** Python truthiness of a reference: present and not the empty string. */
  predicate Given(ref: Option<NodeId>) {
    ref.Some? && ref.value != ""
  }

  predicate Refers(node: Node, target: NodeId) {
    target != "" &&
    (|| node.onSuccess == Some(target) || node.onFailure == Some(target)
     || (node.kind == "condition" && (node.onTrue == Some(target) || node.onFalse == Some(target))))
  }

  ghost predicate Edge(script: Script, a: NodeId, b: NodeId) {
    exists node :: node in script.nodes && node.id == a && Refers(node, b)
  }

  /** A nonempty list of nodes, each referring to the next. */
  ghost predicate Path(script: Script, p: seq<NodeId>) {
    p != [] && forall i | 0 <= i < |p| - 1 :: Edge(script, p[i], p[i + 1])
  }

  ghost predicate Leads(script: Script, a: NodeId, b: NodeId) {
    exists p :: Path(script, p) && p[0] == a && p[|p| - 1] == b
  }

  lemma LeadsSelf(script: Script, a: NodeId)
    ensures Leads(script, a, a)
  {
    assert Path(script, [a]);
  }

  lemma LeadsOn(script: Script, a: NodeId, b: NodeId, c: NodeId)
    requires Leads(script, a, b) && Edge(script, b, c)
    ensures Leads(script, a, c)
  {
    var p :| Path(script, p) && p[0] == a && p[|p| - 1] == b;
    var q := p + [c];
    assert Path(script, q) && q[0] == a && q[|q| - 1] == c;
  }

  /** A set closed under edges that holds the start of a path holds its end. */
  lemma {:induction false} ClosedHoldsPath(script: Script, closed: set<NodeId>, p: seq<NodeId>)
    requires Path(script, p) && p[0] in closed
    requires forall a, b | a in closed && Edge(script, a, b) :: b in closed
    ensures p[|p| - 1] in closed
  {
    if |p| <= 1 {
    } else {
      assert Edge(script, p[0], p[1]);
      var rest := p[1..];
      assert forall i | 0 <= i < |rest| :: rest[i] == p[i + 1];
      assert Path(script, rest);
      ClosedHoldsPath(script, closed, rest);
    }
  }

  // ── adjacency ──

  type Adjacency = map<NodeId, seq<NodeId>>

  /** The lists of `adj` hold exactly the edges that start in `nodes`. */
  ghost predicate Describes(adj: Adjacency, nodes: seq<Node>) {
    forall a, b ::
      b in Neighbours(adj, a) <==> Edge(Script(nodes, ""), a, b)
  }

  function Neighbours(adj: Adjacency, a: NodeId): seq<NodeId> {
    if a in adj then adj[a] else []
  }

  function Targets(node: Node): seq<NodeId> {
    (if Given(node.onSuccess) then [node.onSuccess.value] else [])
    + (if Given(node.onFailure) then [node.onFailure.value] else [])
    + (if node.kind == "condition" && Given(node.onTrue) then [node.onTrue.value] else [])
    + (if node.kind == "condition" && Given(node.onFalse) then [node.onFalse.value] else [])
  }

  lemma TargetsAreReferences(node: Node, b: NodeId)
    ensures b in Targets(node) <==> Refers(node, b)
  {
  }

  /** `_build_adj`: a list per id, extended by every node with that id. */
  method BuildAdj(script: Script) returns (adj: Adjacency)
    ensures Describes(adj, script.nodes)
    ensures adj.Keys == set node | node in script.nodes :: node.id
  {
    adj := map node | node in script.nodes :: node.id := [];
    for i := 0 to |script.nodes|
      invariant adj.Keys == set node | node in script.nodes :: node.id
      invariant Describes(adj, script.nodes[..i])
    {
      var node := script.nodes[i];
      assert node in script.nodes;
      DescribesNext(adj, script.nodes, i);
      adj := adj[node.id := adj[node.id] + Targets(node)];
    }
    assert script.nodes[..|script.nodes|] == script.nodes;
    assert Describes(adj, script.nodes);
  }

  lemma EdgeNext(nodes: seq<Node>, i: nat, a: NodeId, b: NodeId)
    requires i < |nodes|
    ensures Edge(Script(nodes[..i + 1], ""), a, b)
       <==> Edge(Script(nodes[..i], ""), a, b) || (nodes[i].id == a && Refers(nodes[i], b))
  {
    assert nodes[..i + 1] == nodes[..i] + [nodes[i]];
    assert forall n :: n in nodes[..i] + [nodes[i]] <==> n in nodes[..i] || n == nodes[i];
    assert forall n :: n in nodes[..i + 1] <==> n in nodes[..i] || n == nodes[i];
    if nodes[i].id == a && Refers(nodes[i], b) {
      assert nodes[i] in nodes[..i + 1];
    }
  }

  lemma DescribesNext(adj: Adjacency, nodes: seq<Node>, i: nat)
    requires i < |nodes| && nodes[i].id in adj && Describes(adj, nodes[..i])
    ensures Describes(adj[nodes[i].id := adj[nodes[i].id] + Targets(nodes[i])], nodes[..i + 1])
  {
    var adj' := adj[nodes[i].id := adj[nodes[i].id] + Targets(nodes[i])];
    forall a, b ensures b in Neighbours(adj', a) <==> Edge(Script(nodes[..i + 1], ""), a, b) {
      EdgeNext(nodes, i, a, b);
      TargetsAreReferences(nodes[i], b);
      assert b in Neighbours(adj, a) <==> Edge(Script(nodes[..i], ""), a, b);
    }
  }

  lemma EdgesOfScript(adj: Adjacency, script: Script, a: NodeId, b: NodeId)
    requires Describes(adj, script.nodes)
    ensures b in Neighbours(adj, a) <==> Edge(script, a, b)
  {
    assert Edge(Script(script.nodes, ""), a, b) <==> Edge(script, a, b);
  }

  /** Everything a walk from `start` can meet. */
  ghost function Universe(adj: Adjacency, start: set<NodeId>): set<NodeId> {
    start + adj.Keys + set a, i | a in adj && 0 <= i < |adj[a]| :: adj[a][i]
  }

  lemma UniverseHolds(adj: Adjacency, start: set<NodeId>)
    ensures start <= Universe(adj, start)
    ensures forall a, b | b in Neighbours(adj, a) :: b in Universe(adj, start)
  {
  }

  // ── reachability ──

  /** The worklist of `_get_reachable`. */
  method GetReachable(script: Script) returns (visited: set<NodeId>)
    ensures forall n :: n in visited <==> Leads(script, script.entry, n)
  {
    var adj := BuildAdj(script);
    visited := {};
    var stack := [script.entry];
    ghost var universe := Universe(adj, {script.entry});
    LeadsSelf(script, script.entry);
    hide Leads, Edge, Path, Describes, Universe;
    assert script.entry in universe by {
      UniverseHolds(adj, {script.entry});
    }
    while stack != []
      invariant visited <= universe && forall n | n in stack :: n in universe
      invariant forall n | n in visited || n in stack :: Leads(script, script.entry, n)
      invariant script.entry in visited || script.entry in stack
      invariant forall a, b | a in visited && b in Neighbours(adj, a) :: b in visited || b in stack
      decreases universe - visited, |stack|
    {
      var n := stack[|stack| - 1];
      ghost var before := stack;
      stack := stack[..|stack| - 1];
      assert before == stack + [n];
      if n in visited {
        continue;
      }
      visited := visited + {n};
      forall b | b in Neighbours(adj, n) ensures Leads(script, script.entry, b) && b in universe {
        EdgesOfScript(adj, script, n, b);
        LeadsOn(script, script.entry, n, b);
        UniverseHolds(adj, {script.entry});
      }
      stack := stack + Neighbours(adj, n);
    }
    ClosureIsReachability(script, adj, visited);
  }

  lemma ClosureIsReachability(script: Script, adj: Adjacency, visited: set<NodeId>)
    requires Describes(adj, script.nodes) && script.entry in visited
    requires forall n | n in visited :: Leads(script, script.entry, n)
    requires forall a, b | a in visited && b in Neighbours(adj, a) :: b in visited
    ensures forall n :: n in visited <==> Leads(script, script.entry, n)
  {
    forall a, b | a in visited && Edge(script, a, b) ensures b in visited {
      EdgesOfScript(adj, script, a, b);
    }
    forall n | Leads(script, script.entry, n) ensures n in visited {
      var p :| Path(script, p) && p[0] == script.entry && p[|p| - 1] == n;
      ClosedHoldsPath(script, visited, p);
    }
  }

  // ── validation ──

  function Ids(script: Script): set<NodeId> {
    set node | node in script.nodes :: node.id
  }

  ghost predicate RefsKnown(script: Script, nodes: seq<Node>) {
    forall node, target | node in nodes && Refers(node, target) :: target in Ids(script)
  }

  /** What the graph part of `validate_dag` demands. */
  ghost predicate Valid(script: Script) {
    && script.entry in Ids(script)
    && RefsKnown(script, script.nodes)
    && forall id | id in Ids(script) :: Leads(script, script.entry, id)
  }

  datatype Verdict =
    | Accepted
    | EntryMissing
    | UnknownRef(node: NodeId, ref: NodeId)
    | UnknownConditionRef(node: NodeId, ref: NodeId)
    | Unreachable(ids: set<NodeId>)

  /** An error names what is wrong. */
  ghost predicate Justified(script: Script, v: Verdict) {
    match v
    case Accepted => Valid(script)
    case EntryMissing => script.entry !in Ids(script)
    case UnknownRef(n, ref) => script.entry in Ids(script) && ref !in Ids(script) && Edge(script, n, ref)
    case UnknownConditionRef(n, ref) => script.entry in Ids(script) && ref !in Ids(script) && Edge(script, n, ref)
    case Unreachable(ids) =>
      && script.entry in Ids(script) && RefsKnown(script, script.nodes) && ids != {}
      && forall id :: id in ids <==> id in Ids(script) && !Leads(script, script.entry, id)
  }

  /** The references of one node, in the order they are checked. */
  method CheckRefs(script: Script, node: Node) returns (v: Verdict)
    requires node in script.nodes && script.entry in Ids(script)
    ensures v.Accepted? ==> RefsKnown(script, [node])
    ensures !v.Accepted? ==> Justified(script, v)
  {
    var ids := Ids(script);
    if Given(node.onSuccess) && node.onSuccess.value !in ids {
      assert Refers(node, node.onSuccess.value);
      return UnknownRef(node.id, node.onSuccess.value);
    }
    if Given(node.onFailure) && node.onFailure.value !in ids {
      assert Refers(node, node.onFailure.value);
      return UnknownRef(node.id, node.onFailure.value);
    }
    if node.kind == "condition" {
      if Given(node.onTrue) && node.onTrue.value !in ids {
        assert Refers(node, node.onTrue.value);
        return UnknownConditionRef(node.id, node.onTrue.value);
      }
      if Given(node.onFalse) && node.onFalse.value !in ids {
        assert Refers(node, node.onFalse.value);
        return UnknownConditionRef(node.id, node.onFalse.value);
      }
    }
    v := Accepted;
  }

  /** A justified error excludes validity. */
  lemma ErrorsAreReal(script: Script, v: Verdict)
    requires Justified(script, v) && !v.Accepted?
    ensures !Valid(script)
  {
    match v {
      case EntryMissing =>
      case UnknownRef(n, ref) =>
        var node :| node in script.nodes && node.id == n && Refers(node, ref);
      case UnknownConditionRef(n, ref) =>
        var node :| node in script.nodes && node.id == n && Refers(node, ref);
      case Unreachable(ids) =>
        var id :| id in ids;
    }
  }

  /** The graph part of `validate_dag`: accepts exactly the valid scripts, cyclic ones included. */
  method ValidateDag(script: Script) returns (v: Verdict)
    ensures v.Accepted? <==> Valid(script)
    ensures Justified(script, v)
  {
    if script.entry !in Ids(script) {
      ErrorsAreReal(script, EntryMissing);
      return EntryMissing;
    }
    for i := 0 to |script.nodes|
      invariant RefsKnown(script, script.nodes[..i])
    {
      var checked := CheckRefs(script, script.nodes[i]);
      if !checked.Accepted? {
        ErrorsAreReal(script, checked);
        return checked;
      }
      assert script.nodes[..i + 1] == script.nodes[..i] + [script.nodes[i]];
    }
    assert script.nodes[..|script.nodes|] == script.nodes;
    var reachable := GetReachable(script);
    var unreachable := Ids(script) - reachable;
    if unreachable != {} {
      var id :| id in unreachable;
      assert !Leads(script, script.entry, id);
      ErrorsAreReal(script, Unreachable(unreachable));
      return Unreachable(unreachable);
    }
    forall id | id in Ids(script) ensures Leads(script, script.entry, id) {
      assert id !in unreachable;
    }
    v := Accepted;
  }

  // ── the cycle check, present but not called ──

  /** A closed walk through `n`. */
  ghost predicate OnCycle(script: Script, n: NodeId) {
    exists a :: Leads(script, n, a) && Edge(script, a, n)
  }

  datatype Frame = Frame(node: NodeId, path: set<NodeId>)

  /** Each member of a frame's path set leads to the frame's node. */
  ghost predicate PathsLead(script: Script, stack: seq<Frame>) {
    forall i, m | 0 <= i < |stack| && m in stack[i].path :: Leads(script, m, stack[i].node)
  }

  /** The inner loop over neighbours: the first one on the path, or else the first unvisited one. */
  method ScanNeighbours(neighbours: seq<NodeId>, path: set<NodeId>, visited: set<NodeId>)
    returns (cycle: Option<NodeId>, next: Option<NodeId>)
    ensures cycle.Some? ==> cycle.value in neighbours && cycle.value in path
    ensures next.Some? ==> next.value in neighbours && next.value !in visited
    ensures cycle.None? && next.None? ==> forall nb | nb in neighbours :: nb in visited && nb !in path
  {
    for i := 0 to |neighbours|
      invariant forall k | 0 <= k < i :: neighbours[k] in visited && neighbours[k] !in path
    {
      if neighbours[i] in path {
        return Some(neighbours[i]), None;
      }
      if neighbours[i] !in visited {
        return None, Some(neighbours[i]);
      }
    }
    return None, None;
  }

  /** Depth-first search from one start. */
  method SearchFrom(script: Script, adj: Adjacency, start: NodeId, visited: set<NodeId>, ghost universe: set<NodeId>)
    returns (visited': set<NodeId>, cycle: Option<NodeId>)
    requires Describes(adj, script.nodes) && start in universe && visited <= universe
    requires forall a, b | b in Neighbours(adj, a) :: b in universe
    ensures visited <= visited' <= universe
    ensures cycle.Some? ==> OnCycle(script, cycle.value)
  {
    visited' := visited;
    var stack := [Frame(start, {})];
    while stack != []
      invariant visited <= visited' <= universe
      invariant forall f | f in stack :: f.node in universe
      invariant PathsLead(script, stack)
      decreases universe - visited', |stack|
    {
      var top := stack[|stack| - 1];
      var below := stack[..|stack| - 1];
      assert stack == below + [top];
      if top.node !in visited' {
        visited' := visited' + {top.node};
        var path := top.path + {top.node};
        LeadsSelf(script, top.node);
        assert PathsLead(script, below + [Frame(top.node, path)]);
        var found, next := ScanNeighbours(Neighbours(adj, top.node), path, visited');
        if found.Some? {
          EdgesOfScript(adj, script, top.node, found.value);
          return visited', found;
        }
        if next.Some? {
          EdgesOfScript(adj, script, top.node, next.value);
          PathsExtend(script, below, Frame(top.node, path), next.value);
          stack := below + [Frame(top.node, path), Frame(next.value, path)];
        } else {
          stack := below;
        }
      } else {
        stack := below;
      }
    }
    cycle := None;
  }

  lemma PathsExtend(script: Script, below: seq<Frame>, top: Frame, next: NodeId)
    requires PathsLead(script, below + [top]) && Edge(script, top.node, next)
    ensures PathsLead(script, below + [top, Frame(next, top.path)])
  {
    forall m | m in top.path ensures Leads(script, m, next) {
      assert m in (below + [top])[|below|].path;
      LeadsOn(script, m, top.node, next);
    }
    var stack := below + [top, Frame(next, top.path)];
    forall i, m | 0 <= i < |stack| && m in stack[i].path ensures Leads(script, m, stack[i].node) {
      assert i <= |below| ==> stack[i] == (below + [top])[i];
    }
  }

  /**
   `_check_no_infinite_loops` ends on every graph and reports a node only if a closed walk passes
   through it.
   */
  method CheckNoInfiniteLoops(script: Script, allIds: set<NodeId>) returns (cycle: Option<NodeId>)
    ensures cycle.Some? ==> OnCycle(script, cycle.value)
  {
    var adj := BuildAdj(script);
    ghost var universe := Universe(adj, allIds);
    UniverseHolds(adj, allIds);
    var visited: set<NodeId> := {};
    var todo := allIds;
    while todo != {}
      invariant todo <= allIds && visited <= universe
      decreases todo
    {
      var start :| start in todo;
      todo := todo - {start};
      if start in visited {
        continue;
      }
      visited, cycle := SearchFrom(script, adj, start, visited, universe);
      if cycle.Some? {
        return;
      }
    }
    cycle := None;
  }

  /** A rank that falls along every edge: the usual witness that a graph has no cycle. */
  ghost predicate Falls(script: Script, rank: map<NodeId, int>) {
    forall a, b | Edge(script, a, b) :: a in rank && b in rank && rank[b] < rank[a]
  }

  lemma {:induction false} RankFallsAlong(script: Script, rank: map<NodeId, int>, p: seq<NodeId>)
    requires Falls(script, rank) && Path(script, p) && p[0] in rank
    ensures p[|p| - 1] in rank && rank[p[|p| - 1]] <= rank[p[0]]
  {
    if |p| <= 1 {
    } else {
      var rest := p[1..];
      assert forall i | 0 <= i < |rest| :: rest[i] == p[i + 1];
      assert Edge(script, p[0], p[1]) && Path(script, rest);
      RankFallsAlong(script, rank, rest);
    }
  }

  /** On an acyclic graph no node is on a closed walk, so the cycle check stays silent. */
  lemma AcyclicHasNoCycle(script: Script, rank: map<NodeId, int>, n: NodeId)
    requires Falls(script, rank)
    ensures !OnCycle(script, n)
  {
    forall a | Edge(script, a, n) && Leads(script, n, a) ensures false {
      var p :| Path(script, p) && p[0] == n && p[|p| - 1] == a;
      RankFallsAlong(script, rank, p);
    }
  }

  /** Every id and every reference of the script. */
  ghost function Mentioned(script: Script): set<NodeId> {
    Ids(script) + set node, b | node in script.nodes && b in Targets(node) :: b
  }

  ghost function Below(script: Script, a: NodeId): set<NodeId> {
    set n | n in Mentioned(script) && Leads(script, a, n)
  }

  /** Without closed walks, an edge leads to where strictly less is reachable. */
  lemma EdgeFalls(script: Script, a: NodeId, b: NodeId)
    requires Edge(script, a, b) && !OnCycle(script, a)
    ensures a in Mentioned(script) && b in Mentioned(script)
    ensures |Below(script, b)| < |Below(script, a)|
  {
    var node :| node in script.nodes && node.id == a && Refers(node, b);
    TargetsAreReferences(node, b);
    LeadsSelf(script, a);
    forall n | n in Below(script, b) ensures n in Below(script, a) && n != a {
      EdgeLeads(script, a, b, n);
      if n == a {
        LeadsBack(script, a, b);
      }
    }
    hide OnCycle, Leads, Edge;
    assert Below(script, b) <= Below(script, a) - {a};
    SubsetSize(Below(script, b), Below(script, a) - {a});
  }

  lemma EdgeLeads(script: Script, a: NodeId, b: NodeId, n: NodeId)
    requires Edge(script, a, b) && Leads(script, b, n)
    ensures Leads(script, a, n)
  {
    var p :| Path(script, p) && p[0] == b && p[|p| - 1] == n;
    var q := [a] + p;
    forall i | 0 <= i < |q| - 1 ensures Edge(script, q[i], q[i + 1]) {
      assert i > 0 ==> q[i] == p[i - 1];
      assert q[i + 1] == p[i];
    }
    assert Path(script, q) && q[0] == a && q[|q| - 1] == n;
  }

  /** A way back along an edge closes a walk. */
  lemma LeadsBack(script: Script, a: NodeId, b: NodeId)
    requires Edge(script, a, b) && Leads(script, b, a)
    ensures OnCycle(script, a)
  {
    var p :| Path(script, p) && p[0] == b && p[|p| - 1] == a;
    var q := [a] + p[..|p| - 1];
    forall i | 0 <= i < |q| - 1 ensures Edge(script, q[i], q[i + 1]) {
      assert i > 0 ==> q[i] == p[i - 1];
      assert q[i + 1] == p[i];
    }
    var c := q[|q| - 1];
    assert Path(script, q) && q[0] == a;
    assert Leads(script, a, c);
    if |p| > 1 {
      assert c == p[|p| - 2] && Edge(script, p[|p| - 2], p[|p| - 1]);
    }
    assert Edge(script, c, a);
  }

  /** A graph has a falling rank if and only if no node is on a closed walk. */
  lemma AcyclicExactly(script: Script)
    ensures (exists rank :: Falls(script, rank)) <==> forall n :: !OnCycle(script, n)
  {
    if rank :| Falls(script, rank) {
      forall n ensures !OnCycle(script, n) {
        AcyclicHasNoCycle(script, rank, n);
      }
    }
    if forall n :: !OnCycle(script, n) {
      var rank := map a | a in Mentioned(script) :: |Below(script, a)|;
      forall a, b | Edge(script, a, b) ensures a in rank && b in rank && rank[b] < rank[a] {
        EdgeFalls(script, a, b);
      }
      assert Falls(script, rank);
    }
  }
}
