/**
 * The operator graph, the operator expression read off it from the out node upwards, and how building
 * keeps what was read.
 */
module OperatorGraph {
  import opened Common

  datatype OperatorType =
    OutOp | InOp | JoinOp | UnionOp | SelectionOp | ProjectionOp | EvalOp | RenameColumnOp | RenameTableOp

  datatype Node = Node(id: nat, operatorType: OperatorType, parameter: string, window: map<string, string>)
  datatype Edge = Edge(id: nat, from: nat, to: nat)
  datatype Graph = Graph(nodes: seq<Node>, edges: seq<Edge>)

  // ---------------------------------------------------------------- reading the graph

  /** The nodes with an edge into `id`, in the order the edges were made. */
  function Inputs(edges: seq<Edge>, id: nat): seq<nat> {
    if edges == [] then []
    else
      var front, last := Inputs(edges[..|edges| - 1], id), edges[|edges| - 1];
      if last.to == id then front + [last.from] else front
  }

  predicate IsUnary(op: OperatorType) {
    !op.InOp? && !op.JoinOp? && !op.UnionOp?
  }

  predicate IsBinary(op: OperatorType) {
    op.JoinOp? || op.UnionOp?
  }

  /** The operator expression that hangs below a node. */
  datatype Plan = Source(node: Node) | Unary(node: Node, input: Plan) | Binary(node: Node, left: Plan, right: Plan)

  function OverOne(node: Node, p: Option<Plan>): Option<Plan> {
    if p.Some? && IsUnary(node.operatorType) then Some(Unary(node, p.value)) else None
  }

  function OverTwo(node: Node, p: Option<Plan>, q: Option<Plan>): Option<Plan> {
    if p.Some? && q.Some? && IsBinary(node.operatorType) then Some(Binary(node, p.value, q.value)) else None
  }

  /**
   * Reading the graph from a node upwards; None when the inputs of some node do not fit its
   * operator, or when it takes more than `fuel` levels.
   */
  function PlanOf(g: Graph, id: nat, fuel: nat): Option<Plan>
    decreases fuel
  {
    if fuel == 0 || id >= |g.nodes| then None
    else
      var node, ins := g.nodes[id], Inputs(g.edges, id);
      if |ins| == 0 then if node.operatorType.InOp? then Some(Source(node)) else None
      else if |ins| == 1 then OverOne(node, PlanOf(g, ins[0], fuel - 1))
      else if |ins| == 2 then OverTwo(node, PlanOf(g, ins[0], fuel - 1), PlanOf(g, ins[1], fuel - 1))
      else None
  }

  /** How often a node occurs in a plan. */
  function Times(p: Plan, x: nat): nat {
    var here := if p.node.id == x then 1 else 0;
    match p
    case Source(_) => here
    case Unary(_, input) => Times(input, x) + here
    case Binary(_, left, right) => Times(left, x) + Times(right, x) + here
  }

  /** The nodes of the plan are those from a up to b, each once. */
  ghost predicate EachOnce(p: Plan, a: nat, b: nat) {
    forall x: nat :: Times(p, x) == if a <= x < b then 1 else 0
  }

  lemma {:induction false} PlanOfMono(g: Graph, id: nat, m: nat, n: nat)
    requires m <= n && PlanOf(g, id, m).Some?
    ensures PlanOf(g, id, n) == PlanOf(g, id, m)
    decreases m
  {
    var ins := Inputs(g.edges, id);
    if |ins| >= 1 {
      PlanOfMono(g, ins[0], m - 1, n - 1);
      if |ins| == 2 {
        PlanOfMono(g, ins[1], m - 1, n - 1);
      }
    }
  }

  // ---------------------------------------------------------------- frames

  predicate WellFormed(g: Graph) {
    && (forall i :: 0 <= i < |g.nodes| ==> g.nodes[i].id == i)
    && (forall i :: 0 <= i < |g.edges| ==>
         g.edges[i].id == i && g.edges[i].from < |g.nodes| && g.edges[i].to < |g.nodes|)
  }

  /** Between `lo` and `hi` both graphs have the same nodes with the same inputs, all of them from there. */
  ghost predicate SameBetween(g: Graph, g': Graph, lo: nat, hi: nat) {
    && hi <= |g.nodes| && hi <= |g'.nodes|
    && forall i :: lo <= i < hi ==>
         && g.nodes[i] == g'.nodes[i]
         && Inputs(g.edges, i) == Inputs(g'.edges, i)
         && forall j <- Inputs(g.edges, i) :: lo <= j < hi
  }

  lemma {:induction false} PlanOfFrame(g: Graph, g': Graph, lo: nat, hi: nat, id: nat, n: nat)
    requires SameBetween(g, g', lo, hi) && lo <= id < hi
    ensures PlanOf(g, id, n) == PlanOf(g', id, n)
    decreases n
  {
    if n > 0 {
      var ins := Inputs(g.edges, id);
      assert ins == Inputs(g'.edges, id);
      if |ins| == 1 {
        assert ins[0] in ins;
        PlanOfFrame(g, g', lo, hi, ins[0], n - 1);
      } else if |ins| == 2 {
        assert ins[0] in ins && ins[1] in ins;
        PlanOfFrame(g, g', lo, hi, ins[0], n - 1);
        PlanOfFrame(g, g', lo, hi, ins[1], n - 1);
      }
    }
  }

  /** `g'` has more nodes and edges; every new edge leaves a node from `lo` on and enters a new node. */
  ghost predicate Extends(g: Graph, g': Graph, lo: nat) {
    && g.nodes <= g'.nodes && g.edges <= g'.edges
    && forall i :: |g.edges| <= i < |g'.edges| ==> g'.edges[i].from >= lo && g'.edges[i].to >= |g.nodes|
  }

  lemma {:induction false} InputsAppend(edges: seq<Edge>, more: seq<Edge>, id: nat)
    requires forall e <- more :: e.to != id
    ensures Inputs(edges + more, id) == Inputs(edges, id)
    decreases |more|
  {
    if more == [] {
      assert edges + more == edges;
    } else {
      var n := |more| - 1;
      assert (edges + more)[..|edges| + n] == edges + more[..n];
      assert more[n] in more;
      InputsAppend(edges, more[..n], id);
    }
  }

  lemma {:induction false} InputsFrom(edges: seq<Edge>, id: nat, j: nat)
    requires j in Inputs(edges, id)
    ensures exists i :: 0 <= i < |edges| && edges[i].from == j && edges[i].to == id
    decreases |edges|
  {
    var n := |edges| - 1;
    if j in Inputs(edges[..n], id) {
      InputsFrom(edges[..n], id, j);
      var i :| 0 <= i < n && edges[..n][i].from == j && edges[..n][i].to == id;
      assert edges[i].from == j && edges[i].to == id;
    } else {
      assert edges[n].from == j && edges[n].to == id;
    }
  }

  lemma {:induction false} NoInputs(edges: seq<Edge>, id: nat)
    requires forall e <- edges :: e.to != id
    ensures Inputs(edges, id) == []
    decreases |edges|
  {
    if edges != [] {
      assert edges[|edges| - 1] in edges;
      NoInputs(edges[..|edges| - 1], id);
    }
  }

  /** The nodes of a call that started at `lo`: edges into them leave them too. */
  ghost predicate Closed(g: Graph, lo: nat) {
    forall i :: 0 <= i < |g.edges| && g.edges[i].to >= lo ==> g.edges[i].from >= lo
  }

  /** An extension leaves the nodes of a closed part as they were. */
  lemma ExtensionKeeps(g: Graph, g': Graph, lo: nat, from: nat)
    requires WellFormed(g) && Closed(g, lo) && Extends(g, g', from)
    ensures SameBetween(g, g', lo, |g.nodes|)
  {
    var more := g'.edges[|g.edges|..];
    assert g'.edges == g.edges + more;
    forall i | lo <= i < |g.nodes|
      ensures g.nodes[i] == g'.nodes[i] && Inputs(g.edges, i) == Inputs(g'.edges, i)
      ensures forall j <- Inputs(g.edges, i) :: lo <= j < |g.nodes|
    {
      assert forall k :: 0 <= k < |more| ==> more[k] == g'.edges[|g.edges| + k];
      InputsAppend(g.edges, more, i);
      forall j | j in Inputs(g.edges, i)
        ensures lo <= j < |g.nodes|
      {
        InputsFrom(g.edges, i, j);
      }
    }
  }

  // ---------------------------------------------------------------- building

  function AddNode(g: Graph, node: Node): Graph {
    g.(nodes := g.nodes + [node])
  }

  function AddEdge(g: Graph, from: nat, to: nat): Graph {
    g.(edges := g.edges + [Edge(|g.edges|, from, to)])
  }

  /**
   * What a building call leaves behind: it only added nodes and edges among its own nodes, and
   * reading from `top` gives `plan`, in which each of its nodes occurs exactly once.
   */
  ghost predicate Built(g: Graph, g': Graph, top: nat, plan: Plan) {
    && Grown(g, g')
    && |g.nodes| <= top < |g'.nodes|
    && PlanOf(g', top, |g'.nodes| - |g.nodes|) == Some(plan)
    && EachOnce(plan, |g.nodes|, |g'.nodes|)
  }

  ghost predicate Grown(g: Graph, g': Graph) {
    WellFormed(g) && WellFormed(g') && Extends(g, g', |g.nodes|)
  }

  lemma GrownClosed(g: Graph, g': Graph)
    requires Grown(g, g')
    ensures Closed(g', |g.nodes|)
  {
    assert forall i :: 0 <= i < |g.edges| ==> g'.edges[i] == g.edges[i];
  }

  lemma ExtendsTwice(a: Graph, b: Graph, c: Graph, lo: nat, from: nat)
    requires Extends(a, b, lo) && Extends(b, c, from) && lo <= from && |a.nodes| >= lo
    ensures Extends(a, c, lo)
  {
    forall i | |a.edges| <= i < |c.edges|
      ensures c.edges[i].from >= lo && c.edges[i].to >= |a.nodes|
    {
      if i < |b.edges| {
        assert c.edges[i] == b.edges[i];
      }
    }
  }

  lemma BuiltIn(g: Graph, node: Node)
    requires WellFormed(g) && node.id == |g.nodes| && node.operatorType.InOp?
    ensures Built(g, AddNode(g, node), |g.nodes|, Source(node))
  {
    NoInputs(g.edges, |g.nodes|);
  }

  lemma OneInput(edges: seq<Edge>, top: nat, id: nat)
    requires forall e <- edges :: e.to != id
    ensures Inputs(edges + [Edge(|edges|, top, id)], id) == [top]
  {
    NoInputs(edges, id);
    assert (edges + [Edge(|edges|, top, id)])[..|edges|] == edges;
  }

  lemma PlanOfOne(g: Graph, id: nat, top: nat, fuel: nat, a: Plan)
    requires id < |g.nodes| && g.nodes[id].id == id && Inputs(g.edges, id) == [top] && fuel > 0
    requires IsUnary(g.nodes[id].operatorType)
    requires PlanOf(g, top, fuel - 1) == Some(a)
    ensures PlanOf(g, id, fuel) == Some(Unary(g.nodes[id], a))
  {
  }

  lemma UnaryKeepsPart(g0: Graph, g: Graph, node: Node, top: nat)
    requires Grown(g0, g)
    requires |g0.nodes| <= top < |g.nodes| && node.id == |g.nodes|
    ensures var g' := AddEdge(AddNode(g, node), top, node.id);
            && Grown(g0, g')
            && SameBetween(g, g', |g0.nodes|, |g.nodes|)
            && Inputs(g'.edges, node.id) == [top]
  {
    var g' := AddEdge(AddNode(g, node), top, node.id);
    GrownClosed(g0, g);
    ExtensionKeeps(g, g', |g0.nodes|, |g0.nodes|);
    ExtendsTwice(g0, g, g', |g0.nodes|, |g0.nodes|);
    OneInput(g.edges, top, node.id);
  }

  /** One more operator on top. */
  lemma BuiltUnary(g0: Graph, g: Graph, top: nat, plan: Plan, node: Node)
    requires Built(g0, g, top, plan) && node.id == |g.nodes| && IsUnary(node.operatorType)
    ensures Built(g0, AddEdge(AddNode(g, node), top, node.id), node.id, Unary(node, plan))
  {
    var g' := AddEdge(AddNode(g, node), top, node.id);
    UnaryKeepsPart(g0, g, node, top);
    PartDelivers(g0, g, g', top, plan, |g.nodes| - |g0.nodes|);
    UnaryOnce(|g0.nodes|, node, plan);
    PlanOfOne(g', node.id, top, node.id + 1 - |g0.nodes|, plan);
  }

  lemma PlanOfTwo(g: Graph, id: nat, l: nat, r: nat, fuel: nat, a: Plan, b: Plan)
    requires id < |g.nodes| && g.nodes[id].id == id && Inputs(g.edges, id) == [l, r] && fuel > 0
    requires IsBinary(g.nodes[id].operatorType)
    requires PlanOf(g, l, fuel - 1) == Some(a) && PlanOf(g, r, fuel - 1) == Some(b)
    ensures PlanOf(g, id, fuel) == Some(Binary(g.nodes[id], a, b))
  {
  }

  /** A built part delivers the same in a graph that keeps its nodes. */
  lemma PartDelivers(g0: Graph, g1: Graph, g': Graph, top: nat, plan: Plan, fuel: nat)
    requires Built(g0, g1, top, plan) && SameBetween(g1, g', |g0.nodes|, |g1.nodes|)
    requires fuel >= |g1.nodes| - |g0.nodes|
    ensures PlanOf(g', top, fuel) == Some(plan)
  {
    var n := |g1.nodes| - |g0.nodes|;
    PlanOfFrame(g1, g', |g0.nodes|, |g1.nodes|, top, n);
    PlanOfMono(g', top, n, fuel);
  }

  /** The graph with a join over two parts built one after the other keeps both parts. */
  lemma JoinKeepsParts(g0: Graph, g1: Graph, g2: Graph, g3: Graph)
    requires WellFormed(g1) && WellFormed(g2) && Closed(g1, |g0.nodes|) && Closed(g2, |g1.nodes|)
    requires Extends(g0, g1, |g0.nodes|) && Extends(g1, g2, |g1.nodes|) && Extends(g2, g3, |g0.nodes|)
    ensures SameBetween(g1, g3, |g0.nodes|, |g1.nodes|)
    ensures SameBetween(g2, g3, |g1.nodes|, |g2.nodes|)
    ensures Extends(g0, g3, |g0.nodes|)
  {
    ExtensionKeeps(g2, g3, |g1.nodes|, |g0.nodes|);
    ExtendsLower(g1, g2, |g0.nodes|, |g1.nodes|);
    ExtendsTwice(g1, g2, g3, |g0.nodes|, |g0.nodes|);
    ExtensionKeeps(g1, g3, |g0.nodes|, |g0.nodes|);
    ExtendsTwice(g0, g1, g3, |g0.nodes|, |g0.nodes|);
  }

  lemma ExtendsLower(g: Graph, g': Graph, lo: nat, from: nat)
    requires Extends(g, g', from) && lo <= from
    ensures Extends(g, g', lo)
  {
  }

  function AddJoin(g: Graph, node: Node, l: nat, r: nat): Graph {
    AddEdge(AddEdge(AddNode(g, node), l, node.id), r, node.id)
  }

  lemma JoinShape(g0: Graph, g1: Graph, g2: Graph, l: nat, r: nat, node: Node)
    requires Grown(g0, g1) && Grown(g1, g2)
    requires |g0.nodes| <= l < |g1.nodes| <= r < |g2.nodes| && node.id == |g2.nodes|
    ensures var g3 := AddJoin(g2, node, l, r);
            && Grown(g0, g3)
            && SameBetween(g1, g3, |g0.nodes|, |g1.nodes|)
            && SameBetween(g2, g3, |g1.nodes|, |g2.nodes|)
            && Inputs(g3.edges, node.id) == [l, r]
  {
    GrownClosed(g0, g1);
    GrownClosed(g1, g2);
    JoinKeepsParts(g0, g1, g2, AddJoin(g2, node, l, r));
    TwoInputs(g2.edges, l, r, node.id);
  }

  lemma JoinParts(g0: Graph, g1: Graph, g2: Graph, l: nat, r: nat, left: Plan, right: Plan, node: Node)
    requires Built(g0, g1, l, left) && Built(g1, g2, r, right)
    requires node.id == |g2.nodes| && node.operatorType.JoinOp?
    ensures var g3, fuel := AddJoin(g2, node, l, r), |g2.nodes| - |g0.nodes|;
            && Grown(g0, g3)
            && Inputs(g3.edges, node.id) == [l, r]
            && PlanOf(g3, l, fuel) == Some(left)
            && PlanOf(g3, r, fuel) == Some(right)
  {
    var g3, fuel := AddJoin(g2, node, l, r), |g2.nodes| - |g0.nodes|;
    JoinShape(g0, g1, g2, l, r, node);
    PartDelivers(g0, g1, g3, l, left, fuel);
    PartDelivers(g1, g2, g3, r, right, fuel);
  }

  /** A join on top of two parts built one after the other. */
  lemma BuiltJoin(g0: Graph, g1: Graph, g2: Graph, l: nat, r: nat, left: Plan, right: Plan, node: Node)
    requires Built(g0, g1, l, left) && Built(g1, g2, r, right)
    requires node.id == |g2.nodes| && node.operatorType.JoinOp?
    ensures Built(g0, AddJoin(g2, node, l, r), node.id, Binary(node, left, right))
  {
    JoinParts(g0, g1, g2, l, r, left, right, node);
    JoinOnce(|g0.nodes|, |g1.nodes|, node, left, right);
    PlanOfTwo(AddJoin(g2, node, l, r), node.id, l, r, node.id + 1 - |g0.nodes|, left, right);
  }

  lemma UnaryOnce(a: nat, node: Node, p: Plan)
    requires a <= node.id && EachOnce(p, a, node.id)
    ensures EachOnce(Unary(node, p), a, node.id + 1)
  {
  }

  lemma JoinOnce(a: nat, b: nat, node: Node, l: Plan, r: Plan)
    requires a <= b <= node.id && EachOnce(l, a, b) && EachOnce(r, b, node.id)
    ensures EachOnce(Binary(node, l, r), a, node.id + 1)
  {
  }

  lemma UnionOnce(a: nat, c: nat, node: Node, l: Plan, r: Plan)
    requires a <= node.id < c && EachOnce(l, a, node.id) && EachOnce(r, node.id + 1, c)
    ensures EachOnce(Binary(node, l, r), a, c)
  {
  }

  lemma TwoInputs(edges: seq<Edge>, l: nat, r: nat, id: nat)
    requires forall e <- edges :: e.to != id
    ensures var one := edges + [Edge(|edges|, l, id)];
            Inputs(one + [Edge(|edges| + 1, r, id)], id) == [l, r]
  {
    var one := edges + [Edge(|edges|, l, id)];
    var two := one + [Edge(|edges| + 1, r, id)];
    NoInputs(edges, id);
    assert one[..|edges|] == edges && two[..|one|] == one;
  }

  function AddInputs(g: Graph, id: nat, l: nat, r: nat): Graph {
    AddEdge(AddEdge(g, l, id), r, id)
  }

  lemma UnionShape(g0: Graph, g1: Graph, g2: Graph, l: nat, r: nat, node: Node)
    requires node.id == |g1.nodes| && Grown(g0, g1) && Grown(AddNode(g1, node), g2)
    requires |g0.nodes| <= l < node.id < r < |g2.nodes|
    ensures var g3 := AddInputs(g2, node.id, l, r);
            && Grown(g0, g3) && g3.nodes[node.id] == node
            && SameBetween(g1, g3, |g0.nodes|, node.id)
            && SameBetween(g2, g3, node.id + 1, |g2.nodes|)
            && Inputs(g3.edges, node.id) == [l, r]
  {
    var g3, gu := AddInputs(g2, node.id, l, r), AddNode(g1, node);
    GrownClosed(g0, g1);
    GrownClosed(gu, g2);
    UnionKeepsRight(g2, g3, node.id);
    UnionKeepsLeft(g0, g1, gu, g2, g3);
    NotYetEntered(gu, g2, node.id);
    TwoInputs(g2.edges, l, r, node.id);
    assert g3.nodes[node.id] == gu.nodes[node.id];
  }

  lemma UnionParts(g0: Graph, g1: Graph, g2: Graph, l: nat, r: nat, left: Plan, right: Plan, node: Node)
    requires node.id == |g1.nodes| && node.operatorType.UnionOp?
    requires Built(g0, g1, l, left) && Built(AddNode(g1, node), g2, r, right)
    ensures var g3, fuel := AddInputs(g2, node.id, l, r), |g2.nodes| - |g0.nodes| - 1;
            && Grown(g0, g3) && g3.nodes[node.id] == node
            && Inputs(g3.edges, node.id) == [l, r]
            && PlanOf(g3, l, fuel) == Some(left)
            && PlanOf(g3, r, fuel) == Some(right)
  {
    var g3, fuel := AddInputs(g2, node.id, l, r), |g2.nodes| - |g0.nodes| - 1;
    UnionShape(g0, g1, g2, l, r, node);
    PartDelivers(g0, g1, g3, l, left, fuel);
    PartDelivers(AddNode(g1, node), g2, g3, r, right, fuel);
  }

  /** A union whose node was made between its two parts. */
  lemma BuiltUnion(g0: Graph, g1: Graph, g2: Graph, l: nat, r: nat, left: Plan, right: Plan, node: Node)
    requires node.id == |g1.nodes| && node.operatorType.UnionOp?
    requires Built(g0, g1, l, left) && Built(AddNode(g1, node), g2, r, right)
    ensures Built(g0, AddInputs(g2, node.id, l, r), node.id, Binary(node, left, right))
  {
    UnionParts(g0, g1, g2, l, r, left, right, node);
    UnionOnce(|g0.nodes|, |g2.nodes|, node, left, right);
    PlanOfTwo(AddInputs(g2, node.id, l, r), node.id, l, r, |g2.nodes| - |g0.nodes|, left, right);
  }

  /** Nothing that is built after the union node enters it. */
  lemma NotYetEntered(gu: Graph, g2: Graph, id: nat)
    requires |gu.nodes| == id + 1 && Extends(gu, g2, id + 1)
    requires forall i :: 0 <= i < |gu.edges| ==> gu.edges[i].to != id
    ensures forall e <- g2.edges :: e.to != id
  {
    assert forall i :: 0 <= i < |gu.edges| ==> g2.edges[i] == gu.edges[i];
  }

  lemma UnionKeepsLeft(g0: Graph, g1: Graph, gu: Graph, g2: Graph, g3: Graph)
    requires WellFormed(g1) && Closed(g1, |g0.nodes|) && Extends(g0, g1, |g0.nodes|)
    requires g1.nodes <= gu.nodes && g1.edges == gu.edges && |gu.nodes| == |g1.nodes| + 1
    requires Extends(gu, g2, |gu.nodes|)
    requires g3.nodes == g2.nodes && g2.edges <= g3.edges
    requires forall i :: |g2.edges| <= i < |g3.edges| ==> g3.edges[i].from >= |g0.nodes| && g3.edges[i].to == |g1.nodes|
    ensures SameBetween(g1, g3, |g0.nodes|, |g1.nodes|)
    ensures Extends(g0, g3, |g0.nodes|)
  {
    assert forall i :: |g1.edges| <= i < |g2.edges| ==> g3.edges[i] == g2.edges[i];
    assert Extends(g1, g3, |g0.nodes|);
    ExtensionKeeps(g1, g3, |g0.nodes|, |g0.nodes|);
    ExtendsTwice(g0, g1, g3, |g0.nodes|, |g0.nodes|);
  }

  /** Edges into an older node do not disturb the nodes after it. */
  lemma UnionKeepsRight(g: Graph, g': Graph, id: nat)
    requires WellFormed(g) && Closed(g, id + 1) && g'.nodes == g.nodes && g.edges <= g'.edges
    requires forall i :: |g.edges| <= i < |g'.edges| ==> g'.edges[i].to == id
    ensures SameBetween(g, g', id + 1, |g.nodes|)
  {
    var more := g'.edges[|g.edges|..];
    assert g'.edges == g.edges + more;
    forall i | id + 1 <= i < |g.nodes|
      ensures Inputs(g.edges, i) == Inputs(g'.edges, i)
      ensures forall j <- Inputs(g.edges, i) :: id + 1 <= j < |g.nodes|
    {
      assert forall k :: 0 <= k < |more| ==> more[k] == g'.edges[|g.edges| + k];
      InputsAppend(g.edges, more, i);
      forall j | j in Inputs(g.edges, i)
        ensures id + 1 <= j < |g.nodes|
      {
        InputsFrom(g.edges, i, j);
      }
    }
  }

  lemma OutShape(out: Node, g: Graph, top: nat)
    requires Grown(Graph([out], []), g)
    requires 1 <= top < |g.nodes|
    ensures var g' := AddEdge(g, top, 0);
            && WellFormed(g') && g'.nodes[0] == out && SameBetween(g, g', 1, |g.nodes|)
            && Inputs(g'.edges, 0) == [top]
  {
    var g' := AddEdge(g, top, 0);
    GrownClosed(Graph([out], []), g);
    UnionKeepsRight(g, g', 0);
    NotYetEntered(Graph([out], []), g, 0);
    OneInput(g.edges, top, 0);
    assert g'.nodes[0] == Graph([out], []).nodes[0];
  }

  /** The finished graph: the out node, made first, on top of everything. */
  lemma BuiltOut(out: Node, g: Graph, top: nat, plan: Plan)
    requires out.id == 0 && out.operatorType.OutOp?
    requires Built(Graph([out], []), g, top, plan)
    ensures var g' := AddEdge(g, top, 0);
            && WellFormed(g') && PlanOf(g', 0, |g'.nodes|) == Some(Unary(out, plan))
            && EachOnce(Unary(out, plan), 0, |g'.nodes|)
  {
    var g0, g' := Graph([out], []), AddEdge(g, top, 0);
    OutShape(out, g, top);
    PartDelivers(g0, g, g', top, plan, |g.nodes| - 1);
    PlanOfOne(g', 0, top, |g.nodes|, plan);
  }
}
