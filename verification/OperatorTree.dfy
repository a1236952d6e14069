/** A graph whose reading meets every node exactly once is a tree directed into its root. */
module OperatorTree {
  import opened Common
  import opened OperatorGraph

  /** How many edges leave a node. */
  function OutDegree(edges: seq<Edge>, id: nat): nat {
    if edges == [] then 0
    else
      var n := |edges| - 1;
      OutDegree(edges[..n], id) + if edges[n].from == id then 1 else 0
  }

  function Arity(op: OperatorType): nat {
    if op.InOp? then 0 else if op.JoinOp? || op.UnionOp? then 2 else 1
  }

  predicate IsWalk(edges: seq<Edge>, p: seq<nat>) {
    forall i :: 0 <= i < |p| - 1 ==> p[i] in Inputs(edges, p[i + 1])
  }

  ghost predicate IsTree(g: Graph, root: nat) {
    && root < |g.nodes|
    && (forall id :: 0 <= id < |g.nodes| ==> OutDegree(g.edges, id) == if id == root then 0 else 1)
    && (forall id :: 0 <= id < |g.nodes| ==> |Inputs(g.edges, id)| == Arity(g.nodes[id].operatorType))
    && (forall p: seq<nat> :: |p| >= 2 && p[0] == p[|p| - 1] && p[0] < |g.nodes| ==> !IsWalk(g.edges, p))
  }

  // ---------------------------------------------------------------- no cycle

  lemma InputDelivers(g: Graph, id: nat, j: nat, n: nat)
    requires PlanOf(g, id, n).Some? && j in Inputs(g.edges, id)
    ensures n > 0 && PlanOf(g, j, n - 1).Some?
  {
  }

  lemma {:induction false} WalkDelivers(g: Graph, p: seq<nat>, n: nat)
    requires p != [] && IsWalk(g.edges, p) && PlanOf(g, p[|p| - 1], n).Some?
    ensures n >= |p| && PlanOf(g, p[0], n - (|p| - 1)).Some?
    decreases |p|
  {
    if |p| > 1 {
      var k := |p| - 2;
      assert p[k] in Inputs(g.edges, p[k + 1]);
      InputDelivers(g, p[k + 1], p[k], n);
      var q := p[..k + 1];
      forall i | 0 <= i < |q| - 1
        ensures q[i] in Inputs(g.edges, q[i + 1])
      {
        assert q[i + 1] == p[i + 1];
      }
      WalkDelivers(g, p[..k + 1], n - 1);
    }
  }

  /** A node on a cycle never delivers, however many levels are allowed. */
  lemma {:induction false} CycleNeverDelivers(g: Graph, p: seq<nat>, n: nat)
    requires |p| >= 2 && p[0] == p[|p| - 1] && IsWalk(g.edges, p)
    ensures PlanOf(g, p[0], n).None?
    decreases n
  {
    if PlanOf(g, p[0], n).Some? {
      WalkDelivers(g, p, n);
      CycleNeverDelivers(g, p, n - (|p| - 1));
      assert false;
    }
  }

  lemma PlanParts(g: Graph, id: nat, n: nat, p: Plan)
    requires WellFormed(g) && PlanOf(g, id, n) == Some(p)
    ensures id < |g.nodes| && n > 0 && p.node == g.nodes[id] && p.node.id == id
    ensures var ins := Inputs(g.edges, id);
            match p
            case Source(_) => ins == []
            case Unary(_, input) => |ins| == 1 && ins == [ins[0]] && PlanOf(g, ins[0], n - 1) == Some(input)
            case Binary(_, left, right) =>
              && |ins| == 2 && ins == [ins[0], ins[1]]
              && PlanOf(g, ins[0], n - 1) == Some(left) && PlanOf(g, ins[1], n - 1) == Some(right)
  {
  }

  lemma {:induction false} OccurringDelivers(g: Graph, id: nat, n: nat, p: Plan, x: nat)
    requires WellFormed(g) && PlanOf(g, id, n) == Some(p) && Times(p, x) > 0
    ensures x < |g.nodes| && PlanOf(g, x, n).Some?
    decreases p
  {
    var ins := Inputs(g.edges, id);
    PlanParts(g, id, n, p);
    if x != id {
      match p
      case Source(_) =>
      case Unary(_, input) =>
        OccurringDelivers(g, ins[0], n - 1, input, x);
        PlanOfMono(g, x, n - 1, n);
      case Binary(_, left, right) =>
        if Times(left, x) > 0 {
          OccurringDelivers(g, ins[0], n - 1, left, x);
        } else {
          OccurringDelivers(g, ins[1], n - 1, right, x);
        }
        PlanOfMono(g, x, n - 1, n);
    }
  }

  lemma DeliversFitsArity(g: Graph, id: nat, n: nat)
    requires PlanOf(g, id, n).Some?
    ensures id < |g.nodes| && |Inputs(g.edges, id)| == Arity(g.nodes[id].operatorType)
  {
  }

  // ---------------------------------------------------------------- one way out

  /** Occurrences that x can have along its outgoing edges. */
  function EdgeTimes(edges: seq<Edge>, p: Plan, x: nat): nat {
    if edges == [] then 0
    else
      var n := |edges| - 1;
      EdgeTimes(edges[..n], p, x) + if edges[n].from == x then Times(p, edges[n].to) else 0
  }

  function Count(s: seq<nat>, x: nat): nat {
    if s == [] then 0 else Count(s[..|s| - 1], x) + if s[|s| - 1] == x then 1 else 0
  }

  lemma {:induction false} EdgeTimesSource(edges: seq<Edge>, p: Plan, x: nat)
    requires p.Source?
    ensures EdgeTimes(edges, p, x) == Count(Inputs(edges, p.node.id), x)
    decreases |edges|
  {
    if edges != [] {
      EdgeTimesSource(edges[..|edges| - 1], p, x);
    }
  }

  lemma {:induction false} EdgeTimesUnary(edges: seq<Edge>, p: Plan, x: nat)
    requires p.Unary?
    ensures EdgeTimes(edges, p, x) == EdgeTimes(edges, p.input, x) + Count(Inputs(edges, p.node.id), x)
    decreases |edges|
  {
    if edges != [] {
      EdgeTimesUnary(edges[..|edges| - 1], p, x);
    }
  }

  lemma {:induction false} EdgeTimesBinary(edges: seq<Edge>, p: Plan, x: nat)
    requires p.Binary?
    ensures EdgeTimes(edges, p, x)
         == EdgeTimes(edges, p.left, x) + EdgeTimes(edges, p.right, x) + Count(Inputs(edges, p.node.id), x)
    decreases |edges|
  {
    if edges != [] {
      EdgeTimesBinary(edges[..|edges| - 1], p, x);
    }
  }

  lemma CountTwo(a: nat, b: nat, x: nat)
    ensures Count([a], x) == if a == x then 1 else 0
    ensures Count([a, b], x) == (if a == x then 1 else 0) + if b == x then 1 else 0
  {
    assert [a][..0] == [] && [a, b][..1] == [a];
  }

  /** Every occurrence of a node other than the topmost comes along an edge out of it, and conversely. */
  lemma {:induction false} TimesAlongEdges(g: Graph, id: nat, n: nat, p: Plan, x: nat)
    requires WellFormed(g) && PlanOf(g, id, n) == Some(p)
    ensures Times(p, x) == (if x == id then 1 else 0) + EdgeTimes(g.edges, p, x)
    decreases p
  {
    var ins := Inputs(g.edges, id);
    PlanParts(g, id, n, p);
    match p
    case Source(_) =>
      EdgeTimesSource(g.edges, p, x);
    case Unary(_, input) =>
      TimesAlongEdges(g, ins[0], n - 1, input, x);
      EdgeTimesUnary(g.edges, p, x);
      CountTwo(ins[0], ins[0], x);
    case Binary(_, left, right) =>
      TimesAlongEdges(g, ins[0], n - 1, left, x);
      TimesAlongEdges(g, ins[1], n - 1, right, x);
      EdgeTimesBinary(g.edges, p, x);
      CountTwo(ins[0], ins[1], x);
  }

  lemma {:induction false} OnceIsDegree(edges: seq<Edge>, p: Plan, x: nat)
    requires forall i :: 0 <= i < |edges| ==> Times(p, edges[i].to) == 1
    ensures EdgeTimes(edges, p, x) == OutDegree(edges, x)
    decreases |edges|
  {
    if edges != [] {
      OnceIsDegree(edges[..|edges| - 1], p, x);
    }
  }

  /** Reading from the root meets every node once: one edge out of every other node, and no cycle. */
  lemma ReadingShowsTree(g: Graph, root: nat, n: nat, p: Plan)
    requires WellFormed(g) && PlanOf(g, root, n) == Some(p) && EachOnce(p, 0, |g.nodes|)
    ensures IsTree(g, root)
  {
    DeliversFitsArity(g, root, n);
    forall id | 0 <= id < |g.nodes|
      ensures OutDegree(g.edges, id) == if id == root then 0 else 1
    {
      TimesAlongEdges(g, root, n, p, id);
      OnceIsDegree(g.edges, p, id);
    }
    forall id | 0 <= id < |g.nodes|
      ensures |Inputs(g.edges, id)| == Arity(g.nodes[id].operatorType)
    {
      OccurringDelivers(g, root, n, p, id);
      DeliversFitsArity(g, id, n);
    }
    forall w: seq<nat> | |w| >= 2 && w[0] == w[|w| - 1] && w[0] < |g.nodes|
      ensures !IsWalk(g.edges, w)
    {
      OccurringDelivers(g, root, n, p, w[0]);
      if IsWalk(g.edges, w) {
        CycleNeverDelivers(g, w, n);
        assert false;
      }
    }
  }
}
