/**
 * Each thing the compiler adds to the graph, and what it does to the rows delivered: one lemma for each
 * kind of node, over any part of the graph built before.
 */
module CompileSteps {
  import opened QueryTree
  import opened Common
  import opened OperatorSemantics
  import opened RenameOrder
  import opened QueryMeaning
  import opened OperatorGraph
  import opened PlanMeaning

  /** The part of the graph built since `g0` gives this at `top`, provided `safe` holds. */
  ghost predicate Yields<V>(env: Env<V>, g0: Graph, g: Graph, top: nat, plan: Plan, safe: bool, result: Option<seq<Row<V>>>) {
    Built(g0, g, top, plan) && CallsAreComputed(plan) && (safe ==> PlanRows(env, plan) == result)
  }

  /** It delivers these rows. */
  ghost predicate Delivers<V>(env: Env<V>, g0: Graph, g: Graph, top: nat, plan: Plan, safe: bool, rows: seq<Row<V>>) {
    Yields(env, g0, g, top, plan, safe, Some(rows))
  }

  /** It delivers these rows with a column for each of the calls. */
  ghost predicate Computes<V>(env: Env<V>, g0: Graph, g: Graph, top: nat, plan: Plan, safe: bool,
                              rows: seq<Row<V>>, calls: set<string>) {
    && Delivers(env, g0, g, top, plan, safe, ExtendAll(env, rows, calls))
    && CallsOnly(calls) && calls <= Available(plan)
  }

  function OnTop(g: Graph, node: Node, top: nat): Graph {
    AddEdge(AddNode(g, node), top, node.id)
  }

  lemma StepUnary<V>(env: Env<V>, g0: Graph, g: Graph, top: nat, plan: Plan, safe: bool, rows: seq<Row<V>>, node: Node)
    requires Delivers(env, g0, g, top, plan, safe, rows) && node.id == |g.nodes| && IsUnary(node.operatorType)
    requires CallsRead(node) <= Available(plan)
    ensures Yields(env, g0, OnTop(g, node, top), node.id, Unary(node, plan), safe, ApplyUnary(env, node, rows))
  {
    BuiltUnary(g0, g, top, plan, node);
  }

  lemma ComputesNothing<V>(env: Env<V>, g0: Graph, g: Graph, top: nat, plan: Plan, safe: bool, rows: seq<Row<V>>)
    requires Delivers(env, g0, g, top, plan, safe, rows)
    ensures Computes(env, g0, g, top, plan, safe, rows, {})
  {
    ExtendNothing(env, rows);
  }

  /** An eval node over the nodes of its nested calls. */
  lemma StepEval<V>(env: Env<V>, g0: Graph, g: Graph, top: nat, plan: Plan, safe: bool, rows: seq<Row<V>>, calls: set<string>,
                    name: string, args: seq<Expr>, node: Node)
    requires Computes(env, g0, g, top, plan, safe, rows, calls)
    requires ExprOk(Function(name, args)) && TermsOf(args) <= calls
    requires node.id == |g.nodes| && node.operatorType.EvalOp? && node.parameter == Text(Function(name, args))
    ensures Computes(env, g0, OnTop(g, node, top), node.id, Unary(node, plan), safe, rows, calls + {node.parameter})
  {
    EvalReadsArguments(name, args, node);
    StepUnary(env, g0, g, top, plan, safe, ExtendAll(env, rows, calls), node);
    EvalExtendsAll(env, name, args, rows, calls);
    CallsAndOneMore(name, args, calls);
  }

  lemma StepSelection<V>(env: Env<V>, g0: Graph, g: Graph, top: nat, plan: Plan, safe: bool, rows: seq<Row<V>>, calls: set<string>,
                         ps: seq<Predicate>, node: Node)
    requires Computes(env, g0, g, top, plan, safe, rows, calls) && PredicateTerms(ps) <= calls
    requires PredicatesOk(ps)
    requires node.id == |g.nodes| && node.operatorType.SelectionOp? && node.parameter == PredicateListText(ps)
    ensures Computes(env, g0, OnTop(g, node, top), node.id, Unary(node, plan), safe, Filter(HoldAll(env, ps), rows), calls)
  {
    SelectionReadsPredicates(ps, node);
    StepUnary(env, g0, g, top, plan, safe, ExtendAll(env, rows, calls), node);
    SelectionIsWhere(env, ps, rows, calls);
  }

  // ---------------------------------------------------------------- select lists

  /** Output columns when the first n renames have been done, unless one of them has failed. */
  function StageRow<V>(env: Env<V>, items: seq<SelectItem>, n: nat): Row<V> -> Option<Row<V>>
    requires n <= |items|
  {
    row => InTurn(Namings(items), n, Columns(env, items, row))
  }

  function StageRows<V>(env: Env<V>, items: seq<SelectItem>, n: nat, rows: seq<Row<V>>): Option<seq<Row<V>>>
    requires n <= |items|
  {
    TryRows(StageRow(env, items, n), rows)
  }

  lemma StageStarts<V>(env: Env<V>, items: seq<SelectItem>, rows: seq<Row<V>>, calls: set<string>)
    requires ItemsOk(items) && TermsOf(Exprs(items)) <= calls && CallsOnly(calls)
    ensures Some(MapRows(Projecting(env, FindColumns(items)), ExtendAll(env, rows, calls))) == StageRows(env, items, 0, rows)
  {
    forall i | 0 <= i < |rows|
      ensures StageRow(env, items, 0)(rows[i]) == Some(ProjectRow(env, FindColumns(items), Extend(env, rows[i], calls)))
    {
      ProjectionBuilds(env, items, rows[i], calls);
    }
    assert MapRows(Projecting(env, FindColumns(items)), ExtendAll(env, rows, calls))
        == MapRows(OrSame(StageRow(env, items, 0)), rows);
  }

  /** Doing one thing after the other with all rows is doing both with each. */
  lemma TryRowsThen<V>(f: Row<V> -> Option<Row<V>>, g: Row<V> -> Option<Row<V>>, h: Row<V> -> Option<Row<V>>, rows: seq<Row<V>>)
    requires forall i :: 0 <= i < |rows| ==> h(rows[i]) == if f(rows[i]).None? then None else g(f(rows[i]).value)
    ensures TryRows(h, rows) == if TryRows(f, rows).None? then None else TryRows(g, TryRows(f, rows).value)
  {
    if TryRows(f, rows).Some? {
      var mid := MapRows(OrSame(f), rows);
      forall i | 0 <= i < |rows|
        ensures h(rows[i]) == g(mid[i])
      {
      }
      if TryRows(g, mid).Some? {
        assert MapRows(OrSame(h), rows) == MapRows(OrSame(g), mid);
      } else {
        var i :| 0 <= i < |mid| && g(mid[i]).None?;
        assert h(rows[i]).None?;
      }
    } else {
      var i :| 0 <= i < |rows| && f(rows[i]).None?;
      assert h(rows[i]).None?;
    }
  }

  lemma StageAdvances<V>(env: Env<V>, items: seq<SelectItem>, n: nat, rows: seq<Row<V>>)
    requires ItemsOk(items) && n < |items| && items[n].Renamed?
    ensures var param, done := RenameText(Text(items[n].expr), items[n].newname), StageRows(env, items, n, rows);
            StageRows(env, items, n + 1, rows) == if done.None? then None else TryRows(RenamingColumn(param), done.value)
  {
    var param := RenameText(Text(items[n].expr), items[n].newname);
    assert items[n] in items;
    forall i | 0 <= i < |rows|
      ensures var done := StageRow(env, items, n)(rows[i]);
              StageRow(env, items, n + 1)(rows[i]) == if done.None? then None else RenamingColumn(param)(done.value)
    {
      if StageRow(env, items, n)(rows[i]).Some? {
        RenameMoves(items[n], StageRow(env, items, n)(rows[i]).value);
      }
    }
    TryRowsThen(StageRow(env, items, n), RenamingColumn(param), StageRow(env, items, n + 1), rows);
  }

  lemma SameTryRows<V>(f: Row<V> -> Option<Row<V>>, g: Row<V> -> Option<Row<V>>, rows: seq<Row<V>>)
    requires forall i :: 0 <= i < |rows| ==> f(rows[i]) == g(rows[i])
    ensures TryRows(f, rows) == TryRows(g, rows)
  {
    assert MapRows(OrSame(f), rows) == MapRows(OrSame(g), rows);
  }

  lemma StageStays<V>(env: Env<V>, items: seq<SelectItem>, n: nat, rows: seq<Row<V>>)
    requires n < |items| && items[n].Plain?
    ensures StageRows(env, items, n, rows) == StageRows(env, items, n + 1, rows)
  {
    forall i | 0 <= i < |rows|
      ensures StageRow(env, items, n)(rows[i]) == StageRow(env, items, n + 1)(rows[i])
    {
    }
    SameTryRows(StageRow(env, items, n), StageRow(env, items, n + 1), rows);
  }

  lemma StageEnds<V>(env: Env<V>, items: seq<SelectItem>, rows: seq<Row<V>>)
    requires ItemsOk(items) && Safe(Namings(items)) && KnownSelect(env, SelectList(items), rows)
    ensures StageRows(env, items, |items|, rows) == Some(MapRows(SelectRow(env, items), rows))
  {
    forall i | 0 <= i < |rows|
      ensures StageRow(env, items, |items|)(rows[i]) == Some(SelectRow(env, items)(rows[i]))
    {
      SelectIsInTurn(env, items, rows[i]);
    }
    assert MapRows(OrSame(StageRow(env, items, |items|)), rows) == MapRows(SelectRow(env, items), rows);
  }

  lemma StepProjection<V>(env: Env<V>, g0: Graph, g: Graph, top: nat, plan: Plan, safe: bool, rows: seq<Row<V>>, calls: set<string>,
                          items: seq<SelectItem>, node: Node)
    requires Computes(env, g0, g, top, plan, safe, rows, calls) && TermsOf(Exprs(items)) <= calls
    requires ItemsOk(items)
    requires node.id == |g.nodes| && node.operatorType.ProjectionOp? && node.parameter == FindColumns(items)
    ensures Yields(env, g0, OnTop(g, node, top), node.id, Unary(node, plan), safe, StageRows(env, items, 0, rows))
  {
    ProjectionReadsColumns(items, node);
    StepUnary(env, g0, g, top, plan, safe, ExtendAll(env, rows, calls), node);
    StageStarts(env, items, rows, calls);
  }

  lemma StepRenameColumn<V>(env: Env<V>, g0: Graph, g: Graph, top: nat, plan: Plan, safe: bool, rows: seq<Row<V>>,
                            items: seq<SelectItem>, n: nat, node: Node)
    requires ItemsOk(items) && n < |items| && items[n].Renamed?
    requires Yields(env, g0, g, top, plan, safe, StageRows(env, items, n, rows))
    requires node.id == |g.nodes| && node.operatorType.RenameColumnOp?
    requires node.parameter == RenameText(Text(items[n].expr), items[n].newname)
    ensures Yields(env, g0, OnTop(g, node, top), node.id, Unary(node, plan), safe, StageRows(env, items, n + 1, rows))
  {
    BuiltUnary(g0, g, top, plan, node);
    StageAdvances(env, items, n, rows);
  }

  // ---------------------------------------------------------------- tables

  lemma StepIn<V>(env: Env<V>, g: Graph, node: Node)
    requires WellFormed(g) && node.id == |g.nodes| && node.operatorType.InOp?
    ensures Delivers(env, g, AddNode(g, node), node.id, Source(node), true, env.read(node.parameter, node.window))
  {
    BuiltIn(g, node);
  }

  lemma StepRenameTable<V>(env: Env<V>, g0: Graph, g: Graph, top: nat, plan: Plan, safe: bool, rows: seq<Row<V>>,
                           oldname: string, newname: string, node: Node)
    requires Delivers(env, g0, g, top, plan, safe, rows) && IsToken(oldname) && IsToken(newname)
    requires node.id == |g.nodes| && node.operatorType.RenameTableOp? && node.parameter == RenameText(oldname, newname)
    ensures Delivers(env, g0, OnTop(g, node, top), node.id, Unary(node, plan), safe,
                     MapRows(RenamingTable(env, oldname, newname), rows))
  {
    RenameParses(oldname, newname);
    StepUnary(env, g0, g, top, plan, safe, rows, node);
    assert MapRows(Retabling(env, node.parameter), rows) == MapRows(RenamingTable(env, oldname, newname), rows);
  }

  lemma StepJoin<V>(env: Env<V>, g0: Graph, g1: Graph, g2: Graph, l: nat, r: nat, p: Plan, q: Plan,
                    safe: bool, safe': bool, left: seq<Row<V>>, right: seq<Row<V>>, node: Node)
    requires Delivers(env, g0, g1, l, p, safe, left) && Delivers(env, g1, g2, r, q, safe', right)
    requires node.id == |g2.nodes| && node.operatorType.JoinOp?
    ensures Delivers(env, g0, AddJoin(g2, node, l, r), node.id, Binary(node, p, q), safe && safe', Cross(left, right))
  {
    BuiltJoin(g0, g1, g2, l, r, p, q, node);
  }

  lemma StepUnion<V>(env: Env<V>, g0: Graph, g1: Graph, g2: Graph, l: nat, r: nat, p: Plan, q: Plan,
                     safe: bool, safe': bool, left: seq<Row<V>>, right: seq<Row<V>>, node: Node)
    requires Delivers(env, g0, g1, l, p, safe, left) && Delivers(env, AddNode(g1, node), g2, r, q, safe', right)
    requires node.id == |g1.nodes| && node.operatorType.UnionOp?
    ensures Delivers(env, g0, AddInputs(g2, node.id, l, r), node.id, Binary(node, p, q), safe && safe', left + right)
  {
    BuiltUnion(g0, g1, g2, l, r, p, q, node);
  }
}
