/** The compiler from query parse trees to operator graphs. */
module OperatorTreeGenerator {
  import opened Common
  import opened StringUtil
  import opened QueryTree
  import opened OperatorSemantics
  import opened RenameOrder
  import opened QueryMeaning
  import opened OperatorGraph
  import opened OperatorTree
  import opened PlanMeaning
  import opened CompileSteps
  import opened QuerySources

  // ---------------------------------------------------------------- texts, without nodes

  method ExpressionText(e: Expr) returns (text: string)
    ensures text == Text(e)
    decreases e, 0
  {
    match e
    case Leaf(value) => text := value;
    case Paren(inner) => text := ExpressionText(inner);
    case Function(name, args) =>
      var list := ExpressionListText(args);
      text := name + "(" + list + ")";
  }

  method ExpressionListText(es: seq<Expr>) returns (text: string)
    ensures text == JoinWith(",", Texts(es))
    decreases es, 1
  {
    text := "";
    ghost var texts := Texts(es);
    SoFarEnds(",", texts);
    for i := 0 to |es|
      invariant text == SoFar(",", texts, i)
    {
      var part := ExpressionText(es[i]);
      SoFarNext(",", texts, i);
      text := text + part;
      if i + 1 < |es| {
        text := text + ",";
      }
    }
  }

  method ColumnsText(items: seq<SelectItem>) returns (text: string)
    ensures text == FindColumns(items)
  {
    text := "";
    ghost var texts := Texts(Exprs(items));
    SoFarEnds(",", texts);
    for i := 0 to |items|
      invariant text == SoFar(",", texts, i)
    {
      var part := ExpressionText(items[i].expr);
      SoFarNext(",", texts, i);
      text := text + part;
      if i + 1 < |items| {
        text := text + ",";
      }
    }
  }

  /** findTableNames, merging the sorted lists of a FROM list from left to right. */
  method FindTableNames(t: Table) returns (names: seq<string>)
    ensures names == TableNames(t)
    decreases t, 0
  {
    match t
    case Stream(name, _, _, _) => names := [name];
    case Nested(sub) => names := FindFromNames(sub.from);
  }

  method FindItemNames(f: FromItem) returns (names: seq<string>)
    ensures names == ItemNames(f)
    decreases f, 0
  {
    match f
    case PlainTable(t) => names := FindTableNames(t);
    case TableRename(newname, _) => names := [newname];
  }

  method FindFromNames(from: seq<FromItem>) returns (names: seq<string>)
    ensures names == FromNames(from)
    decreases from, 1
  {
    names := [];
    for i := 0 to |from|
      invariant names == FromNames(from[..i])
    {
      var more := FindItemNames(from[i]);
      names := Merge(names, more);
      assert from[..i + 1][..i] == from[..i];
    }
    assert from[..|from|] == from;
  }

  // ---------------------------------------------------------------- the generator

  class OperatorTreeGenerator {
    var graph: Graph
    var ncount: nat
    var ecount: nat

    ghost predicate Valid()
      reads this
    {
      WellFormed(graph) && ncount == |graph.nodes| && ecount == |graph.edges|
    }

    constructor ()
      ensures Valid() && graph == Graph([], [])
    {
      graph, ncount, ecount := Graph([], []), 0, 0;
    }

    method NewNode(operatorType: OperatorType, parameter: string, window: map<string, string>) returns (n: Node)
      requires Valid()
      modifies this
      ensures Valid() && n == Node(|old(graph).nodes|, operatorType, parameter, window)
      ensures graph == AddNode(old(graph), n)
    {
      n := Node(ncount, operatorType, parameter, window);
      ncount := ncount + 1;
      graph := graph.(nodes := graph.nodes + [n]);
    }

    method CreateEdge(from: nat, to: nat)
      requires Valid() && from < |graph.nodes| && to < |graph.nodes|
      modifies this
      ensures Valid() && graph == AddEdge(old(graph), from, to)
    {
      var edge := Edge(ecount, from, to);
      ecount := ecount + 1;
      graph := graph.(edges := graph.edges + [edge]);
    }

    /** A node over one input. */
    method NewOnTop(operatorType: OperatorType, parameter: string, from: nat) returns (n: Node)
      requires Valid() && from < |graph.nodes|
      modifies this
      ensures Valid() && n == Node(|old(graph).nodes|, operatorType, parameter, map[])
      ensures graph == OnTop(old(graph), n, from)
    {
      n := NewNode(operatorType, parameter, map[]);
      CreateEdge(from, n.id);
    }

    // ---------------------------------------------------------------- expressions in WHERE

    /** analyzeExpression with topNode: eval nodes for the calls, innermost first. */
    method AnalyzeExpression<V>(e: Expr, topNode: nat, ghost env: Env<V>, ghost g0: Graph, ghost plan: Plan,
                                ghost safe: bool, ghost rows: seq<Row<V>>, ghost calls: set<string>)
      returns (text: string, top: nat, ghost plan': Plan)
      requires Valid() && ExprOk(e) && Computes(env, g0, graph, topNode, plan, safe, rows, calls)
      modifies this
      ensures Valid() && Computes(env, g0, graph, top, plan', safe, rows, calls + Terms(e))
      ensures text == Text(e) && SameSources(plan', plan)
      decreases e, 0
    {
      match e
      case Leaf(value) =>
        assert calls + {} == calls;
        text, top, plan' := value, topNode, plan;
      case Paren(inner) =>
        text, top, plan' := AnalyzeExpression(inner, topNode, env, g0, plan, safe, rows, calls);
      case Function(name, args) =>
        text, top, plan' := AnalyzeFunction(name, args, topNode, env, g0, plan, safe, rows, calls);
    }

    method AnalyzeFunction<V>(name: string, args: seq<Expr>, topNode: nat, ghost env: Env<V>, ghost g0: Graph,
                              ghost plan: Plan, ghost safe: bool, ghost rows: seq<Row<V>>, ghost calls: set<string>)
      returns (text: string, top: nat, ghost plan': Plan)
      requires Valid() && ExprOk(Function(name, args)) && Computes(env, g0, graph, topNode, plan, safe, rows, calls)
      modifies this
      ensures Valid() && Computes(env, g0, graph, top, plan', safe, rows, calls + Terms(Function(name, args)))
      ensures text == Text(Function(name, args)) && SameSources(plan', plan)
      decreases args, 2
    {
      var list, in_, inPlan := AnalyzeExpressionList(args, topNode, env, g0, plan, safe, rows, calls);
      text := name + "(" + list + ")";
      ghost var g := graph;
      var eval := NewOnTop(EvalOp, text, in_);
      StepEval(env, g0, g, in_, inPlan, safe, rows, calls + TermsOf(args), name, args, eval);
      top, plan' := eval.id, Unary(eval, inPlan);
      TermsOfCall(name, args, calls);
    }

    method AnalyzeExpressionList<V>(es: seq<Expr>, topNode: nat, ghost env: Env<V>, ghost g0: Graph,
                                    ghost plan: Plan, ghost safe: bool, ghost rows: seq<Row<V>>, ghost calls: set<string>)
      returns (text: string, top: nat, ghost plan': Plan)
      requires Valid() && Computes(env, g0, graph, topNode, plan, safe, rows, calls) && forall e <- es :: ExprOk(e)
      modifies this
      ensures Valid() && Computes(env, g0, graph, top, plan', safe, rows, calls + TermsOf(es))
      ensures text == JoinWith(",", Texts(es)) && SameSources(plan', plan)
      decreases es, 1
    {
      text, top, plan' := "", topNode, plan;
      ghost var texts := Texts(es);
      SoFarEnds(",", texts);
      assert calls + {} == calls;
      for i := 0 to |es|
        invariant Valid() && Computes(env, g0, graph, top, plan', safe, rows, calls + TermsOf(es[..i]))
        invariant text == SoFar(",", texts, i) && SameSources(plan', plan)
      {
        assert es[i] in es;
        var part;
        part, top, plan' := AnalyzeExpression(es[i], top, env, g0, plan', safe, rows, calls + TermsOf(es[..i]));
        SoFarNext(",", texts, i);
        TermsNext(es, i, calls);
        text := text + part;
        if i + 1 < |es| {
          text := text + ",";
        }
      }
      assert es[..|es|] == es;
    }

    // ---------------------------------------------------------------- WHERE

    method AnalyzePredicate<V>(p: Predicate, topNode: nat, ghost env: Env<V>, ghost g0: Graph, ghost plan: Plan,
                               ghost safe: bool, ghost rows: seq<Row<V>>, ghost calls: set<string>)
      returns (text: string, top: nat, ghost plan': Plan)
      requires Valid() && PredicateOk(p) && Computes(env, g0, graph, topNode, plan, safe, rows, calls)
      modifies this
      ensures Valid() && Computes(env, g0, graph, top, plan', safe, rows, calls + Terms(p.left) + Terms(p.right))
      ensures text == PredicateText(p) && SameSources(plan', plan)
    {
      var left, right;
      left, top, plan' := AnalyzeExpression(p.left, topNode, env, g0, plan, safe, rows, calls);
      right, top, plan' := AnalyzeExpression(p.right, top, env, g0, plan', safe, rows, calls + Terms(p.left));
      text := left + p.comparator + right;
    }

    method AnalyzePredicateList<V>(ps: seq<Predicate>, topNode: nat, ghost env: Env<V>, ghost g0: Graph,
                                   ghost plan: Plan, ghost safe: bool, ghost rows: seq<Row<V>>)
      returns (text: string, top: nat, ghost plan': Plan)
      requires Valid() && Computes(env, g0, graph, topNode, plan, safe, rows, {}) && PredicatesOk(ps)
      modifies this
      ensures Valid() && Computes(env, g0, graph, top, plan', safe, rows, PredicateTerms(ps))
      ensures text == PredicateListText(ps) && SameSources(plan', plan)
    {
      text, top, plan' := "", topNode, plan;
      ghost var texts := PredicateTexts(ps);
      SoFarEnds(" AND ", texts);
      for i := 0 to |ps|
        invariant Valid() && Computes(env, g0, graph, top, plan', safe, rows, PredicateTerms(ps[..i]))
        invariant text == SoFar(" AND ", texts, i) && SameSources(plan', plan)
      {
        assert ps[i] in ps;
        var part;
        part, top, plan' := AnalyzePredicate(ps[i], top, env, g0, plan', safe, rows, PredicateTerms(ps[..i]));
        SoFarNext(" AND ", texts, i);
        PredicateTermsNext(ps, i);
        text := text + part;
        if i + 1 < |ps| {
          text := text + " AND ";
        }
      }
      assert ps[..|ps|] == ps;
    }

    /** The rows FROM and WHERE leave, with the columns of the calls in WHERE. */
    method AnalyzeWhere<V>(q: SubQuery, ghost env: Env<V>) returns (top: nat, ghost plan: Plan)
      requires Valid() && SubQueryOk(q)
      modifies this
      ensures Valid() && Computes(env, old(graph), graph, top, plan, Sound(SafeFrom(q.from), KnownFrom(env, q.from)), WhereRows(env, q), WhereTerms(q))
      ensures Covers(plan, StreamsOfFrom(q.from), NamesOfFrom(q.from))
      decreases q, 4
    {
      ghost var g0 := graph;
      ghost var rows, safe := FromRows(env, q.from), Sound(SafeFrom(q.from), KnownFrom(env, q.from));
      top, plan := AnalyzeFromList(q.from, env);
      ComputesNothing(env, g0, graph, top, plan, safe, rows);
      if q.where.Some? {
        var param;
        param, top, plan := AnalyzePredicateList(q.where.value, top, env, g0, plan, safe, rows);
        ghost var g := graph;
        var selection := NewOnTop(SelectionOp, param, top);
        StepSelection(env, g0, g, top, plan, safe, rows, WhereTerms(q), q.where.value, selection);
        top, plan := selection.id, Unary(selection, plan);
      }
    }

    // ---------------------------------------------------------------- SELECT

    method AnalyzeSelectListExpression<V>(e: Expr, topNode: nat, ghost env: Env<V>, ghost g0: Graph,
                                          ghost plan: Plan, ghost safe: bool, ghost rows: seq<Row<V>>, ghost calls: set<string>)
      returns (top: nat, ghost plan': Plan)
      requires Valid() && SelectExprOk(e) && Computes(env, g0, graph, topNode, plan, safe, rows, calls)
      modifies this
      ensures Valid() && Computes(env, g0, graph, top, plan', safe, rows, calls + Terms(e)) && SameSources(plan', plan)
      decreases e, 0
    {
      match e
      case Leaf(_) =>
        assert calls + {} == calls;
        top, plan' := topNode, plan;
      case Function(name, args) =>
        top, plan' := AnalyzeArguments(args, topNode, env, g0, plan, safe, rows, calls);
        var columns := ExpressionListText(args);
        SelectExprIsExpr(e);
        ghost var g := graph;
        var eval := NewOnTop(EvalOp, name + "(" + columns + ")", top);
        StepEval(env, g0, g, top, plan', safe, rows, calls + TermsOf(args), name, args, eval);
        top, plan' := eval.id, Unary(eval, plan');
        TermsOfCall(name, args, calls);
    }

    /** The loop over the arguments of a call in a select list. */
    method AnalyzeArguments<V>(es: seq<Expr>, topNode: nat, ghost env: Env<V>, ghost g0: Graph,
                               ghost plan: Plan, ghost safe: bool, ghost rows: seq<Row<V>>, ghost calls: set<string>)
      returns (top: nat, ghost plan': Plan)
      requires Valid() && Computes(env, g0, graph, topNode, plan, safe, rows, calls) && forall e <- es :: SelectExprOk(e)
      modifies this
      ensures Valid() && Computes(env, g0, graph, top, plan', safe, rows, calls + TermsOf(es)) && SameSources(plan', plan)
      decreases es, 1
    {
      top, plan' := topNode, plan;
      assert calls + {} == calls;
      for i := 0 to |es|
        invariant Valid() && Computes(env, g0, graph, top, plan', safe, rows, calls + TermsOf(es[..i])) && SameSources(plan', plan)
      {
        assert es[i] in es;
        top, plan' := AnalyzeSelectListExpression(es[i], top, env, g0, plan', safe, rows, calls + TermsOf(es[..i]));
        TermsNext(es, i, calls);
      }
      assert es[..|es|] == es;
    }

    method AnalyzeSelect<V>(q: SubQuery, ghost env: Env<V>) returns (top: nat, ghost plan: Plan)
      requires Valid() && SubQueryOk(q)
      modifies this
      ensures Valid() && Delivers(env, old(graph), graph, top, plan, Sound(SafeSubQuery(q), KnownSubQuery(env, q)), SubQueryRows(env, q))
      ensures Covers(plan, StreamsOfFrom(q.from), NamesOfFrom(q.from))
      decreases q, 5
    {
      top, plan := AnalyzeWhere(q, env);
      if q.select.SelectList? {
        top, plan := AnalyzeSelectList(q.select.items, top, env, old(graph), plan, Sound(SafeFrom(q.from), KnownFrom(env, q.from)), WhereRows(env, q), WhereTerms(q));
      }
    }

    /** Eval nodes for the items, one projection, and one renameColumn node for each renamed item. */
    method AnalyzeSelectList<V>(items: seq<SelectItem>, topNode: nat, ghost env: Env<V>, ghost g0: Graph,
                                ghost plan: Plan, ghost safe: bool, ghost rows: seq<Row<V>>, ghost calls: set<string>)
      returns (top: nat, ghost plan': Plan)
      requires Valid() && Computes(env, g0, graph, topNode, plan, safe, rows, calls) && SelectOk(SelectList(items))
      modifies this
      ensures Valid() && Yields(env, g0, graph, top, plan', safe, StageRows(env, items, |items|, rows))
      ensures Delivers(env, g0, graph, top, plan',
                       safe && Safe(Namings(items)) && KnownSelect(env, SelectList(items), rows),
                       MapRows(SelectRow(env, items), rows))
      ensures SameSources(plan', plan)
    {
      top, plan' := topNode, plan;
      ghost var es := Exprs(items);
      assert calls + {} == calls;
      for i := 0 to |items|
        invariant Valid() && Computes(env, g0, graph, top, plan', safe, rows, calls + TermsOf(es[..i])) && SameSources(plan', plan)
      {
        assert items[i] in items;
        top, plan' := AnalyzeSelectListExpression(items[i].expr, top, env, g0, plan', safe, rows, calls + TermsOf(es[..i]));
        TermsNext(es, i, calls);
      }
      assert es[..|items|] == es;
      var columns := ColumnsText(items);
      ghost var g := graph;
      var out := NewOnTop(ProjectionOp, columns, top);
      StepProjection(env, g0, g, top, plan', safe, rows, calls + TermsOf(es), items, out);
      top, plan' := out.id, Unary(out, plan');
      top, plan' := RenameColumns(items, top, env, g0, plan', safe, rows);
    }

    /**
     * One renameColumn node for each renamed item, in list order: the columns are renamed in turn, and on
     * a safe list that is the list's row.
     */
    method RenameColumns<V>(items: seq<SelectItem>, topNode: nat, ghost env: Env<V>, ghost g0: Graph,
                            ghost plan: Plan, ghost safe: bool, ghost rows: seq<Row<V>>)
      returns (top: nat, ghost plan': Plan)
      requires Valid() && Yields(env, g0, graph, topNode, plan, safe, StageRows(env, items, 0, rows))
      requires SelectOk(SelectList(items))
      modifies this
      ensures Valid() && |graph.nodes| == |old(graph).nodes| + RenamedCount(items)
      ensures Yields(env, g0, graph, top, plan', safe, StageRows(env, items, |items|, rows))
      ensures Delivers(env, g0, graph, top, plan',
                       safe && Safe(Namings(items)) && KnownSelect(env, SelectList(items), rows),
                       MapRows(SelectRow(env, items), rows))
      ensures SameSources(plan', plan)
    {
      top, plan' := topNode, plan;
      for i := 0 to |items|
        invariant Valid() && |graph.nodes| == |old(graph).nodes| + RenamedCount(items[..i])
        invariant Yields(env, g0, graph, top, plan', safe, StageRows(env, items, i, rows)) && SameSources(plan', plan)
      {
        assert items[..i + 1][..i] == items[..i];
        if items[i].Renamed? {
          var oldname := ExpressionText(items[i].expr);
          ghost var g := graph;
          var rename := NewOnTop(RenameColumnOp, oldname + " as " + items[i].newname, top);
          StepRenameColumn(env, g0, g, top, plan', safe, rows, items, i, rename);
          top, plan' := rename.id, Unary(rename, plan');
        } else {
          StageStays(env, items, i, rows);
        }
      }
      assert items[..|items|] == items;
      if Safe(Namings(items)) && KnownSelect(env, SelectList(items), rows) {
        StageEnds(env, items, rows);
      }
    }

    method AnalyzeSubQuery<V>(q: SubQuery, ghost env: Env<V>) returns (top: nat, ghost plan: Plan)
      requires Valid() && SubQueryOk(q)
      modifies this
      ensures Valid() && Delivers(env, old(graph), graph, top, plan, Sound(SafeSubQuery(q), KnownSubQuery(env, q)), SubQueryRows(env, q))
      ensures Covers(plan, StreamsOfFrom(q.from), NamesOfFrom(q.from))
      decreases q, 6
    {
      top, plan := AnalyzeSelect(q, env);
    }

    // ---------------------------------------------------------------- FROM

    method AnalyzeFromList<V>(from: seq<FromItem>, ghost env: Env<V>) returns (lnode: nat, ghost lplan: Plan)
      requires Valid() && from != [] && forall f <- from :: FromItemOk(f)
      modifies this
      ensures Valid() && Delivers(env, old(graph), graph, lnode, lplan, Sound(SafeFrom(from), KnownFrom(env, from)), FromRows(env, from))
      ensures Covers(lplan, StreamsOfFrom(from), NamesOfFrom(from))
      decreases from, 3
    {
      assert from[0] in from && from[..1] == [from[0]];
      lnode, lplan := AnalyzeFromItem(from[0], env);
      FirstOfFrom(from[0]);
      for i := 1 to |from|
        invariant Valid() && Delivers(env, old(graph), graph, lnode, lplan, Sound(SafeFrom(from[..i]), KnownFrom(env, from[..i])), FromRows(env, from[..i]))
        invariant Covers(lplan, StreamsOfFrom(from[..i]), NamesOfFrom(from[..i]))
      {
        assert from[i] in from && from[..i + 1][..i] == from[..i];
        lnode, lplan := JoinItem(from[i], lnode, env, old(graph), lplan, Sound(SafeFrom(from[..i]), KnownFrom(env, from[..i])), FromRows(env, from[..i]),
                                 StreamsOfFrom(from[..i]), NamesOfFrom(from[..i]));
      }
      assert from[..|from|] == from;
    }

    /** The next item of a FROM list and the join over it and the items before. */
    method JoinItem<V>(f: FromItem, lnode: nat, ghost env: Env<V>, ghost g0: Graph, ghost lplan: Plan, ghost safe: bool,
                       ghost left: seq<Row<V>>, ghost streams: seq<Table>, ghost names: set<string>)
      returns (top: nat, ghost plan: Plan)
      requires Valid() && FromItemOk(f) && Delivers(env, g0, graph, lnode, lplan, safe, left) && Covers(lplan, streams, names)
      modifies this
      ensures Valid()
      ensures Delivers(env, g0, graph, top, plan, safe && Sound(SafeItem(f), KnownItem(env, f)), Cross(left, FromItemRows(env, f)))
      ensures Covers(plan, streams + StreamsOfItem(f), names + NamesOfItem(f))
      decreases f, 2
    {
      ghost var g1 := graph;
      var rnode, rplan := AnalyzeFromItem(f, env);
      ghost var g2 := graph;
      var join := NewNode(JoinOp, "", map[]);
      CreateEdge(lnode, join.id);
      CreateEdge(rnode, join.id);
      StepJoin(env, g0, g1, g2, lnode, rnode, lplan, rplan, safe, Sound(SafeItem(f), KnownItem(env, f)), left, FromItemRows(env, f), join);
      top, plan := join.id, Binary(join, lplan, rplan);
      ReadsBoth(Sources(lplan), Sources(rplan), streams, StreamsOfItem(f));
    }

    method AnalyzeFromItem<V>(f: FromItem, ghost env: Env<V>) returns (top: nat, ghost plan: Plan)
      requires Valid() && FromItemOk(f)
      modifies this
      ensures Valid() && Delivers(env, old(graph), graph, top, plan, Sound(SafeItem(f), KnownItem(env, f)), FromItemRows(env, f))
      ensures Covers(plan, StreamsOfItem(f), NamesOfItem(f))
      decreases f, 1
    {
      match f
      case PlainTable(t) => top, plan := AnalyzeTable(t, env);
      case TableRename(newname, t) => top, plan := AnalyzeTableRename(newname, t, env);
    }

    method AnalyzeTableRename<V>(newname: string, t: Table, ghost env: Env<V>) returns (top: nat, ghost plan: Plan)
      requires Valid() && IsToken(newname) && TableOk(t)
      modifies this
      ensures Valid()
      ensures Delivers(env, old(graph), graph, top, plan, Sound(SafeTable(t), KnownTable(env, t)), RenameAll(env, TableNames(t), newname, TableRows(env, t)))
      ensures Covers(plan, StreamsOf(t), {newname})
      decreases t, 1
    {
      top, plan := AnalyzeTable(t, env);
      var oldnames := FindTableNames(t);
      TableNamesAreTokens(t);
      AllNamesListed(t);
      ghost var rows, safe := TableRows(env, t), Sound(SafeTable(t), KnownTable(env, t));
      for i := 0 to |oldnames|
        invariant Valid()
        invariant Delivers(env, old(graph), graph, top, plan, safe, RenameAll(env, oldnames[..i], newname, rows))
        invariant Reads(Sources(plan), StreamsOf(t)) && RenamedSoFar(Tables(plan), oldnames, i, newname)
      {
        top, plan := RenameTable(oldnames, i, newname, top, env, old(graph), plan, safe, rows);
      }
      assert oldnames[..|oldnames|] == oldnames;
    }

    /** One renameTable node, for table i of those to be renamed. */
    method RenameTable<V>(oldnames: seq<string>, i: nat, newname: string, from: nat, ghost env: Env<V>, ghost g0: Graph,
                          ghost plan: Plan, ghost safe: bool, ghost rows: seq<Row<V>>)
      returns (top: nat, ghost plan': Plan)
      requires Valid() && i < |oldnames| && IsToken(newname) && forall n <- oldnames :: IsToken(n)
      requires Delivers(env, g0, graph, from, plan, safe, RenameAll(env, oldnames[..i], newname, rows))
      requires RenamedSoFar(Tables(plan), oldnames, i, newname)
      modifies this
      ensures Valid() && Delivers(env, g0, graph, top, plan', safe, RenameAll(env, oldnames[..i + 1], newname, rows))
      ensures Sources(plan') == Sources(plan) && RenamedSoFar(Tables(plan'), oldnames, i + 1, newname)
    {
      ghost var g := graph;
      assert oldnames[i] in oldnames && oldnames[..i + 1][..i] == oldnames[..i];
      var rename := NewOnTop(RenameTableOp, oldnames[i] + " as " + newname, from);
      StepRenameTable(env, g0, g, from, plan, safe, RenameAll(env, oldnames[..i], newname, rows), oldnames[i], newname, rename);
      RenamesNext(Tables(plan), oldnames, i, newname);
      top, plan' := rename.id, Unary(rename, plan);
    }

    /** The settings written for the window, next to what the executer reads from them. */
    method WindowSettings(t: Table) returns (attributes: map<string, string>)
      requires t.Stream?
      ensures attributes == WindowAttributes(t) && ShowsWindow(attributes, t)
    {
      match t.window {
        case Rows(number) => attributes := map["range_window" := number];
        case RowsSorted(number, limit, seed) =>
          attributes := map["range_window" := number];
          if t.partition.Some? || !t.own {
            attributes := attributes["limit" := limit]["seed" := seed];
          }
        case Range(number, unit) => attributes := map["time_window" := number + " " + unit];
      }
      if t.partition.Some? {
        var columns := ColumnsText(t.partition.value);
        attributes := attributes["partition" := columns];
        PartitionIsListed(t.partition.value);
      }
    }

    method AnalyzeTable<V>(t: Table, ghost env: Env<V>) returns (top: nat, ghost plan: Plan)
      requires Valid() && TableOk(t)
      modifies this
      ensures Valid() && Delivers(env, old(graph), graph, top, plan, Sound(SafeTable(t), KnownTable(env, t)), TableRows(env, t))
      ensures Covers(plan, StreamsOf(t), NamesOf(t))
      ensures t.Stream? ==> plan == Source(graph.nodes[top]) && ReadsStream(graph.nodes[top], t)
      decreases t, 0
    {
      match t
      case Nested(sub) =>
        top, plan := AnalyzeSubQuery(sub, env);
      case Stream(name, partition, window, own) =>
        var attributes := WindowSettings(t);
        var read := NewNode(InOp, name, attributes);
        StepIn(env, old(graph), read);
        top, plan := read.id, Source(read);
    }

    // ---------------------------------------------------------------- UNION and QUERY

    /** A chain of union nodes, each made before its right part is compiled. */
    method AnalyzeUnion<V>(subs: seq<SubQuery>, ghost env: Env<V>) returns (top: nat, ghost plan: Plan)
      requires Valid() && |subs| >= 2 && forall q <- subs :: SubQueryOk(q)
      modifies this
      ensures Valid() && Delivers(env, old(graph), graph, top, plan, Sound(SafeUnion(subs), KnownUnion(env, subs)), UnionRows(env, subs))
      ensures Covers(plan, StreamsOfUnion(subs), NamesOfUnion(subs))
    {
      assert subs[0] in subs && subs[..1] == [subs[0]];
      var leftNode, leftPlan := AnalyzeSubQuery(subs[0], env);
      plan := leftPlan;
      ghost var g1 := graph;
      FirstOfUnion(env, subs[0]);
      var uni := NewNode(UnionOp, "", map[]);
      for i := 1 to |subs|
        invariant Valid() && uni.operatorType.UnionOp?
        invariant i < |subs| ==>
          && graph == AddNode(g1, uni) && uni.id == |g1.nodes|
          && Unites(env, old(graph), g1, leftNode, leftPlan, subs[..i])
        invariant i == |subs| ==> Unites(env, old(graph), graph, uni.id, plan, subs)
      {
        assert subs[i] in subs;
        UpToNext(subs, i);
        plan := AnalyzeRight(subs[i], uni, leftNode, env, old(graph), g1, leftPlan, subs[..i]);
        if i + 1 < |subs| {
          leftNode, leftPlan := uni.id, plan;
          g1 := graph;
          uni := NewNode(UnionOp, "", map[]);
        }
      }
      top := uni.id;
    }

    /** The right part of a union, and the edges from both parts. */
    method AnalyzeRight<V>(q: SubQuery, uni: Node, leftNode: nat, ghost env: Env<V>, ghost g0: Graph, ghost g1: Graph,
                           ghost leftPlan: Plan, ghost subs: seq<SubQuery>)
      returns (ghost plan: Plan)
      requires Valid() && SubQueryOk(q) && uni.operatorType.UnionOp? && uni.id == |g1.nodes|
      requires graph == AddNode(g1, uni) && Unites(env, g0, g1, leftNode, leftPlan, subs)
      modifies this
      ensures Valid() && Unites(env, g0, graph, uni.id, plan, subs + [q])
    {
      var rightNode, rightPlan := AnalyzeSubQuery(q, env);
      ghost var g2 := graph;
      CreateEdge(leftNode, uni.id);
      CreateEdge(rightNode, uni.id);
      StepUnion(env, g0, g1, g2, leftNode, rightNode, leftPlan, rightPlan, Sound(SafeUnion(subs), KnownUnion(env, subs)),
                Sound(SafeSubQuery(q), KnownSubQuery(env, q)), UnionRows(env, subs), SubQueryRows(env, q), uni);
      plan := Binary(uni, leftPlan, rightPlan);
      ReadsBoth(Sources(leftPlan), Sources(rightPlan), StreamsOfUnion(subs), StreamsOfFrom(q.from));
      UnionNext(env, subs, q);
    }

    /** The one child of the query. */
    method AnalyzeBody<V>(q: Query, ghost env: Env<V>) returns (top: nat, ghost plan: Plan)
      requires Valid() && QueryOk(q)
      modifies this
      ensures Valid()
      ensures Delivers(env, old(graph), graph, top, plan, Sound(SafeQuery(q), KnownQuery(env, q)), QueryRows(env, q))
      ensures Covers(plan, StreamsOfQuery(q), NamesOfQuery(q))
    {
      match q {
        case Single(sub) => top, plan := AnalyzeSubQuery(sub, env);
        case Union(subs) => top, plan := AnalyzeUnion(subs, env);
      }
    }

    /**
     * The whole compilation: the graph is a tree into the out node, and what its operators
     * deliver there is what the query means, in any world, for every query whose select lists are
     * safe to rename in turn.
     */
    method AnalyzeQuery<V>(q: Query, ghost env: Env<V>) returns (out: nat, ghost plan: Plan)
      requires Valid() && graph == Graph([], []) && QueryOk(q)
      modifies this
      ensures Valid() && IsTree(graph, out)
      ensures PlanOf(graph, out, |graph.nodes|) == Some(plan)
      ensures SafeQuery(q) && KnownQuery(env, q) ==> PlanRows(env, plan) == Some(QueryRows(env, q))
      ensures CallsAreComputed(plan)
      ensures Covers(plan, StreamsOfQuery(q), NamesOfQuery(q))
    {
      var outNode := NewNode(OutOp, "", map[]);
      assert graph == Graph([outNode], []);
      var top;
      top, plan := AnalyzeBody(q, env);
      ghost var g := graph;
      CreateEdge(top, outNode.id);
      BuiltOut(outNode, g, top, plan);
      OutHandsOn(env, outNode, plan);
      out, plan := outNode.id, Unary(outNode, plan);
      ReadingShowsTree(graph, out, |graph.nodes|, plan);
    }
  }

  /** Both what the query's text guarantees and what the world does. */
  predicate Sound(safe: bool, known: bool) {
    safe && known
  }

  /** The out node delivers what it is given. */
  lemma OutHandsOn<V>(env: Env<V>, out: Node, plan: Plan)
    requires out.operatorType.OutOp?
    ensures PlanRows(env, Unary(out, plan)) == PlanRows(env, plan) && SameSources(Unary(out, plan), plan)
    ensures CallsAreComputed(plan) ==> CallsAreComputed(Unary(out, plan))
  {
  }

  lemma TermsNext(es: seq<Expr>, i: nat, calls: set<string>)
    requires i < |es|
    ensures calls + TermsOf(es[..i]) + Terms(es[i]) == calls + TermsOf(es[..i + 1])
  {
    assert es[..i + 1][..i] == es[..i];
  }

  function RenamedCount(items: seq<SelectItem>): nat {
    if items == [] then 0
    else RenamedCount(items[..|items| - 1]) + if items[|items| - 1].Renamed? then 1 else 0
  }

  lemma PredicateTermsNext(ps: seq<Predicate>, i: nat)
    requires i < |ps|
    ensures PredicateTerms(ps[..i + 1]) == PredicateTerms(ps[..i]) + Terms(ps[i].left) + Terms(ps[i].right)
  {
    assert ps[..i + 1][..i] == ps[..i];
  }

  lemma TermsOfCall(name: string, args: seq<Expr>, calls: set<string>)
    ensures calls + TermsOf(args) + {Text(Function(name, args))} == calls + Terms(Function(name, args))
  {
  }

  /** The part of the graph built since `g0` unites these subqueries. */
  ghost predicate Unites<V>(env: Env<V>, g0: Graph, g: Graph, top: nat, plan: Plan, subs: seq<SubQuery>) {
    && Delivers(env, g0, g, top, plan, Sound(SafeUnion(subs), KnownUnion(env, subs)), UnionRows(env, subs))
    && Covers(plan, StreamsOfUnion(subs), NamesOfUnion(subs))
  }

  lemma UpToNext(subs: seq<SubQuery>, i: nat)
    requires i < |subs|
    ensures subs[..i] + [subs[i]] == subs[..i + 1] && (i + 1 == |subs| ==> subs[..i + 1] == subs)
  {
  }

  lemma UnionNext<V>(env: Env<V>, subs: seq<SubQuery>, q: SubQuery)
    ensures var all := subs + [q];
            && UnionRows(env, all) == UnionRows(env, subs) + SubQueryRows(env, q)
            && Sound(SafeUnion(all), KnownUnion(env, all))
               == (Sound(SafeUnion(subs), KnownUnion(env, subs)) && Sound(SafeSubQuery(q), KnownSubQuery(env, q)))
            && StreamsOfUnion(all) == StreamsOfUnion(subs) + StreamsOfFrom(q.from)
            && NamesOfUnion(all) == NamesOfUnion(subs) + NamesOfFrom(q.from)
  {
    SafeNext(subs, q);
    KnownNext(env, subs, q);
    assert (subs + [q])[..|subs|] == subs;
  }

  lemma SafeNext(subs: seq<SubQuery>, q: SubQuery)
    ensures SafeUnion(subs + [q]) == (SafeUnion(subs) && SafeSubQuery(q))
  {
    assert forall s :: s in subs + [q] <==> s in subs || s == q;
  }

  lemma KnownNext<V>(env: Env<V>, subs: seq<SubQuery>, q: SubQuery)
    ensures KnownUnion(env, subs + [q]) == (KnownUnion(env, subs) && KnownSubQuery(env, q))
  {
    var all := subs + [q];
    assert all[|subs|] == q && forall i :: 0 <= i < |subs| ==> all[i] == subs[i];
  }

  lemma FirstOfUnion<V>(env: Env<V>, q: SubQuery)
    ensures UnionRows(env, [q]) == SubQueryRows(env, q) && SafeUnion([q]) == SafeSubQuery(q) && KnownUnion(env, [q]) == KnownSubQuery(env, q)
    ensures StreamsOfUnion([q]) == StreamsOfFrom(q.from) && NamesOfUnion([q]) == NamesOfFrom(q.from)
  {
    assert [q][..0] == [];
  }

  lemma FirstOfFrom(f: FromItem)
    ensures StreamsOfFrom([f]) == StreamsOfItem(f) && NamesOfFrom([f]) == NamesOfItem(f)
  {
    assert [f][..0] == [];
  }
}
