/** What a plan delivers when the operators run, and which calls its nodes find computed. */
module PlanMeaning {
  import opened Common
  import opened StringUtil
  import opened QueryTree
  import opened OperatorSemantics
  import opened QueryMeaning
  import opened OperatorGraph

  // ---------------------------------------------------------------- rows

  function RenamingColumn<V>(param: string): Row<V> -> Option<Row<V>> {
    row => RenameColumnRow(param, row)
  }

  function Projecting<V>(env: Env<V>, param: string): Row<V> -> Row<V> {
    row => ProjectRow(env, param, row)
  }

  function Retabling<V>(env: Env<V>, param: string): Row<V> -> Row<V> {
    row => RenameTableRow(env, param, row)
  }

  /** The operators that make one row of each row. */
  predicate Mapping(node: Node) {
    var op := node.operatorType;
    op.ProjectionOp? || op.EvalOp? || op.RenameTableOp?
  }

  function Mapper<V>(env: Env<V>, node: Node): Row<V> -> Row<V>
    requires Mapping(node)
  {
    match node.operatorType
    case ProjectionOp => Projecting(env, node.parameter)
    case EvalOp => Evaluating(env, node.parameter)
    case RenameTableOp => Retabling(env, node.parameter)
  }

  function OrSame<V>(f: Row<V> -> Option<Row<V>>): Row<V> -> Row<V> {
    row => match f(row) case Some(r) => r case None => row
  }

  /** All rows changed, or None when one cannot be. */
  function TryRows<V>(f: Row<V> -> Option<Row<V>>, rows: seq<Row<V>>): Option<seq<Row<V>>> {
    if forall i :: 0 <= i < |rows| ==> f(rows[i]).Some? then Some(MapRows(OrSame(f), rows)) else None
  }

  /** What an operator hands on; None when it stops and hands on nothing. */
  function ApplyUnary<V>(env: Env<V>, node: Node, rows: seq<Row<V>>): Option<seq<Row<V>>> {
    if node.operatorType.SelectionOp? then Some(Filter(Keeping(env, node.parameter), rows))
    else if node.operatorType.RenameColumnOp? then TryRows(RenamingColumn(node.parameter), rows)
    else if Mapping(node) then Some(MapRows(Mapper(env, node), rows))
    else Some(rows)
  }

  function ApplyBinary<V>(node: Node, left: seq<Row<V>>, right: seq<Row<V>>): seq<Row<V>> {
    if node.operatorType.JoinOp? then Cross(left, right) else left + right
  }

  /**
   * The rows a plan delivers, operator by operator; none when some operator stops, since join and union
   * wait for both their inputs.
   */
  function PlanRows<V>(env: Env<V>, p: Plan): Option<seq<Row<V>>> {
    match p
    case Source(node) => Some(env.read(node.parameter, node.window))
    case Unary(node, input) =>
      var rows := PlanRows(env, input);
      if rows.None? then None else ApplyUnary(env, node, rows.value)
    case Binary(node, left, right) =>
      var l, r := PlanRows(env, left), PlanRows(env, right);
      if l.None? || r.None? then None else Some(ApplyBinary(node, l.value, r.value))
  }

  // ---------------------------------------------------------------- calls

  /** The calls written in a parameter text, at any depth. */
  function CallsIn(s: string): set<string>
    decreases |s|
  {
    match ParseCall(s)
    case None => {}
    case Some((_, args)) => {s} + (set i, k | 0 <= i < |args| && k in CallsIn(args[i]) :: k)
  }

  /** The columns that eval nodes have added since the last operator that makes new columns. */
  function Available(p: Plan): set<string> {
    if !p.Unary? then {}
    else match p.node.operatorType
      case EvalOp => Available(p.input) + {p.node.parameter}
      case SelectionOp => Available(p.input)
      case _ => {}
  }

  /** The calls a node reads as columns. */
  function CallsRead(node: Node): set<string> {
    match node.operatorType
    case EvalOp => CallsIn(node.parameter) - {node.parameter}
    case ProjectionOp => CallsOfAll(SplitExcludeBrackets(node.parameter))
    case SelectionOp => CallsOfConditions(Split(node.parameter, " AND "))
    case _ => {}
  }

  function CallsOfAll(texts: seq<string>): set<string> {
    set i, k | 0 <= i < |texts| && k in CallsIn(texts[i]) :: k
  }

  function CallsOfConditions(states: seq<string>): set<string> {
    set i, k | 0 <= i < |states| && k in CallsIn(ParseCondition(states[i]).0) + CallsIn(ParseCondition(states[i]).2) :: k
  }

  /** Every node finds the calls it reads computed on its own input path. */
  predicate CallsAreComputed(p: Plan) {
    match p
    case Source(_) => true
    case Unary(node, input) => CallsAreComputed(input) && CallsRead(node) <= Available(input)
    case Binary(_, left, right) => CallsAreComputed(left) && CallsAreComputed(right)
  }

  predicate SomeHasTerm(es: seq<Expr>, k: string) {
    exists i :: 0 <= i < |es| && k in Terms(es[i])
  }

  lemma SomeHasTermNext(front: seq<Expr>, last: Expr, k: string)
    ensures SomeHasTerm(front + [last], k) <==> SomeHasTerm(front, k) || k in Terms(last)
  {
    var es := front + [last];
    if i :| 0 <= i < |front| && k in Terms(front[i]) {
      assert es[i] == front[i];
    }
    if k in Terms(last) {
      assert es[|front|] == last;
    }
  }

  lemma {:induction false} InTermsOf(es: seq<Expr>, k: string)
    ensures k in TermsOf(es) <==> SomeHasTerm(es, k)
    decreases |es|
  {
    if es != [] {
      var n := |es| - 1;
      InTermsOf(es[..n], k);
      SomeHasTermNext(es[..n], es[n], k);
      assert es == es[..n] + [es[n]];
    }
  }

  /** The calls read back from a text are those of the expression, all of them. */
  lemma {:induction false} CallsOfText(e: Expr)
    requires ExprOk(e)
    ensures CallsIn(Text(e)) == Terms(e)
    decreases e
  {
    match e
    case Leaf(value) => assert ParseCall(value).None?;
    case Paren(inner) => CallsOfText(inner);
    case Function(name, args) =>
      CallParses(name, args);
      var texts := Texts(args);
      forall i | 0 <= i < |args|
        ensures CallsIn(texts[i]) == Terms(args[i])
      {
        assert args[i] in args;
        CallsOfText(args[i]);
      }
      CallsOfArguments(args);
  }

  lemma InCallsOfAll(texts: seq<string>, k: string)
    ensures k in CallsOfAll(texts) <==> exists i :: 0 <= i < |texts| && k in CallsIn(texts[i])
  {
  }

  lemma CallsOfEach(texts: seq<string>, args: seq<Expr>)
    requires |texts| == |args| && forall i :: 0 <= i < |args| ==> CallsIn(texts[i]) == Terms(args[i])
    ensures CallsOfAll(texts) == TermsOf(args)
  {
    forall k
      ensures k in CallsOfAll(texts) <==> k in TermsOf(args)
    {
      InCallsOfAll(texts, k);
      InTermsOf(args, k);
    }
  }

  lemma CallsOfArguments(args: seq<Expr>)
    requires forall i :: 0 <= i < |args| ==> CallsIn(Texts(args)[i]) == Terms(args[i])
    ensures CallsOfAll(Texts(args)) == TermsOf(args)
  {
    CallsOfEach(Texts(args), args);
  }

  lemma {:induction false} CallsAreShort(s: string)
    ensures forall k <- CallsIn(s) :: |k| <= |s|
    decreases |s|
  {
    if ParseCall(s).Some? {
      var args := ParseCall(s).value.1;
      forall i | 0 <= i < |args|
        ensures forall k <- CallsIn(args[i]) :: |k| < |s|
      {
        CallsAreShort(args[i]);
      }
    }
  }

  /** A call is longer than the calls nested in it. */
  lemma NestedIsShorter(name: string, args: seq<Expr>, k: string)
    requires ExprOk(Function(name, args)) && k in TermsOf(args)
    ensures k != Text(Function(name, args))
  {
    InTermsOf(args, k);
    var i :| 0 <= i < |args| && k in Terms(args[i]);
    assert args[i] in args;
    CallsOfText(args[i]);
    CallsAreShort(Text(args[i]));
    CallParses(name, args);
    assert Texts(args)[i] == ParseCall(Text(Function(name, args))).value.1[i];
  }

  lemma NestedOnly(name: string, args: seq<Expr>)
    requires ExprOk(Function(name, args))
    ensures Terms(Function(name, args)) - {Text(Function(name, args))} == TermsOf(args)
  {
    forall k | k in TermsOf(args)
      ensures k != Text(Function(name, args))
    {
      NestedIsShorter(name, args, k);
    }
  }

  /** An eval node reads the calls nested in its own, all of them. */
  lemma EvalReadsArguments(name: string, args: seq<Expr>, node: Node)
    requires ExprOk(Function(name, args)) && node.operatorType.EvalOp? && node.parameter == Text(Function(name, args))
    ensures CallsRead(node) == TermsOf(args)
  {
    CallsOfText(Function(name, args));
    NestedOnly(name, args);
  }

  /** A projection reads exactly the calls of its items. */
  lemma ProjectionReadsColumns(items: seq<SelectItem>, node: Node)
    requires ItemsOk(items) && node.operatorType.ProjectionOp?
    requires node.parameter == FindColumns(items)
    ensures CallsRead(node) == TermsOf(Exprs(items))
  {
    var es := Exprs(items);
    forall i | 0 <= i < |es|
      ensures ExprOk(es[i]) && CallsIn(Texts(es)[i]) == Terms(es[i])
    {
      assert items[i] in items;
      SelectExprIsExpr(es[i]);
      CallsOfText(es[i]);
    }
    ColumnsSplit(es);
    CallsOfArguments(es);
  }

  lemma {:induction false} InPredicateTerms(ps: seq<Predicate>, k: string)
    ensures k in PredicateTerms(ps) <==> exists i :: 0 <= i < |ps| && k in Terms(ps[i].left) + Terms(ps[i].right)
    decreases |ps|
  {
    if ps != [] {
      var n := |ps| - 1;
      InPredicateTerms(ps[..n], k);
      if i :| 0 <= i < |ps| && k in Terms(ps[i].left) + Terms(ps[i].right) {
        assert i < n ==> k in Terms(ps[..n][i].left) + Terms(ps[..n][i].right);
      }
    }
  }

  lemma CallsOfCondition(p: Predicate)
    requires PredicateOk(p)
    ensures var c := ParseCondition(PredicateText(p)); CallsIn(c.0) + CallsIn(c.2) == Terms(p.left) + Terms(p.right)
  {
    ConditionParses(p);
    CallsOfText(p.left);
    CallsOfText(p.right);
  }

  /** A selection reads exactly the calls of its predicates. */
  lemma SelectionReadsPredicates(ps: seq<Predicate>, node: Node)
    requires PredicatesOk(ps) && node.operatorType.SelectionOp?
    requires node.parameter == PredicateListText(ps)
    ensures CallsRead(node) == PredicateTerms(ps)
  {
    PredicatesSplit(ps);
    var states := PredicateTexts(ps);
    forall i | 0 <= i < |ps|
      ensures CallsIn(ParseCondition(states[i]).0) + CallsIn(ParseCondition(states[i]).2) == Terms(ps[i].left) + Terms(ps[i].right)
    {
      assert ps[i] in ps;
      CallsOfCondition(ps[i]);
    }
    forall k
      ensures k in CallsRead(node) <==> k in PredicateTerms(ps)
    {
      InPredicateTerms(ps, k);
    }
  }
}
