/** What a query means, defined on its parse tree, and the laws that tie it to the operators. */
module QueryMeaning {
  import opened Common
  import opened StringUtil
  import opened QueryTree
  import opened OperatorSemantics
  import opened RenameOrder
  import SchemaIndex

  // ---------------------------------------------------------------- expressions

  function Value<V>(env: Env<V>, e: Expr, row: Row<V>): V {
    match e
    case Leaf(value) => Resolve(env, row, value)
    case Paren(inner) => Value(env, inner, row)
    case Function(name, args) =>
      env.call(name, seq(|args|, i requires 0 <= i < |args| => Value(env, args[i], row)))
  }

  lemma CallValue<V>(env: Env<V>, name: string, args: seq<Expr>, row: Row<V>, vals: seq<V>)
    requires |vals| == |args| && forall i :: 0 <= i < |args| ==> vals[i] == Value(env, args[i], row)
    ensures Value(env, Function(name, args), row) == env.call(name, vals)
  {
    assert vals == seq(|args|, i requires 0 <= i < |args| => Value(env, args[i], row));
  }

  predicate Holds<V>(env: Env<V>, p: Predicate, row: Row<V>) {
    env.compare(p.comparator, Value(env, p.left, row), Value(env, p.right, row))
  }

  function HoldAll<V>(env: Env<V>, ps: seq<Predicate>): Row<V> -> bool {
    row => forall i :: 0 <= i < |ps| ==> Holds(env, ps[i], row)
  }

  /** The texts of all function calls in an expression, at any depth. */
  function Terms(e: Expr): set<string> {
    match e
    case Leaf(_) => {}
    case Paren(inner) => Terms(inner)
    case Function(_, args) => TermsOf(args) + {Text(e)}
  }

  function TermsOf(es: seq<Expr>): set<string> {
    if es == [] then {} else TermsOf(es[..|es| - 1]) + Terms(es[|es| - 1])
  }

  function PredicateTerms(ps: seq<Predicate>): set<string> {
    if ps == [] then {}
    else
      var last := ps[|ps| - 1];
      PredicateTerms(ps[..|ps| - 1]) + Terms(last.left) + Terms(last.right)
  }

  /** The value a text denotes on a row, computing calls afresh at every depth. */
  function TextValue<V>(env: Env<V>, s: string, row: Row<V>): V
    decreases |s|
  {
    match ParseCall(s)
    case None => Resolve(env, row, s)
    case Some((name, args)) =>
      env.call(name, seq(|args|, i requires 0 <= i < |args| => TextValue(env, args[i], row)))
  }

  lemma {:induction false} TextHasValue<V>(env: Env<V>, e: Expr, row: Row<V>)
    requires ExprOk(e)
    ensures TextValue(env, Text(e), row) == Value(env, e, row)
    decreases e
  {
    match e
    case Leaf(value) =>
    case Paren(inner) => TextHasValue(env, inner, row);
    case Function(name, args) =>
      CallParses(name, args);
      forall i | 0 <= i < |args|
        ensures TextValue(env, Texts(args)[i], row) == Value(env, args[i], row)
      {
        assert args[i] in args;
        TextHasValue(env, args[i], row);
      }
      assert seq(|args|, i requires 0 <= i < |args| => TextValue(env, Texts(args)[i], row))
          == seq(|args|, i requires 0 <= i < |args| => Value(env, args[i], row));
  }

  // ---------------------------------------------------------------- rows with computed columns

  /** A row with a column for each of the calls. */
  function Extend<V>(env: Env<V>, row: Row<V>, calls: set<string>): Row<V> {
    map k | k in row.Keys + calls :: if k in calls then TextValue(env, k, row) else row[k]
  }

  function Extending<V>(env: Env<V>, calls: set<string>): Row<V> -> Row<V> {
    row => Extend(env, row, calls)
  }

  function ExtendAll<V>(env: Env<V>, rows: seq<Row<V>>, calls: set<string>): seq<Row<V>> {
    MapRows(Extending(env, calls), rows)
  }

  predicate CallsOnly(calls: set<string>) {
    forall k <- calls :: ParseCall(k).Some?
  }

  /** The row has a column for each of the calls, with its value. */
  ghost predicate HasCalls<V>(env: Env<V>, row: Row<V>, calls: set<string>) {
    forall k <- calls :: k in row && row[k] == TextValue(env, k, row)
  }

  lemma ExtendIsSame<V>(env: Env<V>, row: Row<V>, calls: set<string>)
    ensures Extend(env, row, calls) == row <==> HasCalls(env, row, calls)
  {
    var ext := Extend(env, row, calls);
    assert forall k :: k in calls ==> k in ext && ext[k] == TextValue(env, k, row);
    if HasCalls(env, row, calls) {
      assert ext.Keys == row.Keys;
    }
  }

  lemma ExtendNothing<V>(env: Env<V>, rows: seq<Row<V>>)
    ensures ExtendAll(env, rows, {}) == rows
  {
    forall i | 0 <= i < |rows|
      ensures Extend(env, rows[i], {}) == rows[i]
    {
    }
  }

  /** On an extended row the column or constant named by an expression's text is the expression's value. */
  lemma {:induction false} ResolveExtended<V>(env: Env<V>, e: Expr, row: Row<V>, calls: set<string>)
    requires ExprOk(e) && Terms(e) <= calls && CallsOnly(calls)
    ensures Resolve(env, Extend(env, row, calls), Text(e)) == Value(env, e, row)
    decreases e
  {
    match e
    case Leaf(value) => assert ParseCall(value).None?;
    case Paren(inner) => ResolveExtended(env, inner, row, calls);
    case Function(_, _) => TextHasValue(env, e, row);
  }

  lemma {:induction false} TermsOfArg(args: seq<Expr>, i: nat)
    requires i < |args|
    ensures Terms(args[i]) <= TermsOf(args)
    decreases |args|
  {
    if i < |args| - 1 {
      TermsOfArg(args[..|args| - 1], i);
    }
  }

  lemma ArgsResolve<V>(env: Env<V>, args: seq<Expr>, row: Row<V>, calls: set<string>)
    requires (forall a <- args :: ExprOk(a)) && TermsOf(args) <= calls && CallsOnly(calls)
    ensures var texts, ext := Texts(args), Extend(env, row, calls);
            (seq(|texts|, i requires 0 <= i < |texts| => Resolve(env, ext, texts[i]))
             == seq(|args|, i requires 0 <= i < |args| => Value(env, args[i], row)))
  {
    forall i | 0 <= i < |args|
      ensures Resolve(env, Extend(env, row, calls), Texts(args)[i]) == Value(env, args[i], row)
    {
      assert args[i] in args;
      TermsOfArg(args, i);
      ResolveExtended(env, args[i], row, calls);
    }
  }

  lemma ExtendOneMore<V>(env: Env<V>, row: Row<V>, calls: set<string>, k: string)
    ensures Extend(env, row, calls)[k := TextValue(env, k, row)] == Extend(env, row, calls + {k})
  {
  }

  /** The eval operator on a row that has the nested calls adds the column of the call itself. */
  lemma EvalExtends<V>(env: Env<V>, name: string, args: seq<Expr>, row: Row<V>, calls: set<string>)
    requires ExprOk(Function(name, args)) && TermsOf(args) <= calls && CallsOnly(calls)
    ensures var text := Text(Function(name, args));
            EvalRow(env, text, Extend(env, row, calls)) == Extend(env, row, calls + {text})
  {
    var f := Function(name, args);
    CallParses(name, args);
    ArgsResolve(env, args, row, calls);
    TextHasValue(env, f, row);
    ExtendOneMore(env, row, calls, Text(f));
  }

  lemma CallsAndOneMore(name: string, args: seq<Expr>, calls: set<string>)
    requires ExprOk(Function(name, args)) && CallsOnly(calls)
    ensures CallsOnly(calls + {Text(Function(name, args))})
  {
    CallParses(name, args);
  }

  function Evaluating<V>(env: Env<V>, param: string): Row<V> -> Row<V> {
    row => EvalRow(env, param, row)
  }

  lemma EvalExtendsAll<V>(env: Env<V>, name: string, args: seq<Expr>, rows: seq<Row<V>>, calls: set<string>)
    requires ExprOk(Function(name, args)) && TermsOf(args) <= calls && CallsOnly(calls)
    ensures var text := Text(Function(name, args));
            MapRows(Evaluating(env, text), ExtendAll(env, rows, calls)) == ExtendAll(env, rows, calls + {text})
  {
    forall i | 0 <= i < |rows|
      ensures EvalRow(env, Text(Function(name, args)), Extend(env, rows[i], calls))
           == Extend(env, rows[i], calls + {Text(Function(name, args))})
    {
      EvalExtends(env, name, args, rows[i], calls);
    }
  }

  // ---------------------------------------------------------------- WHERE

  lemma {:induction false} PredicateTermsOf(ps: seq<Predicate>, i: nat)
    requires i < |ps|
    ensures Terms(ps[i].left) <= PredicateTerms(ps) && Terms(ps[i].right) <= PredicateTerms(ps)
    decreases |ps|
  {
    if i < |ps| - 1 {
      PredicateTermsOf(ps[..|ps| - 1], i);
    }
  }

  lemma ConditionIsPredicate<V>(env: Env<V>, p: Predicate, row: Row<V>, calls: set<string>)
    requires PredicateOk(p) && Terms(p.left) <= calls && Terms(p.right) <= calls && CallsOnly(calls)
    ensures ConditionHolds(env, PredicateText(p), Extend(env, row, calls)) == Holds(env, p, row)
  {
    ConditionParses(p);
    ResolveExtended(env, p.left, row, calls);
    ResolveExtended(env, p.right, row, calls);
  }

  /** What the selection operator does with its parameter. */
  function Keeping<V>(env: Env<V>, param: string): Row<V> -> bool {
    row => AllHold(env, Split(param, " AND "), row)
  }

  function PredicateListText(ps: seq<Predicate>): string {
    JoinWith(" AND ", PredicateTexts(ps))
  }

  /** All calls of the predicates are among those computed. */
  ghost predicate Ready(ps: seq<Predicate>, calls: set<string>) {
    PredicatesOk(ps) && PredicateTerms(ps) <= calls && CallsOnly(calls)
  }

  lemma KeepsIffHolds<V>(env: Env<V>, ps: seq<Predicate>, row: Row<V>, calls: set<string>)
    requires Ready(ps, calls)
    ensures Keeping(env, PredicateListText(ps))(Extend(env, row, calls)) == HoldAll(env, ps)(row)
  {
    PredicatesSplit(ps);
    var texts := PredicateTexts(ps);
    forall i | 0 <= i < |ps|
      ensures ConditionHolds(env, texts[i], Extend(env, row, calls)) == Holds(env, ps[i], row)
    {
      assert ps[i] in ps;
      PredicateTermsOf(ps, i);
      ConditionIsPredicate(env, ps[i], row, calls);
    }
  }

  lemma FilterNext<V>(keep: Row<V> -> bool, rows: seq<Row<V>>, row: Row<V>)
    ensures Filter(keep, rows + [row]) == if keep(row) then Filter(keep, rows) + [row] else Filter(keep, rows)
  {
    assert (rows + [row])[..|rows|] == rows;
  }

  lemma MapNext<V>(f: Row<V> -> Row<V>, rows: seq<Row<V>>, row: Row<V>)
    ensures MapRows(f, rows + [row]) == MapRows(f, rows) + [f(row)]
  {
  }

  /** Filtering mapped rows is mapping filtered rows when both tests agree on every row. */
  lemma {:induction false} FilterOfMap<V>(keep: Row<V> -> bool, test: Row<V> -> bool, f: Row<V> -> Row<V>, rows: seq<Row<V>>)
    requires forall i :: 0 <= i < |rows| ==> keep(f(rows[i])) == test(rows[i])
    ensures Filter(keep, MapRows(f, rows)) == MapRows(f, Filter(test, rows))
    decreases |rows|
  {
    if rows != [] {
      var front, last := rows[..|rows| - 1], rows[|rows| - 1];
      assert rows == front + [last];
      FilterOfMap(keep, test, f, front);
      MapNext(f, front, last);
      FilterNext(test, front, last);
      FilterNext(keep, MapRows(f, front), f(last));
      MapNext(f, Filter(test, front), last);
    }
  }

  /** Selecting extended rows is extending the rows the predicates hold of. */
  lemma SelectionIsWhere<V>(env: Env<V>, ps: seq<Predicate>, rows: seq<Row<V>>, calls: set<string>)
    requires Ready(ps, calls)
    ensures Filter(Keeping(env, PredicateListText(ps)), ExtendAll(env, rows, calls))
         == ExtendAll(env, Filter(HoldAll(env, ps), rows), calls)
  {
    var keep, f := Keeping(env, PredicateListText(ps)), Extending(env, calls);
    forall i | 0 <= i < |rows|
      ensures keep(f(rows[i])) == HoldAll(env, ps)(rows[i])
    {
      KeepsIffHolds(env, ps, rows[i], calls);
    }
    FilterOfMap(keep, HoldAll(env, ps), f, rows);
  }

  // ---------------------------------------------------------------- SELECT lists

  /** A name that is neither a column nor a constant gives no output column. */
  predicate Visible<V>(env: Env<V>, e: Expr, row: Row<V>) {
    match e
    case Leaf(value) => value in row || env.isConstant(value)
    case Paren(inner) => Visible(env, inner, row)
    case Function(_, _) => true
  }

  /** A row with the values of the expressions under the given names. */
  function Build<V>(env: Env<V>, names: seq<string>, es: seq<Expr>, row: Row<V>): Row<V>
    requires |names| == |es|
  {
    if es == [] then map[]
    else
      var n := |es| - 1;
      var front := Build(env, names[..n], es[..n], row);
      if Visible(env, es[n], row) then front[names[n] := Value(env, es[n], row)] else front
  }

  function OutNames(items: seq<SelectItem>): (names: seq<string>)
    ensures |names| == |items| && forall i :: 0 <= i < |items| ==> names[i] == OutName(items[i])
  {
    seq(|items|, i requires 0 <= i < |items| => OutName(items[i]))
  }

  function Columns<V>(env: Env<V>, items: seq<SelectItem>, row: Row<V>): Row<V> {
    Build(env, Texts(Exprs(items)), Exprs(items), row)
  }

  /** All output columns at once, under their final names; an unknown column is left out. */
  function SelectRow<V>(env: Env<V>, items: seq<SelectItem>): Row<V> -> Row<V> {
    row => Build(env, OutNames(items), Exprs(items), row)
  }

  /** The columns of `b` are the visible expressions under their names. */
  ghost predicate IsBuilt<V>(env: Env<V>, names: seq<string>, es: seq<Expr>, row: Row<V>, b: Row<V>)
    requires |names| == |es|
  {
    && (forall k <- b :: Shows(env, names, es, row, k))
    && (forall i :: 0 <= i < |es| && Visible(env, es[i], row) ==> names[i] in b && b[names[i]] == Value(env, es[i], row))
  }

  ghost predicate Shows<V>(env: Env<V>, names: seq<string>, es: seq<Expr>, row: Row<V>, k: string)
    requires |names| == |es|
  {
    exists i :: 0 <= i < |es| && names[i] == k && Visible(env, es[i], row)
  }

  lemma BuiltOnce<V>(env: Env<V>, names: seq<string>, es: seq<Expr>, row: Row<V>, b: Row<V>, c: Row<V>)
    requires |names| == |es| && IsBuilt(env, names, es, row, b) && IsBuilt(env, names, es, row, c)
    ensures b == c
  {
    forall k | k in b
      ensures k in c && b[k] == c[k]
    {
      assert Shows(env, names, es, row, k);
    }
    forall k | k in c
      ensures k in b
    {
      assert Shows(env, names, es, row, k);
    }
  }

  /** Expressions under one name have one value, and are shown or not together. */
  ghost predicate Agree<V>(env: Env<V>, names: seq<string>, es: seq<Expr>, row: Row<V>)
    requires |names| == |es|
  {
    forall i, j :: 0 <= i < |es| && 0 <= j < |es| && names[i] == names[j] ==>
      Visible(env, es[i], row) == Visible(env, es[j], row) && Value(env, es[i], row) == Value(env, es[j], row)
  }

  lemma {:induction false} BuildIsBuilt<V>(env: Env<V>, names: seq<string>, es: seq<Expr>, row: Row<V>)
    requires |names| == |es| && Agree(env, names, es, row)
    ensures IsBuilt(env, names, es, row, Build(env, names, es, row))
    decreases |es|
  {
    if es != [] {
      var n := |es| - 1;
      var front, b := Build(env, names[..n], es[..n], row), Build(env, names, es, row);
      BuildIsBuilt(env, names[..n], es[..n], row);
      forall k | k in b
        ensures Shows(env, names, es, row, k)
      {
        if k in front {
          assert Shows(env, names[..n], es[..n], row, k);
          var i :| 0 <= i < n && names[..n][i] == k && Visible(env, es[..n][i], row);
          assert names[i] == k && Visible(env, es[i], row);
        } else {
          assert names[n] == k;
        }
      }
      forall i | 0 <= i < |es| && Visible(env, es[i], row)
        ensures names[i] in b && b[names[i]] == Value(env, es[i], row)
      {
        if i < n {
          assert names[..n][i] == names[i] && es[..n][i] == es[i];
        }
      }
    }
  }

  /** On extended rows the column an item names is there exactly when the item is visible, with its value. */
  lemma ItemResolves<V>(env: Env<V>, e: Expr, row: Row<V>, calls: set<string>)
    requires SelectExprOk(e) && Terms(e) <= calls && CallsOnly(calls)
    ensures Resolve(env, Extend(env, row, calls), Text(e)) == Value(env, e, row)
    ensures Text(e) in Extend(env, row, calls) || env.isConstant(Text(e)) <==> Visible(env, e, row)
  {
    SelectExprIsExpr(e);
    ResolveExtended(env, e, row, calls);
    if e.Leaf? {
      assert ParseCall(e.value).None?;
    }
  }

  /** The projection operator on extended rows. */
  lemma ProjectionBuilds<V>(env: Env<V>, items: seq<SelectItem>, row: Row<V>, calls: set<string>)
    requires ItemsOk(items)
    requires TermsOf(Exprs(items)) <= calls && CallsOnly(calls)
    ensures ProjectRow(env, FindColumns(items), Extend(env, row, calls)) == Columns(env, items, row)
  {
    var es := Exprs(items);
    forall i | 0 <= i < |es|
      ensures SelectExprOk(es[i]) && ExprOk(es[i]) && Terms(es[i]) <= calls
    {
      assert items[i] in items;
      SelectExprIsExpr(es[i]);
      TermsOfArg(es, i);
    }
    ColumnsSplit(es);
    ProjectColumns(env, es, FindColumns(items), row, calls);
  }

  lemma TextsAgree<V>(env: Env<V>, es: seq<Expr>, row: Row<V>, calls: set<string>)
    requires CallsOnly(calls) && forall i :: 0 <= i < |es| ==> SelectExprOk(es[i]) && Terms(es[i]) <= calls
    ensures Agree(env, Texts(es), es, row)
  {
    forall i, j | 0 <= i < |es| && 0 <= j < |es| && Text(es[i]) == Text(es[j])
      ensures Visible(env, es[i], row) == Visible(env, es[j], row) && Value(env, es[i], row) == Value(env, es[j], row)
    {
      ItemResolves(env, es[i], row, calls);
      ItemResolves(env, es[j], row, calls);
    }
  }

  /** A row whose columns are the visible texts among those listed, each resolved to its expression's value. */
  lemma ProjectedIsBuilt<V>(env: Env<V>, es: seq<Expr>, param: string, row: Row<V>, ext: Row<V>)
    requires SplitExcludeBrackets(param) == Texts(es)
    requires forall i :: 0 <= i < |es| ==>
               && Resolve(env, ext, Text(es[i])) == Value(env, es[i], row)
               && (Text(es[i]) in ext || env.isConstant(Text(es[i])) <==> Visible(env, es[i], row))
    ensures IsBuilt(env, Texts(es), es, row, ProjectRow(env, param, ext))
  {
    var texts := Texts(es);
    forall k | k in ProjectRow(env, param, ext)
      ensures Shows(env, texts, es, row, k)
    {
      var i :| 0 <= i < |texts| && texts[i] == k;
      assert Visible(env, es[i], row);
    }
  }

  lemma ProjectionIsBuilt<V>(env: Env<V>, es: seq<Expr>, param: string, row: Row<V>, calls: set<string>)
    requires SplitExcludeBrackets(param) == Texts(es) && CallsOnly(calls)
    requires forall i :: 0 <= i < |es| ==> SelectExprOk(es[i]) && Terms(es[i]) <= calls
    ensures IsBuilt(env, Texts(es), es, row, ProjectRow(env, param, Extend(env, row, calls)))
  {
    var ext := Extend(env, row, calls);
    forall i | 0 <= i < |es|
      ensures Resolve(env, ext, Text(es[i])) == Value(env, es[i], row)
      ensures Text(es[i]) in ext || env.isConstant(Text(es[i])) <==> Visible(env, es[i], row)
    {
      ItemResolves(env, es[i], row, calls);
    }
    ProjectedIsBuilt(env, es, param, row, ext);
  }

  lemma ProjectColumns<V>(env: Env<V>, es: seq<Expr>, param: string, row: Row<V>, calls: set<string>)
    requires SplitExcludeBrackets(param) == Texts(es) && CallsOnly(calls)
    requires forall i :: 0 <= i < |es| ==> SelectExprOk(es[i]) && Terms(es[i]) <= calls
    ensures ProjectRow(env, param, Extend(env, row, calls)) == Build(env, Texts(es), es, row)
  {
    ProjectionIsBuilt(env, es, param, row, calls);
    TextsAgree(env, es, row, calls);
    BuildIsBuilt(env, Texts(es), es, row);
    BuiltOnce(env, Texts(es), es, row, ProjectRow(env, param, Extend(env, row, calls)), Build(env, Texts(es), es, row));
  }

  /** What a select list asks to be renamed. */
  function Namings(items: seq<SelectItem>): (ns: seq<Naming>)
    ensures |ns| == |items|
    ensures forall i :: 0 <= i < |items| ==> ns[i] == Naming(Text(items[i].expr), OutName(items[i]))
  {
    seq(|items|, i requires 0 <= i < |items| => Naming(Text(items[i].expr), OutName(items[i])))
  }

  lemma RenameMoves<V>(item: SelectItem, b: Row<V>)
    requires ItemOk(item) && item.Renamed?
    ensures RenameColumnRow(RenameText(Text(item.expr), item.newname), b) == MoveColumn(b, Text(item.expr), item.newname)
  {
    SelectExprIsExpr(item.expr);
    TextIsOperand(item.expr);
    RenameParses(Text(item.expr), item.newname);
  }

  lemma {:induction false} TermsAreCalls(e: Expr)
    requires ExprOk(e)
    ensures CallsOnly(Terms(e))
    decreases e, 0
  {
    match e
    case Leaf(_) =>
    case Paren(inner) => TermsAreCalls(inner);
    case Function(name, args) =>
      AllTermsAreCalls(args);
      CallParses(name, args);
  }

  lemma {:induction false} AllTermsAreCalls(es: seq<Expr>)
    requires forall e <- es :: ExprOk(e)
    ensures CallsOnly(TermsOf(es))
    decreases es, 1
  {
    for i := 0 to |es|
      invariant CallsOnly(TermsOf(es[..i]))
    {
      assert es[i] in es && es[..i + 1][..i] == es[..i];
      TermsAreCalls(es[i]);
    }
    assert es[..|es|] == es;
  }

  /** The columns of a select list before renaming are its visible texts, with their values. */
  lemma ColumnsAreBuilt<V>(env: Env<V>, items: seq<SelectItem>, row: Row<V>)
    requires ItemsOk(items)
    ensures IsBuilt(env, Texts(Exprs(items)), Exprs(items), row, Columns(env, items, row))
    ensures Agree(env, Texts(Exprs(items)), Exprs(items), row)
  {
    var es := Exprs(items);
    forall i | 0 <= i < |es|
      ensures SelectExprOk(es[i]) && ExprOk(es[i]) && Terms(es[i]) <= TermsOf(es)
    {
      assert items[i] in items;
      SelectExprIsExpr(es[i]);
      TermsOfArg(es, i);
    }
    AllTermsAreCalls(es);
    TextsAgree(env, es, row, TermsOf(es));
    BuildIsBuilt(env, Texts(es), es, row);
  }

  lemma ColumnIsItem<V>(env: Env<V>, items: seq<SelectItem>, row: Row<V>, i: nat)
    requires i < |items| && ItemsOk(items)
    ensures var b := Columns(env, items, row);
            && (Text(items[i].expr) in b <==> Visible(env, items[i].expr, row))
            && (Text(items[i].expr) in b ==> b[Text(items[i].expr)] == Value(env, items[i].expr, row))
  {
    var es, b := Exprs(items), Columns(env, items, row);
    ColumnsAreBuilt(env, items, row);
    assert Texts(es)[i] == Text(items[i].expr);
    if Text(items[i].expr) in b {
      assert Shows(env, Texts(es), es, row, Text(items[i].expr));
    }
  }

  lemma {:induction false} SelectFollowsNamings<V>(env: Env<V>, items: seq<SelectItem>, row: Row<V>, n: nat)
    requires n <= |items| && ItemsOk(items)
    ensures Build(env, OutNames(items)[..n], Exprs(items)[..n], row) == AtOnce(Namings(items), n, Columns(env, items, row))
    decreases n
  {
    if n > 0 {
      SelectFollowsNamings(env, items, row, n - 1);
      ColumnIsItem(env, items, row, n - 1);
      BuildNext(env, OutNames(items), Exprs(items), row, n - 1);
    } else {
      assert Exprs(items)[..0] == [];
    }
  }

  lemma BuildNext<V>(env: Env<V>, names: seq<string>, es: seq<Expr>, row: Row<V>, n: nat)
    requires |names| == |es| > n
    ensures var front := Build(env, names[..n], es[..n], row);
            (Build(env, names[..n + 1], es[..n + 1], row)
             == if Visible(env, es[n], row) then front[names[n] := Value(env, es[n], row)] else front)
  {
    assert names[..n + 1][..n] == names[..n] && es[..n + 1][..n] == es[..n];
  }

  lemma ColumnsAreListed<V>(env: Env<V>, items: seq<SelectItem>, row: Row<V>)
    requires ItemsOk(items)
    ensures ColumnsOnly(Namings(items), Columns(env, items, row))
  {
    var ns := Namings(items);
    ColumnsAreBuilt(env, items, row);
    forall k | k in Columns(env, items, row)
      ensures Listed(ns, k)
    {
      assert Shows(env, Texts(Exprs(items)), Exprs(items), row, k);
      var i :| 0 <= i < |items| && Texts(Exprs(items))[i] == k;
      assert ns[i].column == k;
    }
  }

  lemma SelectFollowsAll<V>(env: Env<V>, items: seq<SelectItem>, row: Row<V>)
    requires ItemsOk(items)
    ensures Build(env, OutNames(items), Exprs(items), row) == AtOnce(Namings(items), |items|, Columns(env, items, row))
  {
    SelectFollowsNamings(env, items, row, |items|);
    assert OutNames(items)[..|items|] == OutNames(items) && Exprs(items)[..|items|] == Exprs(items);
  }

  /** The select list's row is its projected row with all columns renamed at once. */
  lemma SelectIsAtOnce<V>(env: Env<V>, items: seq<SelectItem>, row: Row<V>)
    requires ItemsOk(items)
    ensures SelectRow(env, items)(row) == AtOnce(Namings(items), |items|, Columns(env, items, row))
  {
    SelectFollowsAll(env, items, row);
  }

  /** Every column to be renamed is known: the row has it, or it is a constant or a computed call. */
  predicate RenamesKnown<V>(env: Env<V>, items: seq<SelectItem>, row: Row<V>) {
    forall i :: 0 <= i < |items| && OutName(items[i]) != Text(items[i].expr) ==> Visible(env, items[i].expr, row)
  }

  lemma RenamedAreThere<V>(env: Env<V>, items: seq<SelectItem>, row: Row<V>)
    requires ItemsOk(items) && RenamesKnown(env, items, row)
    ensures HasMoved(Namings(items), Columns(env, items, row))
  {
    forall i | 0 <= i < |items| && OutName(items[i]) != Text(items[i].expr)
      ensures Text(items[i].expr) in Columns(env, items, row)
    {
      ColumnIsItem(env, items, row, i);
    }
  }

  /** On a safe select list renaming the projected columns in turn goes through and gives the list's row. */
  lemma SelectIsInTurn<V>(env: Env<V>, items: seq<SelectItem>, row: Row<V>)
    requires ItemsOk(items) && Safe(Namings(items)) && RenamesKnown(env, items, row)
    ensures InTurn(Namings(items), |items|, Columns(env, items, row)) == Some(SelectRow(env, items)(row))
  {
    ColumnsAreListed(env, items, row);
    RenamedAreThere(env, items, row);
    SafeRenames(Namings(items), Columns(env, items, row));
    SelectIsAtOnce(env, items, row);
  }

  // ---------------------------------------------------------------- tables

  /** The attributes of a window node; with an explicit hierarchy limit and seed are not passed on. */
  function WindowAttributes(t: Table): map<string, string>
    requires t.Stream?
  {
    var base := match t.window
      case Rows(number) => map["range_window" := number]
      case RowsSorted(number, limit, seed) =>
        if t.own && t.partition.None? then map["range_window" := number]
        else map["range_window" := number, "limit" := limit, "seed" := seed]
      case Range(number, unit) => map["time_window" := number + " " + unit];
    match t.partition
    case None => base
    case Some(columns) => base["partition" := FindColumns(columns)]
  }

  function TableRows<V>(env: Env<V>, t: Table): seq<Row<V>>
    decreases t, 0
  {
    match t
    case Stream(name, _, _, _) => env.read(name, WindowAttributes(t))
    case Nested(sub) => SubQueryRows(env, sub)
  }

  function RenamingTable<V>(env: Env<V>, oldname: string, newname: string): Row<V> -> Row<V> {
    row => env.renameTable(oldname, newname, row)
  }

  /** Every table the renamed one is made of takes the new name, in turn. */
  function RenameAll<V>(env: Env<V>, oldnames: seq<string>, newname: string, rows: seq<Row<V>>): seq<Row<V>> {
    if oldnames == [] then rows
    else
      var n := |oldnames| - 1;
      MapRows(RenamingTable(env, oldnames[n], newname), RenameAll(env, oldnames[..n], newname, rows))
  }

  function FromItemRows<V>(env: Env<V>, f: FromItem): seq<Row<V>>
    decreases f, 0
  {
    match f
    case PlainTable(t) => TableRows(env, t)
    case TableRename(newname, t) => RenameAll(env, TableNames(t), newname, TableRows(env, t))
  }

  /** All combinations of rows of the listed tables. */
  function FromRows<V>(env: Env<V>, from: seq<FromItem>): seq<Row<V>>
    requires from != []
    decreases from, 1
  {
    var n := |from| - 1;
    if n == 0 then FromItemRows(env, from[0])
    else Cross(FromRows(env, from[..n]), FromItemRows(env, from[n]))
  }

  // ---------------------------------------------------------------- queries

  function WhereTerms(q: SubQuery): set<string> {
    if q.where.Some? then PredicateTerms(q.where.value) else {}
  }

  /** The rows FROM and WHERE leave. */
  function WhereRows<V>(env: Env<V>, q: SubQuery): seq<Row<V>>
    decreases q, 2
  {
    var rows := if q.from == [] then [] else FromRows(env, q.from);
    if q.where.Some? then Filter(HoldAll(env, q.where.value), rows) else rows
  }

  /**
   * A select list gives its expressions under their output names. SELECT * gives the rows with all
   * their columns, and with the columns of the function calls in WHERE.
   */
  function SubQueryRows<V>(env: Env<V>, q: SubQuery): seq<Row<V>>
    decreases q, 3
  {
    match q.select
    case Asterisk => ExtendAll(env, WhereRows(env, q), WhereTerms(q))
    case SelectList(items) => MapRows(SelectRow(env, items), WhereRows(env, q))
  }

  function UnionRows<V>(env: Env<V>, subs: seq<SubQuery>): seq<Row<V>> {
    if subs == [] then [] else UnionRows(env, subs[..|subs| - 1]) + SubQueryRows(env, subs[|subs| - 1])
  }

  function QueryRows<V>(env: Env<V>, q: Query): seq<Row<V>> {
    match q
    case Single(sub) => SubQueryRows(env, sub)
    case Union(subs) => UnionRows(env, subs)
  }

  // ---------------------------------------------------------------- queries that rename known columns only

  predicate KnownTable<V>(env: Env<V>, t: Table)
    decreases t, 0
  {
    match t
    case Stream(_, _, _, _) => true
    case Nested(sub) => KnownSubQuery(env, sub)
  }

  predicate KnownItem<V>(env: Env<V>, f: FromItem)
    decreases f, 0
  {
    match f
    case PlainTable(t) => KnownTable(env, t)
    case TableRename(_, t) => KnownTable(env, t)
  }

  predicate KnownFrom<V>(env: Env<V>, from: seq<FromItem>)
    decreases from, 1
  {
    forall i :: 0 <= i < |from| ==> KnownItem(env, from[i])
  }

  predicate KnownSelect<V>(env: Env<V>, s: Select, rows: seq<Row<V>>) {
    s.SelectList? ==> forall i :: 0 <= i < |rows| ==> RenamesKnown(env, s.items, rows[i])
  }

  /** No select list, at any depth, renames a column that some row reaching it lacks. */
  predicate KnownSubQuery<V>(env: Env<V>, q: SubQuery)
    decreases q, 3
  {
    KnownFrom(env, q.from) && KnownSelect(env, q.select, WhereRows(env, q))
  }

  predicate KnownUnion<V>(env: Env<V>, subs: seq<SubQuery>) {
    forall i :: 0 <= i < |subs| ==> KnownSubQuery(env, subs[i])
  }

  predicate KnownQuery<V>(env: Env<V>, q: Query) {
    match q
    case Single(sub) => KnownSubQuery(env, sub)
    case Union(subs) => KnownUnion(env, subs)
  }

  // ---------------------------------------------------------------- queries whose columns can be renamed in turn

  predicate SafeSelect(s: Select) {
    s.SelectList? ==> Safe(Namings(s.items))
  }

  /** The list of a nested query is read through copies of its schema. */
  predicate SteadySelect(s: Select) {
    s.SelectList? ==> SchemaIndex.Steady(Namings(s.items))
  }

  predicate SafeTable(t: Table)
    decreases t, 0
  {
    match t
    case Stream(_, _, _, _) => true
    case Nested(sub) => SafeSubQuery(sub) && SteadySelect(sub.select)
  }

  predicate SafeItem(f: FromItem)
    decreases f, 0
  {
    match f
    case PlainTable(t) => SafeTable(t)
    case TableRename(_, t) => SafeTable(t)
  }

  /**
   * Every select list, at any depth, is one on which renaming in turn is renaming at once, and below the
   * top also one whose columns a copied schema finds again.
   */
  predicate SafeSubQuery(q: SubQuery)
    decreases q, 3
  {
    SafeSelect(q.select) && SafeFrom(q.from)
  }

  predicate SafeFrom(from: seq<FromItem>)
    decreases from, 1
  {
    forall f <- from :: SafeItem(f)
  }

  predicate SafeUnion(subs: seq<SubQuery>) {
    forall s <- subs :: SafeSubQuery(s)
  }

  predicate SafeQuery(q: Query) {
    match q
    case Single(sub) => SafeSubQuery(sub)
    case Union(subs) => SafeUnion(subs)
  }

  /**
   * SELECT * keeps the rows WHERE leaves, with the columns of the calls in WHERE. It is plain filtering
   * exactly when every row already has a column for each of the calls, with the call's value.
   */
  lemma StarKeepsWhereCalls<V>(env: Env<V>, q: SubQuery)
    requires q.select.Asterisk?
    ensures |SubQueryRows(env, q)| == |WhereRows(env, q)|
    ensures forall i :: 0 <= i < |WhereRows(env, q)| ==>
              SubQueryRows(env, q)[i].Keys == WhereRows(env, q)[i].Keys + WhereTerms(q)
    ensures SubQueryRows(env, q) == WhereRows(env, q) <==>
              forall i :: 0 <= i < |WhereRows(env, q)| ==> HasCalls(env, WhereRows(env, q)[i], WhereTerms(q))
  {
    var rows, calls := WhereRows(env, q), WhereTerms(q);
    forall i | 0 <= i < |rows|
      ensures Extend(env, rows[i], calls).Keys == rows[i].Keys + calls
      ensures Extend(env, rows[i], calls) == rows[i] <==> HasCalls(env, rows[i], calls)
    {
      ExtendIsSame(env, rows[i], calls);
    }
  }

  /** Where no call is a column of the rows, SELECT * is plain filtering only without calls or without rows. */
  lemma StarIsPlainIff<V>(env: Env<V>, q: SubQuery)
    requires q.select.Asterisk?
    requires forall i :: 0 <= i < |WhereRows(env, q)| ==> WhereTerms(q) !! WhereRows(env, q)[i].Keys
    ensures SubQueryRows(env, q) == WhereRows(env, q) <==> WhereTerms(q) == {} || WhereRows(env, q) == []
  {
    StarKeepsWhereCalls(env, q);
    var rows, calls := WhereRows(env, q), WhereTerms(q);
    if calls != {} && rows != [] {
      var k :| k in calls;
      assert k !in rows[0] && !HasCalls(env, rows[0], calls);
    }
  }
}
