/**
 * The query parse tree, the texts the compiler makes of its expressions, the names of the tables in a
 * FROM list, and how the texts are read back.
 */
module QueryTree {
  import opened Common
  import opened StringUtil

  /** EXPRESSION: a leaf token, a parenthesised expression or a function call. */
  datatype Expr = Leaf(value: string) | Paren(inner: Expr) | Function(name: string, args: seq<Expr>)

  datatype Predicate = Predicate(left: Expr, comparator: string, right: Expr)

  /** An EXPRESSION or an EXPRESSION_RENAME of a select list. */
  datatype SelectItem = Plain(expr: Expr) | Renamed(newname: string, expr: Expr)

  datatype Select = Asterisk | SelectList(items: seq<SelectItem>)

  /** ROWS n, ROWS n sort by distance_cost limit l seed s, or RANGE n unit. */
  datatype Window = Rows(number: string) | RowsSorted(number: string, limit: string, seed: string)
                  | Range(number: string, unit: string)

  /** A windowed table, with PARTITION columns or the hierarchy OWN if given, or a subquery. */
  datatype Table =
    | Stream(name: string, partition: Option<seq<SelectItem>>, window: Window, own: bool)
    | Nested(sub: SubQuery)

  datatype FromItem = PlainTable(table: Table) | TableRename(newname: string, table: Table)

  datatype SubQuery = SubQuery(select: Select, from: seq<FromItem>, where: Option<seq<Predicate>>)

  datatype Query = Single(sub: SubQuery) | Union(subs: seq<SubQuery>)

  // ---------------------------------------------------------------- texts

  /** analyzeExpression: parentheses leave no trace in the text. */
  function Text(e: Expr): string {
    match e
    case Leaf(value) => value
    case Paren(inner) => Text(inner)
    case Function(name, args) => name + "(" + JoinWith(",", Texts(args)) + ")"
  }

  function Texts(es: seq<Expr>): (texts: seq<string>)
    ensures |texts| == |es| && forall i :: 0 <= i < |es| ==> texts[i] == Text(es[i])
  {
    if es == [] then [] else [Text(es[0])] + Texts(es[1..])
  }

  function Exprs(items: seq<SelectItem>): (es: seq<Expr>)
    ensures |es| == |items| && forall i :: 0 <= i < |es| ==> es[i] == items[i].expr
  {
    seq(|items|, i requires 0 <= i < |items| => items[i].expr)
  }

  /** findColumns. */
  function FindColumns(items: seq<SelectItem>): string {
    JoinWith(",", Texts(Exprs(items)))
  }

  function PredicateText(p: Predicate): string {
    Text(p.left) + p.comparator + Text(p.right)
  }

  function PredicateTexts(ps: seq<Predicate>): (texts: seq<string>)
    ensures |texts| == |ps| && forall i :: 0 <= i < |ps| ==> texts[i] == PredicateText(ps[i])
  {
    seq(|ps|, i requires 0 <= i < |ps| => PredicateText(ps[i]))
  }

  function RenameText(oldname: string, newname: string): string {
    oldname + " as " + newname
  }

  // ---------------------------------------------------------------- what the parser guarantees

  predicate IsComparatorChar(c: char) {
    c == '<' || c == '>' || c == '=' || c == '!'
  }

  /** A token: no blank, bracket, comma or comparator in it. */
  predicate IsToken(s: string) {
    s != "" && IsOrdinary(s) && Avoids(s, ' ') && forall i :: 0 <= i < |s| ==> !IsComparatorChar(s[i])
  }

  predicate IsComparator(s: string) {
    s != "" && forall i :: 0 <= i < |s| ==> IsComparatorChar(s[i])
  }

  predicate ExprOk(e: Expr) {
    match e
    case Leaf(value) => IsToken(value)
    case Paren(inner) => ExprOk(inner)
    case Function(name, args) => IsToken(name) && forall a <- args :: ExprOk(a)
  }

  /** The select list has no case for a parenthesised expression. */
  predicate SelectExprOk(e: Expr) {
    match e
    case Leaf(value) => IsToken(value)
    case Paren(_) => false
    case Function(name, args) => IsToken(name) && forall a <- args :: SelectExprOk(a)
  }

  lemma {:induction false} SelectExprIsExpr(e: Expr)
    requires SelectExprOk(e)
    ensures ExprOk(e)
    decreases e
  {
    if e.Function? {
      forall a | a in e.args
        ensures ExprOk(a)
      {
        SelectExprIsExpr(a);
      }
    }
  }

  predicate PredicateOk(p: Predicate) {
    ExprOk(p.left) && IsComparator(p.comparator) && ExprOk(p.right)
  }

  function OutName(item: SelectItem): string {
    match item
    case Plain(e) => Text(e)
    case Renamed(newname, _) => newname
  }

  predicate ItemOk(item: SelectItem) {
    SelectExprOk(item.expr) && (item.Renamed? ==> IsToken(item.newname))
  }

  predicate ItemsOk(items: seq<SelectItem>) {
    forall item <- items :: ItemOk(item)
  }

  predicate PredicatesOk(ps: seq<Predicate>) {
    ps != [] && forall p <- ps :: PredicateOk(p)
  }

  predicate SelectOk(s: Select) {
    s.SelectList? ==> s.items != [] && ItemsOk(s.items)
  }

  predicate TableOk(t: Table) {
    match t
    case Stream(name, _, _, _) => IsToken(name)
    case Nested(sub) => SubQueryOk(sub)
  }

  predicate FromItemOk(f: FromItem) {
    match f
    case PlainTable(t) => TableOk(t)
    case TableRename(newname, t) => IsToken(newname) && TableOk(t)
  }

  predicate SubQueryOk(q: SubQuery) {
    && SelectOk(q.select)
    && q.from != [] && (forall f <- q.from :: FromItemOk(f))
    && (q.where.Some? ==> PredicatesOk(q.where.value))
  }

  predicate QueryOk(q: Query) {
    match q
    case Single(sub) => SubQueryOk(sub)
    case Union(subs) => |subs| >= 2 && forall s <- subs :: SubQueryOk(s)
  }

  // ---------------------------------------------------------------- table names

  /** std::list::merge of two ascending lists. */
  function Merge(a: seq<string>, b: seq<string>): (m: seq<string>)
    ensures |m| == |a| + |b|
    ensures forall s <- m :: s in a || s in b
  {
    if a == [] then b
    else if b == [] then a
    else if Greater(a[0], b[0]) then [b[0]] + Merge(a, b[1..])
    else [a[0]] + Merge(a[1..], b)
  }

  /** Nothing is lost or doubled. */
  lemma {:induction false} MergeHasBoth(a: seq<string>, b: seq<string>)
    ensures multiset(Merge(a, b)) == multiset(a) + multiset(b)
    decreases |a| + |b|
  {
    if a != [] && b != [] {
      if Greater(a[0], b[0]) {
        MergeHasBoth(a, b[1..]);
        FirstOfBag(b);
        FirstOfBag(Merge(a, b));
      } else {
        MergeHasBoth(a[1..], b);
        FirstOfBag(a);
        FirstOfBag(Merge(a, b));
      }
    }
  }

  lemma FirstOfBag(s: seq<string>)
    requires s != []
    ensures multiset(s) == multiset{s[0]} + multiset(s[1..])
  {
    assert s == [s[0]] + s[1..];
  }

  lemma InMerge(a: seq<string>, b: seq<string>, s: string)
    ensures s in Merge(a, b) <==> s in a || s in b
  {
    MergeHasBoth(a, b);
    assert s in Merge(a, b) <==> s in multiset(Merge(a, b));
  }

  /** findTableNames of a TABLE node. */
  function TableNames(t: Table): seq<string>
    decreases t, 0
  {
    match t
    case Stream(name, _, _, _) => [name]
    case Nested(sub) => FromNames(sub.from)
  }

  function ItemNames(f: FromItem): seq<string>
    decreases f, 0
  {
    match f
    case PlainTable(t) => TableNames(t)
    case TableRename(newname, _) => [newname]
  }

  function FromNames(from: seq<FromItem>): seq<string>
    decreases from, 1
  {
    if from == [] then []
    else Merge(FromNames(from[..|from| - 1]), ItemNames(from[|from| - 1]))
  }

  lemma {:induction false} TableNamesAreTokens(t: Table)
    requires TableOk(t)
    ensures TableNames(t) != [] && forall n <- TableNames(t) :: IsToken(n)
    decreases t, 0
  {
    match t
    case Stream(_, _, _, _) =>
    case Nested(sub) => FromNamesAreTokens(sub.from);
  }

  lemma {:induction false} ItemNamesAreTokens(f: FromItem)
    requires FromItemOk(f)
    ensures ItemNames(f) != [] && forall n <- ItemNames(f) :: IsToken(n)
    decreases f, 0
  {
    match f
    case PlainTable(t) => TableNamesAreTokens(t);
    case TableRename(_, _) =>
  }

  lemma {:induction false} FromNamesAreTokens(from: seq<FromItem>)
    requires forall f <- from :: FromItemOk(f)
    ensures |FromNames(from)| >= |from| && forall n <- FromNames(from) :: IsToken(n)
    decreases from, 1
  {
    if from != [] {
      FromNamesAreTokens(from[..|from| - 1]);
      assert from[|from| - 1] in from;
      ItemNamesAreTokens(from[|from| - 1]);
    }
  }

  // ---------------------------------------------------------------- texts can be read back

  lemma {:induction false} TextPasses(e: Expr, depth: nat, current: string, rest: string)
    requires ExprOk(e)
    ensures TopParts(Text(e) + rest, depth, current) == TopParts(rest, depth, current + Text(e))
    decreases e, 0
  {
    match e
    case Leaf(value) => PassOrdinary(value, depth, current, rest);
    case Paren(inner) => TextPasses(inner, depth, current, rest);
    case Function(name, args) =>
      ArgsPass(args, depth + 1, current + name + "(", ")" + rest);
      PassCall(name, JoinWith(",", Texts(args)), depth, current, rest);
  }

  /** Inside brackets the commas of an argument list do not split. */
  lemma {:induction false} ArgsPass(args: seq<Expr>, depth: nat, current: string, rest: string)
    requires depth > 0 && forall a <- args :: ExprOk(a)
    ensures TopParts(JoinWith(",", Texts(args)) + rest, depth, current)
         == TopParts(rest, depth, current + JoinWith(",", Texts(args)))
    decreases args, 1
  {
    if args == [] {
      assert "" + rest == rest && current + "" == current;
    } else {
      assert args[0] in args;
      if |args| == 1 {
        TextPasses(args[0], depth, current, rest);
      } else {
        var more := JoinWith(",", Texts(args[1..]));
        assert Texts(args)[1..] == Texts(args[1..]);
        TextPasses(args[0], depth, current, "," + (more + rest));
        ArgsPass(args[1..], depth, current + Text(args[0]) + ",", rest);
        PassComma(Text(args[0]), more, depth, current, rest);
      }
    }
  }

  /** Splitting a column list outside brackets gives its column texts. */
  lemma {:induction false} ColumnsSplit(es: seq<Expr>)
    requires forall e <- es :: ExprOk(e)
    ensures SplitExcludeBrackets(JoinWith(",", Texts(es))) == Texts(es)
  {
    if es != [] {
      assert es[0] in es;
      TextNotEmpty(es[0]);
      PartsSplit(es);
      if |es| > 1 {
        assert JoinWith(",", Texts(es))[0] == Text(es[0])[0];
      }
    }
  }

  /** The first text of a list ends at its comma. */
  lemma FirstPart(first: Expr, more: string)
    requires ExprOk(first)
    ensures TopParts(Text(first) + ("," + more), 0, "") == [Text(first)] + TopParts(more, 0, "")
  {
    var text := Text(first);
    TextPasses(first, 0, "", "," + more);
    assert "" + text == text && ("," + more)[1..] == more;
  }

  lemma OnlyPart(e: Expr)
    requires ExprOk(e)
    ensures TopParts(Text(e), 0, "") == [Text(e)]
  {
    TextPasses(e, 0, "", "");
    assert Text(e) + "" == Text(e);
    assert "" + Text(e) == Text(e);
    assert TopParts("", 0, Text(e)) == [Text(e)];
  }

  lemma JoinedFirst(texts: seq<string>)
    requires |texts| > 1
    ensures JoinWith(",", texts) == texts[0] + ("," + JoinWith(",", texts[1..]))
  {
  }

  lemma {:induction false} PartsSplit(es: seq<Expr>)
    requires es != [] && forall e <- es :: ExprOk(e)
    ensures TopParts(JoinWith(",", Texts(es)), 0, "") == Texts(es)
    decreases |es|
  {
    assert es[0] in es;
    if |es| == 1 {
      OnlyPart(es[0]);
    } else {
      assert Texts(es)[1..] == Texts(es[1..]);
      JoinedFirst(Texts(es));
      FirstPart(es[0], JoinWith(",", Texts(es[1..])));
      PartsSplit(es[1..]);
    }
  }

  lemma {:induction false} TextNotEmpty(e: Expr)
    requires ExprOk(e)
    ensures Text(e) != ""
    decreases e
  {
    if e.Paren? {
      TextNotEmpty(e.inner);
    }
  }

  /** No text contains a blank or a comparator character. */
  predicate IsOperand(s: string) {
    s != "" && Avoids(s, ' ') && forall i :: 0 <= i < |s| ==> !IsComparatorChar(s[i])
  }

  lemma {:induction false} TextIsOperand(e: Expr)
    requires ExprOk(e)
    ensures IsOperand(Text(e))
    decreases e, 0
  {
    match e
    case Leaf(_) =>
    case Paren(inner) => TextIsOperand(inner);
    case Function(name, args) => ArgsAreOperands(args);
  }

  lemma {:induction false} ArgsAreOperands(args: seq<Expr>)
    requires forall a <- args :: ExprOk(a)
    ensures var s := JoinWith(",", Texts(args)); s == "" || IsOperand(s)
    decreases args, 1
  {
    if args != [] {
      assert args[0] in args;
      TextIsOperand(args[0]);
      if |args| > 1 {
        assert Texts(args)[1..] == Texts(args[1..]);
        ArgsAreOperands(args[1..]);
      }
    }
  }
}
