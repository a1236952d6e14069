/** What the operators of the dataflow graph do to rows, read off their parameter strings. */
module OperatorSemantics {
  import opened Common
  import opened StringUtil
  import opened QueryTree

  /** A row by column name, so that column order plays no part. */
  type Row<V> = map<string, V>

  /** The world outside the query: windows, user functions, constants and value comparison. */
  datatype Env<!V> = Env(
    read: (string, map<string, string>) -> seq<Row<V>>,
    call: (string, seq<V>) -> V,
    literal: string -> V,
    isConstant: string -> bool,
    compare: (string, V, V) -> bool,
    renameTable: (string, string, Row<V>) -> Row<V>)

  /** A column if the row has it, otherwise the text itself as a constant. */
  function Resolve<V>(env: Env<V>, row: Row<V>, s: string): V {
    if s in row then row[s] else env.literal(s)
  }

  /** Function name and argument texts of "f(a,b)"; the arguments are shorter than the call. */
  function ParseCall(s: string): (call: Option<(string, seq<string>)>)
    ensures call.Some? ==> forall i :: 0 <= i < |call.value.1| ==> |call.value.1[i]| < |s|
    ensures Avoids(s, '(') ==> call.None?
  {
    var i := Find(s, "(");
    if i == -1 || s[|s| - 1] != ')' || i == |s| - 1 then None
    else
      assert s[i..i + 1][0] == s[i];
      Some((s[..i], SplitExcludeBrackets(s[i + 1..|s| - 1])))
  }

  /** The eval operator appends the column its parameter names. */
  function EvalRow<V>(env: Env<V>, param: string, row: Row<V>): Row<V> {
    match ParseCall(param)
    case None => row
    case Some((name, args)) =>
      row[param := env.call(name, seq(|args|, i requires 0 <= i < |args| => Resolve(env, row, args[i])))]
  }

  function OperandLength(s: string): (n: nat)
    ensures n <= |s|
  {
    if s == "" || IsComparatorChar(s[0]) then 0 else 1 + OperandLength(s[1..])
  }

  function ComparatorLength(s: string): (n: nat)
    ensures n <= |s|
  {
    if s == "" || !IsComparatorChar(s[0]) then 0 else 1 + ComparatorLength(s[1..])
  }

  /** Left text, comparator and right text of one condition. */
  function ParseCondition(s: string): (string, string, string) {
    var n := OperandLength(s);
    var m := n + ComparatorLength(s[n..]);
    (s[..n], s[n..m], s[m..])
  }

  predicate ConditionHolds<V>(env: Env<V>, state: string, row: Row<V>) {
    var (l, c, r) := ParseCondition(state);
    env.compare(c, Resolve(env, row, l), Resolve(env, row, r))
  }

  predicate AllHold<V>(env: Env<V>, states: seq<string>, row: Row<V>) {
    forall i :: 0 <= i < |states| ==> ConditionHolds(env, states[i], row)
  }

  /** Keeps the named columns and constants; a name that is neither is dropped. */
  function ProjectRow<V>(env: Env<V>, param: string, row: Row<V>): Row<V> {
    map p | p in SplitExcludeBrackets(param) && (p in row || env.isConstant(p)) :: Resolve(env, row, p)
  }

  /** Schema::renameColumnName as name lookup sees it: it fails when the column is not there. */
  function MoveColumn<V>(row: Row<V>, from: string, to: string): Option<Row<V>> {
    if from == to then Some(row)
    else if from in row then Some((row - {from})[to := row[from]])
    else None
  }

  /** None when the operator cannot rename, and so delivers nothing. */
  function RenameColumnRow<V>(param: string, row: Row<V>): Option<Row<V>> {
    var names := Split(param, " as ");
    if |names| == 2 then MoveColumn(row, names[0], names[1]) else None
  }

  function RenameTableRow<V>(env: Env<V>, param: string, row: Row<V>): Row<V> {
    var names := Split(param, " as ");
    if |names| == 2 then env.renameTable(names[0], names[1], row) else row
  }

  function MapRows<V>(f: Row<V> -> Row<V>, rows: seq<Row<V>>): seq<Row<V>> {
    seq(|rows|, i requires 0 <= i < |rows| => f(rows[i]))
  }

  function Filter<V>(keep: Row<V> -> bool, rows: seq<Row<V>>): seq<Row<V>> {
    if rows == [] then []
    else
      var front, last := Filter(keep, rows[..|rows| - 1]), rows[|rows| - 1];
      if keep(last) then front + [last] else front
  }

  function CrossRow<V>(l: Row<V>, right: seq<Row<V>>): seq<Row<V>> {
    seq(|right|, i requires 0 <= i < |right| => l + right[i])
  }

  function Cross<V>(left: seq<Row<V>>, right: seq<Row<V>>): seq<Row<V>> {
    if left == [] then [] else Cross(left[..|left| - 1], right) + CrossRow(left[|left| - 1], right)
  }

  // ---------------------------------------------------------------- the order of a join's inputs

  function CrossCol<V>(left: seq<Row<V>>, r: Row<V>): seq<Row<V>> {
    seq(|left|, i requires 0 <= i < |left| => left[i] + r)
  }

  lemma BagStep<T>(both: seq<T>, a: seq<T>, c: seq<T>, b: seq<T>, x: T)
    requires multiset(both) == multiset(a) + multiset(c)
    ensures multiset(both + (b + [x])) == multiset(a + b) + multiset(c + [x])
  {
  }

  lemma CrossNext<V>(left: seq<Row<V>>, l: Row<V>, right: seq<Row<V>>)
    ensures Cross(left + [l], right) == Cross(left, right) + CrossRow(l, right)
  {
    assert (left + [l])[..|left|] == left;
  }

  lemma RowNext<V>(l: Row<V>, right: seq<Row<V>>, r: Row<V>)
    ensures CrossRow(l, right + [r]) == CrossRow(l, right) + [l + r]
  {
  }

  lemma ColNext<V>(left: seq<Row<V>>, l: Row<V>, r: Row<V>)
    ensures CrossCol(left + [l], r) == CrossCol(left, r) + [l + r]
  {
  }

  lemma {:induction false} AddRightRow<V>(left: seq<Row<V>>, right: seq<Row<V>>, r: Row<V>)
    ensures multiset(Cross(left, right + [r])) == multiset(Cross(left, right)) + multiset(CrossCol(left, r))
    decreases |left|
  {
    if left != [] {
      var front, l := left[..|left| - 1], left[|left| - 1];
      assert left == front + [l];
      AddRightRow(front, right, r);
      CrossNext(front, l, right + [r]);
      CrossNext(front, l, right);
      RowNext(l, right, r);
      ColNext(front, l, r);
      BagStep(Cross(front, right + [r]), Cross(front, right), CrossCol(front, r), CrossRow(l, right), l + r);
    }
  }

  lemma {:induction false} NoRightRows<V>(left: seq<Row<V>>)
    ensures Cross(left, []) == []
    decreases |left|
  {
    if left != [] {
      NoRightRows(left[..|left| - 1]);
    }
  }

  ghost predicate Disjoint<V>(left: seq<Row<V>>, right: seq<Row<V>>) {
    forall i, j :: 0 <= i < |left| && 0 <= j < |right| ==> left[i].Keys !! right[j].Keys
  }

  lemma ColIsRow<V>(left: seq<Row<V>>, r: Row<V>)
    requires forall i :: 0 <= i < |left| ==> left[i].Keys !! r.Keys
    ensures CrossCol(left, r) == CrossRow(r, left)
  {
    forall i | 0 <= i < |left|
      ensures left[i] + r == r + left[i]
    {
    }
  }

  /**
   * The join operator puts its inputs in an order of its own; with tables whose columns differ that
   * does not change the bag of joined rows.
   */
  lemma {:induction false} JoinOrderIsIrrelevant<V>(left: seq<Row<V>>, right: seq<Row<V>>)
    requires Disjoint(left, right)
    ensures multiset(Cross(left, right)) == multiset(Cross(right, left))
    decreases |right|
  {
    if right == [] {
      NoRightRows(left);
    } else {
      var front, last := right[..|right| - 1], right[|right| - 1];
      assert right == front + [last];
      JoinOrderIsIrrelevant(left, front);
      AddRightRow(left, front, last);
      ColIsRow(left, last);
    }
  }

  // ---------------------------------------------------------------- parameters can be read back

  lemma BracketsParse(name: string, body: string)
    requires Avoids(name, '(')
    ensures ParseCall(name + "(" + body + ")") == Some((name, SplitExcludeBrackets(body)))
  {
    var s := name + "(" + body + ")";
    assert s == name + "(" + (body + ")");
    FindSeparator(name, "(", body + ")");
    assert s[..|name|] == name && s[|name| + 1..|s| - 1] == body;
  }

  lemma CallParses(name: string, args: seq<Expr>)
    requires IsToken(name) && forall a <- args :: ExprOk(a)
    ensures ParseCall(Text(Function(name, args))) == Some((name, Texts(args)))
  {
    BracketsParse(name, JoinWith(",", Texts(args)));
    ColumnsSplit(args);
  }

  lemma {:induction false} OperandEnds(l: string, rest: string)
    requires (forall i :: 0 <= i < |l| ==> !IsComparatorChar(l[i])) && (rest == "" || IsComparatorChar(rest[0]))
    ensures OperandLength(l + rest) == |l|
    decreases |l|
  {
    if l == "" {
      assert l + rest == rest;
    } else {
      assert (l + rest)[1..] == l[1..] + rest;
      OperandEnds(l[1..], rest);
    }
  }

  lemma {:induction false} ComparatorEnds(c: string, rest: string)
    requires (forall i :: 0 <= i < |c| ==> IsComparatorChar(c[i])) && (rest == "" || !IsComparatorChar(rest[0]))
    ensures ComparatorLength(c + rest) == |c|
    decreases |c|
  {
    if c == "" {
      assert c + rest == rest;
    } else {
      assert (c + rest)[1..] == c[1..] + rest;
      ComparatorEnds(c[1..], rest);
    }
  }

  lemma ConditionParses(p: Predicate)
    requires PredicateOk(p)
    ensures ParseCondition(PredicateText(p)) == (Text(p.left), p.comparator, Text(p.right))
  {
    var l, c, r := Text(p.left), p.comparator, Text(p.right);
    TextIsOperand(p.left);
    TextIsOperand(p.right);
    assert PredicateText(p) == l + (c + r);
    OperandEnds(l, c + r);
    ComparatorEnds(c, r);
    assert (l + (c + r))[|l|..] == c + r;
  }

  lemma RenameParses(oldname: string, newname: string)
    requires IsOperand(oldname) && IsOperand(newname)
    ensures Split(RenameText(oldname, newname), " as ") == [oldname, newname]
  {
    assert JoinWith(" as ", [oldname, newname]) == RenameText(oldname, newname) by {
      assert [oldname, newname][1..] == [newname];
    }
    SplitJoin(" as ", [oldname, newname]);
  }

  lemma PredicatesSplit(ps: seq<Predicate>)
    requires PredicatesOk(ps)
    ensures Split(JoinWith(" AND ", PredicateTexts(ps)), " AND ") == PredicateTexts(ps)
  {
    var texts := PredicateTexts(ps);
    forall i | 0 <= i < |texts|
      ensures Avoids(texts[i], ' ') && texts[i] != ""
    {
      assert ps[i] in ps;
      TextIsOperand(ps[i].left);
      TextIsOperand(ps[i].right);
      ComparatorAvoidsBlank(ps[i].comparator);
    }
    SplitJoin(" AND ", texts);
    JoinNotEmpty(" AND ", texts);
  }

  lemma ComparatorAvoidsBlank(c: string)
    requires IsComparator(c)
    ensures Avoids(c, ' ')
  {
    assert forall i :: 0 <= i < |c| ==> IsComparatorChar(c[i]);
  }

  lemma JoinNotEmpty(sep: string, texts: seq<string>)
    requires texts != [] && texts[0] != ""
    ensures JoinWith(sep, texts) != ""
  {
  }
}
