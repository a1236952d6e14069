/** What queries mean, written out on rows: values, conditions, joins, unions and failing renames. */
module QueryLaws {
  import opened Common
  import opened StringUtil
  import opened QueryTree
  import opened OperatorSemantics
  import opened RenameOrder
  import opened QueryMeaning
  import opened PlanMeaning
  import opened CompileSteps

  // ---------------------------------------------------------------- texts

  /** How the compiler writes calls, column lists, conditions and renames. */
  lemma TextsWritten()
    ensures Text(Function("f", [Leaf("a"), Paren(Leaf("b"))])) == "f(a,b)"
    ensures FindColumns([Plain(Leaf("a")), Renamed("c", Leaf("b"))]) == "a,b"
    ensures PredicateListText([Predicate(Leaf("a"), "<", Leaf("b")), Predicate(Leaf("c"), "=", Leaf("d"))]) == "a<b AND c=d"
    ensures RenameText("a", "b") == "a as b"
  {
    JoinTwo(",", "a", "b");
    assert Text(Paren(Leaf("b"))) == Text(Leaf("b")) == "b";
    assert Texts([Leaf("a"), Paren(Leaf("b"))]) == ["a", "b"];
    assert Texts(Exprs([Plain(Leaf("a")), Renamed("c", Leaf("b"))])) == ["a", "b"];
    JoinTwo(" AND ", "a<b", "c=d");
    assert PredicateText(Predicate(Leaf("a"), "<", Leaf("b"))) == "a" + "<" + "b" == "a<b";
    assert PredicateText(Predicate(Leaf("c"), "=", Leaf("d"))) == "c" + "=" + "d" == "c=d";
    assert PredicateTexts([Predicate(Leaf("a"), "<", Leaf("b")), Predicate(Leaf("c"), "=", Leaf("d"))]) == ["a<b", "c=d"];
  }

  lemma JoinTwo(sep: string, a: string, b: string)
    ensures JoinWith(sep, [a, b]) == a + sep + b
  {
    assert [a, b][1..] == [b];
  }

  // ---------------------------------------------------------------- values

  /** A name is a column where the row has it and a constant elsewhere; a name that is neither gives no column. */
  lemma OneColumn<V>(env: Env<V>, name: string, row: Row<V>)
    ensures SelectRow(env, [Plain(Leaf(name))])(row) ==
              if name in row then map[name := row[name]]
              else if env.isConstant(name) then map[name := env.literal(name)] else map[]
  {
    var items := [Plain(Leaf(name))];
    assert Exprs(items) == [Leaf(name)] && OutNames(items) == [name];
    assert [Leaf(name)][..0] == [] && [name][..0] == [] && Build(env, [], [], row) == map[];
    assert Value(env, Leaf(name), row) == if name in row then row[name] else env.literal(name);
  }

  /** The two columns a call and a column make. */
  lemma TwoColumns<V>(env: Env<V>, f: string, a: string, b: string, x: string, row: Row<V>)
    requires a in row && b in row
    ensures SelectRow(env, [Renamed(x, Function(f, [Leaf(a), Leaf(b)])), Plain(Leaf(a))])(row)
         == map[x := env.call(f, [row[a], row[b]])][a := row[a]]
  {
    var call, items := Function(f, [Leaf(a), Leaf(b)]), [Renamed(x, Function(f, [Leaf(a), Leaf(b)])), Plain(Leaf(a))];
    CallValue(env, f, [Leaf(a), Leaf(b)], row, [row[a], row[b]]);
    var names, es := OutNames(items), Exprs(items);
    assert names == [x, a] && es == [call, Leaf(a)];
    assert names[..1] == [x] && es[..1] == [call] && [x][..0] == [] && [call][..0] == [];
    assert Build(env, [x], [call], row) == map[x := env.call(f, [row[a], row[b]])];
  }

  // ---------------------------------------------------------------- rows

  lemma {:induction false} FilterSelects<V>(keep: Row<V> -> bool, rows: seq<Row<V>>)
    ensures IsSelection(rows, keep, Filter(keep, rows))
    decreases |rows|
  {
    if rows == [] {
      NothingSelected(keep);
    } else {
      FilterSelects(keep, rows[..|rows| - 1]);
      SelectionNext(rows, keep, Filter(keep, rows[..|rows| - 1]));
    }
  }

  /** The join puts each row on the left before each row on the right, the left ones outermost. */
  lemma {:induction false} CrossAt<V>(left: seq<Row<V>>, right: seq<Row<V>>, i: nat, j: nat)
    requires i < |left| && j < |right|
    ensures |Cross(left, right)| == |left| * |right|
    ensures i * |right| + j < |left| * |right| && Cross(left, right)[i * |right| + j] == left[i] + right[j]
    decreases |left|
  {
    var n := |left| - 1;
    CrossSize(left, right);
    CrossSize(left[..n], right);
    Inside(i, j, |left|, |right|);
    if i < n {
      CrossAt(left[..n], right, i, j);
    }
  }

  lemma Inside(i: nat, j: nat, m: nat, n: nat)
    requires i < m && j < n
    ensures i * n + j < m * n
  {
    assert (i + 1) * n <= m * n;
  }

  lemma OneMore(m: int, n: int)
    ensures m * n + n == (m + 1) * n
  {
  }

  lemma {:induction false} CrossSize<V>(left: seq<Row<V>>, right: seq<Row<V>>)
    ensures |Cross(left, right)| == |left| * |right|
    decreases |left|
  {
    if left != [] {
      CrossSize(left[..|left| - 1], right);
      OneMore(|left| - 1, |right|);
    }
  }

  /** One row of each item. */
  ghost predicate PicksRows<V>(env: Env<V>, from: seq<FromItem>, pick: seq<Row<V>>) {
    |pick| == |from| && forall i :: 0 <= i < |from| ==> pick[i] in FromItemRows(env, from[i])
  }

  function Merged<V>(pick: seq<Row<V>>): Row<V> {
    if pick == [] then map[] else Merged(pick[..|pick| - 1]) + pick[|pick| - 1]
  }

  lemma {:induction false} InCross<V>(left: seq<Row<V>>, right: seq<Row<V>>, x: Row<V>)
    ensures x in Cross(left, right) <==> exists l, r :: l in left && r in right && x == l + r
    decreases |left|
  {
    if left != [] {
      var front, last := left[..|left| - 1], left[|left| - 1];
      assert left == front + [last];
      InCross(front, right, x);
      if r :| r in right && x == last + r {
        var j :| 0 <= j < |right| && right[j] == r;
        assert CrossRow(last, right)[j] == x;
      }
    }
  }

  /** The rows of FROM are the merges of one row of each item, every choice of them, later items over earlier ones. */
  lemma {:induction false} FromRowsArePicks<V>(env: Env<V>, from: seq<FromItem>, x: Row<V>)
    requires from != []
    ensures x in FromRows(env, from) <==> exists pick :: PicksRows(env, from, pick) && x == Merged(pick)
    decreases |from|
  {
    var n := |from| - 1;
    if x in FromRows(env, from) {
      var pick := PickOf(env, from, x);
    }
    if pick :| PicksRows(env, from, pick) && x == Merged(pick) {
      PickIsRow(env, from, pick);
    }
  }

  lemma {:induction false} PickOf<V>(env: Env<V>, from: seq<FromItem>, x: Row<V>) returns (pick: seq<Row<V>>)
    requires from != [] && x in FromRows(env, from)
    ensures PicksRows(env, from, pick) && x == Merged(pick)
    decreases |from|
  {
    var n := |from| - 1;
    if n == 0 {
      pick := [x];
      assert [x][..0] == [] && map[] + x == x;
    } else {
      InCross(FromRows(env, from[..n]), FromItemRows(env, from[n]), x);
      var l, r :| l in FromRows(env, from[..n]) && r in FromItemRows(env, from[n]) && x == l + r;
      var front := PickOf(env, from[..n], l);
      pick := front + [r];
      assert pick[..n] == front;
    }
  }

  lemma FrontPicks<V>(env: Env<V>, from: seq<FromItem>, pick: seq<Row<V>>)
    requires from != [] && PicksRows(env, from, pick)
    ensures PicksRows(env, from[..|from| - 1], pick[..|from| - 1])
    ensures pick[|from| - 1] in FromItemRows(env, from[|from| - 1])
    ensures Merged(pick) == Merged(pick[..|from| - 1]) + pick[|from| - 1]
  {
  }

  lemma {:induction false} PickIsRow<V>(env: Env<V>, from: seq<FromItem>, pick: seq<Row<V>>)
    requires from != [] && PicksRows(env, from, pick)
    ensures Merged(pick) in FromRows(env, from)
    decreases |from|
  {
    var n := |from| - 1;
    FrontPicks(env, from, pick);
    if n == 0 {
      assert pick[..0] == [] && map[] + pick[0] == pick[0];
    } else {
      PickIsRow(env, from[..n], pick[..n]);
      MergedIn(FromRows(env, from[..n]), FromItemRows(env, from[n]), Merged(pick[..n]), pick[n]);
    }
  }

  lemma MergedIn<V>(left: seq<Row<V>>, right: seq<Row<V>>, l: Row<V>, r: Row<V>)
    requires l in left && r in right
    ensures l + r in Cross(left, right)
  {
    InCross(left, right, l + r);
  }

  /** Two subqueries united: the rows of the first and then those of the second. */
  lemma UnionOfTwo<V>(env: Env<V>, p: SubQuery, q: SubQuery)
    ensures QueryRows(env, Union([p, q])) == SubQueryRows(env, p) + SubQueryRows(env, q)
  {
    assert [p, q][..1] == [p] && [p][..0] == [];
    assert UnionRows(env, [p]) == [] + SubQueryRows(env, p) == SubQueryRows(env, p);
  }

  /** A stream under another name: every row it reads is given the new name in place of the old. */
  lemma StreamRenamed<V>(env: Env<V>, name: string, newname: string, number: string)
    ensures var read := env.read(name, map["range_window" := number]);
            var rows := FromItemRows(env, TableRename(newname, Stream(name, None, Rows(number), false)));
            |rows| == |read| && forall i :: 0 <= i < |read| ==> rows[i] == env.renameTable(name, newname, read[i])
  {
    var t := Stream(name, None, Rows(number), false);
    ReadsStream(env, name, number);
    assert TableNames(t) == [name] && [name][..0] == [];
    assert RenameAll(env, [name], newname, TableRows(env, t)) == MapRows(RenamingTable(env, name, newname), TableRows(env, t));
  }

  lemma ReadsStream<V>(env: Env<V>, name: string, number: string)
    ensures TableRows(env, Stream(name, None, Rows(number), false)) == env.read(name, map["range_window" := number])
  {
    assert WindowAttributes(Stream(name, None, Rows(number), false)) == map["range_window" := number];
  }

  // ---------------------------------------------------------------- a whole query

  /** SELECT f(a,b) AS x, a FROM t[ROWS n] WHERE c op d. */
  function SmallQuery(t: string, number: string, f: string, a: string, b: string, x: string, c: string, op: string, d: string): SubQuery {
    SubQuery(SelectList([Renamed(x, Function(f, [Leaf(a), Leaf(b)])), Plain(Leaf(a))]),
             [PlainTable(Stream(t, None, Rows(number), false))],
             Some([Predicate(Leaf(c), op, Leaf(d))]))
  }

  /** It keeps the rows read whose column c compares with the constant d, and makes x and a of each, in order. */
  lemma SmallQueryMeans<V>(env: Env<V>, t: string, number: string, f: string, a: string, b: string, x: string,
                           c: string, op: string, d: string)
    requires forall row <- env.read(t, map["range_window" := number]) :: a in row && b in row && c in row && d !in row
    ensures var read, rows := env.read(t, map["range_window" := number]),
                              SubQueryRows(env, SmallQuery(t, number, f, a, b, x, c, op, d));
            exists kept ::
              && IsSelection(read, (row: Row<V>) => c in row && env.compare(op, row[c], env.literal(d)), kept)
              && |rows| == |kept|
              && forall i :: 0 <= i < |kept| ==>
                   && a in kept[i] && b in kept[i]
                   && rows[i] == map[x := env.call(f, [kept[i][a], kept[i][b]])][a := kept[i][a]]
  {
    var q := SmallQuery(t, number, f, a, b, x, c, op, d);
    var read := env.read(t, map["range_window" := number]);
    var keep := (row: Row<V>) => c in row && env.compare(op, row[c], env.literal(d));
    ReadsStream(env, t, number);
    assert FromRows(env, q.from) == FromItemRows(env, q.from[0]) == read;
    var ps := q.where.value;
    forall row | row in read
      ensures HoldAll(env, ps)(row) == keep(row)
    {
      assert Holds(env, ps[0], row) == env.compare(op, row[c], env.literal(d));
    }
    var kept := Filter(HoldAll(env, ps), read);
    assert WhereRows(env, q) == kept && SubQueryRows(env, q) == MapRows(SelectRow(env, q.select.items), kept);
    FilterSelects(HoldAll(env, ps), read);
    SelectsSame(read, HoldAll(env, ps), keep, kept);
    forall i | 0 <= i < |kept|
      ensures kept[i] in read
    {
      SelectedIsThere(read, keep, kept, i);
    }
    forall i | 0 <= i < |kept|
      ensures SubQueryRows(env, q)[i] == map[x := env.call(f, [kept[i][a], kept[i][b]])][a := kept[i][a]]
    {
      TwoColumns(env, f, a, b, x, kept[i]);
    }
  }

  lemma SelectsSame<V>(rows: seq<Row<V>>, keep: Row<V> -> bool, keep': Row<V> -> bool, chosen: seq<Row<V>>)
    requires IsSelection(rows, keep, chosen) && forall row <- rows :: keep(row) == keep'(row)
    ensures IsSelection(rows, keep', chosen)
  {
    var at: seq<nat> :| SelectsAt(rows, keep, chosen, at);
    assert SelectsAt(rows, keep', chosen, at);
  }

  lemma SelectedIsThere<V>(rows: seq<Row<V>>, keep: Row<V> -> bool, chosen: seq<Row<V>>, i: nat)
    requires IsSelection(rows, keep, chosen) && i < |chosen|
    ensures chosen[i] in rows
  {
    var at: seq<nat> :| SelectsAt(rows, keep, chosen, at);
    assert chosen[i] == rows[at[i]];
  }

  // ---------------------------------------------------------------- failing renames

  /** An item is renamed whose column some row lacks, and no item before gives that name: nothing is delivered. */
  lemma UnknownRenameStops<V>(env: Env<V>, items: seq<SelectItem>, rows: seq<Row<V>>, i: nat, j: nat)
    requires ItemsOk(items) && i < |rows| && j < |items|
    requires OutName(items[j]) != Text(items[j].expr) && !Visible(env, items[j].expr, rows[i])
    requires forall k :: 0 <= k < j ==> OutName(items[k]) != Text(items[j].expr)
    ensures StageRows(env, items, |items|, rows) == None
  {
    ColumnIsItem(env, items, rows[i], j);
    UnknownColumnStops(Namings(items), |items|, j, Columns(env, items, rows[i]));
    assert StageRow(env, items, |items|)(rows[i]).None?;
  }
}
