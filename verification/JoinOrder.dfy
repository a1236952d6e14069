/** The engine may turn the inputs of any join round: with different columns the bag of rows stays. */
module JoinOrder {
  import opened Common
  import opened OperatorSemantics
  import opened QueryMeaning
  import opened OperatorGraph
  import opened PlanMeaning

  // ---------------------------------------------------------------- operators on bags

  function FlatMap<V>(g: Row<V> -> seq<Row<V>>, rows: seq<Row<V>>): seq<Row<V>> {
    if rows == [] then [] else FlatMap(g, rows[..|rows| - 1]) + g(rows[|rows| - 1])
  }

  lemma {:induction false} FlatMapAppend<V>(g: Row<V> -> seq<Row<V>>, a: seq<Row<V>>, b: seq<Row<V>>)
    ensures FlatMap(g, a + b) == FlatMap(g, a) + FlatMap(g, b)
    decreases |b|
  {
    if b == [] {
      assert a + b == a;
    } else {
      assert (a + b)[..|a + b| - 1] == a + b[..|b| - 1];
      FlatMapAppend(g, a, b[..|b| - 1]);
    }
  }

  lemma FlatMapSplits<V>(g: Row<V> -> seq<Row<V>>, a: seq<Row<V>>, x: Row<V>, b: seq<Row<V>>)
    ensures FlatMap(g, a + [x] + b) == FlatMap(g, a) + g(x) + FlatMap(g, b)
  {
    FlatMapAppend(g, a + [x], b);
    assert (a + [x])[..|a|] == a;
  }

  lemma OneOut<T>(a: seq<T>, x: T, b: seq<T>)
    ensures multiset(a + [x] + b) == multiset(a + b) + multiset{x}
  {
  }

  lemma PartOut<T>(a: seq<T>, x: seq<T>, b: seq<T>)
    ensures multiset(a + x + b) == multiset(a + b) + multiset(x)
  {
  }

  function Without<T>(a: seq<T>, i: nat): seq<T>
    requires i < |a|
  {
    a[..i] + a[i + 1..]
  }

  lemma SplitAt<T>(a: seq<T>, i: nat)
    requires i < |a|
    ensures a == a[..i] + [a[i]] + a[i + 1..]
  {
  }

  lemma BagWithout<T>(a: seq<T>, i: nat)
    requires i < |a|
    ensures multiset(a) == multiset(Without(a, i)) + multiset{a[i]}
  {
    SplitAt(a, i);
    OneOut(a[..i], a[i], a[i + 1..]);
  }

  /** Taking one row out takes its part out. */
  lemma FlatMapWithout<V>(g: Row<V> -> seq<Row<V>>, front: seq<Row<V>>, x: Row<V>, back: seq<Row<V>>)
    ensures multiset(FlatMap(g, front + [x] + back)) == multiset(FlatMap(g, front + back)) + multiset(g(x))
  {
    FlatMapSplits(g, front, x, back);
    FlatMapAppend(g, front, back);
    PartOut(FlatMap(g, front), g(x), FlatMap(g, back));
  }

  lemma FlatMapLess<V>(g: Row<V> -> seq<Row<V>>, a: seq<Row<V>>, i: nat)
    requires i < |a|
    ensures multiset(FlatMap(g, a)) == multiset(FlatMap(g, Without(a, i))) + multiset(g(a[i]))
  {
    SplitAt(a, i);
    FlatMapWithout(g, a[..i], a[i], a[i + 1..]);
  }

  /** What an operator makes of each row by itself depends on the bag of rows only. */
  lemma {:induction false} FlatMapOfBag<V>(g: Row<V> -> seq<Row<V>>, a: seq<Row<V>>, b: seq<Row<V>>)
    requires multiset(a) == multiset(b)
    ensures multiset(FlatMap(g, a)) == multiset(FlatMap(g, b))
    decreases |a|
  {
    if a == [] {
      assert |multiset(b)| == |b|;
    } else {
      var n := |a| - 1;
      assert a[n] in multiset(b);
      var i :| 0 <= i < |b| && b[i] == a[n];
      BagWithout(a, n);
      BagWithout(b, i);
      WithoutOne(multiset(Without(a, n)), multiset(Without(b, i)), a[n]);
      FlatMapOfBag(g, Without(a, n), Without(b, i));
      FlatMapLess(g, a, n);
      FlatMapLess(g, b, i);
    }
  }

  lemma WithoutOne<T>(m: multiset<T>, k: multiset<T>, x: T)
    requires m + multiset{x} == k + multiset{x}
    ensures m == k
  {
    assert m == (m + multiset{x}) - multiset{x} && k == (k + multiset{x}) - multiset{x};
  }

  lemma {:induction false} FlatMapOfBags<V>(g: Row<V> -> seq<Row<V>>, h: Row<V> -> seq<Row<V>>, rows: seq<Row<V>>)
    requires forall i :: 0 <= i < |rows| ==> multiset(g(rows[i])) == multiset(h(rows[i]))
    ensures multiset(FlatMap(g, rows)) == multiset(FlatMap(h, rows))
    decreases |rows|
  {
    if rows != [] {
      FlatMapOfBags(g, h, rows[..|rows| - 1]);
    }
  }

  function One<V>(f: Row<V> -> Row<V>): Row<V> -> seq<Row<V>> {
    row => [f(row)]
  }

  lemma {:induction false} MapIsFlatMap<V>(f: Row<V> -> Row<V>, rows: seq<Row<V>>)
    ensures MapRows(f, rows) == FlatMap(One(f), rows)
    decreases |rows|
  {
    if rows != [] {
      MapIsFlatMap(f, rows[..|rows| - 1]);
      assert MapRows(f, rows) == MapRows(f, rows[..|rows| - 1]) + [f(rows[|rows| - 1])];
    }
  }

  function OneIf<V>(keep: Row<V> -> bool): Row<V> -> seq<Row<V>> {
    row => if keep(row) then [row] else []
  }

  lemma {:induction false} FilterIsFlatMap<V>(keep: Row<V> -> bool, rows: seq<Row<V>>)
    ensures Filter(keep, rows) == FlatMap(OneIf(keep), rows)
    decreases |rows|
  {
    if rows != [] {
      FilterIsFlatMap(keep, rows[..|rows| - 1]);
    }
  }

  function With<V>(right: seq<Row<V>>): Row<V> -> seq<Row<V>> {
    l => CrossRow(l, right)
  }

  lemma {:induction false} CrossIsFlatMap<V>(left: seq<Row<V>>, right: seq<Row<V>>)
    ensures Cross(left, right) == FlatMap(With(right), left)
    decreases |left|
  {
    if left != [] {
      CrossIsFlatMap(left[..|left| - 1], right);
    }
  }

  function Behind<V>(l: Row<V>): Row<V> -> Row<V> {
    r => l + r
  }

  lemma RowOfBag<V>(l: Row<V>, a: seq<Row<V>>, b: seq<Row<V>>)
    requires multiset(a) == multiset(b)
    ensures multiset(CrossRow(l, a)) == multiset(CrossRow(l, b))
  {
    assert CrossRow(l, a) == MapRows(Behind(l), a) && CrossRow(l, b) == MapRows(Behind(l), b);
    MapIsFlatMap(Behind(l), a);
    MapIsFlatMap(Behind(l), b);
    FlatMapOfBag(One(Behind(l)), a, b);
  }

  lemma CrossOfBags<V>(left: seq<Row<V>>, left': seq<Row<V>>, right: seq<Row<V>>, right': seq<Row<V>>)
    requires multiset(left) == multiset(left') && multiset(right) == multiset(right')
    ensures multiset(Cross(left, right)) == multiset(Cross(left', right'))
  {
    forall i | 0 <= i < |left'|
      ensures multiset(With(right)(left'[i])) == multiset(With(right')(left'[i]))
    {
      RowOfBag(left'[i], right, right');
    }
    CrossIsFlatMap(left, right);
    CrossIsFlatMap(left', right');
    FlatMapOfBag(With(right), left, left');
    FlatMapOfBags(With(right), With(right'), left');
  }

  lemma MapOfBag<V>(f: Row<V> -> Row<V>, a: seq<Row<V>>, b: seq<Row<V>>)
    requires multiset(a) == multiset(b)
    ensures multiset(MapRows(f, a)) == multiset(MapRows(f, b))
  {
    MapIsFlatMap(f, a);
    MapIsFlatMap(f, b);
    FlatMapOfBag(One(f), a, b);
  }

  /** A row that cannot be changed is in both of two equal bags. */
  lemma TryOfBag<V>(f: Row<V> -> Option<Row<V>>, a: seq<Row<V>>, b: seq<Row<V>>)
    requires multiset(a) == multiset(b) && TryRows(f, a).Some?
    ensures TryRows(f, b).Some?
  {
    forall i | 0 <= i < |b|
      ensures f(b[i]).Some?
    {
      assert b[i] in multiset(a);
    }
  }

  /** Nothing, or the same bag of rows. */
  ghost predicate SameBag<V>(a: Option<seq<Row<V>>>, b: Option<seq<Row<V>>>) {
    a.Some? == b.Some? && (a.Some? ==> multiset(a.value) == multiset(b.value))
  }

  lemma UnaryOfBag<V>(env: Env<V>, node: Node, a: seq<Row<V>>, b: seq<Row<V>>)
    requires multiset(a) == multiset(b)
    ensures SameBag(ApplyUnary(env, node, a), ApplyUnary(env, node, b))
  {
    if node.operatorType.SelectionOp? {
      var keep := Keeping(env, node.parameter);
      FilterIsFlatMap(keep, a);
      FilterIsFlatMap(keep, b);
      FlatMapOfBag(OneIf(keep), a, b);
    } else if node.operatorType.RenameColumnOp? {
      var f := RenamingColumn<V>(node.parameter);
      if TryRows(f, a).Some? {
        TryOfBag(f, a, b);
        MapOfBag(OrSame(f), a, b);
      } else if TryRows(f, b).Some? {
        TryOfBag(f, b, a);
      }
    } else if Mapping(node) {
      MapOfBag(Mapper(env, node), a, b);
    }
  }

  // ---------------------------------------------------------------- whole plans

  /** What a plan delivers when the joins at these nodes put their right input first. */
  function PlanRowsBy<V>(env: Env<V>, turned: Node -> bool, p: Plan): Option<seq<Row<V>>> {
    match p
    case Source(node) => Some(env.read(node.parameter, node.window))
    case Unary(node, input) =>
      var rows := PlanRowsBy(env, turned, input);
      if rows.None? then None else ApplyUnary(env, node, rows.value)
    case Binary(node, left, right) =>
      var l, r := PlanRowsBy(env, turned, left), PlanRowsBy(env, turned, right);
      if l.None? || r.None? then None
      else if node.operatorType.JoinOp? && turned(node) then Some(ApplyBinary(node, r.value, l.value))
      else Some(ApplyBinary(node, l.value, r.value))
  }

  /** The two inputs of every join have different columns. */
  ghost predicate JoinsDisjoint<V>(env: Env<V>, p: Plan) {
    match p
    case Source(_) => true
    case Unary(_, input) => JoinsDisjoint(env, input)
    case Binary(node, left, right) =>
      var l, r := PlanRows(env, left), PlanRows(env, right);
      && JoinsDisjoint(env, left) && JoinsDisjoint(env, right)
      && (node.operatorType.JoinOp? && l.Some? && r.Some? ==> Disjoint(l.value, r.value))
  }

  lemma JoinOfBags<V>(l: seq<Row<V>>, l': seq<Row<V>>, r: seq<Row<V>>, r': seq<Row<V>>)
    requires multiset(l) == multiset(l') && multiset(r) == multiset(r') && Disjoint(l', r')
    ensures multiset(Cross(l, r)) == multiset(Cross(l', r')) == multiset(Cross(r, l))
  {
    JoinOrderIsIrrelevant(l', r');
    CrossOfBags(l, l', r, r');
    CrossOfBags(r, r', l, l');
  }

  /** Whichever joins are turned round, the plan delivers the same bag of rows, or stops all the same. */
  lemma {:induction false} AnyJoinOrder<V>(env: Env<V>, turned: Node -> bool, p: Plan)
    requires JoinsDisjoint(env, p)
    ensures SameBag(PlanRowsBy(env, turned, p), PlanRows(env, p))
    decreases p
  {
    match p
    case Source(_) =>
    case Unary(node, input) =>
      AnyJoinOrder(env, turned, input);
      if PlanRows(env, input).Some? {
        UnaryOfBag(env, node, PlanRowsBy(env, turned, input).value, PlanRows(env, input).value);
      }
    case Binary(node, left, right) =>
      AnyJoinOrder(env, turned, left);
      AnyJoinOrder(env, turned, right);
      var l, r := PlanRows(env, left), PlanRows(env, right);
      if node.operatorType.JoinOp? && l.Some? && r.Some? {
        JoinOfBags(PlanRowsBy(env, turned, left).value, l.value, PlanRowsBy(env, turned, right).value, r.value);
      }
  }
}
