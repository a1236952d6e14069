/** Renaming output columns one after the other, and when exactly that is renaming them all at once. */
module RenameOrder {
  import opened Common
  import opened OperatorSemantics

  /** A column of the projected row and the name it is to have; the same name for no renaming. */
  datatype Naming = Naming(column: string, name: string)

  predicate Moves(x: Naming) {
    x.column != x.name
  }

  /**
   * The first n renamings, one after the other, each on what the ones before it left; none when one
   * does not find its column.
   */
  function InTurn<V>(ns: seq<Naming>, n: nat, b: Row<V>): Option<Row<V>>
    requires n <= |ns|
  {
    if n == 0 then Some(b)
    else match InTurn(ns, n - 1, b)
      case None => None
      case Some(r) => MoveColumn(r, ns[n - 1].column, ns[n - 1].name)
  }

  /** The first n columns under their names, all taken from the row as it was; a later one wins. */
  function AtOnce<V>(ns: seq<Naming>, n: nat, b: Row<V>): Row<V>
    requires n <= |ns|
  {
    if n == 0 then map[]
    else
      var front, x := AtOnce(ns, n - 1, b), ns[n - 1];
      if x.column in b then front[x.name := b[x.column]] else front
  }

  // ---------------------------------------------------------------- the condition, on names alone

  /** The column whose value stands under name p after n renamings, or None when p has been moved away. */
  function Origin(ns: seq<Naming>, n: nat, p: string): Option<string>
    requires n <= |ns|
  {
    if n == 0 then Some(p)
    else
      var x := ns[n - 1];
      if Moves(x) && p == x.name then Origin(ns, n - 1, x.column)
      else if Moves(x) && p == x.column then None
      else Origin(ns, n - 1, p)
  }

  /** Column c has been moved away before position j and nothing has been moved there since. */
  predicate Gone(ns: seq<Naming>, j: nat, c: string)
    requires j <= |ns|
  {
    exists k :: 0 <= k < j && Leaves(ns, k, c) && forall m :: k < m < j ==> !Arrives(ns, m, c)
  }

  predicate Leaves(ns: seq<Naming>, k: nat, c: string)
    requires k < |ns|
  {
    Moves(ns[k]) && ns[k].column == c
  }

  predicate Arrives(ns: seq<Naming>, k: nat, c: string)
    requires k < |ns|
  {
    Moves(ns[k]) && ns[k].name == c
  }

  /** Every one of the first n renamings finds its column. */
  predicate FindsColumns(ns: seq<Naming>, n: nat)
    requires n <= |ns|
  {
    forall j :: 0 <= j < n && Moves(ns[j]) ==> !Gone(ns, j, ns[j].column)
  }

  predicate LastOfName(ns: seq<Naming>, j: nat)
    requires j < |ns|
  {
    forall k :: j < k < |ns| ==> ns[k].name != ns[j].name
  }

  /** Under each name stands in the end the column listed for it, the last one if there are several. */
  predicate KeepsColumns(ns: seq<Naming>) {
    forall j :: 0 <= j < |ns| && LastOfName(ns, j) ==> Origin(ns, |ns|, ns[j].name) == Some(ns[j].column)
  }

  predicate Safe(ns: seq<Naming>) {
    FindsColumns(ns, |ns|) && KeepsColumns(ns)
  }

  // ---------------------------------------------------------------- origins

  lemma {:induction false} OriginOrGone(ns: seq<Naming>, n: nat, p: string)
    requires n <= |ns| && FindsColumns(ns, n)
    ensures Origin(ns, n, p).None? <==> Gone(ns, n, p)
    decreases n
  {
    if n > 0 {
      var x := ns[n - 1];
      if Moves(x) && p == x.name {
        OriginOrGone(ns, n - 1, x.column);
        assert Arrives(ns, n - 1, p);
      } else if Moves(x) && p == x.column {
        assert Leaves(ns, n - 1, p);
      } else {
        OriginOrGone(ns, n - 1, p);
        GoneStays(ns, n, p);
      }
    }
  }

  lemma GoneStays(ns: seq<Naming>, n: nat, p: string)
    requires 0 < n <= |ns| && !Leaves(ns, n - 1, p) && !Arrives(ns, n - 1, p)
    ensures Gone(ns, n, p) <==> Gone(ns, n - 1, p)
  {
    if Gone(ns, n - 1, p) {
      var k :| 0 <= k < n - 1 && Leaves(ns, k, p) && forall m :: k < m < n - 1 ==> !Arrives(ns, m, p);
      assert forall m :: k < m < n ==> !Arrives(ns, m, p);
    }
    if Gone(ns, n, p) {
      var k :| 0 <= k < n && Leaves(ns, k, p) && forall m :: k < m < n ==> !Arrives(ns, m, p);
      assert k < n - 1 && forall m :: k < m < n - 1 ==> !Arrives(ns, m, p);
    }
  }

  predicate MovedColumn(ns: seq<Naming>, n: nat, c: string)
    requires n <= |ns|
  {
    exists k :: 0 <= k < n && Leaves(ns, k, c)
  }

  /** What stands under a name was there from the start, or is a column that was moved. */
  lemma {:induction false} OriginMoved(ns: seq<Naming>, n: nat, p: string)
    requires n <= |ns|
    ensures Origin(ns, n, p).Some? ==> Origin(ns, n, p).value == p || MovedColumn(ns, n, Origin(ns, n, p).value)
    ensures (exists k :: 0 <= k < n && Arrives(ns, k, p)) && Origin(ns, n, p).Some? ==>
              MovedColumn(ns, n, Origin(ns, n, p).value)
    decreases n
  {
    if n > 0 {
      var x := ns[n - 1];
      if Moves(x) && p == x.name {
        OriginMoved(ns, n - 1, x.column);
        assert Leaves(ns, n - 1, x.column);
      } else {
        OriginMoved(ns, n - 1, p);
      }
    }
  }

  /** A name that nothing leaves or reaches between m and n keeps its origin. */
  lemma {:induction false} OriginUntouched(ns: seq<Naming>, m: nat, n: nat, p: string)
    requires m <= n <= |ns| && forall k :: m <= k < n ==> !Leaves(ns, k, p) && !Arrives(ns, k, p)
    ensures Origin(ns, n, p) == Origin(ns, m, p)
    decreases n
  {
    if m < n {
      assert !Leaves(ns, n - 1, p) && !Arrives(ns, n - 1, p);
      OriginUntouched(ns, m, n - 1, p);
    }
  }

  // ---------------------------------------------------------------- rows

  /** Each name stands for its origin. */
  ghost predicate StandsFor<V>(ns: seq<Naming>, n: nat, b: Row<V>, r: Row<V>, p: string)
    requires n <= |ns|
  {
    match Origin(ns, n, p)
    case None => p !in r
    case Some(c) => (p in r <==> c in b) && (p in r ==> r[p] == b[c])
  }

  lemma {:induction false} InTurnStandsFor<V>(ns: seq<Naming>, n: nat, b: Row<V>, p: string)
    requires n <= |ns| && InTurn(ns, n, b).Some?
    ensures StandsFor(ns, n, b, InTurn(ns, n, b).value, p)
    decreases n
  {
    if n > 0 {
      var x := ns[n - 1];
      InTurnStandsFor(ns, n - 1, b, p);
      InTurnStandsFor(ns, n - 1, b, x.column);
    }
  }

  /** The row has every column that is to be moved. */
  predicate HasMoved<V>(ns: seq<Naming>, b: Row<V>) {
    forall k :: 0 <= k < |ns| && Moves(ns[k]) ==> ns[k].column in b
  }

  /** Renaming goes through exactly when every renaming finds its column. */
  lemma {:induction false} RunsIff<V>(ns: seq<Naming>, n: nat, b: Row<V>)
    requires n <= |ns| && HasMoved(ns, b)
    ensures InTurn(ns, n, b).Some? <==> FindsColumns(ns, n)
    decreases n
  {
    if n > 0 {
      RunsIff(ns, n - 1, b);
      assert FindsColumns(ns, n) ==> FindsColumns(ns, n - 1);
      if FindsColumns(ns, n - 1) {
        var c := ns[n - 1].column;
        InTurnStandsFor(ns, n - 1, b, c);
        OriginOrGone(ns, n - 1, c);
        OriginMoved(ns, n - 1, c);
      }
    }
  }

  /** Renaming a column the row lacks, and that no renaming before brings, stops the chain. */
  lemma {:induction false} UnknownColumnStops<V>(ns: seq<Naming>, n: nat, j: nat, b: Row<V>)
    requires j < n <= |ns| && Moves(ns[j]) && ns[j].column !in b
    requires forall k :: 0 <= k < j ==> !Arrives(ns, k, ns[j].column)
    ensures InTurn(ns, n, b).None?
    decreases n
  {
    if n > j + 1 {
      UnknownColumnStops(ns, n - 1, j, b);
    } else if InTurn(ns, j, b).Some? {
      InTurnStandsFor(ns, j, b, ns[j].column);
      NotBrought(ns, j, ns[j].column);
    }
  }

  lemma {:induction false} NotBrought(ns: seq<Naming>, n: nat, p: string)
    requires n <= |ns| && forall k :: 0 <= k < n ==> !Arrives(ns, k, p)
    ensures Origin(ns, n, p).None? || Origin(ns, n, p) == Some(p)
    decreases n
  {
    if n > 0 {
      assert !Arrives(ns, n - 1, p);
      NotBrought(ns, n - 1, p);
    }
  }

  /** The last of the first n namings with name p whose column the row has, or -1. */
  function LastNamed<V>(ns: seq<Naming>, n: nat, b: Row<V>, p: string): (w: int)
    requires n <= |ns|
    ensures -1 <= w < n && (w >= 0 ==> ns[w].name == p && ns[w].column in b)
    ensures forall i :: 0 <= i < n && w < i ==> !(ns[i].name == p && ns[i].column in b)
  {
    if n == 0 then -1
    else if ns[n - 1].name == p && ns[n - 1].column in b then n - 1
    else LastNamed(ns, n - 1, b, p)
  }

  lemma {:induction false} AtOnceHolds<V>(ns: seq<Naming>, n: nat, b: Row<V>, p: string)
    requires n <= |ns|
    ensures var r, w := AtOnce(ns, n, b), LastNamed(ns, n, b, p);
            (p in r <==> w >= 0) && (w >= 0 ==> r[p] == b[ns[w].column])
    decreases n
  {
    if n > 0 {
      AtOnceHolds(ns, n - 1, b, p);
    }
  }

  // ---------------------------------------------------------------- the condition is enough

  predicate Listed(ns: seq<Naming>, c: string) {
    exists k :: 0 <= k < |ns| && ns[k].column == c
  }

  predicate ColumnsOnly<V>(ns: seq<Naming>, b: Row<V>) {
    forall k <- b :: Listed(ns, k)
  }

  lemma {:induction false} LastOf(ns: seq<Naming>, i: nat) returns (j: nat)
    requires i < |ns|
    ensures i <= j < |ns| && ns[j].name == ns[i].name && LastOfName(ns, j)
    decreases |ns| - i
  {
    if k :| i < k < |ns| && ns[k].name == ns[i].name {
      j := LastOf(ns, k);
    } else {
      j := i;
    }
  }

  /** A name that some item has: both ways its column is that of the last such item, if the row has it. */
  lemma NamedHolds<V>(ns: seq<Naming>, b: Row<V>, i: nat)
    requires Safe(ns) && HasMoved(ns, b) && i < |ns|
    ensures var p, r := ns[i].name, InTurn(ns, |ns|, b);
            r.Some? && (p in r.value <==> p in AtOnce(ns, |ns|, b))
            && (p in r.value ==> r.value[p] == AtOnce(ns, |ns|, b)[p])
  {
    var p := ns[i].name;
    var j := LastOf(ns, i);
    RunsIff(ns, |ns|, b);
    InTurnStandsFor(ns, |ns|, b, p);
    AtOnceHolds(ns, |ns|, b, p);
    var l := LastNamed(ns, |ns|, b, p);
    if ns[j].column in b {
      assert l == j;
    } else if l >= 0 {
      assert Arrives(ns, l, p);
      OriginMoved(ns, |ns|, p);
    }
  }

  lemma UnnamedHolds<V>(ns: seq<Naming>, b: Row<V>, p: string)
    requires Safe(ns) && HasMoved(ns, b) && ColumnsOnly(ns, b) && forall i :: 0 <= i < |ns| ==> ns[i].name != p
    ensures var r := InTurn(ns, |ns|, b); r.Some? && p !in r.value && p !in AtOnce(ns, |ns|, b)
  {
    RunsIff(ns, |ns|, b);
    InTurnStandsFor(ns, |ns|, b, p);
    AtOnceHolds(ns, |ns|, b, p);
    NotBrought(ns, |ns|, p);
    if p in b {
      var k :| 0 <= k < |ns| && ns[k].column == p;
      assert Leaves(ns, k, p);
      OriginOrGone(ns, |ns|, p);
    }
  }

  /** Under the condition renaming in turn is renaming at once, on every row that has the columns to be moved. */
  lemma SafeRenames<V>(ns: seq<Naming>, b: Row<V>)
    requires Safe(ns) && HasMoved(ns, b) && ColumnsOnly(ns, b)
    ensures InTurn(ns, |ns|, b) == Some(AtOnce(ns, |ns|, b))
  {
    RunsIff(ns, |ns|, b);
    var r, a := InTurn(ns, |ns|, b).value, AtOnce(ns, |ns|, b);
    forall p
      ensures (p in r <==> p in a) && (p in r ==> r[p] == a[p])
    {
      if i :| 0 <= i < |ns| && ns[i].name == p {
        NamedHolds(ns, b, i);
      } else {
        UnnamedHolds(ns, b, p);
      }
    }
    assert r == a;
  }

  // ---------------------------------------------------------------- the condition is needed

  /** The row has the listed columns, all of them and no others. */
  predicate FullRow<V>(ns: seq<Naming>, b: Row<V>) {
    ColumnsOnly(ns, b) && forall k :: 0 <= k < |ns| ==> ns[k].column in b
  }

  /** Every column holds its own name, so that different columns differ. */
  predicate NamesItself(b: Row<string>) {
    forall k <- b :: b[k] == k
  }

  /** On such a row renaming in turn goes right only under the condition. */
  lemma RightOnlyIfSafe(ns: seq<Naming>, b: Row<string>)
    requires FullRow(ns, b) && NamesItself(b) && InTurn(ns, |ns|, b) == Some(AtOnce(ns, |ns|, b))
    ensures Safe(ns)
  {
    RunsIff(ns, |ns|, b);
    forall j | 0 <= j < |ns| && LastOfName(ns, j)
      ensures Origin(ns, |ns|, ns[j].name) == Some(ns[j].column)
    {
      InTurnStandsFor(ns, |ns|, b, ns[j].name);
      AtOnceHolds(ns, |ns|, b, ns[j].name);
      assert LastNamed(ns, |ns|, b, ns[j].name) == j;
    }
  }

  function OwnNames(ns: seq<Naming>): Row<string> {
    map k <- ListedColumns(ns) :: k
  }

  function ListedColumns(ns: seq<Naming>): set<string> {
    set k | 0 <= k < |ns| :: ns[k].column
  }

  /**
   * Renaming in turn goes through and is renaming at once on every row with the listed columns, if and
   * only if every renaming finds its column and each name keeps the column listed for it.
   */
  lemma AtOnceIff(ns: seq<Naming>)
    ensures Safe(ns) <==>
              forall b: Row<string> :: FullRow(ns, b) ==> InTurn(ns, |ns|, b) == Some(AtOnce(ns, |ns|, b))
  {
    if Safe(ns) {
      forall b: Row<string> | FullRow(ns, b)
        ensures InTurn(ns, |ns|, b) == Some(AtOnce(ns, |ns|, b))
      {
        SafeRenames(ns, b);
      }
    } else {
      var b := OwnNames(ns);
      assert FullRow(ns, b) && NamesItself(b);
      if InTurn(ns, |ns|, b) == Some(AtOnce(ns, |ns|, b)) {
        RightOnlyIfSafe(ns, b);
      }
    }
  }

  // ---------------------------------------------------------------- columns all different

  predicate AllDifferent(ns: seq<Naming>) {
    forall i, j :: 0 <= i < j < |ns| ==> ns[i].column != ns[j].column
  }

  predicate NamedLater(ns: seq<Naming>, j: nat, p: string) {
    exists k :: j < k < |ns| && ns[k].name == p
  }

  /** The name given at i is the column listed later, at j. */
  predicate Collides(ns: seq<Naming>, i: nat, j: nat)
    requires i < |ns| && j < |ns|
  {
    i < j && ns[i].name == ns[j].column
  }

  /** Every column that a name runs into is given up: its own name and the one it stood under come again later. */
  predicate CollisionsHarmless(ns: seq<Naming>) {
    forall i, j :: 0 <= i < |ns| && 0 <= j < |ns| && Collides(ns, i, j) ==>
      NamedLater(ns, j, ns[j].name) && NamedLater(ns, j, ns[j].column)
  }

  lemma DifferentFind(ns: seq<Naming>)
    requires AllDifferent(ns)
    ensures FindsColumns(ns, |ns|)
  {
  }

  /** The column of a last naming is where it was when its turn comes. */
  lemma StillInPlace(ns: seq<Naming>, j: nat)
    requires AllDifferent(ns) && CollisionsHarmless(ns) && j < |ns| && LastOfName(ns, j)
    ensures Origin(ns, j, ns[j].column) == Some(ns[j].column)
  {
    var c := ns[j].column;
    forall k | 0 <= k < j
      ensures !Leaves(ns, k, c) && !Arrives(ns, k, c)
    {
      assert !Collides(ns, k, j);
    }
    OriginUntouched(ns, 0, j, c);
  }

  lemma NotTouchedAfter(ns: seq<Naming>, j: nat)
    requires AllDifferent(ns) && CollisionsHarmless(ns) && j < |ns| && LastOfName(ns, j)
    ensures Origin(ns, |ns|, ns[j].name) == Origin(ns, j + 1, ns[j].name)
  {
    var p := ns[j].name;
    forall k | j < k < |ns|
      ensures !Leaves(ns, k, p) && !Arrives(ns, k, p)
    {
      assert ns[k].column == p ==> Collides(ns, j, k);
    }
    OriginUntouched(ns, j + 1, |ns|, p);
  }

  lemma HarmlessKeeps(ns: seq<Naming>, j: nat)
    requires AllDifferent(ns) && CollisionsHarmless(ns) && j < |ns| && LastOfName(ns, j)
    ensures Origin(ns, |ns|, ns[j].name) == Some(ns[j].column)
  {
    StillInPlace(ns, j);
    NotTouchedAfter(ns, j);
  }

  /** A name that is left and not reached again stands for nothing. */
  lemma {:induction false} LeftForGood(ns: seq<Naming>, n: nat, j: nat)
    requires j < n <= |ns| && Moves(ns[j]) && forall k :: j < k < n ==> ns[k].name != ns[j].column
    ensures Origin(ns, n, ns[j].column).None?
    decreases n
  {
    if n > j + 1 {
      LeftForGood(ns, n - 1, j);
    }
  }

  lemma CollidedIsRenamedAgain(ns: seq<Naming>, i: nat, j: nat)
    requires AllDifferent(ns) && KeepsColumns(ns) && i < |ns| && j < |ns| && Collides(ns, i, j)
    ensures NamedLater(ns, j, ns[j].name)
  {
    if LastOfName(ns, j) {
      var p, c := ns[j].name, ns[j].column;
      assert Arrives(ns, i, c);
      OriginMoved(ns, j, c);
      if Moves(ns[j]) {
        OriginMoved(ns, |ns|, p);
        LastArrival(ns, j);
      } else {
        OriginMoved(ns, |ns|, c);
      }
    }
  }

  /** What is last moved to a name stays its origin, if it has one. */
  lemma LastArrival(ns: seq<Naming>, j: nat)
    requires j < |ns| && Moves(ns[j]) && LastOfName(ns, j) && Origin(ns, |ns|, ns[j].name).Some?
    ensures Origin(ns, |ns|, ns[j].name) == Origin(ns, j, ns[j].column)
  {
    var n := |ns|;
    while n > j + 1
      invariant j + 1 <= n <= |ns|
      invariant Origin(ns, |ns|, ns[j].name) == Origin(ns, n, ns[j].name)
    {
      n := n - 1;
    }
  }

  lemma NameIsGivenAgain(ns: seq<Naming>, i: nat, j: nat)
    requires AllDifferent(ns) && Safe(ns) && i < |ns| && j < |ns| && Collides(ns, i, j)
    ensures NamedLater(ns, j, ns[j].column)
  {
    if Moves(ns[j]) {
      var l := LastOf(ns, i);
      if l <= j {
        LeftForGood(ns, |ns|, j);
      }
    } else {
      CollidedIsRenamedAgain(ns, i, j);
    }
  }

  /**
   * With columns all different: a list is safe if and only if whenever a name given is a column further
   * down the list, both that column's name and the name given are given once more after it.
   */
  lemma SafeOnDifferentColumns(ns: seq<Naming>)
    requires AllDifferent(ns)
    ensures Safe(ns) <==> CollisionsHarmless(ns)
  {
    DifferentFind(ns);
    if CollisionsHarmless(ns) {
      forall j | 0 <= j < |ns| && LastOfName(ns, j)
        ensures Origin(ns, |ns|, ns[j].name) == Some(ns[j].column)
      {
        HarmlessKeeps(ns, j);
      }
    }
    if Safe(ns) {
      forall i, j | 0 <= i < |ns| && 0 <= j < |ns| && Collides(ns, i, j)
        ensures NamedLater(ns, j, ns[j].name) && NamedLater(ns, j, ns[j].column)
      {
        CollidedIsRenamedAgain(ns, i, j);
        NameIsGivenAgain(ns, i, j);
      }
    }
  }

  // ---------------------------------------------------------------- examples

  /** SELECT a AS b, b AS a: the second rename finds the first column again, and b is no name any more. */
  lemma SwapLosesName()
    ensures var ns, row := [Naming("a", "b"), Naming("b", "a")], map["a" := "1", "b" := "2"];
            InTurn(ns, 2, row) == Some(map["a" := "1"]) && AtOnce(ns, 2, row) == map["a" := "2", "b" := "1"]
  {
    var ns, row := [Naming("a", "b"), Naming("b", "a")], map["a" := "1", "b" := "2"];
    assert (row - {"a"})["b" := "1"] == map["b" := "1"] && (map["b" := "1"] - {"b"})["a" := "1"] == map["a" := "1"];
    assert InTurn(ns, 0, row) == Some(row) && InTurn(ns, 1, row) == Some(map["b" := "1"]);
    assert AtOnce(ns, 0, row) == map[] && AtOnce(ns, 1, row) == map["b" := "1"];
  }

  /** SELECT a AS x, a AS x: the second rename does not find its column, whatever the row. */
  lemma RepeatedRenameStops<V>(row: Row<V>)
    ensures var ns := [Naming("a", "x"), Naming("a", "x")]; InTurn(ns, 2, row).None? && !Safe(ns)
  {
    var ns := [Naming("a", "x"), Naming("a", "x")];
    assert Leaves(ns, 0, "a") && Gone(ns, 1, "a");
    assert InTurn(ns, 1, row) == if "a" in row then MoveColumn(row, "a", "x") else None;
  }

  /** SELECT u AS p, p, w AS p: the last column listed for p wins both ways. */
  lemma LastOfThreeWins()
    ensures Safe([Naming("u", "p"), Naming("p", "p"), Naming("w", "p")])
  {
    var ns := [Naming("u", "p"), Naming("p", "p"), Naming("w", "p")];
    forall i, j | 0 <= i < |ns| && 0 <= j < |ns| && Collides(ns, i, j)
      ensures NamedLater(ns, j, ns[j].name) && NamedLater(ns, j, ns[j].column)
    {
      assert ns[2].name == "p" && j == 1;
    }
    SafeOnDifferentColumns(ns);
  }
}
