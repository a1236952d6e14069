/**
 * The two views of a tuple's columns: the list of attributes, and the index that finds a name in it, with
 * what renaming, appending and copying a schema do to each.
 */
module SchemaIndex {
  import opened Common
  import opened OperatorSemantics
  import opened RenameOrder

  /** Attribute names by position, and colNameIdxMap. */
  datatype Schema = Schema(attributes: seq<string>, index: map<string, nat>)
  {
    predicate Valid() {
      forall name <- index :: index[name] < |attributes|
    }

    function Append(name: string): Schema {
      Schema(attributes + [name], index[name := |attributes|])
    }

    /** The attribute that the index finds takes the new name; the old name is no longer found. */
    function RenameColumnName(from: string, to: string): Option<Schema>
      requires Valid()
    {
      if from == to then Some(this)
      else if from in index then
        Some(Schema(attributes[index[from] := to], (index - {from})[to := index[from]]))
      else None
    }

    /** What name lookup finds in a tuple. */
    function View<V>(tuple: seq<V>): Row<V>
      requires Valid() && |tuple| == |attributes|
    {
      map name <- index :: tuple[index[name]]
    }
  }

  /** Seen through the index, renaming a schema's column is moving the value from name to name. */
  lemma RenameIsMove<V>(s: Schema, tuple: seq<V>, from: string, to: string)
    requires s.Valid() && |tuple| == |s.attributes|
    ensures match s.RenameColumnName(from, to)
            case None => MoveColumn(s.View(tuple), from, to).None?
            case Some(t) =>
              && t.Valid() && |t.attributes| == |tuple|
              && MoveColumn(s.View(tuple), from, to) == Some(t.View(tuple))
  {
    if from != to && from in s.index {
      var t := s.RenameColumnName(from, to).value;
      assert t.View(tuple) == (s.View(tuple) - {from})[to := s.View(tuple)[from]];
    }
  }

  /** Seen through the index, appending a column is setting its name; an older column of the name is hidden. */
  lemma AppendIsSet<V>(s: Schema, tuple: seq<V>, name: string, value: V)
    requires s.Valid() && |tuple| == |s.attributes|
    ensures s.Append(name).Valid() && s.Append(name).View(tuple + [value]) == s.View(tuple)[name := value]
  {
    assert s.Append(name).View(tuple + [value]) == s.View(tuple)[name := value];
  }

  // ---------------------------------------------------------------- a list of renames

  /** The schema projection appends column by column. */
  function Projected(ns: seq<Naming>, n: nat): (s: Schema)
    requires n <= |ns|
    ensures s.Valid() && |s.attributes| == n
  {
    if n == 0 then Schema([], map[]) else Projected(ns, n - 1).Append(ns[n - 1].column)
  }

  /** The schema after the first n renames. */
  function Renamed(ns: seq<Naming>, n: nat): (s: Option<Schema>)
    requires n <= |ns|
    ensures s.Some? ==> s.value.Valid() && |s.value.attributes| == |ns|
  {
    if n == 0 then Some(Projected(ns, |ns|))
    else match Renamed(ns, n - 1)
      case None => None
      case Some(t) => t.RenameColumnName(ns[n - 1].column, ns[n - 1].name)
  }

  /** The index an operator builds that copies the attribute list: the last position of each name. */
  function Rebuilt(attributes: seq<string>): map<string, nat> {
    if attributes == [] then map[]
    else
      var n := |attributes| - 1;
      Rebuilt(attributes[..n])[attributes[n] := n]
  }

  /** A schema copied after the renames finds the same columns. */
  predicate Steady(ns: seq<Naming>) {
    match Renamed(ns, |ns|)
    case None => true
    case Some(s) => s.index == Rebuilt(s.attributes)
  }

  function ColumnsOf(ns: seq<Naming>, n: nat): (c: seq<string>)
    requires n <= |ns|
    ensures |c| == n && forall i :: 0 <= i < n ==> c[i] == ns[i].column
  {
    seq(n, i requires 0 <= i < n => ns[i].column)
  }

  lemma {:induction false} ProjectedNames(ns: seq<Naming>, n: nat)
    requires n <= |ns|
    ensures var s := Projected(ns, n);
            s.attributes == ColumnsOf(ns, n) && forall p <- s.index :: s.attributes[s.index[p]] == p
    ensures forall i :: 0 <= i < n ==> ns[i].column in Projected(ns, n).index
    decreases n
  {
    if n > 0 {
      ProjectedNames(ns, n - 1);
      assert ColumnsOf(ns, n) == ColumnsOf(ns, n - 1) + [ns[n - 1].column];
    }
  }

  /** Name lookup through the renamed schema is renaming in turn. */
  lemma {:induction false} RenamedView<V>(ns: seq<Naming>, n: nat, tuple: seq<V>)
    requires n <= |ns| && |tuple| == |ns|
    ensures var b := Projected(ns, |ns|).View(tuple);
            match Renamed(ns, n)
            case None => InTurn(ns, n, b).None?
            case Some(s) => InTurn(ns, n, b) == Some(s.View(tuple))
    decreases n
  {
    if n > 0 {
      RenamedView(ns, n - 1, tuple);
      if Renamed(ns, n - 1).Some? {
        RenameIsMove(Renamed(ns, n - 1).value, tuple, ns[n - 1].column, ns[n - 1].name);
      }
    }
  }

  // ---------------------------------------------------------------- columns all different

  /** The index finds a name at a position of that name. */
  predicate FindsItsName(s: Schema)
    requires s.Valid()
  {
    forall p <- s.index :: s.attributes[s.index[p]] == p
  }

  lemma {:induction false} NamesFound(ns: seq<Naming>, n: nat)
    requires n <= |ns| && Renamed(ns, n).Some?
    ensures FindsItsName(Renamed(ns, n).value)
    decreases n
  {
    if n == 0 {
      ProjectedNames(ns, |ns|);
    } else {
      NamesFound(ns, n - 1);
      FoundAfterRename(Renamed(ns, n - 1).value, ns[n - 1].column, ns[n - 1].name);
    }
  }

  lemma FoundAfterRename(s: Schema, from: string, to: string)
    requires s.Valid() && FindsItsName(s) && s.RenameColumnName(from, to).Some?
    ensures FindsItsName(s.RenameColumnName(from, to).value)
  {
    if from != to {
      var t := s.RenameColumnName(from, to).value;
      forall p | p in t.index
        ensures t.attributes[t.index[p]] == p
      {
        if p != to {
          assert s.attributes[s.index[p]] == p && s.attributes[s.index[from]] == from;
        }
      }
    }
  }

  /** No position is renamed before its own turn. */
  lemma {:induction false} NotBeforeItsTurn(ns: seq<Naming>, n: nat, k: nat)
    requires AllDifferent(ns) && n <= k < |ns| && Renamed(ns, n).Some?
    ensures Renamed(ns, n).value.attributes[k] == ns[k].column
    decreases n
  {
    if n == 0 {
      ProjectedNames(ns, |ns|);
    } else {
      NotBeforeItsTurn(ns, n - 1, k);
      NamesFound(ns, n - 1);
    }
  }

  predicate NamedFrom(ns: seq<Naming>, k: nat, n: nat, p: string)
    requires n <= |ns|
  {
    exists i :: k <= i < n && ns[i].name == p
  }

  /** The index after n renames finds the position whose column is the origin of the name. */
  lemma FindsOrigin(ns: seq<Naming>, n: nat, p: string)
    requires n <= |ns| && Renamed(ns, n).Some?
    ensures var s := Renamed(ns, n).value;
            && (p in s.index ==> Origin(ns, n, p) == Some(ns[s.index[p]].column))
            && (Origin(ns, n, p).Some? && Listed(ns, Origin(ns, n, p).value) ==> p in s.index)
  {
    var tuple := ColumnsOf(ns, |ns|);
    var b := Projected(ns, |ns|).View(tuple);
    ProjectedNames(ns, |ns|);
    RenamedView(ns, n, tuple);
    InTurnStandsFor(ns, n, b, p);
    assert forall c <- b :: b[c] == c;
  }

  /** Once its turn is over a position has a name given since, or still its column because that was taken. */
  lemma {:induction false} NamedSinceItsTurn(ns: seq<Naming>, n: nat, k: nat)
    requires AllDifferent(ns) && k < n <= |ns| && Renamed(ns, n).Some?
    ensures var name := Renamed(ns, n).value.attributes[k];
            NamedFrom(ns, k, n, name) || (name == ns[k].column && exists i :: 0 <= i < k && Collides(ns, i, k))
    decreases n
  {
    var s := Renamed(ns, n - 1).value;
    if n - 1 > k {
      NamedSinceItsTurn(ns, n - 1, k);
      assert NamedFrom(ns, k, n - 1, s.attributes[k]) ==> NamedFrom(ns, k, n, s.attributes[k]);
      assert NamedFrom(ns, k, n, ns[n - 1].name);
    } else {
      NotBeforeItsTurn(ns, k, k);
      assert ns[k].name == ns[n - 1].name;
      if Moves(ns[k]) && s.index[ns[k].column] != k {
        FindsOrigin(ns, k, ns[k].column);
        MovedOnto(ns, k, ns[k].column);
        var i :| 0 <= i < k && Arrives(ns, i, ns[k].column);
        assert Collides(ns, i, k);
      } else if Moves(ns[k]) {
        assert Renamed(ns, n).value.attributes[k] == ns[k].name;
      }
    }
  }

  /** A name that does not stand for itself has been given by a rename. */
  lemma {:induction false} MovedOnto(ns: seq<Naming>, n: nat, p: string)
    requires n <= |ns| && Origin(ns, n, p).Some? && Origin(ns, n, p).value != p
    ensures exists i :: 0 <= i < n && Arrives(ns, i, p)
    decreases n
  {
    var x := ns[n - 1];
    if Moves(x) && p == x.name {
      assert Arrives(ns, n - 1, p);
    } else {
      MovedOnto(ns, n - 1, p);
    }
  }

  lemma {:induction false} RebuiltIsLast(attributes: seq<string>, p: string)
    ensures p in Rebuilt(attributes) <==> p in attributes
    ensures p in Rebuilt(attributes) ==>
              var i := Rebuilt(attributes)[p];
              i < |attributes| && attributes[i] == p && forall k :: i < k < |attributes| ==> attributes[k] != p
    decreases |attributes|
  {
    if attributes != [] {
      var n := |attributes| - 1;
      RebuiltIsLast(attributes[..n], p);
      assert attributes == attributes[..n] + [attributes[n]];
    }
  }

  /** In the end every position has a name that its own item or a later one gives. */
  lemma EndsNamedLater(ns: seq<Naming>, k: nat)
    requires AllDifferent(ns) && Safe(ns) && k < |ns| && Renamed(ns, |ns|).Some?
    ensures NamedFrom(ns, k, |ns|, Renamed(ns, |ns|).value.attributes[k])
  {
    NamedSinceItsTurn(ns, |ns|, k);
    SafeOnDifferentColumns(ns);
    if i :| 0 <= i < k && Collides(ns, i, k) {
      assert NamedLater(ns, k, ns[k].column);
    }
  }

  /** A name given is found at the position of the last item that gives it. */
  lemma FoundAtLast(ns: seq<Naming>, i: nat) returns (j: nat)
    requires AllDifferent(ns) && Safe(ns) && i < |ns| && Renamed(ns, |ns|).Some?
    ensures i <= j < |ns| && ns[j].name == ns[i].name && LastOfName(ns, j)
    ensures ns[i].name in Renamed(ns, |ns|).value.index && Renamed(ns, |ns|).value.index[ns[i].name] == j
  {
    j := LastOf(ns, i);
    FindsOrigin(ns, |ns|, ns[i].name);
    assert Listed(ns, ns[j].column);
  }

  lemma NameIsSteady(ns: seq<Naming>, p: string)
    requires AllDifferent(ns) && Safe(ns) && Renamed(ns, |ns|).Some?
    ensures var s, r := Renamed(ns, |ns|).value, Rebuilt(Renamed(ns, |ns|).value.attributes);
            (p in s.index <==> p in r) && (p in r ==> s.index[p] == r[p])
  {
    var s := Renamed(ns, |ns|).value;
    RebuiltIsLast(s.attributes, p);
    NamesFound(ns, |ns|);
    if p in s.attributes {
      var k := Rebuilt(s.attributes)[p];
      EndsNamedLater(ns, k);
      var i :| k <= i < |ns| && ns[i].name == p;
      var j := FoundAtLast(ns, i);
      assert s.attributes[j] == p;
    }
  }

  /** On a safe list of different columns, an operator that copies the schema finds the same columns. */
  lemma SafeIsSteady(ns: seq<Naming>)
    requires AllDifferent(ns) && Safe(ns)
    ensures Steady(ns)
  {
    if Renamed(ns, |ns|).Some? {
      forall p
        ensures var s, r := Renamed(ns, |ns|).value, Rebuilt(Renamed(ns, |ns|).value.attributes);
                (p in s.index <==> p in r) && (p in r ==> s.index[p] == r[p])
      {
        NameIsSteady(ns, p);
      }
    }
  }

  // ---------------------------------------------------------------- examples

  function HidingList(): seq<Naming> {
    [Naming("a", "d"), Naming("b", "d"), Naming("a", "a"), Naming("c", "a")]
  }

  /**
   * SELECT a AS d, b AS d, a, c AS a: the names d and a find the right columns, but a copied schema finds the
   * hidden first column under d again.
   */
  lemma HiddenColumnReturns()
    ensures Safe(HidingList()) && !Steady(HidingList())
  {
    HidingRuns();
    var ns, attributes := HidingList(), ["a", "d", "d", "a"];
    RebuiltIsLast(attributes, "d");
    assert attributes[2] == "d";
    HidingOrigins();
  }

  function HidingStart(): Schema {
    Schema(["a", "b", "a", "c"], map["a" := 2, "b" := 1, "c" := 3])
  }

  lemma HidingProjected()
    ensures Projected(HidingList(), 4) == HidingStart()
  {
    var ns := HidingList();
    assert Projected(ns, 1) == Schema(["a"], map["a" := 0]);
    assert Projected(ns, 2) == Schema(["a", "b"], map["a" := 0, "b" := 1]);
    assert Projected(ns, 3) == Schema(["a", "b", "a"], map["a" := 2, "b" := 1]);
  }

  lemma HidingSteps()
    ensures HidingStart().RenameColumnName("a", "d") == Some(Schema(["a", "b", "d", "c"], map["b" := 1, "c" := 3, "d" := 2]))
    ensures Schema(["a", "b", "d", "c"], map["b" := 1, "c" := 3, "d" := 2]).RenameColumnName("b", "d")
         == Some(Schema(["a", "d", "d", "c"], map["c" := 3, "d" := 1]))
    ensures Schema(["a", "d", "d", "c"], map["c" := 3, "d" := 1]).RenameColumnName("c", "a")
         == Some(Schema(["a", "d", "d", "a"], map["d" := 1, "a" := 3]))
  {
    assert ["a", "b", "a", "c"][2 := "d"] == ["a", "b", "d", "c"] && ["a", "b", "d", "c"][1 := "d"] == ["a", "d", "d", "c"];
    assert ["a", "d", "d", "c"][3 := "a"] == ["a", "d", "d", "a"];
    assert (HidingStart().index - {"a"})["d" := 2] == map["b" := 1, "c" := 3, "d" := 2];
    assert (map["b" := 1, "c" := 3, "d" := 2] - {"b"})["d" := 1] == map["c" := 3, "d" := 1];
    assert (map["c" := 3, "d" := 1] - {"c"})["a" := 3] == map["d" := 1, "a" := 3];
  }

  lemma HidingRuns()
    ensures Renamed(HidingList(), 4) == Some(Schema(["a", "d", "d", "a"], map["d" := 1, "a" := 3]))
  {
    var ns := HidingList();
    HidingProjected();
    HidingSteps();
    assert Renamed(ns, 0) == Some(HidingStart());
    assert Renamed(ns, 1) == HidingStart().RenameColumnName("a", "d");
    assert Renamed(ns, 2) == Some(Schema(["a", "d", "d", "c"], map["c" := 3, "d" := 1]));
    assert Renamed(ns, 3) == Renamed(ns, 2);
  }

  lemma HidingOrigins()
    ensures Safe(HidingList())
  {
    var ns := HidingList();
    assert Origin(ns, 0, "b") == Some("b") && Origin(ns, 1, "b") == Some("b");
    assert Origin(ns, 2, "d") == Some("b") && Origin(ns, 3, "d") == Some("b") && Origin(ns, 4, "d") == Some("b");
    assert Origin(ns, 1, "c") == Some("c") && Origin(ns, 3, "c") == Some("c") && Origin(ns, 4, "a") == Some("c");
    assert !LastOfName(ns, 0) && !LastOfName(ns, 2) by {
      assert ns[1].name == ns[0].name && ns[3].name == ns[2].name;
    }
  }

  /**
   * SELECT a AS b, b AS a once more: the attribute list is what it was, a client gets both columns under
   * their old names, and the index finds only the first.
   */
  lemma SwapChangesNothingListed()
    ensures var s := Schema(["a", "b"], map["a" := 0, "b" := 1]);
            s.Valid() && s.RenameColumnName("a", "b").Some? && s.RenameColumnName("a", "b").value.Valid()
            && s.RenameColumnName("a", "b").value.RenameColumnName("b", "a") == Some(Schema(["a", "b"], map["a" := 0]))
  {
    var s := Schema(["a", "b"], map["a" := 0, "b" := 1]);
    assert s.attributes[0 := "b"] == ["b", "b"] && ["b", "b"][0 := "a"] == ["a", "b"];
    assert (s.index - {"a"})["b" := 0] == map["b" := 0] && (map["b" := 0] - {"b"})["a" := 0] == map["a" := 0];
    assert s.RenameColumnName("a", "b") == Some(Schema(["b", "b"], map["b" := 0]));
    assert Schema(["b", "b"], map["b" := 0]).RenameColumnName("b", "a") == Some(Schema(["a", "b"], map["a" := 0]));
  }
}
