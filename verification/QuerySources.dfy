/** What a plan reads and under which table names: its window nodes as the executer sees them, and its renames. */
module QuerySources {
  import opened Common
  import opened StringUtil
  import opened QueryTree
  import opened OperatorSemantics
  import opened OperatorGraph

  // ---------------------------------------------------------------- the settings of a window node

  function Setting(window: map<string, string>, key: string): Option<string> {
    if key in window then Some(window[key]) else None
  }

  /** The node carries the number, unit, limit, seed and partition columns written for the stream, and nothing else. */
  ghost predicate ShowsWindow(window: map<string, string>, t: Table)
    requires t.Stream?
  {
    && window.Keys <= {"range_window", "time_window", "limit", "seed", "partition"}
    && (match t.window
        case Rows(number) =>
          && Setting(window, "range_window") == Some(number) && Setting(window, "time_window") == None
          && Setting(window, "limit") == None && Setting(window, "seed") == None
        case RowsSorted(number, limit, seed) =>
          && Setting(window, "range_window") == Some(number) && Setting(window, "time_window") == None
          && (if t.own && t.partition == None then Setting(window, "limit") == None && Setting(window, "seed") == None
              else Setting(window, "limit") == Some(limit) && Setting(window, "seed") == Some(seed))
        case Range(number, unit) =>
          && Setting(window, "range_window") == None && Setting(window, "time_window") == Some(number + " " + unit)
          && Setting(window, "limit") == None && Setting(window, "seed") == None)
    && (match t.partition
        case None => Setting(window, "partition") == None
        case Some(columns) => Setting(window, "partition").Some? && ListsColumns(Setting(window, "partition").value, columns))
  }

  /** The columns are read back by splitting outside brackets, and by splitting at every comma where none has one. */
  ghost predicate ListsColumns(text: string, columns: seq<SelectItem>) {
    && (ItemsOk(columns) ==> SplitExcludeBrackets(text) == Texts(Exprs(columns)))
    && (ItemsOk(columns) && columns != [] && (forall c <- columns :: Avoids(Text(c.expr), ',')) ==>
         Split(text, ",") == Texts(Exprs(columns)))
  }

  lemma PartitionIsListed(columns: seq<SelectItem>)
    ensures ListsColumns(FindColumns(columns), columns)
  {
    var es := Exprs(columns);
    if ItemsOk(columns) {
      forall i | 0 <= i < |es|
        ensures ExprOk(es[i]) && Text(es[i]) != ""
      {
        assert columns[i] in columns;
        SelectExprIsExpr(es[i]);
        TextNotEmpty(es[i]);
      }
      ColumnsSplit(es);
      if columns != [] && forall c <- columns :: Avoids(Text(c.expr), ',') {
        forall i | 0 <= i < |es|
          ensures Avoids(Texts(es)[i], ',')
        {
          assert columns[i] in columns;
        }
        SplitJoin(",", Texts(es));
        JoinNotEmpty(",", Texts(es));
      }
    }
  }

  // ---------------------------------------------------------------- the time window as a number

  predicate IsDigits(s: string) {
    forall i :: 0 <= i < |s| ==> '0' <= s[i] <= '9'
  }

  /** The characters std::stol reads. */
  function LeadingDigits(s: string): string {
    if s == "" || !('0' <= s[0] <= '9') then "" else [s[0]] + LeadingDigits(s[1..])
  }

  /** Of a time window the executer reads the number and never the unit. */
  lemma {:induction false} UnitIsNotRead(number: string, unit: string)
    requires IsDigits(number)
    ensures LeadingDigits(number + " " + unit) == number
    decreases |number|
  {
    var s := number + " " + unit;
    if number == "" {
      assert s[0] == ' ';
    } else {
      UnitIsNotRead(number[1..], unit);
      assert s[1..] == number[1..] + " " + unit;
    }
  }

  // ---------------------------------------------------------------- the streams a plan reads

  /** The window nodes of a plan, left inputs first. */
  function Sources(p: Plan): seq<Node> {
    match p
    case Source(node) => [node]
    case Unary(_, input) => Sources(input)
    case Binary(_, left, right) => Sources(left) + Sources(right)
  }

  /** The streams written in a table, a FROM list or a query, in order. */
  function StreamsOf(t: Table): seq<Table>
    decreases t, 0
  {
    match t
    case Stream(_, _, _, _) => [t]
    case Nested(sub) => StreamsOfFrom(sub.from)
  }

  function StreamsOfItem(f: FromItem): seq<Table>
    decreases f, 0
  {
    match f
    case PlainTable(t) => StreamsOf(t)
    case TableRename(_, t) => StreamsOf(t)
  }

  function StreamsOfFrom(from: seq<FromItem>): seq<Table>
    decreases from, 1
  {
    if from == [] then [] else StreamsOfFrom(from[..|from| - 1]) + StreamsOfItem(from[|from| - 1])
  }

  function StreamsOfUnion(subs: seq<SubQuery>): seq<Table> {
    if subs == [] then [] else StreamsOfUnion(subs[..|subs| - 1]) + StreamsOfFrom(subs[|subs| - 1].from)
  }

  function StreamsOfQuery(q: Query): seq<Table> {
    match q
    case Single(sub) => StreamsOfFrom(sub.from)
    case Union(subs) => StreamsOfUnion(subs)
  }

  ghost predicate ReadsStream(node: Node, t: Table) {
    t.Stream? && node.operatorType.InOp? && node.parameter == t.name && ShowsWindow(node.window, t)
  }

  /** The nodes read these streams, one node each, in order. */
  ghost predicate Reads(nodes: seq<Node>, streams: seq<Table>) {
    |nodes| == |streams| && forall i :: 0 <= i < |nodes| ==> ReadsStream(nodes[i], streams[i])
  }

  lemma ReadsBoth(a: seq<Node>, b: seq<Node>, s: seq<Table>, t: seq<Table>)
    requires Reads(a, s) && Reads(b, t)
    ensures Reads(a + b, s + t)
  {
  }

  // ---------------------------------------------------------------- the table names of a plan's rows

  /** A rename puts the new name in place of the old one, where the rows have that. */
  function Renaming(param: string, names: set<string>): set<string> {
    var parts := Split(param, " as ");
    if |parts| == 2 && parts[0] in names then names - {parts[0]} + {parts[1]} else names
  }

  /** The table names the rows of a plan come under. */
  function Tables(p: Plan): set<string> {
    match p
    case Source(node) => {node.parameter}
    case Unary(node, input) => if node.operatorType.RenameTableOp? then Renaming(node.parameter, Tables(input)) else Tables(input)
    case Binary(_, left, right) => Tables(left) + Tables(right)
  }

  /** The names by which a table, or the items of a FROM list, are known: a renamed one only by its new name. */
  function NamesOf(t: Table): set<string>
    decreases t, 0
  {
    match t
    case Stream(name, _, _, _) => {name}
    case Nested(sub) => NamesOfFrom(sub.from)
  }

  function NamesOfItem(f: FromItem): set<string>
    decreases f, 0
  {
    match f
    case PlainTable(t) => NamesOf(t)
    case TableRename(newname, _) => {newname}
  }

  function NamesOfFrom(from: seq<FromItem>): set<string>
    decreases from, 1
  {
    if from == [] then {} else NamesOfFrom(from[..|from| - 1]) + NamesOfItem(from[|from| - 1])
  }

  function NamesOfUnion(subs: seq<SubQuery>): set<string> {
    if subs == [] then {} else NamesOfUnion(subs[..|subs| - 1]) + NamesOfFrom(subs[|subs| - 1].from)
  }

  function NamesOfQuery(q: Query): set<string> {
    match q
    case Single(sub) => NamesOfFrom(sub.from)
    case Union(subs) => NamesOfUnion(subs)
  }

  /** The list of names a rename goes through has all of them. */
  lemma {:induction false} AllNamesListed(t: Table)
    ensures forall n :: n in TableNames(t) <==> n in NamesOf(t)
    decreases t, 0
  {
    if t.Nested? {
      AllFromNamesListed(t.sub.from);
    }
  }

  lemma {:induction false} AllItemNamesListed(f: FromItem)
    ensures forall n :: n in ItemNames(f) <==> n in NamesOfItem(f)
    decreases f, 0
  {
    if f.PlainTable? {
      AllNamesListed(f.table);
    }
  }

  lemma {:induction false} AllFromNamesListed(from: seq<FromItem>)
    ensures forall n :: n in FromNames(from) <==> n in NamesOfFrom(from)
    decreases from, 1
  {
    if from != [] {
      var last := from[|from| - 1];
      AllFromNamesListed(from[..|from| - 1]);
      AllItemNamesListed(last);
      forall n
        ensures n in FromNames(from) <==> n in FromNames(from[..|from| - 1]) || n in ItemNames(last)
      {
        InMerge(FromNames(from[..|from| - 1]), ItemNames(last), n);
      }
    }
  }

  /** While the tables in `oldnames` are being renamed, the first i of them done. */
  ghost predicate RenamedSoFar(names: set<string>, oldnames: seq<string>, i: nat, newname: string)
    requires i <= |oldnames|
  {
    && (forall n <- names :: n == newname || n in oldnames[i..])
    && if i == 0 then forall n <- oldnames :: n in names else newname in names
  }

  lemma RenamesNext(names: set<string>, oldnames: seq<string>, i: nat, newname: string)
    requires i < |oldnames| && RenamedSoFar(names, oldnames, i, newname) && IsToken(oldnames[i]) && IsToken(newname)
    ensures RenamedSoFar(Renaming(RenameText(oldnames[i], newname), names), oldnames, i + 1, newname)
  {
    RenameParses(oldnames[i], newname);
    assert oldnames[i..] == [oldnames[i]] + oldnames[i + 1..];
    assert oldnames[i] in oldnames;
  }

  /** The plan on top reads the same streams under the same names. */
  predicate SameSources(p: Plan, q: Plan) {
    Sources(p) == Sources(q) && Tables(p) == Tables(q)
  }

  /** The plan reads these streams, and its rows come under these table names. */
  ghost predicate Covers(p: Plan, streams: seq<Table>, names: set<string>) {
    Reads(Sources(p), streams) && Tables(p) == names
  }
}
