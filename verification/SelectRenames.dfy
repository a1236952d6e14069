/** When exactly a select list gets the columns it lists under the names it gives them. */
module SelectRenames {
  import opened Common
  import opened StringUtil
  import opened QueryTree
  import opened OperatorSemantics
  import opened RenameOrder
  import opened QueryMeaning

  /** The world in which every expression is its own text, so that different columns differ. */
  function TermWorld(): Env<string> {
    Env((_, _) => [], (name, args) => name + "(" + JoinWith(",", args) + ")", s => s, _ => true,
        (_, _, _) => true, (_, _, row) => row)
  }

  lemma {:induction false} TermValue(env: Env<string>, e: Expr, row: Row<string>)
    requires env == TermWorld() && row == map[]
    ensures Visible(env, e, row) && Value(env, e, row) == Text(e)
    decreases e
  {
    match e
    case Leaf(_) =>
    case Paren(inner) => TermValue(env, inner, row);
    case Function(name, args) =>
      forall i | 0 <= i < |args|
        ensures Value(env, args[i], row) == Texts(args)[i]
      {
        TermValue(env, args[i], row);
      }
      CallValue(env, name, args, row, Texts(args));
  }

  /** Every listed expression gives a column. */
  ghost predicate AllVisible<V>(env: Env<V>, items: seq<SelectItem>, row: Row<V>) {
    forall i :: 0 <= i < |items| ==> Visible(env, items[i].expr, row)
  }

  /** The projected row of the world of terms has all listed columns, each holding its own name. */
  lemma TermColumns(items: seq<SelectItem>)
    requires ItemsOk(items)
    ensures AllVisible(TermWorld(), items, map[])
    ensures var b := Columns(TermWorld(), items, map[]); FullRow(Namings(items), b) && NamesItself(b)
  {
    var ns, b := Namings(items), Columns(TermWorld(), items, map[]);
    ColumnsAreListed(TermWorld(), items, map[]);
    forall i | 0 <= i < |items|
      ensures Visible(TermWorld(), items[i].expr, map[]) && ns[i].column in b && b[ns[i].column] == ns[i].column
    {
      TermValue(TermWorld(), items[i].expr, map[]);
      ColumnIsItem(TermWorld(), items, map[], i);
    }
    forall k | k in b
      ensures b[k] == k
    {
      var i :| 0 <= i < |ns| && ns[i].column == k;
    }
  }

  /** The renames of the list go through and leave its expressions under its output names. */
  ghost predicate GetsItsNames<V(!new)>(env: Env<V>, items: seq<SelectItem>, row: Row<V>) {
    InTurn(Namings(items), |items|, Columns(env, items, row)) == Some(SelectRow(env, items)(row))
  }

  /**
   * A select list is safe if and only if, in every world and on every row where all its expressions are
   * known, projecting and then renaming in turn gives its expressions under its output names.
   */
  lemma SafeSelectIff(items: seq<SelectItem>)
    requires ItemsOk(items)
    ensures Safe(Namings(items)) <==>
              forall env: Env<string>, row: Row<string> :: AllVisible(env, items, row) ==> GetsItsNames(env, items, row)
  {
    if Safe(Namings(items)) {
      forall env: Env<string>, row: Row<string> | AllVisible(env, items, row)
        ensures GetsItsNames(env, items, row)
      {
        SelectIsInTurn(env, items, row);
      }
    } else {
      TermColumns(items);
      SelectIsAtOnce(TermWorld(), items, map[]);
      if GetsItsNames(TermWorld(), items, map[]) {
        RightOnlyIfSafe(Namings(items), Columns(TermWorld(), items, map[]));
      }
    }
  }
}
