/** The relations a view depends on (InformationSourceManager::extractRelatedTables). */
module ViewDependencies {

  /** The known relations, true for a view, and for every view the token lists of its definition rows. */
  datatype Catalog = Catalog(rdbSchemaMap: map<string, bool>, pgViews: map<string, seq<seq<string>>>)
  {
    function Definitions(table: string): seq<seq<string>> {
      if table in pgViews then pgViews[table] else []
    }

    predicate IsView(name: string) {
      name in rdbSchemaMap && rdbSchemaMap[name]
    }

    predicate IsTable(name: string) {
      name in rdbSchemaMap && !rdbSchemaMap[name]
    }

    /** `token` occurs in a definition of `table`. */
    ghost predicate Mentions(table: string, token: string) {
      && table in pgViews
      && exists i, j :: 0 <= i < |pgViews[table]| && 0 <= j < |pgViews[table][i]| && pgViews[table][i][j] == token
    }

    /** Views can be ranked above the views they mention, so there is no cycle among them. */
    ghost predicate Acyclic(rank: string -> nat) {
      forall table, token :: Mentions(table, token) && IsView(token) ==> rank(token) < rank(table)
    }

    /** A way from `table` to `relation` through view definitions. */
    ghost predicate IsPath(path: seq<string>, table: string, relation: string) {
      && |path| >= 2 && path[0] == table && path[|path| - 1] == relation
      && (forall i :: 0 <= i < |path| - 1 ==> Mentions(path[i], path[i + 1]))
      && (forall i :: 1 <= i < |path| - 1 ==> IsView(path[i]))
    }

    ghost predicate DependsOn(table: string, relation: string) {
      IsTable(relation) && exists path :: IsPath(path, table, relation)
    }
  }

  lemma DirectMention(c: Catalog, table: string, token: string)
    requires c.Mentions(table, token) && c.IsTable(token)
    ensures c.DependsOn(table, token)
  {
    assert c.IsPath([table, token], table, token);
  }

  lemma ThroughView(c: Catalog, table: string, view: string, relation: string)
    requires c.Mentions(table, view) && c.IsView(view) && c.DependsOn(view, relation)
    ensures c.DependsOn(table, relation)
  {
    var path :| c.IsPath(path, view, relation);
    var longer := [table] + path;
    forall i | 0 <= i < |longer| - 1
      ensures c.Mentions(longer[i], longer[i + 1])
    {
      if i > 0 {
        assert c.Mentions(path[i - 1], path[i - 1 + 1]);
      }
    }
    assert c.IsPath(longer, table, relation);
  }

  /** A dependency is a mention of a table, or a mention of a view that has the dependency. */
  lemma FirstStep(c: Catalog, table: string, relation: string) returns (token: string)
    requires c.DependsOn(table, relation)
    ensures c.Mentions(table, token)
    ensures token == relation || (c.IsView(token) && c.DependsOn(token, relation))
  {
    var path :| c.IsPath(path, table, relation);
    token := path[1];
    assert c.Mentions(path[0], path[0 + 1]);
    if |path| > 2 {
      var rest := path[1..];
      forall i | 0 <= i < |rest| - 1
        ensures c.Mentions(rest[i], rest[i + 1])
      {
        assert c.Mentions(path[i + 1], path[i + 1 + 1]);
      }
      assert c.IsPath(rest, token, relation);
    }
  }

  class InformationSourceManager {
    const catalog: Catalog

    constructor (catalog: Catalog)
      ensures this.catalog == catalog
    {
      this.catalog := catalog;
    }

    /**
     * Appends to the list; on an acyclic catalog it terminates, and what it appends is exactly the
     * set of tables the view reaches through view definitions.
     */
    method ExtractRelatedTables(table: string, relationTableList: seq<string>, ghost rank: string -> nat)
      returns (list: seq<string>)
      requires catalog.Acyclic(rank)
      ensures relationTableList <= list
      ensures forall r :: r in list[|relationTableList|..] <==> catalog.DependsOn(table, r)
      decreases rank(table)
    {
      list := relationTableList;
      var n := |relationTableList|;
      var rows := catalog.Definitions(table);
      for i := 0 to |rows|
        invariant relationTableList <= list
        invariant forall r :: r in list[n..] ==> catalog.DependsOn(table, r)
        invariant forall k, j :: 0 <= k < i && 0 <= j < |rows[k]| ==> Covered(table, rows[k][j], list[n..])
      {
        ghost var done := list;
        var tokens := rows[i];
        ghost var at := 0;
        while tokens != []
          invariant 0 <= at <= |rows[i]| && tokens == rows[i][at..]
          invariant relationTableList <= done <= list
          invariant forall r :: r in list[n..] ==> catalog.DependsOn(table, r)
          invariant forall j :: 0 <= j < at ==> Covered(table, rows[i][j], list[n..])
          decreases |tokens|
        {
          var token := tokens[0];
          assert token == rows[i][at] && catalog.Mentions(table, token);
          ghost var before := list;
          if token in catalog.rdbSchemaMap {
            if !catalog.rdbSchemaMap[token] {
              DirectMention(catalog, table, token);
              list := list + [token];
            } else {
              list := ExtractRelatedTables(token, list, rank);
              forall r | r in list[|before|..]
                ensures catalog.DependsOn(table, r)
              {
                ThroughView(catalog, table, token, r);
              }
            }
          }
          assert list[n..] == before[n..] + list[|before|..];
          assert Covered(table, token, list[n..]);
          tokens := tokens[1..];
          at := at + 1;
        }
        assert list[n..] == done[n..] + list[|done|..];
      }
      forall r | catalog.DependsOn(table, r)
        ensures r in list[n..]
      {
        var token := FirstStep(catalog, table, r);
        var k, j :| 0 <= k < |rows| && 0 <= j < |rows[k]| && rows[k][j] == token;
        assert Covered(table, rows[k][j], list[n..]);
      }
    }

    /** Whatever a token of a definition contributes has been collected. */
    ghost predicate Covered(table: string, token: string, found: seq<string>) {
      && (catalog.IsTable(token) ==> token in found)
      && (catalog.IsView(token) ==> forall r :: catalog.DependsOn(token, r) ==> r in found)
    }
  }
}
