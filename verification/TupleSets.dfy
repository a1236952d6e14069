/** Tuple sets and schemas as the operators see them. */
module TupleSets {
  type Row<V> = seq<V>

  /**
   * `index` is what getAttributeIdx answers: a column name that resolves in the schema is a key of
   * the map, any other name has index -1.
   */
  datatype Schema = Schema(tableName: string, attributeSize: nat, index: map<string, nat>)
  {
    predicate Ok() {
      forall name <- index :: index[name] < attributeSize
    }

    predicate IsExistAttribute(name: string) {
      name in index
    }

    function GetAttributeIdx(name: string): (i: int)
      ensures name in index ==> i == index[name]
      ensures name !in index ==> i == -1
    {
      if name in index then index[name] else -1
    }
  }

  datatype TupleSet<V> = TupleSet(schema: Schema, rows: seq<Row<V>>, recvTime: int)
  {
    ghost predicate Ok() {
      schema.Ok() && forall row <- rows :: |row| == schema.attributeSize
    }
  }
}
