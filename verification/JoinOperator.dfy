/** The join operator of the dataflow engine: pairing of inputs, hash join with cached keys, nested-loop join. */
module JoinOperator {
  import opened Common
  import opened TupleSets
  import opened JoinSpec
  import opened StringUtil
  import P = JoinPairing

  // ---------------------------------------------------------------- resolving the statement

  /** One side of "a=b" per entry; what splitting a statement at '=' yields. */
  type Statement = seq<string>

  /** An equality of two columns; `isReverse` when the written order is right table, left table. */
  datatype Condition = Condition(fieldIdx: int, fieldIdx2: int, isReverse: bool)
  {
    function LeftColumn(): int { if isReverse then fieldIdx2 else fieldIdx }
    function RightColumn(): int { if isReverse then fieldIdx else fieldIdx2 }
  }

  /** The columns process() finds for one condition; both names must resolve in the joined schema first. */
  function Resolve(state: Statement, joined: Schema, left: Schema, right: Schema): Option<Condition> {
    if |state| != 2 || !joined.IsExistAttribute(state[0]) || !joined.IsExistAttribute(state[1]) then None
    else if left.IsExistAttribute(state[0]) && right.IsExistAttribute(state[1]) then
      Some(Condition(left.GetAttributeIdx(state[0]), right.GetAttributeIdx(state[1]), false))
    else if left.IsExistAttribute(state[1]) && right.IsExistAttribute(state[0]) then
      Some(Condition(right.GetAttributeIdx(state[0]), left.GetAttributeIdx(state[1]), true))
    else None
  }

  /** The key columns hashJoin finds for one condition, in the small and in the large input. */
  function FindKey(state: Statement, small: Schema, large: Schema): Option<(int, int)> {
    if |state| != 2 then None
    else if !small.IsExistAttribute(state[0]) && small.IsExistAttribute(state[1]) then
      Some((small.GetAttributeIdx(state[1]), large.GetAttributeIdx(state[0])))
    else if small.IsExistAttribute(state[0]) && !small.IsExistAttribute(state[1]) then
      Some((small.GetAttributeIdx(state[0]), large.GetAttributeIdx(state[1])))
    else None
  }

  /** Exactly one name of the statement is a column of the schema: all that a lookup with this small side asks. */
  predicate Usable(state: Statement, small: Schema) {
    |state| == 2 && small.IsExistAttribute(state[0]) != small.IsExistAttribute(state[1])
  }

  /** The statement compares columns, not constants: each name is a column of some input. */
  predicate NamesKnown(state: Statement, left: Schema, right: Schema) {
    |state| == 2 ==>
      && (left.IsExistAttribute(state[0]) || right.IsExistAttribute(state[0]))
      && (left.IsExistAttribute(state[1]) || right.IsExistAttribute(state[1]))
  }

  /** Left and right key column of a statement that some lookup accepts. */
  function KeyColumns(state: Statement, left: Schema, right: Schema): (int, int) {
    match FindKey(state, left, right)
    case Some(k) => k
    case None =>
      match FindKey(state, right, left)
      case Some((s, l)) => (l, s)
      case None => (-1, -1)
  }

  /** Whichever input is the small one when the keys are looked up, the columns found are the same two. */
  lemma LookupsAgree(state: Statement, left: Schema, right: Schema)
    requires NamesKnown(state, left, right)
    ensures FindKey(state, left, right).Some? <==> Usable(state, left)
    ensures FindKey(state, right, left).Some? <==> Usable(state, right)
    ensures Usable(state, left) ==> FindKey(state, left, right) == Some(KeyColumns(state, left, right))
    ensures Usable(state, right) ==>
              var (l, r) := KeyColumns(state, left, right); FindKey(state, right, left) == Some((r, l))
    ensures Usable(state, left) || Usable(state, right) ==>
              var (l, r) := KeyColumns(state, left, right); l >= 0 && r >= 0
  {
  }

  /** They are the columns of the condition. */
  lemma KeysAreConditionColumns(state: Statement, joined: Schema, left: Schema, right: Schema)
    requires Resolve(state, joined, left, right).Some? && (Usable(state, left) || Usable(state, right))
    ensures var c := Resolve(state, joined, left, right).value;
            KeyColumns(state, left, right) == (c.LeftColumn(), c.RightColumn())
  {
  }

  function LeftKeys(states: seq<Statement>, left: Schema, right: Schema): (keys: seq<int>)
    ensures |keys| == |states|
  {
    seq(|states|, i requires 0 <= i < |states| => KeyColumns(states[i], left, right).0)
  }

  function RightKeys(states: seq<Statement>, left: Schema, right: Schema): (keys: seq<int>)
    ensures |keys| == |states|
  {
    seq(|states|, i requires 0 <= i < |states| => KeyColumns(states[i], left, right).1)
  }

  function LeftColumns(conditions: seq<Condition>): seq<int> {
    seq(|conditions|, i requires 0 <= i < |conditions| => conditions[i].LeftColumn())
  }

  function RightColumns(conditions: seq<Condition>): seq<int> {
    seq(|conditions|, i requires 0 <= i < |conditions| => conditions[i].RightColumn())
  }

  function Reversals(conditions: seq<Condition>): seq<bool> {
    seq(|conditions|, i requires 0 <= i < |conditions| => conditions[i].isReverse)
  }

  // ---------------------------------------------------------------- what the statements ask for

  /** One name is a column of the left input, the other one of the right, and the joined schema has both. */
  predicate Equates(state: Statement, joined: Schema, left: Schema, right: Schema) {
    && |state| == 2 && state[0] in joined.index && state[1] in joined.index
    && ((state[0] in left.index && state[1] in right.index) || (state[1] in left.index && state[0] in right.index))
  }

  /** The cells under the two names are equal, compared in the order written. */
  predicate Compares<V>(eq: (V, V) -> bool, state: Statement, left: Schema, right: Schema, l: Row<V>, r: Row<V>)
    requires left.Ok() && right.Ok() && |l| == left.attributeSize && |r| == right.attributeSize
  {
    && |state| == 2
    && if state[0] in left.index && state[1] in right.index then
         eq(l[left.index[state[0]]], r[right.index[state[1]]])
       else
         state[1] in left.index && state[0] in right.index && eq(r[right.index[state[0]]], l[left.index[state[1]]])
  }

  predicate ComparesAll<V>(eq: (V, V) -> bool, states: seq<Statement>, left: Schema, right: Schema, l: Row<V>, r: Row<V>) {
    && left.Ok() && right.Ok() && |l| == left.attributeSize && |r| == right.attributeSize
    && forall i :: 0 <= i < |states| ==> Compares(eq, states[i], left, right, l, r)
  }

  function StatementMatch<V>(eq: (V, V) -> bool, states: seq<Statement>, left: Schema, right: Schema): Match<V> {
    (l, r) => ComparesAll(eq, states, left, right, l, r)
  }

  /** The rows are the join of the inputs on the statements: the pairs on which all hold, each once, in loop order. */
  ghost predicate JoinsOn<V(!new)>(rows: seq<Row<V>>, eq: (V, V) -> bool, states: seq<Statement>,
                                   left: TupleSet<V>, right: TupleSet<V>, leftOutermost: bool) {
    && (exists pairs ::
         Lists(rows, left.rows, right.rows, StatementMatch(eq, states, left.schema, right.schema), leftOutermost, pairs))
    && forall l, r :: |l| == left.schema.attributeSize ==>
         (l + r in rows <==> l in left.rows && r in right.rows && ComparesAll(eq, states, left.schema, right.schema, l, r))
  }

  lemma ListedIsJoin<V(!new)>(rows: seq<Row<V>>, eq: (V, V) -> bool, states: seq<Statement>, m: Match<V>,
                              left: TupleSet<V>, right: TupleSet<V>, leftOutermost: bool, pairs: seq<(nat, nat)>)
    requires Lists(rows, left.rows, right.rows, m, leftOutermost, pairs) && left.Ok()
    requires Agree(left.rows, right.rows, m, StatementMatch(eq, states, left.schema, right.schema))
    ensures JoinsOn(rows, eq, states, left, right, leftOutermost)
  {
    var m' := StatementMatch(eq, states, left.schema, right.schema);
    ListsAgree(rows, left.rows, right.rows, m, m', leftOutermost, pairs);
    forall l, r | |l| == left.schema.attributeSize
      ensures l + r in rows <==> l in left.rows && r in right.rows && ComparesAll(eq, states, left.schema, right.schema, l, r)
    {
      ListedIffMatch(rows, left.rows, right.rows, m', leftOutermost, pairs, l, r);
    }
  }

  /** Cells of the two inputs are equal exactly when their texts are. */
  ghost predicate TextsDecideCells<V>(str: V -> string, eq: (V, V) -> bool, left: seq<Row<V>>, right: seq<Row<V>>) {
    forall l, r, i, j :: l in left && r in right && 0 <= i < |l| && 0 <= j < |r| ==>
      (eq(l[i], r[j]) <==> str(l[i]) == str(r[j])) && (eq(r[j], l[i]) <==> str(l[i]) == str(r[j]))
  }

  predicate PlainCells<V>(str: V -> string, row: Row<V>) {
    forall i :: 0 <= i < |row| ==> HasNoUnderscore(str(row[i]))
  }

  /** The key texts of n columns tell whether the columns are equal: one column, or no '_' in any cell. */
  ghost predicate KeysDecide<V>(str: V -> string, eq: (V, V) -> bool, left: seq<Row<V>>, right: seq<Row<V>>, n: nat) {
    && TextsDecideCells(str, eq, left, right)
    && (n <= 1 || ((forall row <- left :: PlainCells(str, row)) && (forall row <- right :: PlainCells(str, row))))
  }

  /** The conditions as a matching rule. */
  function ConditionMatch<V>(eq: (V, V) -> bool, conditions: seq<Condition>): Match<V> {
    ColumnMatch(eq, LeftColumns(conditions), RightColumns(conditions), Reversals(conditions))
  }

  /** The lookup of all key columns: it stops at the first statement it cannot interpret. */
  datatype Keys = Keys(ok: bool, small: seq<int>, large: seq<int>)

  function FindKeys(states: seq<Statement>, small: Schema, large: Schema): Keys {
    if states == [] then Keys(true, [], [])
    else
      var n := |states| - 1;
      var front := FindKeys(states[..n], small, large);
      if !front.ok then front
      else match FindKey(states[n], small, large)
        case None => front.(ok := false)
        case Some((s, l)) => Keys(true, front.small + [s], front.large + [l])
  }

  /**
   * A lookup finds the columns of the statements before the first unusable one, and fails there: what
   * a failed lookup leaves behind is empty only if it failed at the first statement.
   */
  lemma {:induction false} LookupStopsAtUnusable(states: seq<Statement>, small: Schema, large: Schema)
    ensures var k := FindKeys(states, small, large);
            && |k.small| == |k.large| <= |states|
            && (forall i :: 0 <= i < |k.small| ==> FindKey(states[i], small, large) == Some((k.small[i], k.large[i])))
            && (k.ok <==> |k.small| == |states|)
            && (!k.ok ==> !Usable(states[|k.small|], small))
    decreases |states|
  {
    if states != [] {
      LookupStopsAtUnusable(states[..|states| - 1], small, large);
    }
  }

  lemma FailedLookupLeavesKeys(states: seq<Statement>, small: Schema, large: Schema)
    requires !FindKeys(states, small, large).ok
    ensures states != []
    ensures FindKeys(states, small, large).small == [] <==> !Usable(states[0], small)
  {
    LookupStopsAtUnusable(states, small, large);
  }

  // ---------------------------------------------------------------- keys over many calls

  /** What one call does to the number of cached keys: it looks them up only while there are none. */
  function LookupStep(states: seq<Statement>, left: Schema, right: Schema, n: nat, reverse: bool): (bool, nat) {
    if n > 0 then (true, n)
    else
      var k := if reverse then FindKeys(states, right, left) else FindKeys(states, left, right);
      (k.ok, |k.small|)
  }

  /** The number of cached keys after calls with these orientations. */
  function KeysAfter(states: seq<Statement>, left: Schema, right: Schema, run: seq<bool>): nat {
    if run == [] then 0
    else
      var n := |run| - 1;
      LookupStep(states, left, right, KeysAfter(states, left, right, run[..n]), run[n]).1
  }

  /** Every call that succeeds, after whatever other calls, uses a key for every statement. */
  ghost predicate AlwaysComplete(states: seq<Statement>, left: Schema, right: Schema) {
    forall run: seq<bool>, reverse: bool :: CompleteCall(states, left, right, run, reverse)
  }

  predicate CompleteCall(states: seq<Statement>, left: Schema, right: Schema, run: seq<bool>, reverse: bool) {
    var (ok, n) := LookupStep(states, left, right, KeysAfter(states, left, right, run), reverse);
    ok ==> n == |states|
  }

  predicate AllUsable(states: seq<Statement>, small: Schema) {
    forall i :: 0 <= i < |states| ==> Usable(states[i], small)
  }

  /** With this side small a lookup finds all keys, or none because the first statement is unusable. */
  predicate NeverPartial(states: seq<Statement>, small: Schema)
    requires states != []
  {
    Usable(states[0], small) ==> AllUsable(states, small)
  }

  lemma LookupIsPartial(states: seq<Statement>, small: Schema, large: Schema)
    requires states != []
    ensures NeverPartial(states, small) <==>
              (FindKeys(states, small, large).small == [] || |FindKeys(states, small, large).small| == |states|)
  {
    LookupStopsAtUnusable(states, small, large);
    var k := FindKeys(states, small, large);
    if k.small != [] {
      assert FindKey(states[0], small, large) == Some((k.small[0], k.large[0]));
    }
  }

  lemma {:induction false} NoneOrAllKeys(states: seq<Statement>, left: Schema, right: Schema, run: seq<bool>)
    requires states != [] && NeverPartial(states, left) && NeverPartial(states, right)
    ensures KeysAfter(states, left, right, run) == 0 || KeysAfter(states, left, right, run) == |states|
    decreases |run|
  {
    if run != [] {
      NoneOrAllKeys(states, left, right, run[..|run| - 1]);
      LookupIsPartial(states, left, right);
      LookupIsPartial(states, right, left);
    }
  }

  /**
   * Every successful call uses the complete key lists, after any calls, if and only if neither input as
   * the small side has a usable first and an unusable later statement.
   */
  lemma CompleteKeysIff(states: seq<Statement>, left: Schema, right: Schema)
    requires states != []
    ensures AlwaysComplete(states, left, right) <==> NeverPartial(states, left) && NeverPartial(states, right)
  {
    LookupIsPartial(states, left, right);
    LookupIsPartial(states, right, left);
    if NeverPartial(states, left) && NeverPartial(states, right) {
      forall run: seq<bool>, reverse: bool
        ensures CompleteCall(states, left, right, run, reverse)
      {
        NoneOrAllKeys(states, left, right, run);
        LookupStopsAtUnusable(states, left, right);
        LookupStopsAtUnusable(states, right, left);
      }
    } else {
      var reverse := NeverPartial(states, left);
      assert [reverse][..0] == [];
      assert KeysAfter(states, left, right, [reverse]) == LookupStep(states, left, right, 0, reverse).1;
      assert !CompleteCall(states, left, right, [reverse], reverse);
    }
  }

  // ---------------------------------------------------------------- the hash table

  type HashTable = map<nat, map<string, seq<nat>>>

  function Bucket(table: HashTable, hash: string -> nat, key: string): seq<nat> {
    if hash(key) in table && key in table[hash(key)] then table[hash(key)][key] else []
  }

  /** The rows with a given key text, in ascending order. */
  function Matches<V>(str: V -> string, rows: seq<Row<V>>, keys: seq<int>, key: string): (idxs: seq<nat>)
    ensures forall i :: 0 <= i < |idxs| ==> idxs[i] < |rows|
  {
    if rows == [] then []
    else
      var n := |rows| - 1;
      var front := Matches(str, rows[..n], keys, key);
      if JoinKey(str, rows[n], keys) == key then front + [n] else front
  }

  lemma {:induction false} MatchesOfTake<V>(str: V -> string, rows: seq<Row<V>>, keys: seq<int>, n: nat)
    requires n < |rows|
    ensures forall key :: Matches(str, rows[..n + 1], keys, key) ==
              if JoinKey(str, rows[n], keys) == key then Matches(str, rows[..n], keys, key) + [n]
              else Matches(str, rows[..n], keys, key)
  {
    assert rows[..n + 1][..n] == rows[..n];
  }

  function JoinAll<V>(rows: seq<Row<V>>, idxs: seq<nat>, row: Row<V>, rowIsLeft: bool): seq<Row<V>>
    requires forall k :: 0 <= k < |idxs| ==> idxs[k] < |rows|
  {
    seq(|idxs|, k requires 0 <= k < |idxs| => if rowIsLeft then row + rows[idxs[k]] else rows[idxs[k]] + row)
  }

  lemma JoinAllSnoc<V>(rows: seq<Row<V>>, idxs: seq<nat>, row: Row<V>, rowIsLeft: bool)
    requires rows != [] && forall k :: 0 <= k < |idxs| ==> idxs[k] < |rows| - 1
    ensures var n := |rows| - 1;
            var front := JoinAll(rows[..n], idxs, row, rowIsLeft);
            && JoinAll(rows, idxs, row, rowIsLeft) == front
            && JoinAll(rows, idxs + [n], row, rowIsLeft)
               == front + [if rowIsLeft then row + rows[n] else rows[n] + row]
  {
  }

  /** Probing one row of the large input gives its part of the nested loops. */
  lemma {:induction false} ProbeIsRow<V>(str: V -> string, rows: seq<Row<V>>, keys: seq<int>, row: Row<V>, rowKeys: seq<int>)
    ensures JoinAll(rows, Matches(str, rows, keys, JoinKey(str, row, rowKeys)), row, true)
         == RowOf(row, rows, KeyMatch(str, rowKeys, keys))
    decreases |rows|
  {
    if rows != [] {
      var n := |rows| - 1;
      ProbeIsRow(str, rows[..n], keys, row, rowKeys);
      JoinAllSnoc(rows, Matches(str, rows[..n], keys, JoinKey(str, row, rowKeys)), row, true);
    }
  }

  lemma {:induction false} ProbeIsCol<V>(str: V -> string, rows: seq<Row<V>>, keys: seq<int>, row: Row<V>, rowKeys: seq<int>)
    ensures JoinAll(rows, Matches(str, rows, keys, JoinKey(str, row, rowKeys)), row, false)
         == ColOf(rows, row, KeyMatch(str, keys, rowKeys))
    decreases |rows|
  {
    if rows != [] {
      var n := |rows| - 1;
      ProbeIsCol(str, rows[..n], keys, row, rowKeys);
      JoinAllSnoc(rows, Matches(str, rows[..n], keys, JoinKey(str, row, rowKeys)), row, false);
    }
  }

  // ---------------------------------------------------------------- the operator

  class JoinOperator<V(0, !new)> {
    /** The join conditions of the query, split at " AND " and at '='. */
    const states: seq<Statement>
    const leftSchema: Schema
    const rightSchema: Schema
    /** The output schema that copyAttributes and addAttributes make of the two. */
    const joinedSchema: Schema
    const str: V -> string
    const eq: (V, V) -> bool
    const hash: string -> nat

    /** Whether the output schema is set: conditions are resolved by the first call only. */
    var started: bool
    var conditions: seq<Condition>
    var smallKeyIdxList: seq<int>
    var largeKeyIdxList: seq<int>
    var isReverse: bool
    var waitQMap: map<int, TupleSet<V>>
    var buffer: seq<TupleSet<V>>

    constructor (states: seq<Statement>, leftSchema: Schema, rightSchema: Schema, joinedSchema: Schema,
                 str: V -> string, eq: (V, V) -> bool, hash: string -> nat)
      ensures this.states == states && this.leftSchema == leftSchema && this.rightSchema == rightSchema
      ensures this.joinedSchema == joinedSchema && !started && KeysTracked()
      ensures this.str == str && this.eq == eq && this.hash == hash
      ensures conditions == [] && smallKeyIdxList == [] && largeKeyIdxList == []
      ensures waitQMap == map[] && buffer == []
    {
      this.states, this.leftSchema, this.rightSchema := states, leftSchema, rightSchema;
      this.joinedSchema, started := joinedSchema, false;
      this.str, this.eq, this.hash := str, eq, hash;
      conditions, smallKeyIdxList, largeKeyIdxList, isReverse := [], [], [], false;
      waitQMap, buffer := map[], [];
    }

    // -------------------------------------------------------------- pairing

    ghost function Queues(enqueued: seq<TupleSet<V>>, drawn: seq<seq<TupleSet<V>>>): P.State<V>
      reads this
    {
      P.State(waitQMap, buffer, enqueued, drawn)
    }

    method ReceiveTupleSet(ts: TupleSet<V>, ghost enqueued: seq<TupleSet<V>>, ghost drawn: seq<seq<TupleSet<V>>>)
      modifies this`waitQMap, this`buffer
      ensures var after := P.Received(old(Queues(enqueued, drawn)), ts);
              Queues(after.enqueued, after.drawn) == after
      ensures ts.schema.tableName == "UNKNOWN" ==> buffer == old(buffer) && waitQMap == old(waitQMap)
      ensures ts.schema.tableName != "UNKNOWN" ==>
                if ts.recvTime in old(waitQMap) then
                  && waitQMap == old(waitQMap) - {ts.recvTime} && |buffer| == |old(buffer)| + 2
                  && old(buffer) <= buffer
                  && P.IsPairOf(buffer[|old(buffer)|..], old(waitQMap)[ts.recvTime], ts)
                else
                  buffer == old(buffer) && waitQMap == old(waitQMap)[ts.recvTime := ts]
    {
      if ts.schema.tableName != P.UNKNOWN {
        if ts.recvTime !in waitQMap {
          waitQMap := waitQMap[ts.recvTime := ts];
        } else {
          var waiter := waitQMap[ts.recvTime];
          P.InJoinOrderIsPair(waiter, ts);
          if waiter.schema.attributeSize > ts.schema.attributeSize {
            buffer := buffer + [waiter, ts];
          } else if waiter.schema.attributeSize < ts.schema.attributeSize {
            buffer := buffer + [ts, waiter];
          } else {
            GreaterIsTotal(waiter.schema.tableName, ts.schema.tableName);
            if Greater(waiter.schema.tableName, ts.schema.tableName) {
              buffer := buffer + [waiter, ts];
            } else if Greater(ts.schema.tableName, waiter.schema.tableName) {
              buffer := buffer + [ts, waiter];
            } else {
              buffer := buffer + [waiter, ts];
            }
          }
          waitQMap := waitQMap - {ts.recvTime};
        }
      }
    }

    /** Takes sets from the front of the buffer until there are two or the buffer is empty. */
    method GetTupleSet(ghost enqueued: seq<TupleSet<V>>, ghost drawn: seq<seq<TupleSet<V>>>)
      returns (ts: seq<TupleSet<V>>, totalSize: nat)
      modifies this`buffer
      ensures Queues(enqueued, drawn + [ts]) == P.Drew(old(Queues(enqueued, drawn)))
      ensures totalSize == if |ts| == 2 then |ts[0].rows| + |ts[1].rows| else if |ts| == 1 then |ts[0].rows| else 0
    {
      ts, totalSize := [], 0;
      while buffer != []
        invariant ts + buffer == old(buffer) && totalSize == RowCount(ts) && |ts| < P.EXPECT_DATA_SIZE
        decreases |buffer|
      {
        assert (ts + [buffer[0]])[..|ts|] == ts;
        ts := ts + [buffer[0]];
        totalSize := totalSize + |buffer[0].rows|;
        buffer := buffer[1..];
        if |ts| == P.EXPECT_DATA_SIZE {
          break;
        }
      }
      assert |ts| > 0 ==> ts[..|ts| - 1] == if |ts| == 2 then [ts[0]] else [];
      BatchDrawn(old(Queues(enqueued, drawn)), ts, buffer);
    }

    static function RowCount(ts: seq<TupleSet<V>>): nat {
      if ts == [] then 0 else RowCount(ts[..|ts| - 1]) + |ts[|ts| - 1].rows|
    }

    // -------------------------------------------------------------- conditions

    ghost predicate ConditionsResolved()
      reads this
    {
      AllResolve(states, conditions, joinedSchema, leftSchema, rightSchema)
    }

    predicate Resolvable() {
      forall i :: 0 <= i < |states| ==> Equates(states[i], joinedSchema, leftSchema, rightSchema)
    }

    /** The first-time part of process(): every statement must equate a column of each input. */
    method ResolveConditions() returns (ok: bool)
      requires conditions == []
      modifies this`conditions
      ensures ok <==> Resolvable()
      ensures ok ==> ConditionsResolved()
    {
      for i := 0 to |states|
        invariant |conditions| == i
        invariant forall j :: 0 <= j < i ==> Resolve(states[j], joinedSchema, leftSchema, rightSchema) == Some(conditions[j])
      {
        ResolvesIff(states[i], joinedSchema, leftSchema, rightSchema);
        match Resolve(states[i], joinedSchema, leftSchema, rightSchema) {
          case None => return false;
          case Some(c) => conditions := conditions + [c];
        }
      }
      AllResolveIff(states, conditions, joinedSchema, leftSchema, rightSchema);
      ok := true;
    }

    // -------------------------------------------------------------- joining

    static method Join(tuple1: Row<V>, tuple2: Row<V>) returns (joinTuple: Row<V>)
      ensures joinTuple == tuple1 + tuple2
    {
      joinTuple := [];
      for idx := 0 to |tuple1|
        invariant joinTuple == tuple1[..idx]
      {
        joinTuple := joinTuple + [tuple1[idx]];
      }
      for idx := 0 to |tuple2|
        invariant joinTuple == tuple1 + tuple2[..idx]
      {
        joinTuple := joinTuple + [tuple2[idx]];
      }
    }

    method MakeKey(row: Row<V>, keys: seq<int>) returns (joinKey: string)
      requires KeysInside(row, keys)
      ensures joinKey == JoinKey(str, row, keys)
    {
      joinKey := "";
      ghost var texts := Texts(str, row, keys);
      for i := 0 to |keys|
        invariant joinKey == JoinTexts(texts[..i])
      {
        JoinTextsTake(texts, i);
        if |joinKey| != 0 {
          joinKey := joinKey + "_";
        }
        joinKey := joinKey + str(row[keys[i]]);
      }
      assert texts[..|keys|] == texts;
    }

    /** Appends a row number to the entry of a key. */
    method Insert(table: HashTable, joinKey: string, i: nat) returns (hashTable: HashTable)
      ensures forall key :: Bucket(hashTable, hash, key) ==
                if key == joinKey then Bucket(table, hash, key) + [i] else Bucket(table, hash, key)
    {
      var h := hash(joinKey);
      if h !in table {
        hashTable := table[h := map[joinKey := [i]]];
      } else {
        var idxs := if joinKey in table[h] then table[h][joinKey] else [];
        hashTable := table[h := table[h][joinKey := idxs + [i]]];
      }
    }

    method BuildTable(rows: seq<Row<V>>, keys: seq<int>) returns (hashTable: HashTable)
      requires forall row <- rows :: KeysInside(row, keys)
      ensures forall key :: Bucket(hashTable, hash, key) == Matches(str, rows, keys, key)
    {
      hashTable := map[];
      assert rows[..0] == [];
      for i := 0 to |rows|
        invariant forall key :: Bucket(hashTable, hash, key) == Matches(str, rows[..i], keys, key)
      {
        hashTable := InsertRow(hashTable, rows, keys, i);
      }
      assert rows[..|rows|] == rows;
    }

    method InsertRow(table: HashTable, rows: seq<Row<V>>, keys: seq<int>, i: nat) returns (hashTable: HashTable)
      requires i < |rows| && KeysInside(rows[i], keys)
      requires forall key :: Bucket(table, hash, key) == Matches(str, rows[..i], keys, key)
      ensures forall key :: Bucket(hashTable, hash, key) == Matches(str, rows[..i + 1], keys, key)
    {
      var joinKey := MakeKey(rows[i], keys);
      MatchesOfTake(str, rows, keys, i);
      hashTable := Insert(table, joinKey, i);
    }

    /** Joins one row with the rows of its bucket. */
    method JoinBucket(small: seq<Row<V>>, idxs: seq<nat>, row: Row<V>, reverse: bool) returns (rows: seq<Row<V>>)
      requires forall k :: 0 <= k < |idxs| ==> idxs[k] < |small|
      ensures rows == JoinAll(small, idxs, row, reverse)
    {
      rows := [];
      for k := 0 to |idxs|
        invariant rows == JoinAll(small, idxs, row, reverse)[..k]
      {
        var joined;
        if reverse {
          joined := Join(row, small[idxs[k]]);
        } else {
          joined := Join(small[idxs[k]], row);
        }
        rows := rows + [joined];
      }
    }

    /** Looks every row of the large input up in the table of the small one. */
    method Probe(small: seq<Row<V>>, smallKeys: seq<int>, large: seq<Row<V>>, largeKeys: seq<int>, reverse: bool)
      returns (rows: seq<Row<V>>)
      requires forall row <- small :: KeysInside(row, smallKeys)
      requires forall row <- large :: KeysInside(row, largeKeys)
      ensures rows == if reverse then Nested(large, small, KeyMatch(str, largeKeys, smallKeys))
                      else NestedByRight(small, large, KeyMatch(str, smallKeys, largeKeys))
    {
      var hashTable := BuildTable(small, smallKeys);
      rows := [];
      assert large[..0] == [];
      for i := 0 to |large|
        invariant rows == if reverse then Nested(large[..i], small, KeyMatch(str, largeKeys, smallKeys))
                          else NestedByRight(small, large[..i], KeyMatch(str, smallKeys, largeKeys))
      {
        assert KeysInside(large[i], largeKeys);
        var joinKey := MakeKey(large[i], largeKeys);
        ProbeIsRow(str, small, smallKeys, large[i], largeKeys);
        ProbeIsCol(str, small, smallKeys, large[i], largeKeys);
        NestedTake(large, small, KeyMatch(str, largeKeys, smallKeys), i);
        NestedByRightTake(small, large, KeyMatch(str, smallKeys, largeKeys), i);
        var joined := JoinBucket(small, Bucket(hashTable, hash, joinKey), large[i], reverse);
        rows := rows + joined;
      }
      assert large[..|large|] == large;
    }

    /**
     * The cached key lists are the key columns of the first statements, all of them or not, seen from
     * the small and the large input of the last call.
     */
    ghost predicate KeysTracked()
      reads this
    {
      var n, left, right := |smallKeyIdxList|, LeftKeys(states, leftSchema, rightSchema), RightKeys(states, leftSchema, rightSchema);
      && n <= |states| && PrefixUsable(states, n, leftSchema, rightSchema)
      && smallKeyIdxList == (if isReverse then right[..n] else left[..n])
      && largeKeyIdxList == (if isReverse then left[..n] else right[..n])
    }

    /** Two tuple sets of the operator's schemas, and a statement that compares their columns only. */
    ghost predicate InputsOk(tupleset1: TupleSet<V>, tupleset2: TupleSet<V>) {
      && tupleset1.schema == leftSchema && tupleset2.schema == rightSchema
      && tupleset1.Ok() && tupleset2.Ok()
      && forall i :: 0 <= i < |states| ==> NamesKnown(states[i], leftSchema, rightSchema)
    }

    /** What the hash join tests when the keys of the first n statements are cached. */
    function PrefixMatch(n: nat): Match<V>
      requires n <= |states|
    {
      KeyMatch(str, LeftKeys(states, leftSchema, rightSchema)[..n], RightKeys(states, leftSchema, rightSchema)[..n])
    }

    method SwapKeyLists()
      modifies this`smallKeyIdxList, this`largeKeyIdxList
      ensures smallKeyIdxList == old(largeKeyIdxList) && largeKeyIdxList == old(smallKeyIdxList)
    {
      var tmpList := smallKeyIdxList;
      smallKeyIdxList := largeKeyIdxList;
      largeKeyIdxList := tmpList;
    }

    /** The key search of the first call. */
    method SearchKeys(small: Schema, large: Schema) returns (ok: bool)
      requires smallKeyIdxList == [] && largeKeyIdxList == []
      modifies this`smallKeyIdxList, this`largeKeyIdxList
      ensures Keys(ok, smallKeyIdxList, largeKeyIdxList) == FindKeys(states, small, large)
    {
      assert states[..0] == [];
      for i := 0 to |states|
        invariant Keys(true, smallKeyIdxList, largeKeyIdxList) == FindKeys(states[..i], small, large)
      {
        assert states[..i + 1][..i] == states[..i];
        match FindKey(states[i], small, large) {
          case None =>
            FailureStops(states, i + 1, small, large);
            return false;
          case Some((s, l)) =>
            smallKeyIdxList := smallKeyIdxList + [s];
            largeKeyIdxList := largeKeyIdxList + [l];
        }
      }
      assert states[..|states|] == states;
      ok := true;
    }

    /**
     * The hash join with its cached keys. Over any sequence of calls the lists index the currently
     * smaller and the currently larger input. While there are no keys a call looks them up and fails at
     * the first unusable statement, leaving the keys found so far; every call with keys succeeds and
     * gives the rows that the statements of those keys ask for.
     */
    method HashJoin(tupleset1: TupleSet<V>, tupleset2: TupleSet<V>) returns (ok: bool, rows: seq<Row<V>>)
      requires InputsOk(tupleset1, tupleset2) && KeysTracked()
      modifies this`smallKeyIdxList, this`largeKeyIdxList, this`isReverse
      ensures isReverse == (|tupleset1.rows| >= |tupleset2.rows|) && KeysTracked()
      ensures (ok, |smallKeyIdxList|) == LookupStep(states, leftSchema, rightSchema, |old(smallKeyIdxList)|, isReverse)
      ensures rows == if ok then HashRows(tupleset1.rows, tupleset2.rows, PrefixMatch(|smallKeyIdxList|)) else []
      ensures ok && KeysDecide(str, eq, tupleset1.rows, tupleset2.rows, |smallKeyIdxList|) ==>
                JoinsOn(rows, eq, states[..|smallKeyIdxList|], tupleset1, tupleset2, isReverse)
    {
      var smallSet, largeSet := tupleset1, tupleset2;
      if |tupleset1.rows| < |tupleset2.rows| {
        if |smallKeyIdxList| != 0 && isReverse {
          SwapKeyLists();
        }
        isReverse := false;
      } else {
        smallSet, largeSet := tupleset2, tupleset1;
        if |smallKeyIdxList| != 0 && !isReverse {
          SwapKeyLists();
        }
        isReverse := true;
      }
      if |smallKeyIdxList| == 0 {
        LeftLookupIsPrefix(states, leftSchema, rightSchema);
        RightLookupIsPrefix(states, leftSchema, rightSchema);
        ok := SearchKeys(smallSet.schema, largeSet.schema);
        if !ok {
          return false, [];
        }
      }
      PrefixInside(states, |smallKeyIdxList|, tupleset1, tupleset2);
      rows := Probe(smallSet.rows, smallKeyIdxList, largeSet.rows, largeKeyIdxList, isReverse);
      ok := true;
      if KeysDecide(str, eq, tupleset1.rows, tupleset2.rows, |smallKeyIdxList|) {
        HashRowsJoin(states, |smallKeyIdxList|, tupleset1, tupleset2, str, eq);
      }
    }

    /**
     * One call of the operator. The first call resolves the conditions and gives up if one does not
     * resolve; later calls do not look at them again, resolved or not.
     */
    method Process(tupleset1: TupleSet<V>, tupleset2: TupleSet<V>) returns (ok: bool, rows: seq<Row<V>>)
      requires InputsOk(tupleset1, tupleset2) && KeysTracked()
      requires !started || states == [] ==> conditions == []
      modifies this`started, this`conditions, this`smallKeyIdxList, this`largeKeyIdxList, this`isReverse
      ensures started && KeysTracked() && (states == [] ==> conditions == [])
      ensures !old(started) && !Resolvable() ==> !ok && smallKeyIdxList == old(smallKeyIdxList)
      ensures (old(started) || Resolvable()) && states != [] ==>
                && isReverse == (|tupleset1.rows| >= |tupleset2.rows|)
                && (ok, |smallKeyIdxList|) == LookupStep(states, leftSchema, rightSchema, |old(smallKeyIdxList)|, isReverse)
                && (ok ==> rows == HashRows(tupleset1.rows, tupleset2.rows, PrefixMatch(|smallKeyIdxList|)))
      ensures states == [] ==> ok && rows == Nested(tupleset1.rows, tupleset2.rows, (_, _) => true)
      ensures ok && states != [] && KeysDecide(str, eq, tupleset1.rows, tupleset2.rows, |smallKeyIdxList|) ==>
                JoinsOn(rows, eq, states[..|smallKeyIdxList|], tupleset1, tupleset2, isReverse)
      ensures states == [] ==> JoinsOn(rows, eq, [], tupleset1, tupleset2, true)
    {
      if !started {
        started := true;
        ok := ResolveConditions();
        if !ok {
          return false, [];
        }
      }
      if states != [] {
        ok, rows := HashJoin(tupleset1, tupleset2);
      } else {
        rows := NestedLoopJoin(tupleset1, tupleset2);
        NoConditions(eq, tupleset1.rows, tupleset2.rows);
        ok := true;
      }
    }

    /** The inner loop of the nested-loop join. */
    method JoinRow(l: Row<V>, right: seq<Row<V>>) returns (rows: seq<Row<V>>)
      requires KeysInside(l, LeftColumns(conditions))
      requires forall row <- right :: KeysInside(row, RightColumns(conditions))
      ensures rows == RowOf(l, right, ConditionMatch(eq, conditions))
    {
      rows := [];
      assert right[..0] == [];
      for j := 0 to |right|
        invariant rows == RowOf(l, right[..j], ConditionMatch(eq, conditions))
      {
        assert right[..j + 1][..j] == right[..j];
        assert KeysInside(right[j], RightColumns(conditions));
        var matched := RowMatches(l, right[j]);
        if matched == |conditions| {
          var joined := Join(l, right[j]);
          rows := rows + [joined];
        }
      }
      assert right[..|right|] == right;
    }

    /** The nested-loop join on the resolved conditions. */
    method NestedLoopJoin(tupleset1: TupleSet<V>, tupleset2: TupleSet<V>) returns (rows: seq<Row<V>>)
      requires InputsOk(tupleset1, tupleset2) && ConditionsResolved()
      ensures rows == Nested(tupleset1.rows, tupleset2.rows, ConditionMatch(eq, conditions))
      ensures JoinsOn(rows, eq, states, tupleset1, tupleset2, true)
    {
      ColumnsInside(states, conditions, joinedSchema, tupleset1, tupleset2);
      var left := tupleset1.rows;
      rows := [];
      assert left[..0] == [];
      for i := 0 to |left|
        invariant rows == Nested(left[..i], tupleset2.rows, ConditionMatch(eq, conditions))
      {
        assert KeysInside(left[i], LeftColumns(conditions));
        NestedTake(left, tupleset2.rows, ConditionMatch(eq, conditions), i);
        var joined := JoinRow(left[i], tupleset2.rows);
        rows := rows + joined;
      }
      assert left[..|left|] == left;
      ConditionsJoin(states, conditions, joinedSchema, tupleset1, tupleset2, eq);
    }

    /** How many conditions hold before the first one that does not. */
    method RowMatches(l: Row<V>, r: Row<V>) returns (matched: nat)
      requires KeysInside(l, LeftColumns(conditions)) && KeysInside(r, RightColumns(conditions))
      ensures matched == |conditions| <==> ConditionMatch(eq, conditions)(l, r)
    {
      matched := 0;
      ghost var lc, rc, rev := LeftColumns(conditions), RightColumns(conditions), Reversals(conditions);
      var idx := 0;
      while idx < |conditions|
        invariant matched <= idx <= |conditions|
        invariant matched < idx ==> idx == matched + 1 && !CellsEqual(eq, l[lc[matched]], r[rc[matched]], rev[matched])
        invariant forall k :: 0 <= k < matched ==> CellsEqual(eq, l[lc[k]], r[rc[k]], rev[k])
      {
        if matched != idx {
          break;
        }
        var cond := conditions[idx];
        assert lc[idx] == cond.LeftColumn() && rc[idx] == cond.RightColumn() && rev[idx] == cond.isReverse;
        var val, val2;
        if cond.isReverse {
          val, val2 := r[cond.fieldIdx], l[cond.fieldIdx2];
        } else {
          val, val2 := l[cond.fieldIdx], r[cond.fieldIdx2];
        }
        if eq(val, val2) {
          matched := matched + 1;
        }
        idx := idx + 1;
      }
    }
  }

  // ---------------------------------------------------------------- lemmas for the operator

  lemma BatchDrawn<V>(s: P.State<V>, ts: seq<TupleSet<V>>, rest: seq<TupleSet<V>>)
    requires ts + rest == s.buffer && |ts| <= P.EXPECT_DATA_SIZE && (rest == [] || |ts| == P.EXPECT_DATA_SIZE)
    ensures P.Drew(s) == s.(buffer := rest, drawn := s.drawn + [ts])
  {
    assert ts == s.buffer[..|ts|] && rest == s.buffer[|ts|..];
  }

  lemma {:induction false} FailureStops(states: seq<Statement>, n: nat, small: Schema, large: Schema)
    requires n <= |states| && !FindKeys(states[..n], small, large).ok
    ensures FindKeys(states, small, large) == FindKeys(states[..n], small, large)
    decreases |states|
  {
    if n == |states| {
      assert states[..n] == states;
    } else {
      assert states[..|states| - 1][..n] == states[..n];
      FailureStops(states[..|states| - 1], n, small, large);
    }
  }

  ghost predicate AllResolve(states: seq<Statement>, conditions: seq<Condition>, joined: Schema, left: Schema, right: Schema) {
    && |conditions| == |states|
    && forall i :: 0 <= i < |states| ==> Resolve(states[i], joined, left, right) == Some(conditions[i])
  }

  ghost predicate PrefixUsable(states: seq<Statement>, n: nat, left: Schema, right: Schema)
    requires n <= |states|
  {
    forall i :: 0 <= i < n ==> Usable(states[i], left) || Usable(states[i], right)
  }

  /** The key columns of the statements a lookup has passed. */
  ghost predicate IsPrefix(k: Keys, states: seq<Statement>, left: Schema, right: Schema) {
    var n := |k.small|;
    && n <= |states| && PrefixUsable(states, n, left, right)
    && k.small == LeftKeys(states, left, right)[..n] && k.large == RightKeys(states, left, right)[..n]
  }

  lemma LeftLookupIsPrefix(states: seq<Statement>, left: Schema, right: Schema)
    requires forall i :: 0 <= i < |states| ==> NamesKnown(states[i], left, right)
    ensures IsPrefix(FindKeys(states, left, right), states, left, right)
  {
    LookupStopsAtUnusable(states, left, right);
    var k := FindKeys(states, left, right);
    forall i | 0 <= i < |k.small|
      ensures Usable(states[i], left) && KeyColumns(states[i], left, right) == (k.small[i], k.large[i])
    {
      LookupsAgree(states[i], left, right);
    }
  }

  lemma RightLookupIsPrefix(states: seq<Statement>, left: Schema, right: Schema)
    requires forall i :: 0 <= i < |states| ==> NamesKnown(states[i], left, right)
    ensures var k := FindKeys(states, right, left); IsPrefix(Keys(k.ok, k.large, k.small), states, left, right)
  {
    LookupStopsAtUnusable(states, right, left);
    var k := FindKeys(states, right, left);
    forall i | 0 <= i < |k.small|
      ensures Usable(states[i], right) && KeyColumns(states[i], left, right) == (k.large[i], k.small[i])
    {
      LookupsAgree(states[i], left, right);
    }
  }

  lemma PrefixInside<V>(states: seq<Statement>, n: nat, left: TupleSet<V>, right: TupleSet<V>)
    requires left.Ok() && right.Ok() && n <= |states| && PrefixUsable(states, n, left.schema, right.schema)
    requires forall i :: 0 <= i < |states| ==> NamesKnown(states[i], left.schema, right.schema)
    ensures forall row <- left.rows :: KeysInside(row, LeftKeys(states, left.schema, right.schema)[..n])
    ensures forall row <- right.rows :: KeysInside(row, RightKeys(states, left.schema, right.schema)[..n])
  {
    forall i | 0 <= i < n
      ensures 0 <= LeftKeys(states, left.schema, right.schema)[i] < left.schema.attributeSize
      ensures 0 <= RightKeys(states, left.schema, right.schema)[i] < right.schema.attributeSize
    {
      LookupsAgree(states[i], left.schema, right.schema);
    }
  }

  /** The keys of the first n statements are the columns of the first n conditions. */
  lemma PrefixOfConditions(states: seq<Statement>, conditions: seq<Condition>, joined: Schema, left: Schema, right: Schema, n: nat)
    requires AllResolve(states, conditions, joined, left, right)
    requires n <= |states| && PrefixUsable(states, n, left, right)
    ensures LeftKeys(states, left, right)[..n] == LeftColumns(conditions[..n])
    ensures RightKeys(states, left, right)[..n] == RightColumns(conditions[..n])
  {
    forall i | 0 <= i < n
      ensures KeyColumns(states[i], left, right) == (conditions[i].LeftColumn(), conditions[i].RightColumn())
    {
      KeysAreConditionColumns(states[i], joined, left, right);
    }
  }

  /**
   * A call with the keys of n statements gives the bag of the nested-loop join on the first n conditions
   * if and only if key texts and those conditions agree; with n short of all it is not the whole join.
   */
  lemma PrefixJoin<V>(states: seq<Statement>, conditions: seq<Condition>, joined: Schema, left: TupleSet<V>, right: TupleSet<V>,
                      n: nat, str: V -> string, eq: (V, V) -> bool)
    requires left.Ok() && right.Ok() && AllResolve(states, conditions, joined, left.schema, right.schema)
    requires n <= |states| && PrefixUsable(states, n, left.schema, right.schema)
    ensures var key := KeyMatch(str, LeftKeys(states, left.schema, right.schema)[..n],
                                RightKeys(states, left.schema, right.schema)[..n]);
            multiset(HashRows(left.rows, right.rows, key))
            == multiset(Nested(left.rows, right.rows, ConditionMatch(eq, conditions[..n])))
            <==> Agree(left.rows, right.rows, key, ConditionMatch(eq, conditions[..n]))
  {
    PrefixOfConditions(states, conditions, joined, left.schema, right.schema, n);
    HashJoinIsNestedLoopJoin(str, eq, left.rows, right.rows, LeftColumns(conditions[..n]), RightColumns(conditions[..n]),
                             Reversals(conditions[..n]), left.schema.attributeSize);
  }

  lemma ResolvesIff(state: Statement, joined: Schema, left: Schema, right: Schema)
    ensures Resolve(state, joined, left, right).Some? <==> Equates(state, joined, left, right)
  {
  }

  lemma AllResolveIff(states: seq<Statement>, conditions: seq<Condition>, joined: Schema, left: Schema, right: Schema)
    requires AllResolve(states, conditions, joined, left, right)
    ensures forall i :: 0 <= i < |states| ==> Equates(states[i], joined, left, right)
  {
    forall i | 0 <= i < |states|
      ensures Equates(states[i], joined, left, right)
    {
      ResolvesIff(states[i], joined, left, right);
    }
  }

  lemma ConditionCompares<V>(state: Statement, c: Condition, joined: Schema, left: Schema, right: Schema,
                             eq: (V, V) -> bool, l: Row<V>, r: Row<V>)
    requires left.Ok() && right.Ok() && |l| == left.attributeSize && |r| == right.attributeSize
    requires Resolve(state, joined, left, right) == Some(c)
    ensures 0 <= c.LeftColumn() < |l| && 0 <= c.RightColumn() < |r|
    ensures CellsEqual(eq, l[c.LeftColumn()], r[c.RightColumn()], c.isReverse) == Compares(eq, state, left, right, l, r)
  {
  }

  /** The nested loops on the resolved conditions are the join on the statements. */
  lemma ConditionsJoin<V(!new)>(states: seq<Statement>, conditions: seq<Condition>, joined: Schema,
                                left: TupleSet<V>, right: TupleSet<V>, eq: (V, V) -> bool)
    requires left.Ok() && right.Ok() && AllResolve(states, conditions, joined, left.schema, right.schema)
    ensures JoinsOn(Nested(left.rows, right.rows, ConditionMatch(eq, conditions)), eq, states, left, right, true)
  {
    var m, m' := ConditionMatch(eq, conditions), StatementMatch(eq, states, left.schema, right.schema);
    forall l, r | l in left.rows && r in right.rows
      ensures m(l, r) == m'(l, r)
    {
      ConditionsCompare(states, conditions, joined, left.schema, right.schema, eq, l, r);
    }
    var pairs := NestedIsListed(left.rows, right.rows, m);
    ListedIsJoin(Nested(left.rows, right.rows, m), eq, states, m, left, right, true, pairs);
  }

  lemma ConditionsCompare<V>(states: seq<Statement>, conditions: seq<Condition>, joined: Schema, left: Schema, right: Schema,
                             eq: (V, V) -> bool, l: Row<V>, r: Row<V>)
    requires left.Ok() && right.Ok() && |l| == left.attributeSize && |r| == right.attributeSize
    requires AllResolve(states, conditions, joined, left, right)
    ensures ConditionMatch(eq, conditions)(l, r) == ComparesAll(eq, states, left, right, l, r)
  {
    var lc, rc, rev := LeftColumns(conditions), RightColumns(conditions), Reversals(conditions);
    forall i | 0 <= i < |states|
      ensures 0 <= lc[i] < |l| && 0 <= rc[i] < |r|
      ensures CellsEqual(eq, l[lc[i]], r[rc[i]], rev[i]) == Compares(eq, states[i], left, right, l, r)
    {
      ConditionCompares(states[i], conditions[i], joined, left, right, eq, l, r);
    }
  }

  /** Whether the statement names its right column first. */
  predicate RightFirst(state: Statement, left: Schema, right: Schema) {
    |state| == 2 && !(state[0] in left.index && state[1] in right.index)
  }

  lemma KeyCompares<V>(state: Statement, left: Schema, right: Schema, eq: (V, V) -> bool, l: Row<V>, r: Row<V>)
    requires left.Ok() && right.Ok() && |l| == left.attributeSize && |r| == right.attributeSize
    requires NamesKnown(state, left, right) && (Usable(state, left) || Usable(state, right))
    ensures var (lk, rk) := KeyColumns(state, left, right);
            && 0 <= lk < |l| && 0 <= rk < |r|
            && CellsEqual(eq, l[lk], r[rk], RightFirst(state, left, right)) == Compares(eq, state, left, right, l, r)
  {
  }

  /** Where texts decide, equal key texts are equal cells under all the names. */
  lemma KeysCompare<V>(states: seq<Statement>, n: nat, left: TupleSet<V>, right: TupleSet<V>,
                       str: V -> string, eq: (V, V) -> bool, l: Row<V>, r: Row<V>)
    requires left.Ok() && right.Ok() && n <= |states| && PrefixUsable(states, n, left.schema, right.schema)
    requires forall i :: 0 <= i < |states| ==> NamesKnown(states[i], left.schema, right.schema)
    requires KeysDecide(str, eq, left.rows, right.rows, n) && l in left.rows && r in right.rows
    ensures KeyMatch(str, LeftKeys(states, left.schema, right.schema)[..n], RightKeys(states, left.schema, right.schema)[..n])(l, r)
         == ComparesAll(eq, states[..n], left.schema, right.schema, l, r)
  {
    var lk, rk := LeftKeys(states, left.schema, right.schema)[..n], RightKeys(states, left.schema, right.schema)[..n];
    var rev := FirstOnes(states, n, left.schema, right.schema);
    ColumnsCompare(states, n, left.schema, right.schema, eq, l, r);
    KeysMatchCells(str, eq, left.rows, right.rows, n, l, r, lk, rk, rev);
  }

  function FirstOnes(states: seq<Statement>, n: nat, left: Schema, right: Schema): (rev: seq<bool>)
    requires n <= |states|
    ensures |rev| == n
  {
    seq(n, i requires 0 <= i < n => RightFirst(states[i], left, right))
  }

  lemma ColumnsCompare<V>(states: seq<Statement>, n: nat, left: Schema, right: Schema, eq: (V, V) -> bool, l: Row<V>, r: Row<V>)
    requires left.Ok() && right.Ok() && |l| == left.attributeSize && |r| == right.attributeSize
    requires n <= |states| && PrefixUsable(states, n, left, right)
    requires forall i :: 0 <= i < |states| ==> NamesKnown(states[i], left, right)
    ensures var lk, rk := LeftKeys(states, left, right)[..n], RightKeys(states, left, right)[..n];
            && KeysInside(l, lk) && KeysInside(r, rk)
            && ColumnMatch(eq, lk, rk, FirstOnes(states, n, left, right))(l, r) == ComparesAll(eq, states[..n], left, right, l, r)
  {
    var lk, rk := LeftKeys(states, left, right)[..n], RightKeys(states, left, right)[..n];
    var rev := FirstOnes(states, n, left, right);
    forall i | 0 <= i < n
      ensures 0 <= lk[i] < |l| && 0 <= rk[i] < |r|
      ensures CellsEqual(eq, l[lk[i]], r[rk[i]], rev[i]) == Compares(eq, states[..n][i], left, right, l, r)
    {
      KeyCompares(states[i], left, right, eq, l, r);
    }
  }

  lemma KeysMatchCells<V>(str: V -> string, eq: (V, V) -> bool, left: seq<Row<V>>, right: seq<Row<V>>, n: nat,
                          l: Row<V>, r: Row<V>, lk: seq<int>, rk: seq<int>, rev: seq<bool>)
    requires KeysDecide(str, eq, left, right, n) && l in left && r in right
    requires |lk| == |rk| == |rev| == n && KeysInside(l, lk) && KeysInside(r, rk)
    ensures KeyMatch(str, lk, rk)(l, r) == ColumnMatch(eq, lk, rk, rev)(l, r)
  {
    if n == 1 {
      OneKeyAgrees(str, eq, l, r, lk, rk, rev);
    } else {
      assert n > 1 ==> PlainCells(str, l) && PlainCells(str, r);
      PlainRowsAgree(str, eq, l, r, lk, rk, rev);
    }
  }

  /** Where texts decide, the hash join on the keys of the first n statements is the join on these. */
  lemma HashRowsJoin<V(!new)>(states: seq<Statement>, n: nat, left: TupleSet<V>, right: TupleSet<V>,
                              str: V -> string, eq: (V, V) -> bool)
    requires left.Ok() && right.Ok() && n <= |states| && PrefixUsable(states, n, left.schema, right.schema)
    requires forall i :: 0 <= i < |states| ==> NamesKnown(states[i], left.schema, right.schema)
    requires KeysDecide(str, eq, left.rows, right.rows, n)
    ensures var key := KeyMatch(str, LeftKeys(states, left.schema, right.schema)[..n],
                                RightKeys(states, left.schema, right.schema)[..n]);
            JoinsOn(HashRows(left.rows, right.rows, key), eq, states[..n], left, right, |left.rows| >= |right.rows|)
  {
    var key := KeyMatch(str, LeftKeys(states, left.schema, right.schema)[..n], RightKeys(states, left.schema, right.schema)[..n]);
    forall l, r | l in left.rows && r in right.rows
      ensures key(l, r) == StatementMatch(eq, states[..n], left.schema, right.schema)(l, r)
    {
      KeysCompare(states, n, left, right, str, eq, l, r);
    }
    var pairs;
    if |left.rows| < |right.rows| {
      pairs := NestedByRightIsListed(left.rows, right.rows, key);
    } else {
      pairs := NestedIsListed(left.rows, right.rows, key);
    }
    ListedIsJoin(HashRows(left.rows, right.rows, key), eq, states[..n], key, left, right, |left.rows| >= |right.rows|, pairs);
  }

  lemma NoConditions<V>(eq: (V, V) -> bool, left: seq<Row<V>>, right: seq<Row<V>>)
    ensures Nested(left, right, ConditionMatch(eq, [])) == Nested(left, right, (_, _) => true)
  {
    AgreeNested(left, right, ConditionMatch(eq, []), (_, _) => true);
  }

  lemma ColumnsInside<V>(states: seq<Statement>, conditions: seq<Condition>, joined: Schema, left: TupleSet<V>, right: TupleSet<V>)
    requires left.Ok() && right.Ok() && AllResolve(states, conditions, joined, left.schema, right.schema)
    ensures forall row <- left.rows :: KeysInside(row, LeftColumns(conditions))
    ensures forall row <- right.rows :: KeysInside(row, RightColumns(conditions))
  {
    forall i | 0 <= i < |conditions|
      ensures 0 <= LeftColumns(conditions)[i] < left.schema.attributeSize
      ensures 0 <= RightColumns(conditions)[i] < right.schema.attributeSize
    {
      assert Resolve(states[i], joined, left.schema, right.schema) == Some(conditions[i]);
    }
  }
}
