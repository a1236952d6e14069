/** What a join computes, independently of the algorithm, and the laws that relate the two algorithms. */
module JoinSpec {
  import opened TupleSets

  type Match<!V> = (Row<V>, Row<V>) -> bool

  // ---------------------------------------------------------------- nested loops

  function RowOf<V>(l: Row<V>, right: seq<Row<V>>, m: Match<V>): seq<Row<V>> {
    if right == [] then []
    else
      var n := |right| - 1;
      RowOf(l, right[..n], m) + if m(l, right[n]) then [l + right[n]] else []
  }

  /** Left outer loop, right inner loop. */
  function Nested<V>(left: seq<Row<V>>, right: seq<Row<V>>, m: Match<V>): seq<Row<V>> {
    if left == [] then []
    else
      var n := |left| - 1;
      Nested(left[..n], right, m) + RowOf(left[n], right, m)
  }

  function ColOf<V>(left: seq<Row<V>>, r: Row<V>, m: Match<V>): seq<Row<V>> {
    if left == [] then []
    else
      var n := |left| - 1;
      ColOf(left[..n], r, m) + if m(left[n], r) then [left[n] + r] else []
  }

  /** Right outer loop, left inner loop. */
  function NestedByRight<V>(left: seq<Row<V>>, right: seq<Row<V>>, m: Match<V>): seq<Row<V>> {
    if right == [] then []
    else
      var n := |right| - 1;
      NestedByRight(left, right[..n], m) + ColOf(left, right[n], m)
  }

  lemma {:induction false} AddLeftRow<V>(left: seq<Row<V>>, l: Row<V>, right: seq<Row<V>>, m: Match<V>)
    ensures multiset(NestedByRight(left + [l], right, m))
         == multiset(NestedByRight(left, right, m)) + multiset(RowOf(l, right, m))
    decreases |right|
  {
    if right != [] {
      var n := |right| - 1;
      AddLeftRow(left, l, right[..n], m);
      assert (left + [l])[..|left|] == left;
    }
  }

  lemma {:induction false} NoLeftRows<V>(right: seq<Row<V>>, m: Match<V>)
    ensures NestedByRight([], right, m) == []
  {
    if right != [] {
      NoLeftRows(right[..|right| - 1], m);
    }
  }

  /** The two loop orders give the same bag of rows. */
  lemma {:induction false} LoopOrder<V>(left: seq<Row<V>>, right: seq<Row<V>>, m: Match<V>)
    ensures multiset(NestedByRight(left, right, m)) == multiset(Nested(left, right, m))
    decreases |left|
  {
    if left == [] {
      NoLeftRows(right, m);
    } else {
      var n := |left| - 1;
      LoopOrder(left[..n], right, m);
      AddLeftRow(left[..n], left[n], right, m);
      assert left == left[..n] + [left[n]];
    }
  }

  lemma NestedTake<V>(left: seq<Row<V>>, right: seq<Row<V>>, m: Match<V>, i: nat)
    requires i < |left|
    ensures Nested(left[..i + 1], right, m) == Nested(left[..i], right, m) + RowOf(left[i], right, m)
  {
    assert left[..i + 1][..i] == left[..i];
  }

  lemma NestedByRightTake<V>(left: seq<Row<V>>, right: seq<Row<V>>, m: Match<V>, i: nat)
    requires i < |right|
    ensures NestedByRight(left, right[..i + 1], m) == NestedByRight(left, right[..i], m) + ColOf(left, right[i], m)
  {
    assert right[..i + 1][..i] == right[..i];
  }

  // ---------------------------------------------------------------- membership

  lemma {:induction false} InRowOf<V>(l: Row<V>, right: seq<Row<V>>, m: Match<V>, x: Row<V>, r: Row<V>)
    requires x == l + r
    ensures x in RowOf(l, right, m) <==> r in right && m(l, r)
    decreases |right|
  {
    if right != [] {
      var n := |right| - 1;
      InRowOf(l, right[..n], m, x, r);
      assert right == right[..n] + [right[n]];
      assert l + right[n] == x ==> right[n] == (l + right[n])[|l|..] == x[|l|..] == r;
    }
  }

  lemma {:induction false} NotInRowOf<V>(l: Row<V>, l': Row<V>, right: seq<Row<V>>, m: Match<V>, x: Row<V>)
    requires |l| == |l'| <= |x| && l' != l && x[..|l|] == l
    ensures x !in RowOf(l', right, m)
    decreases |right|
  {
    if right != [] {
      var n := |right| - 1;
      NotInRowOf(l, l', right[..n], m, x);
      assert (l' + right[n])[..|l|] == l';
    }
  }

  /** A joined row is in the result exactly when its two halves are in the inputs and match. */
  lemma {:induction false} InNested<V>(left: seq<Row<V>>, right: seq<Row<V>>, m: Match<V>, l: Row<V>, r: Row<V>)
    requires forall row <- left :: |row| == |l|
    ensures l + r in Nested(left, right, m) <==> l in left && r in right && m(l, r)
    decreases |left|
  {
    if left != [] {
      var n := |left| - 1;
      InNested(left[..n], right, m, l, r);
      assert left == left[..n] + [left[n]];
      if left[n] == l {
        InRowOf(l, right, m, l + r, r);
      } else {
        assert (l + r)[..|l|] == l;
        NotInRowOf(l, left[n], right, m, l + r);
      }
    }
  }

  ghost predicate Agree<V>(left: seq<Row<V>>, right: seq<Row<V>>, m: Match<V>, m': Match<V>) {
    forall l, r :: l in left && r in right ==> m(l, r) == m'(l, r)
  }

  lemma {:induction false} AgreeRow<V>(l: Row<V>, right: seq<Row<V>>, m: Match<V>, m': Match<V>)
    requires forall r <- right :: m(l, r) == m'(l, r)
    ensures RowOf(l, right, m) == RowOf(l, right, m')
    decreases |right|
  {
    if right != [] {
      AgreeRow(l, right[..|right| - 1], m, m');
    }
  }

  lemma {:induction false} AgreeNested<V>(left: seq<Row<V>>, right: seq<Row<V>>, m: Match<V>, m': Match<V>)
    requires Agree(left, right, m, m')
    ensures Nested(left, right, m) == Nested(left, right, m')
    decreases |left|
  {
    if left != [] {
      var n := |left| - 1;
      AgreeNested(left[..n], right, m, m');
      AgreeRow(left[n], right, m, m');
    }
  }

  /** Two matching rules give the same bag exactly when they agree on every pair of input rows. */
  lemma SameBagIffAgree<V>(left: seq<Row<V>>, right: seq<Row<V>>, m: Match<V>, m': Match<V>, width: nat)
    requires forall row <- left :: |row| == width
    ensures multiset(Nested(left, right, m)) == multiset(Nested(left, right, m')) <==> Agree(left, right, m, m')
  {
    if Agree(left, right, m, m') {
      AgreeNested(left, right, m, m');
    } else {
      var l, r :| l in left && r in right && m(l, r) != m'(l, r);
      InNested(left, right, m, l, r);
      InNested(left, right, m', l, r);
      var a, b := Nested(left, right, m), Nested(left, right, m');
      assert (l + r in multiset(a)) != (l + r in multiset(b));
    }
  }

  // ---------------------------------------------------------------- results by index

  predicate IsMatch<V>(left: seq<Row<V>>, right: seq<Row<V>>, m: Match<V>, p: (nat, nat)) {
    p.0 < |left| && p.1 < |right| && m(left[p.0], right[p.1])
  }

  /** The order in which two loops meet index pairs. */
  predicate Before(p: (nat, nat), q: (nat, nat), leftOutermost: bool) {
    if leftOutermost then p.0 < q.0 || (p.0 == q.0 && p.1 < q.1) else p.1 < q.1 || (p.1 == q.1 && p.0 < q.0)
  }

  ghost predicate InLoopOrder(pairs: seq<(nat, nat)>, leftOutermost: bool) {
    forall j, k :: 0 <= j < k < |pairs| ==> Before(pairs[j], pairs[k], leftOutermost)
  }

  ghost predicate AreRowsOf<V>(rows: seq<Row<V>>, left: seq<Row<V>>, right: seq<Row<V>>, m: Match<V>, pairs: seq<(nat, nat)>) {
    && |pairs| == |rows|
    && forall k :: 0 <= k < |pairs| ==>
         IsMatch(left, right, m, pairs[k]) && rows[k] == left[pairs[k].0] + right[pairs[k].1]
  }

  ghost predicate HasAllMatches<V>(left: seq<Row<V>>, right: seq<Row<V>>, m: Match<V>, pairs: seq<(nat, nat)>) {
    forall p :: IsMatch(left, right, m, p) ==> p in pairs
  }

  /** `rows` are the joined rows of these index pairs: the matching ones, each once, in loop order. */
  ghost predicate Lists<V>(rows: seq<Row<V>>, left: seq<Row<V>>, right: seq<Row<V>>, m: Match<V>,
                           leftOutermost: bool, pairs: seq<(nat, nat)>) {
    AreRowsOf(rows, left, right, m, pairs) && InLoopOrder(pairs, leftOutermost) && HasAllMatches(left, right, m, pairs)
  }

  /** The pairs of a single left row, and of a single right row, at its place n. */
  function AtLeft(pairs: seq<(nat, nat)>, n: nat): seq<(nat, nat)> {
    seq(|pairs|, k requires 0 <= k < |pairs| => (n, pairs[k].1))
  }

  function AtRight(pairs: seq<(nat, nat)>, n: nat): seq<(nat, nat)> {
    seq(|pairs|, k requires 0 <= k < |pairs| => (pairs[k].0, n))
  }

  lemma LeftRowAdded<V>(left: seq<Row<V>>, right: seq<Row<V>>, m: Match<V>, front: seq<(nat, nat)>, row: seq<(nat, nat)>)
    requires left != [] && HasAllMatches(left[..|left| - 1], right, m, front)
    requires HasAllMatches([left[|left| - 1]], right, m, row)
    ensures HasAllMatches(left, right, m, front + AtLeft(row, |left| - 1))
  {
    var n := |left| - 1;
    forall p: (nat, nat) | IsMatch(left, right, m, p)
      ensures p in front + AtLeft(row, n)
    {
      if p.0 < n {
        assert IsMatch(left[..n], right, m, p);
      } else {
        assert IsMatch([left[n]], right, m, (0, p.1));
        var k :| 0 <= k < |row| && row[k] == (0, p.1);
        assert AtLeft(row, n)[k] == p;
      }
    }
  }

  lemma RightRowAdded<V>(left: seq<Row<V>>, right: seq<Row<V>>, m: Match<V>, front: seq<(nat, nat)>, col: seq<(nat, nat)>)
    requires right != [] && HasAllMatches(left, right[..|right| - 1], m, front)
    requires HasAllMatches(left, [right[|right| - 1]], m, col)
    ensures HasAllMatches(left, right, m, front + AtRight(col, |right| - 1))
  {
    var n := |right| - 1;
    forall p: (nat, nat) | IsMatch(left, right, m, p)
      ensures p in front + AtRight(col, n)
    {
      if p.1 < n {
        assert IsMatch(left, right[..n], m, p);
      } else {
        assert IsMatch(left, [right[n]], m, (p.0, 0));
        var k :| 0 <= k < |col| && col[k] == (p.0, 0);
        assert AtRight(col, n)[k] == p;
      }
    }
  }

  lemma LeftRowsOf<V>(a: seq<Row<V>>, b: seq<Row<V>>, left: seq<Row<V>>, right: seq<Row<V>>, m: Match<V>,
                      front: seq<(nat, nat)>, row: seq<(nat, nat)>)
    requires left != [] && AreRowsOf(a, left[..|left| - 1], right, m, front) && AreRowsOf(b, [left[|left| - 1]], right, m, row)
    ensures AreRowsOf(a + b, left, right, m, front + AtLeft(row, |left| - 1))
  {
    var n := |left| - 1;
    forall k | 0 <= k < |row|
      ensures IsMatch(left, right, m, AtLeft(row, n)[k]) && b[k] == left[n] + right[row[k].1]
    {
      assert IsMatch([left[n]], right, m, row[k]);
    }
    forall k | 0 <= k < |front|
      ensures IsMatch(left, right, m, front[k])
    {
      assert IsMatch(left[..n], right, m, front[k]);
    }
  }

  lemma RightRowsOf<V>(a: seq<Row<V>>, b: seq<Row<V>>, left: seq<Row<V>>, right: seq<Row<V>>, m: Match<V>,
                       front: seq<(nat, nat)>, col: seq<(nat, nat)>)
    requires right != [] && AreRowsOf(a, left, right[..|right| - 1], m, front) && AreRowsOf(b, left, [right[|right| - 1]], m, col)
    ensures AreRowsOf(a + b, left, right, m, front + AtRight(col, |right| - 1))
  {
    var n := |right| - 1;
    forall k | 0 <= k < |col|
      ensures IsMatch(left, right, m, AtRight(col, n)[k]) && b[k] == left[col[k].0] + right[n]
    {
      assert IsMatch(left, [right[n]], m, col[k]);
    }
    forall k | 0 <= k < |front|
      ensures IsMatch(left, right, m, front[k])
    {
      assert IsMatch(left, right[..n], m, front[k]);
    }
  }

  /** Pairs at a further place go behind those before it. */
  lemma LaterPairs(front: seq<(nat, nat)>, more: seq<(nat, nat)>, leftOutermost: bool)
    requires InLoopOrder(front, leftOutermost) && InLoopOrder(more, leftOutermost)
    requires forall j, k :: 0 <= j < |front| && 0 <= k < |more| ==> Before(front[j], more[k], leftOutermost)
    ensures InLoopOrder(front + more, leftOutermost)
  {
  }

  /** One pair more with the last row of the inner input, or none. */
  lemma {:induction false} RowIsListed<V>(l: Row<V>, right: seq<Row<V>>, m: Match<V>) returns (pairs: seq<(nat, nat)>)
    ensures Lists(RowOf(l, right, m), [l], right, m, true, pairs)
    decreases |right|
  {
    pairs := [];
    if right != [] {
      var n := |right| - 1;
      var front := RowIsListed(l, right[..n], m);
      var last: seq<(nat, nat)> := if m(l, right[n]) then [(0, 0)] else [];
      pairs := front + AtRight(last, n);
      RightRowAdded([l], right, m, front, last);
      RightRowsOf(RowOf(l, right[..n], m), if m(l, right[n]) then [l + right[n]] else [], [l], right, m, front, last);
      forall j | 0 <= j < |front|
        ensures front[j].0 == 0 && front[j].1 < n
      {
        assert IsMatch([l], right[..n], m, front[j]);
      }
      LaterPairs(front, AtRight(last, n), true);
    }
  }

  /** The nested loops list the matching pairs with the left rows outermost. */
  lemma {:induction false} NestedIsListed<V>(left: seq<Row<V>>, right: seq<Row<V>>, m: Match<V>)
    returns (pairs: seq<(nat, nat)>)
    ensures Lists(Nested(left, right, m), left, right, m, true, pairs)
    decreases |left|
  {
    pairs := [];
    if left != [] {
      var n := |left| - 1;
      var front := NestedIsListed(left[..n], right, m);
      var row := RowIsListed(left[n], right, m);
      pairs := front + AtLeft(row, n);
      LeftRowAdded(left, right, m, front, row);
      LeftRowsOf(Nested(left[..n], right, m), RowOf(left[n], right, m), left, right, m, front, row);
      InOrderAtLeft(left, right, m, front, row);
    }
  }

  lemma InOrderAtLeft<V>(left: seq<Row<V>>, right: seq<Row<V>>, m: Match<V>, front: seq<(nat, nat)>, row: seq<(nat, nat)>)
    requires left != [] && InLoopOrder(front, true) && InLoopOrder(row, true)
    requires forall j :: 0 <= j < |front| ==> IsMatch(left[..|left| - 1], right, m, front[j])
    requires forall k :: 0 <= k < |row| ==> IsMatch([left[|left| - 1]], right, m, row[k])
    ensures InLoopOrder(front + AtLeft(row, |left| - 1), true)
  {
    LaterPairs(front, AtLeft(row, |left| - 1), true);
  }

  lemma {:induction false} ColIsListed<V>(left: seq<Row<V>>, r: Row<V>, m: Match<V>) returns (pairs: seq<(nat, nat)>)
    ensures Lists(ColOf(left, r, m), left, [r], m, false, pairs)
    decreases |left|
  {
    pairs := [];
    if left != [] {
      var n := |left| - 1;
      var front := ColIsListed(left[..n], r, m);
      var last: seq<(nat, nat)> := if m(left[n], r) then [(0, 0)] else [];
      pairs := front + AtLeft(last, n);
      LeftRowAdded(left, [r], m, front, last);
      LeftRowsOf(ColOf(left[..n], r, m), if m(left[n], r) then [left[n] + r] else [], left, [r], m, front, last);
      forall j | 0 <= j < |front|
        ensures front[j].0 < n && front[j].1 == 0
      {
        assert IsMatch(left[..n], [r], m, front[j]);
      }
      LaterPairs(front, AtLeft(last, n), false);
    }
  }

  /** With the right rows outermost they are listed in the other order. */
  lemma {:induction false} NestedByRightIsListed<V>(left: seq<Row<V>>, right: seq<Row<V>>, m: Match<V>)
    returns (pairs: seq<(nat, nat)>)
    ensures Lists(NestedByRight(left, right, m), left, right, m, false, pairs)
    decreases |right|
  {
    pairs := [];
    if right != [] {
      var n := |right| - 1;
      var front := NestedByRightIsListed(left, right[..n], m);
      var col := ColIsListed(left, right[n], m);
      pairs := front + AtRight(col, n);
      RightRowAdded(left, right, m, front, col);
      RightRowsOf(NestedByRight(left, right[..n], m), ColOf(left, right[n], m), left, right, m, front, col);
      InOrderAtRight(left, right, m, front, col);
    }
  }

  lemma InOrderAtRight<V>(left: seq<Row<V>>, right: seq<Row<V>>, m: Match<V>, front: seq<(nat, nat)>, col: seq<(nat, nat)>)
    requires right != [] && InLoopOrder(front, false) && InLoopOrder(col, false)
    requires forall j :: 0 <= j < |front| ==> IsMatch(left, right[..|right| - 1], m, front[j])
    requires forall k :: 0 <= k < |col| ==> IsMatch(left, [right[|right| - 1]], m, col[k])
    ensures InLoopOrder(front + AtRight(col, |right| - 1), false)
  {
    LaterPairs(front, AtRight(col, |right| - 1), false);
  }

  lemma ListsAgree<V>(rows: seq<Row<V>>, left: seq<Row<V>>, right: seq<Row<V>>, m: Match<V>, m': Match<V>,
                      leftOutermost: bool, pairs: seq<(nat, nat)>)
    requires Lists(rows, left, right, m, leftOutermost, pairs) && Agree(left, right, m, m')
    ensures Lists(rows, left, right, m', leftOutermost, pairs)
  {
    forall p: (nat, nat) | p.0 < |left| && p.1 < |right|
      ensures IsMatch(left, right, m, p) == IsMatch(left, right, m', p)
    {
      assert left[p.0] in left && right[p.1] in right;
    }
  }

  /** So a joined row is in the result exactly when its halves are in the inputs and match. */
  lemma ListedIffMatch<V>(rows: seq<Row<V>>, left: seq<Row<V>>, right: seq<Row<V>>, m: Match<V>,
                          leftOutermost: bool, pairs: seq<(nat, nat)>, l: Row<V>, r: Row<V>)
    requires Lists(rows, left, right, m, leftOutermost, pairs) && forall row <- left :: |row| == |l|
    ensures l + r in rows <==> l in left && r in right && m(l, r)
  {
    if l + r in rows {
      var k :| 0 <= k < |rows| && rows[k] == l + r;
      var a, b := left[pairs[k].0], right[pairs[k].1];
      assert IsMatch(left, right, m, pairs[k]) && a in left && a + b == l + r;
      assert (a + b)[..|l|] == a && (a + b)[|l|..] == b && (l + r)[..|l|] == l && (l + r)[|l|..] == r;
    }
    if l in left && r in right && m(l, r) {
      var i :| 0 <= i < |left| && left[i] == l;
      var j :| 0 <= j < |right| && right[j] == r;
      assert IsMatch(left, right, m, (i, j));
      var k :| 0 <= k < |pairs| && pairs[k] == (i, j);
      assert rows[k] == l + r;
    }
  }

  // ---------------------------------------------------------------- join keys

  function Cell<V>(str: V -> string, row: Row<V>, k: int): string {
    if 0 <= k < |row| then str(row[k]) else ""
  }

  /** The columns joined by '_', where nothing is put before the first non-empty text. */
  function JoinTexts(texts: seq<string>): string {
    if texts == [] then ""
    else
      var n := |texts| - 1;
      WithSeparator(JoinTexts(texts[..n])) + texts[n]
  }

  function WithSeparator(front: string): string {
    if front == "" then "" else front + "_"
  }

  lemma JoinTextsTake(texts: seq<string>, i: nat)
    requires i < |texts|
    ensures JoinTexts(texts[..i + 1]) == WithSeparator(JoinTexts(texts[..i])) + texts[i]
  {
    assert texts[..i + 1][..i] == texts[..i];
  }

  function Texts<V>(str: V -> string, row: Row<V>, keys: seq<int>): seq<string> {
    seq(|keys|, i requires 0 <= i < |keys| => Cell(str, row, keys[i]))
  }

  function JoinKey<V>(str: V -> string, row: Row<V>, keys: seq<int>): string {
    JoinTexts(Texts(str, row, keys))
  }

  /** What the hash table tests. */
  function KeyMatch<V>(str: V -> string, leftKeys: seq<int>, rightKeys: seq<int>): Match<V> {
    (l, r) => JoinKey(str, l, leftKeys) == JoinKey(str, r, rightKeys)
  }

  /** The comparison the statement writes: its left side first, which may be the right row's column. */
  predicate CellsEqual<V>(eq: (V, V) -> bool, l: V, r: V, reversed: bool) {
    if reversed then eq(r, l) else eq(l, r)
  }

  predicate ColumnsEqual<V>(eq: (V, V) -> bool, l: Row<V>, r: Row<V>,
                            leftKeys: seq<int>, rightKeys: seq<int>, reversed: seq<bool>) {
    && |leftKeys| == |rightKeys| == |reversed|
    && forall k :: 0 <= k < |leftKeys| ==>
         && 0 <= leftKeys[k] < |l| && 0 <= rightKeys[k] < |r|
         && CellsEqual(eq, l[leftKeys[k]], r[rightKeys[k]], reversed[k])
  }

  /** What the conditions of the statement ask for. */
  function ColumnMatch<V>(eq: (V, V) -> bool, leftKeys: seq<int>, rightKeys: seq<int>, reversed: seq<bool>): Match<V> {
    (l, r) => ColumnsEqual(eq, l, r, leftKeys, rightKeys, reversed)
  }

  /** Column equality is equality of the texts the key is made of. */
  ghost predicate EqIsTextEq<V(!new)>(eq: (V, V) -> bool, str: V -> string) {
    forall x, y :: eq(x, y) <==> str(x) == str(y)
  }

  predicate HasNoUnderscore(s: string) {
    forall i :: 0 <= i < |s| ==> s[i] != '_'
  }

  predicate KeysInside<V>(row: Row<V>, keys: seq<int>) {
    forall i :: 0 <= i < |keys| ==> 0 <= keys[i] < |row|
  }

  predicate AllPlain(texts: seq<string>) {
    forall i :: 0 <= i < |texts| ==> HasNoUnderscore(texts[i])
  }

  predicate KeyCellsPlain<V>(str: V -> string, row: Row<V>, keys: seq<int>) {
    AllPlain(Texts(str, row, keys))
  }

  ghost predicate IsLastUnderscore(s: string, i: int) {
    0 <= i < |s| && s[i] == '_' && forall j :: i < j < |s| ==> s[j] != '_'
  }

  lemma LastUnderscore(front: string, x: string)
    requires HasNoUnderscore(x)
    ensures if front == "" then HasNoUnderscore(WithSeparator(front) + x)
            else IsLastUnderscore(WithSeparator(front) + x, |front|)
  {
  }

  /** The last '_' of a key is the one before its last column. */
  lemma SplitLast(a: string, x: string, b: string, y: string)
    requires HasNoUnderscore(x) && HasNoUnderscore(y)
    requires WithSeparator(a) + x == WithSeparator(b) + y
    ensures a == b && x == y
  {
    LastUnderscore(a, x);
    LastUnderscore(b, y);
    var s := WithSeparator(a) + x;
    assert |a| == |b|;
    assert s[|WithSeparator(a)|..] == x && s[|WithSeparator(b)|..] == y;
    assert s[..|a|] == a && s[..|b|] == b;
  }

  lemma KeyDeterminesLast(a: seq<string>, b: seq<string>, n: nat)
    requires |a| == |b| == n + 1 && AllPlain(a) && AllPlain(b) && JoinTexts(a) == JoinTexts(b)
    ensures JoinTexts(a[..n]) == JoinTexts(b[..n]) && a[n] == b[n] && AllPlain(a[..n]) && AllPlain(b[..n])
  {
    SplitLast(JoinTexts(a[..n]), a[n], JoinTexts(b[..n]), b[n]);
  }

  lemma SameFrontAndLast<T>(a: seq<T>, b: seq<T>)
    requires |a| == |b| > 0 && a[..|a| - 1] == b[..|b| - 1] && a[|a| - 1] == b[|b| - 1]
    ensures a == b
  {
    assert a == a[..|a| - 1] + [a[|a| - 1]] && b == b[..|b| - 1] + [b[|b| - 1]];
  }

  lemma {:induction false} KeyDeterminesTexts(a: seq<string>, b: seq<string>, n: nat)
    requires |a| == |b| == n && AllPlain(a) && AllPlain(b) && JoinTexts(a) == JoinTexts(b)
    ensures a == b
    decreases n
  {
    if n > 0 {
      KeyDeterminesLast(a, b, n - 1);
      KeyDeterminesTexts(a[..n - 1], b[..n - 1], n - 1);
      SameFrontAndLast(a, b);
    }
  }

  /** The key text is injective on columns without '_', empty columns included. */
  lemma KeyIsInjective(a: seq<string>, b: seq<string>)
    requires |a| == |b| && AllPlain(a) && AllPlain(b)
    ensures JoinTexts(a) == JoinTexts(b) <==> a == b
  {
    if JoinTexts(a) == JoinTexts(b) {
      KeyDeterminesTexts(a, b, |a|);
    }
  }

  lemma OneKey<V>(str: V -> string, row: Row<V>, keys: seq<int>)
    requires |keys| == 1
    ensures JoinKey(str, row, keys) == Cell(str, row, keys[0])
  {
    var texts := Texts(str, row, keys);
    assert texts[..|texts| - 1] == [];
    assert JoinTexts(texts) == WithSeparator(JoinTexts([])) + texts[0] == texts[0];
  }

  lemma OneKeyAgrees<V>(str: V -> string, eq: (V, V) -> bool, l: Row<V>, r: Row<V>, leftKeys: seq<int>, rightKeys: seq<int>, reversed: seq<bool>)
    requires |leftKeys| == |rightKeys| == |reversed| == 1 && 0 <= leftKeys[0] < |l| && 0 <= rightKeys[0] < |r|
    requires CellsEqual(eq, l[leftKeys[0]], r[rightKeys[0]], reversed[0]) <==> str(l[leftKeys[0]]) == str(r[rightKeys[0]])
    ensures KeyMatch(str, leftKeys, rightKeys)(l, r) == ColumnMatch(eq, leftKeys, rightKeys, reversed)(l, r)
  {
    OneKey(str, l, leftKeys);
    OneKey(str, r, rightKeys);
  }

  /** On the key columns conditions hold exactly where texts are equal. */
  ghost predicate TextsDecide<V>(str: V -> string, eq: (V, V) -> bool, l: Row<V>, r: Row<V>,
                                 leftKeys: seq<int>, rightKeys: seq<int>, reversed: seq<bool>)
    requires |leftKeys| == |rightKeys| == |reversed| && KeysInside(l, leftKeys) && KeysInside(r, rightKeys)
  {
    forall i :: 0 <= i < |leftKeys| ==>
      (CellsEqual(eq, l[leftKeys[i]], r[rightKeys[i]], reversed[i]) <==> str(l[leftKeys[i]]) == str(r[rightKeys[i]]))
  }

  lemma TextsEqualIffColumns<V>(str: V -> string, eq: (V, V) -> bool, l: Row<V>, r: Row<V>, leftKeys: seq<int>, rightKeys: seq<int>, reversed: seq<bool>)
    requires |leftKeys| == |rightKeys| == |reversed| && KeysInside(l, leftKeys) && KeysInside(r, rightKeys)
    requires TextsDecide(str, eq, l, r, leftKeys, rightKeys, reversed)
    ensures Texts(str, l, leftKeys) == Texts(str, r, rightKeys) <==> ColumnsEqual(eq, l, r, leftKeys, rightKeys, reversed)
  {
    var a, b := Texts(str, l, leftKeys), Texts(str, r, rightKeys);
    assert forall i :: 0 <= i < |leftKeys| ==> (a[i] == b[i] <==> CellsEqual(eq, l[leftKeys[i]], r[rightKeys[i]], reversed[i]));
    assert a == b <==> forall i :: 0 <= i < |leftKeys| ==> a[i] == b[i];
  }

  lemma PlainRowsAgree<V>(str: V -> string, eq: (V, V) -> bool, l: Row<V>, r: Row<V>, leftKeys: seq<int>, rightKeys: seq<int>, reversed: seq<bool>)
    requires |leftKeys| == |rightKeys| == |reversed|
    requires KeysInside(l, leftKeys) && KeysInside(r, rightKeys)
    requires KeyCellsPlain(str, l, leftKeys) && KeyCellsPlain(str, r, rightKeys)
    requires TextsDecide(str, eq, l, r, leftKeys, rightKeys, reversed)
    ensures KeyMatch(str, leftKeys, rightKeys)(l, r) == ColumnMatch(eq, leftKeys, rightKeys, reversed)(l, r)
  {
    KeyIsInjective(Texts(str, l, leftKeys), Texts(str, r, rightKeys));
    TextsEqualIffColumns(str, eq, l, r, leftKeys, rightKeys, reversed);
  }

  /** One key column, or columns without '_', make the hash test and the conditions agree. */
  lemma PlainKeysAgree<V(!new)>(str: V -> string, eq: (V, V) -> bool, left: seq<Row<V>>, right: seq<Row<V>>,
                                leftKeys: seq<int>, rightKeys: seq<int>, reversed: seq<bool>)
    requires EqIsTextEq(eq, str) && |leftKeys| == |rightKeys| == |reversed|
    requires forall row <- left :: KeysInside(row, leftKeys)
    requires forall row <- right :: KeysInside(row, rightKeys)
    requires |leftKeys| == 1 || ((forall row <- left :: KeyCellsPlain(str, row, leftKeys))
                              && (forall row <- right :: KeyCellsPlain(str, row, rightKeys)))
    ensures Agree(left, right, KeyMatch(str, leftKeys, rightKeys), ColumnMatch(eq, leftKeys, rightKeys, reversed))
  {
    forall l, r | l in left && r in right
      ensures KeyMatch(str, leftKeys, rightKeys)(l, r) == ColumnMatch(eq, leftKeys, rightKeys, reversed)(l, r)
    {
      assert KeysInside(l, leftKeys) && KeysInside(r, rightKeys);
      if |leftKeys| == 1 {
        OneKeyAgrees(str, eq, l, r, leftKeys, rightKeys, reversed);
      } else {
        assert KeyCellsPlain(str, l, leftKeys) && KeyCellsPlain(str, r, rightKeys);
        PlainRowsAgree(str, eq, l, r, leftKeys, rightKeys, reversed);
      }
    }
  }

  /** With two key columns an underscore in a value makes different keys collide. */
  lemma UnderscoreCollides()
    ensures var str := (s: string) => s;
            var l, r := ["a_b", "c"], ["a", "b_c"];
            && KeyMatch(str, [0, 1], [0, 1])(l, r)
            && !ColumnMatch((x, y) => x == y, [0, 1], [0, 1], [false, false])(l, r)
  {
    var str := (s: string) => s;
    var l, r := ["a_b", "c"], ["a", "b_c"];
    var ls, rs := Texts(str, l, [0, 1]), Texts(str, r, [0, 1]);
    assert ls == ["a_b", "c"] && rs == ["a", "b_c"];
    assert ls[..1] == ["a_b"] && rs[..1] == ["a"];
    assert ls[..1][..0] == [] && rs[..1][..0] == [];
    assert JoinTexts(ls[..1]) == "a_b" && JoinTexts(rs[..1]) == "a";
    assert JoinTexts(ls) == "a_b_c" == JoinTexts(rs);
    assert l[[0, 1][0]] != r[[0, 1][0]];
  }

  // ---------------------------------------------------------------- the hash join

  /** The result of the hash join: the larger input drives the outer loop, the left one on a tie. */
  function HashRows<V>(left: seq<Row<V>>, right: seq<Row<V>>, m: Match<V>): seq<Row<V>> {
    if |left| < |right| then NestedByRight(left, right, m) else Nested(left, right, m)
  }

  /**
   * The hash join returns the bag of rows the nested loops return exactly when the key texts agree
   * with the conditions on every pair of input rows; then, if the left input is at least as large
   * as the right one, even the order is the same.
   */
  lemma HashJoinIsNestedLoopJoin<V>(str: V -> string, eq: (V, V) -> bool, left: seq<Row<V>>, right: seq<Row<V>>,
                                    leftKeys: seq<int>, rightKeys: seq<int>, reversed: seq<bool>, width: nat)
    requires forall row <- left :: |row| == width
    ensures var key, cond := KeyMatch(str, leftKeys, rightKeys), ColumnMatch(eq, leftKeys, rightKeys, reversed);
            && (multiset(HashRows(left, right, key)) == multiset(Nested(left, right, cond))
                <==> Agree(left, right, key, cond))
            && (Agree(left, right, key, cond) && |left| >= |right|
                ==> HashRows(left, right, key) == Nested(left, right, cond))
  {
    var key, cond := KeyMatch(str, leftKeys, rightKeys), ColumnMatch(eq, leftKeys, rightKeys, reversed);
    LoopOrder(left, right, key);
    SameBagIffAgree(left, right, key, cond, width);
    if Agree(left, right, key, cond) {
      AgreeNested(left, right, key, cond);
    }
  }
}
