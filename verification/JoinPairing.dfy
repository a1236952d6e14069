/** How the join matches the tuple sets of its two inputs by recvTime and hands them out in pairs. */
module JoinPairing {
  import opened Common
  import opened StringUtil
  import opened TupleSets

  const UNKNOWN := "UNKNOWN"
  const EXPECT_DATA_SIZE: nat := 2

  // ---------------------------------------------------------------- the order inside a pair

  /** `a` may stand left of `b`: more attributes, or as many and no smaller table name. */
  predicate LeftOf<V>(a: TupleSet<V>, b: TupleSet<V>) {
    || a.schema.attributeSize > b.schema.attributeSize
    || (a.schema.attributeSize == b.schema.attributeSize && !Greater(b.schema.tableName, a.schema.tableName))
  }

  function InJoinOrder<V>(waiter: TupleSet<V>, ts: TupleSet<V>): seq<TupleSet<V>> {
    if LeftOf(waiter, ts) then [waiter, ts] else [ts, waiter]
  }

  /** Two sets of one recvTime in descending (attribute count, table name) order. */
  predicate MatchedPair<V>(a: TupleSet<V>, b: TupleSet<V>) {
    a.recvTime == b.recvTime && LeftOf(a, b)
  }

  /** Whichever side arrives first, the pair is the same, unless attribute count and name both coincide. */
  lemma ArrivalOrderIsIrrelevant<V>(a: TupleSet<V>, b: TupleSet<V>)
    requires a.schema.attributeSize != b.schema.attributeSize || a.schema.tableName != b.schema.tableName
    ensures InJoinOrder(a, b) == InJoinOrder(b, a)
  {
    GreaterIsTotal(a.schema.tableName, b.schema.tableName);
  }

  lemma InJoinOrderIsMatched<V>(a: TupleSet<V>, b: TupleSet<V>)
    requires a.recvTime == b.recvTime
    ensures MatchedPair(InJoinOrder(a, b)[0], InJoinOrder(a, b)[1])
    ensures multiset(InJoinOrder(a, b)) == multiset{a, b}
  {
    GreaterIsTotal(a.schema.tableName, b.schema.tableName);
  }

  /** More attributes, or as many and the same name, or a name that is greater where the two first differ. */
  ghost predicate Descends(a: Schema, b: Schema) {
    || a.attributeSize > b.attributeSize
    || (a.attributeSize == b.attributeSize
        && (a.tableName == b.tableName || exists k: nat :: DiffersAt(a.tableName, b.tableName, k)))
  }

  lemma LeftOfDescends<V>(a: TupleSet<V>, b: TupleSet<V>)
    ensures LeftOf(a, b) <==> Descends(a.schema, b.schema)
  {
    GreaterIsTotal(a.schema.tableName, b.schema.tableName);
    GreaterAtDifference(a.schema.tableName, b.schema.tableName);
  }

  /** Two sets of one time, put in descending order, and in order of arrival when they are alike. */
  ghost predicate IsPairOf<V>(pair: seq<TupleSet<V>>, waiter: TupleSet<V>, ts: TupleSet<V>) {
    && (pair == [waiter, ts] || pair == [ts, waiter])
    && Descends(pair[0].schema, pair[1].schema)
    && (Descends(waiter.schema, ts.schema) ==> pair[0] == waiter)
  }

  lemma InJoinOrderIsPair<V>(waiter: TupleSet<V>, ts: TupleSet<V>)
    ensures IsPairOf(InJoinOrder(waiter, ts), waiter, ts)
  {
    LeftOfDescends(waiter, ts);
    LeftOfDescends(ts, waiter);
    GreaterIsTotal(waiter.schema.tableName, ts.schema.tableName);
  }

  // ---------------------------------------------------------------- the state and its steps

  /** waitQMap, buffer and, for the record, what has been put into the buffer and what was drawn from it. */
  datatype State<V> = State(
    waitQMap: map<int, TupleSet<V>>,
    buffer: seq<TupleSet<V>>,
    enqueued: seq<TupleSet<V>>,
    drawn: seq<seq<TupleSet<V>>>)

  datatype Event<V> = Receive(ts: TupleSet<V>) | Draw

  function Received<V>(s: State<V>, ts: TupleSet<V>): State<V> {
    if ts.schema.tableName == UNKNOWN then s
    else if ts.recvTime !in s.waitQMap then s.(waitQMap := s.waitQMap[ts.recvTime := ts])
    else
      var pair := InJoinOrder(s.waitQMap[ts.recvTime], ts);
      s.(waitQMap := s.waitQMap - {ts.recvTime}, buffer := s.buffer + pair, enqueued := s.enqueued + pair)
  }

  function Drew<V>(s: State<V>): State<V> {
    var n := Min(EXPECT_DATA_SIZE, |s.buffer|);
    s.(buffer := s.buffer[n..], drawn := s.drawn + [s.buffer[..n]])
  }

  function After<V>(s: State<V>, e: Event<V>): State<V> {
    match e
    case Receive(ts) => Received(s, ts)
    case Draw => Drew(s)
  }

  function AfterAll<V>(events: seq<Event<V>>): State<V> {
    if events == [] then State(map[], [], [], [])
    else After(AfterAll(events[..|events| - 1]), events[|events| - 1])
  }

  // ---------------------------------------------------------------- batches

  predicate PairsOnly<V>(s: seq<TupleSet<V>>) {
    s == [] || (|s| >= 2 && MatchedPair(s[0], s[1]) && PairsOnly(s[2..]))
  }

  function Flatten<V>(batches: seq<seq<TupleSet<V>>>): seq<TupleSet<V>> {
    if batches == [] then [] else Flatten(batches[..|batches| - 1]) + batches[|batches| - 1]
  }

  ghost predicate Consistent<V>(s: State<V>) {
    && PairsOnly(s.buffer)
    && (forall t <- s.waitQMap :: s.waitQMap[t].recvTime == t)
    && (forall b <- s.drawn :: b == [] || (|b| == 2 && MatchedPair(b[0], b[1])))
    && Flatten(s.drawn) + s.buffer == s.enqueued
  }

  lemma {:induction false} PairsAppend<V>(s: seq<TupleSet<V>>, a: TupleSet<V>, b: TupleSet<V>)
    requires PairsOnly(s) && MatchedPair(a, b)
    ensures PairsOnly(s + [a, b])
    decreases |s|
  {
    if s == [] {
      assert (s + [a, b])[2..] == [];
    } else {
      PairsAppend(s[2..], a, b);
      assert (s + [a, b])[2..] == s[2..] + [a, b];
    }
  }

  lemma PairKeepsConsistent<V>(s: State<V>, a: TupleSet<V>, b: TupleSet<V>, t: int)
    requires Consistent(s) && MatchedPair(a, b)
    ensures Consistent(s.(waitQMap := s.waitQMap - {t}, buffer := s.buffer + [a, b], enqueued := s.enqueued + [a, b]))
  {
    PairsAppend(s.buffer, a, b);
    assert Flatten(s.drawn) + (s.buffer + [a, b]) == Flatten(s.drawn) + s.buffer + [a, b];
  }

  lemma ReceiveKeepsConsistent<V>(s: State<V>, ts: TupleSet<V>)
    requires Consistent(s)
    ensures Consistent(Received(s, ts))
  {
    if ts.schema.tableName != UNKNOWN && ts.recvTime in s.waitQMap {
      var waiter := s.waitQMap[ts.recvTime];
      InJoinOrderIsMatched(waiter, ts);
      var pair := InJoinOrder(waiter, ts);
      PairKeepsConsistent(s, pair[0], pair[1], ts.recvTime);
      assert pair == [pair[0], pair[1]];
    }
  }

  lemma DrawKeepsConsistent<V>(s: State<V>)
    requires Consistent(s)
    ensures Consistent(Drew(s))
  {
    var n := Min(EXPECT_DATA_SIZE, |s.buffer|);
    var batch := s.buffer[..n];
    assert (s.drawn + [batch])[..|s.drawn|] == s.drawn;
    assert Flatten(s.drawn + [batch]) == Flatten(s.drawn) + batch;
    assert s.buffer == batch + s.buffer[n..];
    assert Flatten(s.drawn) + batch + s.buffer[n..] == Flatten(s.drawn) + s.buffer;
  }

  /**
   * Over every run of arrivals and draws each batch drawn is empty or one matched pair, so the
   * operator never sees a single tuple set, and the batches followed by the buffer are exactly what
   * was put into the buffer, in order.
   */
  lemma {:induction false} EveryRunIsConsistent<V>(events: seq<Event<V>>)
    ensures Consistent(AfterAll(events))
    decreases |events|
  {
    if events != [] {
      var n := |events| - 1;
      EveryRunIsConsistent(events[..n]);
      match events[n]
      case Receive(ts) => ReceiveKeepsConsistent(AfterAll(events[..n]), ts);
      case Draw => DrawKeepsConsistent(AfterAll(events[..n]));
    }
  }

  /** What the joining process is given: nothing, or the set with more attributes before the other one of its time. */
  ghost predicate IsBatch<V>(b: seq<TupleSet<V>>) {
    b == [] || (|b| == 2 && b[0].recvTime == b[1].recvTime && Descends(b[0].schema, b[1].schema))
  }

  /** In every run the pairs drawn descend in attribute count and then in table name. */
  lemma EveryPairDescends<V>(events: seq<Event<V>>)
    ensures forall b <- AfterAll(events).drawn :: IsBatch(b)
  {
    EveryRunIsConsistent(events);
    forall b | b in AfterAll(events).drawn
      ensures IsBatch(b)
    {
      if b != [] {
        LeftOfDescends(b[0], b[1]);
      }
    }
  }

  /** A tuple set is dropped exactly when its table name is "UNKNOWN". */
  lemma DroppedIffUnknown<V>(s: State<V>, ts: TupleSet<V>)
    ensures Received(s, ts) == s <==> ts.schema.tableName == "UNKNOWN"
  {
    if ts.schema.tableName != "UNKNOWN" && ts.recvTime !in s.waitQMap {
      assert ts.recvTime in Received(s, ts).waitQMap;
    }
  }

  // ---------------------------------------------------------------- nothing lost, nothing twice

  function AtTime<V>(s: seq<TupleSet<V>>, t: int): seq<TupleSet<V>> {
    if s == [] then []
    else
      var front, last := AtTime(s[..|s| - 1], t), s[|s| - 1];
      if last.recvTime == t then front + [last] else front
  }

  /** The known tuple sets received at time t. */
  function Arrivals<V>(events: seq<Event<V>>, t: int): seq<TupleSet<V>> {
    if events == [] then []
    else
      var front, e := Arrivals(events[..|events| - 1], t), events[|events| - 1];
      if e.Receive? && e.ts.schema.tableName != UNKNOWN && e.ts.recvTime == t then front + [e.ts] else front
  }

  /** First with second, third with fourth, and so on; an odd one at the end is left over. */
  function Paired<V>(s: seq<TupleSet<V>>): seq<TupleSet<V>> {
    if |s| < 2 then [] else InJoinOrder(s[0], s[1]) + Paired(s[2..])
  }

  lemma {:induction false} PairedEven<V>(s: seq<TupleSet<V>>, ts: TupleSet<V>)
    requires |s| % 2 == 0
    ensures Paired(s + [ts]) == Paired(s)
    decreases |s|
  {
    if |s| >= 2 {
      PairedEven(s[2..], ts);
      assert (s + [ts])[2..] == s[2..] + [ts];
    }
  }

  lemma {:induction false} PairedOdd<V>(s: seq<TupleSet<V>>, ts: TupleSet<V>)
    requires |s| % 2 == 1
    ensures Paired(s + [ts]) == Paired(s) + InJoinOrder(s[|s| - 1], ts)
    decreases |s|
  {
    if |s| == 1 {
      assert (s + [ts])[2..] == [];
    } else {
      PairedOdd(s[2..], ts);
      assert (s + [ts])[2..] == s[2..] + [ts] && s[2..][|s| - 3] == s[|s| - 1];
      var p := InJoinOrder(s[0], s[1]);
      assert p + (Paired(s[2..]) + InJoinOrder(s[|s| - 1], ts)) == p + Paired(s[2..]) + InJoinOrder(s[|s| - 1], ts);
    }
  }

  lemma AtTimePair<V>(s: seq<TupleSet<V>>, a: TupleSet<V>, b: TupleSet<V>, t: int)
    requires a.recvTime == b.recvTime
    ensures AtTime(s + [a, b], t) == if a.recvTime == t then AtTime(s, t) + [a, b] else AtTime(s, t)
  {
    assert (s + [a, b])[..|s| + 1] == s + [a];
    assert (s + [a])[..|s|] == s;
    assert a.recvTime == t ==> AtTime(s, t) + [a] + [b] == AtTime(s, t) + [a, b];
  }

  /**
   * For every run and every time t, what was put into the buffer at t is the arrivals at t paired in
   * arrival order; the waiting set is the last arrival when their number is odd, and none otherwise.
   */
  lemma {:induction false} EveryArrivalIsPairedOrWaiting<V>(events: seq<Event<V>>, t: int)
    ensures PairedOrWaiting(AfterAll(events), Arrivals(events, t), t)
    decreases |events|
  {
    if events != [] {
      var n := |events| - 1;
      EveryArrivalIsPairedOrWaiting(events[..n], t);
      EveryRunIsConsistent(events[..n]);
      var s, a := AfterAll(events[..n]), Arrivals(events[..n], t);
      match events[n]
      case Receive(ts) => ReceiveKeepsPairing(s, ts, a, t);
      case Draw =>
    }
  }

  ghost predicate PairedOrWaiting<V>(s: State<V>, arrivals: seq<TupleSet<V>>, t: int) {
    && AtTime(s.enqueued, t) == Paired(arrivals)
    && (t in s.waitQMap <==> |arrivals| % 2 == 1)
    && (t in s.waitQMap ==> s.waitQMap[t] == arrivals[|arrivals| - 1])
  }

  /** A pair made at another time changes nothing at t. */
  lemma OtherPairKeepsPairing<V>(s: State<V>, ts: TupleSet<V>, a: seq<TupleSet<V>>, t: int)
    requires ts.recvTime in s.waitQMap && s.waitQMap[ts.recvTime].recvTime == ts.recvTime != t
    requires PairedOrWaiting(s, a, t) && ts.schema.tableName != UNKNOWN
    ensures PairedOrWaiting(Received(s, ts), a, t)
  {
    EnqueuedPair(s.enqueued, s.waitQMap[ts.recvTime], ts, t);
  }

  lemma PairKeepsPairing<V>(s: State<V>, ts: TupleSet<V>, a: seq<TupleSet<V>>)
    requires ts.recvTime in s.waitQMap && s.waitQMap[ts.recvTime].recvTime == ts.recvTime
    requires PairedOrWaiting(s, a, ts.recvTime) && ts.schema.tableName != UNKNOWN
    ensures PairedOrWaiting(Received(s, ts), a + [ts], ts.recvTime)
  {
    EnqueuedPair(s.enqueued, s.waitQMap[ts.recvTime], ts, ts.recvTime);
    PairedOdd(a, ts);
  }

  lemma EnqueuedPair<V>(s: seq<TupleSet<V>>, waiter: TupleSet<V>, ts: TupleSet<V>, t: int)
    requires waiter.recvTime == ts.recvTime
    ensures AtTime(s + InJoinOrder(waiter, ts), t)
         == AtTime(s, t) + if ts.recvTime == t then InJoinOrder(waiter, ts) else []
  {
    if LeftOf(waiter, ts) {
      AtTimePair(s, waiter, ts, t);
    } else {
      AtTimePair(s, ts, waiter, t);
    }
  }

  lemma ReceiveKeepsPairing<V>(s: State<V>, ts: TupleSet<V>, a: seq<TupleSet<V>>, t: int)
    requires ts.recvTime in s.waitQMap ==> s.waitQMap[ts.recvTime].recvTime == ts.recvTime
    requires PairedOrWaiting(s, a, t)
    ensures PairedOrWaiting(Received(s, ts),
                            if ts.schema.tableName != UNKNOWN && ts.recvTime == t then a + [ts] else a, t)
  {
    if ts.schema.tableName != UNKNOWN {
      if ts.recvTime in s.waitQMap {
        if ts.recvTime == t {
          PairKeepsPairing(s, ts, a);
        } else {
          OtherPairKeepsPairing(s, ts, a, t);
        }
      } else if ts.recvTime == t {
        PairedEven(a, ts);
      }
    }
  }
}
