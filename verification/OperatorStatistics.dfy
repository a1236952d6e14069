/** The sliding one-second tuple counts every operator keeps (Operator::setPerformInfo, getPerformInfoNum). */
module OperatorStatistics {
  import opened Common

  const SECOND: int := 1000000

  datatype PerformInfo = PerformInfo(time: int, num: nat)

  function Sum(sizes: seq<nat>): nat {
    if sizes == [] then 0 else Sum(sizes[..|sizes| - 1]) + sizes[|sizes| - 1]
  }

  function Total(history: seq<PerformInfo>): nat {
    if history == [] then 0 else Total(history[..|history| - 1]) + history[|history| - 1].num
  }

  /** The tuples of the entries newer than one second before `now`. */
  function Recent(list: seq<PerformInfo>, now: int): nat {
    if list == [] then 0
    else
      var last := list[|list| - 1];
      Recent(list[..|list| - 1], now) + if last.time > now - SECOND then last.num else 0
  }

  /** Drops entries from the front while they are older than one second before `time`. */
  function Prune(list: seq<PerformInfo>, time: int): seq<PerformInfo> {
    if list != [] && list[0].time < time - SECOND then Prune(list[1..], time) else list
  }

  /** The deque after a history of pushes, each of which also prunes. */
  function Deque(history: seq<PerformInfo>): seq<PerformInfo> {
    if history == [] then []
    else
      var last := history[|history| - 1];
      Prune(Deque(history[..|history| - 1]) + [last], last.time)
  }

  class Operator {
    var inputList: seq<PerformInfo>
    var outputList: seq<PerformInfo>
    var inputSum: int
    var outputSum: int
    ghost var inputHistory: seq<PerformInfo>
    ghost var outputHistory: seq<PerformInfo>

    ghost predicate Valid()
      reads this
    {
      && inputList == Deque(inputHistory) && inputSum == Total(inputHistory)
      && outputList == Deque(outputHistory) && outputSum == Total(outputHistory)
    }

    constructor ()
      ensures Valid() && inputHistory == [] && outputHistory == []
    {
      inputList, outputList, inputSum, outputSum := [], [], 0, 0;
      inputHistory, outputHistory := [], [];
    }

    static method SetPerformInfo(time: int, ts: seq<nat>, list: seq<PerformInfo>, sum: int)
      returns (list': seq<PerformInfo>, sum': int)
      ensures list' == Prune(list + [PerformInfo(time, Sum(ts))], time)
      ensures sum' == sum + Sum(ts)
    {
      var tupleSum := 0;
      assert ts[..0] == [];
      for i := 0 to |ts|
        invariant tupleSum == Sum(ts[..i]) && tupleSum >= 0
      {
        assert ts[..i + 1][..i] == ts[..i];
        tupleSum := tupleSum + ts[i];
      }
      assert ts[..|ts|] == ts;
      list' := list + [PerformInfo(time, tupleSum)];
      sum' := sum + tupleSum;
      ghost var before := list';
      while list' != []
        invariant Prune(list', time) == Prune(before, time)
        decreases |list'|
      {
        if list'[0].time < time - SECOND {
          list' := list'[1..];
        } else {
          break;
        }
      }
    }

    method RecordInput(time: int, ts: seq<nat>)
      requires Valid()
      modifies this
      ensures Valid() && inputHistory == old(inputHistory) + [PerformInfo(time, Sum(ts))]
      ensures outputHistory == old(outputHistory)
    {
      inputList, inputSum := SetPerformInfo(time, ts, inputList, inputSum);
      inputHistory := inputHistory + [PerformInfo(time, Sum(ts))];
    }

    method RecordOutput(time: int, ts: seq<nat>)
      requires Valid()
      modifies this
      ensures Valid() && outputHistory == old(outputHistory) + [PerformInfo(time, Sum(ts))]
      ensures inputHistory == old(inputHistory)
    {
      outputList, outputSum := SetPerformInfo(time, ts, outputList, outputSum);
      outputHistory := outputHistory + [PerformInfo(time, Sum(ts))];
    }

    static method CountRecent(list: seq<PerformInfo>, now: int) returns (ret: nat)
      ensures ret == Recent(list, now)
    {
      ret := 0;
      assert list[..0] == [];
      for i := 0 to |list|
        invariant ret == Recent(list[..i], now)
      {
        assert list[..i + 1][..i] == list[..i];
        if list[i].time > now - SECOND {
          ret := ret + list[i].num;
        }
      }
      assert list[..|list|] == list;
    }

    /**
     * The count over the whole history, although old entries are gone, at any time no earlier than the
     * pushes. At an earlier time it is the count over the deque (see CountIsRightIff).
     */
    method GetPerformInfoNum(kind: string, now: int) returns (ret: nat)
      requires Valid()
      ensures kind == "input" ==> ret == Recent(Deque(inputHistory), now)
      ensures kind == "output" ==> ret == Recent(Deque(outputHistory), now)
      ensures kind == "input" && NoneLater(inputHistory, now) ==> ret == Recent(inputHistory, now)
      ensures kind == "output" && NoneLater(outputHistory, now) ==> ret == Recent(outputHistory, now)
      ensures kind == "input" && NoneLater(inputHistory, now) ==> IsSecondsCount(inputHistory, now, ret)
      ensures kind == "output" && NoneLater(outputHistory, now) ==> IsSecondsCount(outputHistory, now, ret)
      ensures kind != "input" && kind != "output" ==> ret == 0
    {
      if kind == "input" {
        ret := CountRecent(inputList, now);
        if NoneLater(inputHistory, now) {
          DequeCountsHistory(inputHistory, now);
          RecentIsSecondsCount(inputHistory, now);
        }
      } else if kind == "output" {
        ret := CountRecent(outputList, now);
        if NoneLater(outputHistory, now) {
          DequeCountsHistory(outputHistory, now);
          RecentIsSecondsCount(outputHistory, now);
        }
      } else {
        ret := 0;
      }
    }
  }

  function LessThanASecondOld(now: int): PerformInfo -> bool {
    (p: PerformInfo) => now - p.time < 1000000
  }

  /** The tuples of the entries less than 1000000 microseconds old. */
  ghost predicate IsSecondsCount(history: seq<PerformInfo>, now: int, count: nat) {
    exists recent :: IsSelection(history, LessThanASecondOld(now), recent) && count == Total(recent)
  }

  lemma TotalNext(list: seq<PerformInfo>, p: PerformInfo)
    ensures Total(list + [p]) == Total(list) + p.num
  {
    assert (list + [p])[..|list|] == list;
  }

  lemma CountNext(front: seq<PerformInfo>, last: PerformInfo, now: int, count: nat)
    requires IsSecondsCount(front, now, count)
    ensures IsSecondsCount(front + [last], now, count + if now - last.time < 1000000 then last.num else 0)
  {
    var recent :| IsSelection(front, LessThanASecondOld(now), recent) && count == Total(recent);
    SelectionSnoc(front, last, LessThanASecondOld(now), recent);
    if now - last.time < 1000000 {
      TotalNext(recent, last);
      CountedBy(front + [last], now, recent + [last]);
    } else {
      CountedBy(front + [last], now, recent);
    }
  }

  lemma CountedBy(history: seq<PerformInfo>, now: int, recent: seq<PerformInfo>)
    requires IsSelection(history, LessThanASecondOld(now), recent)
    ensures IsSecondsCount(history, now, Total(recent))
  {
  }

  lemma {:induction false} RecentIsSecondsCount(history: seq<PerformInfo>, now: int)
    ensures IsSecondsCount(history, now, Recent(history, now))
    decreases |history|
  {
    if history == [] {
      NothingSelected(LessThanASecondOld(now));
      assert Total([]) == 0;
    } else {
      var front, last := history[..|history| - 1], history[|history| - 1];
      RecentIsSecondsCount(front, now);
      CountNext(front, last, now, Recent(front, now));
      assert history == front + [last];
    }
  }

  predicate NoneLater(history: seq<PerformInfo>, now: int) {
    forall i :: 0 <= i < |history| ==> history[i].time <= now
  }

  lemma {:induction false} RecentCons(p: PerformInfo, list: seq<PerformInfo>, now: int)
    ensures Recent([p] + list, now) == Recent(list, now) + if p.time > now - SECOND then p.num else 0
    decreases |list|
  {
    if list == [] {
      assert ([p] + list)[..0] == [];
    } else {
      assert ([p] + list)[..|list|] == [p] + list[..|list| - 1];
      RecentCons(p, list[..|list| - 1], now);
    }
  }

  /** Pruning at a time no later than `now` drops nothing that counts at `now`. */
  lemma {:induction false} PruneKeepsRecent(list: seq<PerformInfo>, time: int, now: int)
    requires time <= now
    ensures Recent(Prune(list, time), now) == Recent(list, now)
    decreases |list|
  {
    if list != [] && list[0].time < time - SECOND {
      PruneKeepsRecent(list[1..], time, now);
      RecentCons(list[0], list[1..], now);
      assert list == [list[0]] + list[1..];
    }
  }

  lemma RecentSnoc(list: seq<PerformInfo>, p: PerformInfo, now: int)
    ensures Recent(list + [p], now) == Recent(list, now) + if p.time > now - SECOND then p.num else 0
  {
    assert (list + [p])[..|list|] == list;
  }

  /**
   * At any time no earlier than every push the pruned deque gives the count of the whole history,
   * whether or not the clock ran backwards between the pushes.
   */
  lemma {:induction false} DequeCountsHistory(history: seq<PerformInfo>, now: int)
    requires NoneLater(history, now)
    ensures Recent(Deque(history), now) == Recent(history, now)
    decreases |history|
  {
    if history != [] {
      var n := |history| - 1;
      DequeCountsHistory(history[..n], now);
      PruneKeepsRecent(Deque(history[..n]) + [history[n]], history[n].time, now);
      RecentSnoc(Deque(history[..n]), history[n], now);
    }
  }

  /** Entries too old at the last push but not yet too old at `now`: the ones an earlier query misses. */
  predicate NothingDropped(history: seq<PerformInfo>, now: int)
    requires history != []
  {
    forall p <- history :: now - 1000000 < p.time < history[|history| - 1].time - 1000000 ==> p.num == 0
  }

  lemma {:induction false} WindowRecent(history: seq<PerformInfo>, time: int, now: int)
    ensures Recent(Window(history, time), now) <= Recent(history, now)
    ensures Recent(Window(history, time), now) == Recent(history, now) <==>
              forall p <- history :: now - SECOND < p.time < time - SECOND ==> p.num == 0
    decreases |history|
  {
    if history != [] {
      var front, last := history[..|history| - 1], history[|history| - 1];
      WindowRecent(front, time, now);
      assert history == front + [last];
      RecentSnoc(front, last, now);
      RecentSnoc(Window(front, time), last, now);
    }
  }

  /**
   * With a clock that does not run backwards, and at any time whatever, the deque gives the count of the
   * whole history if and only if every entry counted at `now` but dropped by the last push was empty.
   */
  lemma CountIsRightIff(history: seq<PerformInfo>, now: int)
    requires history != [] && NonDecreasing(history)
    ensures Recent(Deque(history), now) == Recent(history, now) <==> NothingDropped(history, now)
  {
    DequeIsLastSecond(history);
    WindowRecent(history, history[|history| - 1].time, now);
  }

  /** A query older than the last push may miss entries that push has dropped. */
  lemma EarlierQueryMayMiss()
    ensures var history := [PerformInfo(0, 5), PerformInfo(1000001, 7)];
            Recent(Deque(history), 0) == 7 && Recent(history, 0) == 12
  {
    var a, b := PerformInfo(0, 5), PerformInfo(1000001, 7);
    LastSecondOfTwo(a, b);
    assert [a, b] == [a] + [b];
    RecentSnoc([a], b, 0);
    RecentSnoc([], a, 0);
    RecentSnoc([], b, 0);
    assert [] + [a] == [a] && [] + [b] == [b];
  }

  lemma LastSecondOfTwo(a: PerformInfo, b: PerformInfo)
    requires a.time < b.time - SECOND
    ensures Deque([a, b]) == [b]
  {
    assert [a, b][..1] == [a] && [a][..0] == [] && [a, b][1..] == [b];
    assert Deque([a]) == [a] by { assert [] + [a] == [a]; }
    assert [a] + [b] == [a, b];
    assert Prune([b], b.time) == [b];
  }

  predicate NonDecreasing(history: seq<PerformInfo>) {
    forall i, j :: 0 <= i <= j < |history| ==> history[i].time <= history[j].time
  }

  /** The entries not older than one second before `time`. */
  function Window(history: seq<PerformInfo>, time: int): seq<PerformInfo> {
    if history == [] then []
    else
      var front, last := Window(history[..|history| - 1], time), history[|history| - 1];
      if last.time >= time - SECOND then front + [last] else front
  }

  lemma {:induction false} WindowOfWindow(history: seq<PerformInfo>, early: int, late: int)
    requires early <= late
    ensures Window(Window(history, early), late) == Window(history, late)
    decreases |history|
  {
    if history != [] {
      var n := |history| - 1;
      WindowOfWindow(history[..n], early, late);
      var front := Window(history[..n], early);
      assert (front + [history[n]])[..|front|] == front;
    }
  }

  lemma {:induction false} WindowIsPart(history: seq<PerformInfo>, time: int, latest: int)
    requires NoneLater(history, latest)
    ensures NoneLater(Window(history, time), latest)
    decreases |history|
  {
    if history != [] {
      var n := |history| - 1;
      assert forall i :: 0 <= i < n ==> history[..n][i] == history[i];
      WindowIsPart(history[..n], time, latest);
    }
  }

  lemma OrderedNext(history: seq<PerformInfo>, last: PerformInfo)
    ensures NonDecreasing(history + [last]) <==> NonDecreasing(history) && NoneLater(history, last.time)
  {
    var all := history + [last];
    assert forall i :: 0 <= i < |history| ==> all[i] == history[i];
    if NonDecreasing(all) {
      assert forall i :: 0 <= i < |history| ==> all[i].time <= all[|history|].time;
    }
  }

  lemma {:induction false} WindowKeepsOrder(history: seq<PerformInfo>, time: int)
    requires NonDecreasing(history)
    ensures NonDecreasing(Window(history, time))
    decreases |history|
  {
    if history != [] {
      var front, last := history[..|history| - 1], history[|history| - 1];
      assert history == front + [last];
      OrderedNext(front, last);
      WindowKeepsOrder(front, time);
      WindowIsPart(front, time, last.time);
      OrderedNext(Window(front, time), last);
    }
  }

  lemma {:induction false} PruneIsWindow(list: seq<PerformInfo>, time: int)
    requires NonDecreasing(list)
    ensures Prune(list, time) == Window(list, time)
    decreases |list|
  {
    if list != [] && list[0].time < time - SECOND {
      PruneIsWindow(list[1..], time);
      WindowCons(list[0], list[1..], time);
      assert list == [list[0]] + list[1..];
    } else {
      WindowIsAll(list, time);
    }
  }

  lemma {:induction false} WindowCons(p: PerformInfo, list: seq<PerformInfo>, time: int)
    requires p.time < time - SECOND
    ensures Window([p] + list, time) == Window(list, time)
    decreases |list|
  {
    if list == [] {
      assert ([p] + list)[..0] == [];
    } else {
      assert ([p] + list)[..|list|] == [p] + list[..|list| - 1];
      WindowCons(p, list[..|list| - 1], time);
    }
  }

  lemma {:induction false} WindowIsAll(list: seq<PerformInfo>, time: int)
    requires forall p <- list :: p.time >= time - SECOND
    ensures Window(list, time) == list
    decreases |list|
  {
    if list != [] {
      WindowIsAll(list[..|list| - 1], time);
    }
  }

  lemma NextWindow(front: seq<PerformInfo>, last: PerformInfo, early: int)
    requires NonDecreasing(front + [last]) && early <= last.time
    ensures Prune(Window(front, early) + [last], last.time) == Window(front + [last], last.time)
  {
    var list := Window(front, early);
    OrderedNext(front, last);
    WindowKeepsOrder(front, early);
    WindowIsPart(front, early, last.time);
    OrderedNext(list, last);
    PruneIsWindow(list + [last], last.time);
    WindowOfWindow(front, early, last.time);
    assert (list + [last])[..|list|] == list && (front + [last])[..|front|] == front;
  }

  /** With a clock that does not run backwards the deque holds exactly the last second of the history. */
  lemma {:induction false} DequeIsLastSecond(history: seq<PerformInfo>)
    requires history != [] && NonDecreasing(history)
    ensures Deque(history) == Window(history, history[|history| - 1].time)
    decreases |history|
  {
    var n := |history| - 1;
    var front, last := history[..n], history[n];
    assert history == front + [last];
    if n > 0 {
      DequeIsLastSecond(front);
      NextWindow(front, last, front[n - 1].time);
    } else {
      NextWindow(front, last, last.time);
    }
  }

  /** It is the end of the history from the first entry on that is at most 1000000 microseconds older than the last. */
  lemma DequeIsSuffix(history: seq<PerformInfo>) returns (k: nat)
    requires history != [] && NonDecreasing(history)
    ensures k < |history| && Deque(history) == history[k..]
    ensures forall i :: 0 <= i < |history| ==> (i >= k <==> history[|history| - 1].time - history[i].time <= 1000000)
  {
    DequeIsLastSecond(history);
    k := WindowIsSuffix(history, history[|history| - 1].time);
  }

  ghost predicate SuffixFrom(history: seq<PerformInfo>, time: int, k: nat) {
    k <= |history| && forall i :: 0 <= i < |history| ==> (i >= k <==> history[i].time >= time - SECOND)
  }

  lemma SuffixNext(front: seq<PerformInfo>, last: PerformInfo, time: int, k: nat)
    requires NonDecreasing(front + [last]) && SuffixFrom(front, time, k)
    ensures SuffixFrom(front + [last], time, if last.time >= time - SECOND then k else |front| + 1)
    ensures last.time < time - SECOND ==> front[k..] == []
  {
    OrderedNext(front, last);
    if k < |front| {
      assert front[k].time <= last.time;
    }
  }

  lemma {:induction false} WindowIsSuffix(history: seq<PerformInfo>, time: int) returns (k: nat)
    requires NonDecreasing(history)
    ensures SuffixFrom(history, time, k) && Window(history, time) == history[k..]
    decreases |history|
  {
    if history == [] {
      k := 0;
    } else {
      var front, last := history[..|history| - 1], history[|history| - 1];
      assert history == front + [last];
      OrderedNext(front, last);
      var j := WindowIsSuffix(front, time);
      SuffixNext(front, last, time, j);
      k := if last.time >= time - SECOND then j else |front| + 1;
    }
  }
}
