/** The bounded queue: a monitor with one mutex and ONE condition variable, woken with notify_one. */
module BufferQueue {
  import opened Common

  type Tid = nat

  /** The monitor with the two histories; a thread in `waiting` is blocked in cv_.wait. */
  datatype State<T> = State(
    capacity: nat,
    producers: set<Tid>,
    consumers: set<Tid>,
    q: seq<T>,
    waiting: set<Tid>,
    pushed: seq<T>,
    popped: seq<T>)

  // ---------------------------------------------------------------- steps

  /** notify_one: nothing happens without waiters, otherwise an arbitrary waiter leaves. */
  ghost predicate NotifyOne(before: set<Tid>, after: set<Tid>) {
    if before == {} then after == {} else exists t :: t in before && after == before - {t}
  }

  /** One pass of a producer through the critical section: it stores its item or goes to wait. */
  ghost predicate PushStep<T>(s: State, s': State, t: Tid, x: T) {
    && t in s.producers && t !in s.waiting
    && if |s.q| == s.capacity then s' == s.(waiting := s.waiting + {t})
       else && NotifyOne(s.waiting, s'.waiting)
            && s' == s.(q := s.q + [x], pushed := s.pushed + [x], waiting := s'.waiting)
  }

  /** One pass of a consumer. */
  ghost predicate PopStep<T>(s: State, s': State, t: Tid) {
    && t in s.consumers && t !in s.waiting
    && if s.q == [] then s' == s.(waiting := s.waiting + {t})
       else && NotifyOne(s.waiting, s'.waiting)
            && s' == s.(q := s.q[1..], popped := s.popped + [s.q[0]], waiting := s'.waiting)
  }

  /** A wait may also return without a notification. */
  ghost predicate SpuriousStep<T>(s: State, s': State, t: Tid) {
    t in s.waiting && s' == s.(waiting := s.waiting - {t})
  }

  /** A step of a producer or a consumer, no spurious wake-up. */
  ghost predicate Acts<T(!new)>(s: State, s': State) {
    || (exists t, x :: PushStep(s, s', t, x))
    || (exists t :: PopStep(s, s', t))
  }

  ghost predicate Next<T(!new)>(s: State, s': State) {
    Acts(s, s') || exists t :: SpuriousStep(s, s', t)
  }

  function Init<T>(capacity: nat, producers: set<Tid>, consumers: set<Tid>): State<T> {
    State(capacity, producers, consumers, [], {}, [], [])
  }

  ghost predicate IsRun<T(!new)>(run: seq<State<T>>) {
    && run != []
    && forall i :: 0 <= i < |run| - 1 ==> Next(run[i], run[i + 1])
  }

  /** A run of a system with the given threads, from the empty queue. */
  ghost predicate IsRunFrom<T(!new)>(run: seq<State<T>>, capacity: nat, producers: set<Tid>, consumers: set<Tid>) {
    IsRun(run) && run[0] == Init(capacity, producers, consumers)
  }

  /** Every thread is blocked, so no thread is left to notify anyone. */
  ghost predicate Deadlocked<T>(s: State<T>) {
    s.waiting == s.producers + s.consumers
  }

  // ---------------------------------------------------------------- the class

  class BufferQueue<T> {
    const capacity: nat
    var q_: seq<T>
    /** Threads blocked in cv_.wait. */
    var waiting: set<Tid>
    ghost const producers: set<Tid>
    ghost const consumers: set<Tid>
    ghost var pushed: seq<T>
    ghost var popped: seq<T>

    ghost function Model(): State<T>
      reads this
    {
      State(capacity, producers, consumers, q_, waiting, pushed, popped)
    }

    constructor (size: nat, ghost producers: set<Tid>, ghost consumers: set<Tid>)
      ensures Model() == Init(size, producers, consumers)
    {
      capacity := size;
      this.producers, this.consumers := producers, consumers;
      q_, waiting, pushed, popped := [], {}, [], [];
    }

    method NotifyWaiter()
      modifies this`waiting
      ensures NotifyOne(old(waiting), waiting)
    {
      if waiting != {} {
        var t :| t in waiting;
        waiting := waiting - {t};
      }
    }

    /** One pass through the loop of Push, from holding the mutex to releasing it; `done` when Push returns. */
    method Push(me: Tid, data: T) returns (done: bool)
      requires me in producers && me !in waiting
      modifies this
      ensures done == (|old(q_)| != capacity)
      ensures PushStep(old(Model()), Model(), me, data)
    {
      if |q_| == capacity {
        waiting := waiting + {me};
        return false;
      }
      q_ := q_ + [data];
      pushed := pushed + [data];
      NotifyWaiter();
      done := true;
    }

    /** One pass through the loop of Pop; the item is there when Pop returns. */
    method Pop(me: Tid) returns (data: Option<T>)
      requires me in consumers && me !in waiting
      modifies this
      ensures data == if old(q_) == [] then None else Some(old(q_)[0])
      ensures PopStep(old(Model()), Model(), me)
    {
      if q_ == [] {
        waiting := waiting + {me};
        return None;
      }
      data := Some(q_[0]);
      popped := popped + [q_[0]];
      q_ := q_[1..];
      NotifyWaiter();
    }
  }

  // ---------------------------------------------------------------- FIFO and bounds

  ghost predicate Fifo<T>(s: State<T>) {
    && s.pushed == s.popped + s.q
    && |s.q| <= s.capacity
    && s.waiting <= s.producers + s.consumers
  }

  lemma FifoStep<T(!new)>(s: State<T>, s': State<T>)
    requires Fifo(s) && Next(s, s')
    ensures Fifo(s')
  {
    if t :| PopStep(s, s', t) {
      if s.q != [] {
        assert s.popped + s.q == s.popped + [s.q[0]] + s.q[1..];
      }
    } else if t, x :| PushStep(s, s', t, x) {
      assert s.popped + s.q + [x] == s.popped + (s.q + [x]);
    }
  }

  /** Under every schedule the popped items followed by the queue are the pushed items, in order. */
  lemma {:induction false} RunIsFifo<T(!new)>(run: seq<State<T>>, capacity: nat, producers: set<Tid>, consumers: set<Tid>)
    requires IsRunFrom(run, capacity, producers, consumers)
    ensures forall s <- run :: Fifo(s)
    decreases |run|
  {
    var n := |run| - 1;
    if n > 0 {
      RunIsFifo(run[..n], capacity, producers, consumers);
      assert run[n - 1] in run[..n] && Next(run[n - 1], run[n]);
      FifoStep(run[n - 1], run[n]);
      assert run == run[..n] + [run[n]];
    }
  }

  // ---------------------------------------------------------------- deadlock freedom

  /** What deadlock depends on: queue length, waiting producers, waiting consumers. */
  datatype Counts = Counts(n: nat, wp: nat, wc: nat)

  ghost function Abs<T>(s: State<T>): Counts {
    Counts(|s.q|, |s.waiting * s.producers|, |s.waiting * s.consumers|)
  }

  predicate Woken(a: Counts, b: Counts) {
    || (a.wp == 0 && a.wc == 0 && b.wp == 0 && b.wc == 0)
    || (a.wp > 0 && b.wp == a.wp - 1 && b.wc == a.wc)
    || (a.wc > 0 && b.wp == a.wp && b.wc == a.wc - 1)
  }

  /** The steps of `P` producers and `C` consumers over capacity `K`, on the counts alone. */
  predicate CountsNext(a: Counts, b: Counts, P: nat, C: nat, K: nat) {
    || (a.wp < P && a.n == K && b == a.(wp := a.wp + 1))
    || (a.wp < P && a.n < K && b.n == a.n + 1 && Woken(a, b))
    || (a.wc < C && a.n == 0 && b == a.(wc := a.wc + 1))
    || (a.wc < C && a.n > 0 && b.n == a.n - 1 && Woken(a, b))
    || (a.wp > 0 && b == a.(wp := a.wp - 1))
    || (a.wc > 0 && b == a.(wc := a.wc - 1))
  }

  /** Coming up from the empty queue: every item stored so far has woken somebody. */
  predicate ComingUp(a: Counts, P: nat, C: nat, K: nat) {
    && a.wp <= Max(0, P - K)
    && a.wp + a.wc <= Max(0, C + Max(0, P - K) - a.n)
  }

  /** Coming down from the full queue: every item taken so far has woken somebody. */
  predicate ComingDown(a: Counts, P: nat, C: nat, K: nat) {
    && a.wc <= Max(0, C - K)
    && a.wp + a.wc <= Max(0, P + Max(0, C - K) - (K - a.n))
  }

  predicate CountsInv(a: Counts, P: nat, C: nat, K: nat) {
    a.n <= K && a.wp <= P && a.wc <= C && (ComingUp(a, P, C, K) || ComingDown(a, P, C, K))
  }

  lemma CountsInvStep(a: Counts, b: Counts, P: nat, C: nat, K: nat)
    requires P + C <= 2 * K && CountsInv(a, P, C, K) && CountsNext(a, b, P, C, K)
    ensures CountsInv(b, P, C, K)
  {
    if a.wp < P && a.n == K && b == a.(wp := a.wp + 1) {
      assert ComingDown(b, P, C, K);
    } else if a.wc < C && a.n == 0 && b == a.(wc := a.wc + 1) {
      assert ComingUp(b, P, C, K);
    }
  }

  lemma WakeCounts(before: set<Tid>, after: set<Tid>, producers: set<Tid>, consumers: set<Tid>, n: nat, m: nat)
    requires producers !! consumers && before <= producers + consumers && NotifyOne(before, after)
    ensures Woken(Counts(n, |before * producers|, |before * consumers|),
                  Counts(m, |after * producers|, |after * consumers|))
  {
    if before != {} {
      var t :| t in before && after == before - {t};
      RemoveCounts(before, t, producers, consumers);
    }
  }

  lemma RemoveCounts(w: set<Tid>, t: Tid, producers: set<Tid>, consumers: set<Tid>)
    requires producers !! consumers && t in w && w <= producers + consumers
    ensures t in producers ==> |(w - {t}) * producers| == |w * producers| - 1 && (w - {t}) * consumers == w * consumers
    ensures t in consumers ==> |(w - {t}) * consumers| == |w * consumers| - 1 && (w - {t}) * producers == w * producers
  {
    if t in producers {
      assert (w - {t}) * producers == w * producers - {t};
    } else {
      assert (w - {t}) * consumers == w * consumers - {t};
    }
  }

  lemma WaiterBelowTotal(w: set<Tid>, t: Tid, group: set<Tid>)
    requires t in group && t !in w
    ensures |w * group| < |group|
  {
    assert w * group <= group - {t};
    SubsetSize(w * group, group - {t});
  }

  lemma AllWaitingCount(w: set<Tid>, group: set<Tid>)
    ensures group <= w ==> |w * group| == |group|
  {
    if group <= w {
      assert w * group == group;
    }
  }

  lemma AbsPush<T>(s: State<T>, s': State<T>, t: Tid, x: T)
    requires s.producers !! s.consumers && Fifo(s) && PushStep(s, s', t, x)
    ensures CountsNext(Abs(s), Abs(s'), |s.producers|, |s.consumers|, s.capacity)
  {
    WaiterBelowTotal(s.waiting, t, s.producers);
    if |s.q| == s.capacity {
      RemoveCounts(s'.waiting, t, s.producers, s.consumers);
      assert s'.waiting - {t} == s.waiting;
    } else {
      WakeCounts(s.waiting, s'.waiting, s.producers, s.consumers, |s.q|, |s'.q|);
    }
  }

  lemma AbsPop<T>(s: State<T>, s': State<T>, t: Tid)
    requires s.producers !! s.consumers && Fifo(s) && PopStep(s, s', t)
    ensures CountsNext(Abs(s), Abs(s'), |s.producers|, |s.consumers|, s.capacity)
  {
    WaiterBelowTotal(s.waiting, t, s.consumers);
    if s.q == [] {
      RemoveCounts(s'.waiting, t, s.producers, s.consumers);
      assert s'.waiting - {t} == s.waiting;
    } else {
      WakeCounts(s.waiting, s'.waiting, s.producers, s.consumers, |s.q|, |s'.q|);
    }
  }

  lemma AbsSpurious<T>(s: State<T>, s': State<T>, t: Tid)
    requires s.producers !! s.consumers && Fifo(s) && SpuriousStep(s, s', t)
    ensures CountsNext(Abs(s), Abs(s'), |s.producers|, |s.consumers|, s.capacity)
  {
    RemoveCounts(s.waiting, t, s.producers, s.consumers);
  }

  /** The counts simulate the threads. */
  lemma AbsStep<T(!new)>(s: State<T>, s': State<T>)
    requires s.producers !! s.consumers && Fifo(s) && Next(s, s')
    ensures CountsNext(Abs(s), Abs(s'), |s.producers|, |s.consumers|, s.capacity)
  {
    if t, x :| PushStep(s, s', t, x) {
      AbsPush(s, s', t, x);
    } else if t :| PopStep(s, s', t) {
      AbsPop(s, s', t);
    } else {
      var t :| SpuriousStep(s, s', t);
      AbsSpurious(s, s', t);
    }
  }

  lemma RunShape<T(!new)>(run: seq<State<T>>, capacity: nat, producers: set<Tid>, consumers: set<Tid>)
    requires IsRunFrom(run, capacity, producers, consumers)
    ensures forall s <- run :: s.producers == producers && s.consumers == consumers && s.capacity == capacity
  {
    var i := 0;
    while i < |run| - 1
      invariant 0 <= i <= |run| - 1
      invariant forall j :: 0 <= j <= i ==>
                  run[j].producers == producers && run[j].consumers == consumers && run[j].capacity == capacity
    {
      assert Next(run[i], run[i + 1]);
      i := i + 1;
    }
  }

  lemma {:induction false} RunKeepsCounts<T(!new)>(run: seq<State<T>>, i: nat, capacity: nat, producers: set<Tid>, consumers: set<Tid>)
    requires IsRunFrom(run, capacity, producers, consumers) && producers !! consumers && i < |run|
    requires |producers| + |consumers| <= 2 * capacity
    ensures CountsInv(Abs(run[i]), |producers|, |consumers|, capacity)
  {
    if i > 0 {
      RunKeepsCounts(run, i - 1, capacity, producers, consumers);
      var s, s' := run[i - 1], run[i];
      RunShape(run, capacity, producers, consumers);
      RunIsFifo(run, capacity, producers, consumers);
      assert s in run && Next(s, s');
      AbsStep(s, s');
      CountsInvStep(Abs(s), Abs(s'), |producers|, |consumers|, capacity);
    }
  }

  /** With at most twice as many threads as slots, no schedule blocks every thread. */
  lemma NoDeadlock<T(!new)>(run: seq<State<T>>, capacity: nat, producers: set<Tid>, consumers: set<Tid>)
    requires IsRunFrom(run, capacity, producers, consumers) && producers !! consumers
    requires producers != {} && consumers != {}
    requires |producers| + |consumers| <= 2 * capacity
    ensures forall s <- run :: !Deadlocked(s)
  {
    RunShape(run, capacity, producers, consumers);
    forall i | 0 <= i < |run|
      ensures !Deadlocked(run[i])
    {
      var s := run[i];
      assert s in run;
      RunKeepsCounts(run, i, capacity, producers, consumers);
      AllWaitingCount(s.waiting, producers);
      AllWaitingCount(s.waiting, consumers);
    }
  }

  // ---------------------------------------------------------------- deadlock beyond the bound

  /** A run that ends in state `last`. */
  ghost predicate Reaches<T(!new)>(capacity: nat, producers: set<Tid>, consumers: set<Tid>, last: State<T>) {
    exists run :: IsRunFrom(run, capacity, producers, consumers) && run[|run| - 1] == last
  }

  /** A run in which nobody wakes up without a notification. */
  ghost predicate IsNotifiedRun<T(!new)>(run: seq<State<T>>, capacity: nat, producers: set<Tid>, consumers: set<Tid>) {
    && IsRunFrom(run, capacity, producers, consumers)
    && forall i :: 0 <= i < |run| - 1 ==> Acts(run[i], run[i + 1])
  }

  ghost predicate ReachesNotified<T(!new)>(capacity: nat, producers: set<Tid>, consumers: set<Tid>, last: State<T>) {
    exists run :: IsNotifiedRun(run, capacity, producers, consumers) && run[|run| - 1] == last
  }

  /** Some state reached by notifications alone has these counts. */
  ghost predicate ReachesCounts<T(!new)>(x: T, capacity: nat, producers: set<Tid>, consumers: set<Tid>, c: Counts) {
    exists s: State<T> :: ReachesNotified(capacity, producers, consumers, s) && Abs(s) == c
  }

  lemma ReachesNext<T(!new)>(capacity: nat, producers: set<Tid>, consumers: set<Tid>, s: State<T>, s': State<T>)
    requires ReachesNotified(capacity, producers, consumers, s) && Acts(s, s')
    ensures ReachesNotified(capacity, producers, consumers, s')
  {
    var run :| IsNotifiedRun(run, capacity, producers, consumers) && run[|run| - 1] == s;
    var longer := run + [s'];
    assert IsNotifiedRun(longer, capacity, producers, consumers) && longer[|longer| - 1] == s';
  }

  /** A non-waiting member of a group that is not wholly waiting. */
  lemma PickRunning(w: set<Tid>, group: set<Tid>) returns (t: Tid)
    requires |w * group| < |group|
    ensures t in group && t !in w
  {
    AllWaitingCount(w, group);
    t :| t in group && t !in w;
  }

  /** A waiter of the kind whose count drops, and the set without it. */
  lemma PickWoken(w: set<Tid>, producers: set<Tid>, consumers: set<Tid>, a: Counts, b: Counts) returns (after: set<Tid>)
    requires producers !! consumers && w <= producers + consumers
    requires a.wp == |w * producers| && a.wc == |w * consumers| && Woken(a, b)
    ensures NotifyOne(w, after) && b.wp == |after * producers| && b.wc == |after * consumers|
  {
    if a.wp == 0 && a.wc == 0 {
      assert w == w * producers + w * consumers == {};
      after := w;
    } else {
      var t;
      if a.wp > 0 && b.wp == a.wp - 1 && b.wc == a.wc {
        t :| t in w * producers;
      } else {
        t :| t in w * consumers;
      }
      after := w - {t};
      RemoveCounts(w, t, producers, consumers);
    }
  }

  /** Every push or pop step of the counts is a step of some threads. */
  lemma LiftStep<T(!new)>(x: T, capacity: nat, producers: set<Tid>, consumers: set<Tid>, a: Counts, b: Counts)
    requires producers !! consumers
    requires ReachesCounts(x, capacity, producers, consumers, a)
    requires CountsNext(a, b, |producers|, |consumers|, capacity) && (b.wp < a.wp || b.wc < a.wc ==> a.n != b.n)
    ensures ReachesCounts(x, capacity, producers, consumers, b)
  {
    var s: State<T> :| ReachesNotified(capacity, producers, consumers, s) && Abs(s) == a;
    var run :| IsNotifiedRun(run, capacity, producers, consumers) && run[|run| - 1] == s;
    RunShape(run, capacity, producers, consumers);
    RunIsFifo(run, capacity, producers, consumers);
    assert s in run;
    var s' := s;
    if a.n == b.n {
      var t;
      if b.wp == a.wp + 1 {
        t := PickRunning(s.waiting, producers);
      } else {
        t := PickRunning(s.waiting, consumers);
      }
      s' := s.(waiting := s.waiting + {t});
      assert s'.waiting - {t} == s.waiting;
      RemoveCounts(s'.waiting, t, producers, consumers);
      assert PushStep(s, s', t, x) || PopStep(s, s', t);
    } else {
      var after := PickWoken(s.waiting, producers, consumers, a, b);
      if b.n == a.n + 1 {
        var t := PickRunning(s.waiting, producers);
        s' := s.(q := s.q + [x], pushed := s.pushed + [x], waiting := after);
        assert PushStep(s, s', t, x);
      } else {
        var t := PickRunning(s.waiting, consumers);
        s' := s.(q := s.q[1..], popped := s.popped + [s.q[0]], waiting := after);
        assert PopStep(s, s', t);
      }
    }
    ReachesNext(capacity, producers, consumers, s, s');
    assert Abs(s') == b;
  }

  /** At the full queue all producers can come to wait. */
  lemma {:induction false} AllProducersWait<T(!new)>(x: T, K: nat, producers: set<Tid>, consumers: set<Tid>, wp: nat, wc: nat)
    requires producers !! consumers && wp <= |producers|
    requires ReachesCounts(x, K, producers, consumers, Counts(K, wp, wc))
    ensures ReachesCounts(x, K, producers, consumers, Counts(K, |producers|, wc))
    decreases |producers| - wp
  {
    if wp < |producers| {
      LiftStep(x, K, producers, consumers, Counts(K, wp, wc), Counts(K, wp + 1, wc));
      AllProducersWait(x, K, producers, consumers, wp + 1, wc);
    }
  }

  lemma {:induction false} AllConsumersWait<T(!new)>(x: T, K: nat, producers: set<Tid>, consumers: set<Tid>, wp: nat, wc: nat)
    requires producers !! consumers && wc <= |consumers|
    requires ReachesCounts(x, K, producers, consumers, Counts(0, wp, wc))
    ensures ReachesCounts(x, K, producers, consumers, Counts(0, wp, |consumers|))
    decreases |consumers| - wc
  {
    if wc < |consumers| {
      LiftStep(x, K, producers, consumers, Counts(0, wp, wc), Counts(0, wp, wc + 1));
      AllConsumersWait(x, K, producers, consumers, wp, wc + 1);
    }
  }

  /** Producers fill the queue; each notification goes to a waiting producer while there is one. */
  lemma {:induction false} FillUp<T(!new)>(x: T, K: nat, producers: set<Tid>, consumers: set<Tid>, n: nat, wp: nat, wc: nat)
    requires producers !! consumers && n <= K && wp < |producers|
    requires ReachesCounts(x, K, producers, consumers, Counts(n, wp, wc))
    ensures ReachesCounts(x, K, producers, consumers,
                          Counts(K, Max(0, wp - (K - n)), if K - n <= wp then wc else Max(0, wc - (K - n - wp))))
    decreases K - n
  {
    if n < K {
      var wp' := if wp > 0 then wp - 1 else 0;
      var wc' := if wp > 0 || wc == 0 then wc else wc - 1;
      LiftStep(x, K, producers, consumers, Counts(n, wp, wc), Counts(n + 1, wp', wc'));
      FillUp(x, K, producers, consumers, n + 1, wp', wc');
    }
  }

  /** Consumers drain the queue; each notification goes to a waiting consumer while there is one. */
  lemma {:induction false} Drain<T(!new)>(x: T, K: nat, producers: set<Tid>, consumers: set<Tid>, n: nat, wp: nat, wc: nat)
    requires producers !! consumers && n <= K && wc < |consumers|
    requires ReachesCounts(x, K, producers, consumers, Counts(n, wp, wc))
    ensures ReachesCounts(x, K, producers, consumers,
                          Counts(0, if n <= wc then wp else Max(0, wp - (n - wc)), Max(0, wc - n)))
    decreases n
  {
    if n > 0 {
      var wc' := if wc > 0 then wc - 1 else 0;
      var wp' := if wc > 0 || wp == 0 then wp else wp - 1;
      LiftStep(x, K, producers, consumers, Counts(n, wp, wc), Counts(n - 1, wp', wc'));
      Drain(x, K, producers, consumers, n - 1, wp', wc');
    }
  }

  /**
   * From the full queue with all producers and `wc` consumers waiting, draining and refilling
   * leaves P + C - 2K more consumers waiting, until every thread does.
   */
  lemma {:induction false} Squeeze<T(!new)>(x: T, K: nat, producers: set<Tid>, consumers: set<Tid>, wc: nat)
    requires producers !! consumers && |producers| + |consumers| > 2 * K
    requires wc <= |consumers| && |producers| + wc >= K
    requires ReachesCounts(x, K, producers, consumers, Counts(K, |producers|, wc))
    ensures exists n :: ReachesCounts(x, K, producers, consumers, Counts(n, |producers|, |consumers|))
    decreases |consumers| - wc
  {
    var P, C := |producers|, |consumers|;
    if wc < C {
      Drain(x, K, producers, consumers, K, P, wc);
      var wp := if K <= wc then P else P - (K - wc);
      AllConsumersWait(x, K, producers, consumers, wp, Max(0, wc - K));
      if wp < P {
        FillUp(x, K, producers, consumers, 0, wp, C);
        var wc' := if K <= wp then C else C - (K - wp);
        assert wc' > wc && wc' >= 0;
        AllProducersWait(x, K, producers, consumers, Max(0, wp - K), wc');
        Squeeze(x, K, producers, consumers, wc');
      }
    }
  }

  /** With more than twice as many threads as slots, some schedule blocks every thread, without spurious wake-ups. */
  lemma DeadlockReachable<T(!new)>(x: T, K: nat, producers: set<Tid>, consumers: set<Tid>)
    requires producers !! consumers && producers != {} && consumers != {}
    requires |producers| + |consumers| > 2 * K
    ensures exists s: State<T> :: ReachesNotified(K, producers, consumers, s) && Deadlocked(s)
  {
    var start := Init<T>(K, producers, consumers);
    assert IsNotifiedRun([start], K, producers, consumers) && [start][|[start]| - 1] == start;
    assert Abs(start) == Counts(0, 0, 0);
    assert ReachesCounts(x, K, producers, consumers, Counts(0, 0, 0));
    AllConsumersWait(x, K, producers, consumers, 0, 0);
    FillUp(x, K, producers, consumers, 0, 0, |consumers|);
    var wc := Max(0, |consumers| - K);
    AllProducersWait(x, K, producers, consumers, 0, wc);
    Squeeze(x, K, producers, consumers, wc);
    var n :| ReachesCounts(x, K, producers, consumers, Counts(n, |producers|, |consumers|));
    var s: State<T> :| ReachesNotified(K, producers, consumers, s) && Abs(s) == Counts(n, |producers|, |consumers|);
    var run :| IsNotifiedRun(run, K, producers, consumers) && run[|run| - 1] == s;
    RunShape(run, K, producers, consumers);
    RunIsFifo(run, K, producers, consumers);
    assert s in run;
    SubsetSize(s.waiting * producers, producers);
    SubsetSize(s.waiting * consumers, consumers);
    assert Deadlocked(s);
  }

  /**
   * The queue is free of deadlock exactly when there are at most twice as many threads as slots, and
   * spurious wake-ups make no difference to that.
   */
  lemma DeadlockFreeIff<T(!new)>(x: T, K: nat, producers: set<Tid>, consumers: set<Tid>)
    requires producers !! consumers && producers != {} && consumers != {}
    ensures (forall s: State<T> :: Reaches(K, producers, consumers, s) ==> !Deadlocked(s))
       <==> |producers| + |consumers| <= 2 * K
    ensures (forall s: State<T> :: ReachesNotified(K, producers, consumers, s) ==> !Deadlocked(s))
       <==> |producers| + |consumers| <= 2 * K
  {
    if |producers| + |consumers| <= 2 * K {
      forall s: State<T> | Reaches(K, producers, consumers, s)
        ensures !Deadlocked(s)
      {
        var run :| IsRunFrom(run, K, producers, consumers) && run[|run| - 1] == s;
        NoDeadlock(run, K, producers, consumers);
        assert s in run;
      }
      forall s: State<T> | ReachesNotified(K, producers, consumers, s)
        ensures Reaches(K, producers, consumers, s)
      {
        NotifiedReaches(K, producers, consumers, s);
      }
    } else {
      DeadlockReachable(x, K, producers, consumers);
      var s: State<T> :| ReachesNotified(K, producers, consumers, s) && Deadlocked(s);
      NotifiedReaches(K, producers, consumers, s);
    }
  }

  lemma NotifiedReaches<T(!new)>(K: nat, producers: set<Tid>, consumers: set<Tid>, s: State<T>)
    requires ReachesNotified(K, producers, consumers, s)
    ensures Reaches(K, producers, consumers, s)
  {
    var run :| IsNotifiedRun(run, K, producers, consumers) && run[|run| - 1] == s;
    assert IsRunFrom(run, K, producers, consumers);
  }
}
