/** Reassembly of fragmented messages that arrive out of order and interleaved (NetworkSource::dataIntegration). */
module Reassembly {
  import opened Common

  /** A received buffer after header decoding; a buffer without a valid header is Invalid. */
  datatype Packet =
    | Invalid
    | Fragment(key: string, fragment: int, total: int, header: string, payload: string)

  type Slots = seq<string>

  predicate Complete(slots: Slots) {
    forall i :: 0 <= i < |slots| ==> slots[i] != ""
  }

  function Blank(n: nat): (s: Slots)
    ensures |s| == n
  {
    seq(n, _ => "")
  }

  // ---------------------------------------------------------------- one key

  /** The packet is stored; vector::at and the vector constructor throw on bad numbers. */
  function Store(slots: Option<Slots>, p: Packet): Option<Slots> {
    if p.Invalid? then slots
    else match slots
      case Some(s) => if 0 <= p.fragment < |s| then Some(s[p.fragment := p.payload]) else slots
      case None =>
        if 0 <= p.fragment < p.total then Some(Blank(p.total)[p.fragment := p.header + p.payload]) else None
  }

  predicate Throws(slots: Option<Slots>, p: Packet) {
    p.Fragment? && !(0 <= p.fragment < (if slots.Some? then |slots.value| else p.total))
  }

  /** What one packet of a key does to the key's slots, and the message it completes. */
  function KeyStep(slots: Option<Slots>, p: Packet): (Option<Slots>, Option<string>) {
    if p.Invalid? || Throws(slots, p) then (slots, None)
    else
      var s := Store(slots, p);
      if s.Some? && Complete(s.value) then (None, Some(Concat(s.value))) else (s, None)
  }

  function KeyRun(qs: seq<Packet>): (Option<Slots>, seq<string>) {
    if qs == [] then (None, [])
    else
      var (slots, outs) := KeyRun(qs[..|qs| - 1]);
      var (slots', out) := KeyStep(slots, qs[|qs| - 1]);
      (slots', if out.Some? then outs + [out.value] else outs)
  }

  // ---------------------------------------------------------------- all keys

  type RecvDataMap = map<string, Slots>

  function Lookup(m: RecvDataMap, key: string): Option<Slots> {
    if key in m then Some(m[key]) else None
  }

  /** Storing slots under a key, or erasing the key. */
  function Update(m: RecvDataMap, key: string, slots: Option<Slots>): RecvDataMap {
    match slots
    case Some(s) => m[key := s]
    case None => m - {key}
  }

  function MapStep(m: RecvDataMap, p: Packet): (RecvDataMap, Option<string>) {
    if p.Invalid? then (m, None)
    else
      var (slots, out) := KeyStep(Lookup(m, p.key), p);
      (Update(m, p.key, slots), out)
  }

  /** The map and the completed messages with their keys, after a sequence of packets. */
  function MapRun(ps: seq<Packet>): (RecvDataMap, seq<(string, string)>) {
    if ps == [] then (map[], [])
    else
      var (m, outs) := MapRun(ps[..|ps| - 1]);
      var p := ps[|ps| - 1];
      var (m', out) := MapStep(m, p);
      (m', if out.Some? && p.Fragment? then outs + [(p.key, out.value)] else outs)
  }

  function ForKey(ps: seq<Packet>, key: string): seq<Packet> {
    if ps == [] then []
    else
      var front, p := ForKey(ps[..|ps| - 1], key), ps[|ps| - 1];
      if p.Fragment? && p.key == key then front + [p] else front
  }

  function OutputsOf(outs: seq<(string, string)>, key: string): seq<string> {
    if outs == [] then []
    else
      var front, o := OutputsOf(outs[..|outs| - 1], key), outs[|outs| - 1];
      if o.0 == key then front + [o.1] else front
  }

  class NetworkSource {
    var recvDataMap: RecvDataMap

    constructor ()
      ensures recvDataMap == map[]
    {
      recvDataMap := map[];
    }

    /** `thrown` when vector::at or the vector constructor throws; the result is empty until a message is complete. */
    method DataIntegration(buf: Packet) returns (result: string, thrown: bool)
      modifies this
      ensures thrown == (buf.Fragment? && Throws(Lookup(old(recvDataMap), buf.key), buf))
      ensures recvDataMap == MapStep(old(recvDataMap), buf).0
      ensures var out := MapStep(old(recvDataMap), buf).1;
              result == if out.Some? then out.value else ""
    {
      result, thrown := "", false;
      if buf.Invalid? {
        return;
      }
      var key := buf.key;
      if key in recvDataMap {
        if !(0 <= buf.fragment < |recvDataMap[key]|) {
          thrown := true;
          assert Update(recvDataMap, key, Lookup(recvDataMap, key)) == recvDataMap;
          return;
        }
        recvDataMap := recvDataMap[key := recvDataMap[key][buf.fragment := buf.payload]];
      } else {
        if !(0 <= buf.fragment < buf.total) {
          thrown := true;
          return;
        }
        var data := Blank(buf.total);
        data := data[buf.fragment := buf.header + buf.payload];
        recvDataMap := recvDataMap[key := data];
      }
      var recvFinish := AllArrived(recvDataMap[key]);
      if recvFinish {
        result := Joined(recvDataMap[key]);
        recvDataMap := recvDataMap - {key};
      }
    }
  }

  /** The loop that looks for an empty slot. */
  method AllArrived(slots: Slots) returns (recvFinish: bool)
    ensures recvFinish <==> Complete(slots)
  {
    recvFinish := true;
    for i := 0 to |slots|
      invariant recvFinish <==> forall j :: 0 <= j < i ==> slots[j] != ""
    {
      if |slots[i]| == 0 {
        recvFinish := false;
      }
    }
  }

  /** The loop that strings the slots together. */
  method Joined(slots: Slots) returns (result: string)
    ensures result == Concat(slots)
  {
    result := "";
    for i := 0 to |slots|
      invariant result == Concat(slots[..i])
    {
      assert slots[..i + 1][..i] == slots[..i];
      result := result + slots[i];
    }
    assert slots[..|slots|] == slots;
  }

  // ---------------------------------------------------------------- independence of keys

  lemma StepOtherKey(m: RecvDataMap, p: Packet, key: string)
    ensures p.Invalid? || p.key != key ==> Lookup(MapStep(m, p).0, key) == Lookup(m, key)
    ensures p.Fragment? && p.key == key ==> Lookup(MapStep(m, p).0, key) == KeyStep(Lookup(m, key), p).0
  {
  }

  lemma OutputsNext(outs: seq<(string, string)>, o: (string, string), key: string)
    ensures OutputsOf(outs + [o], key) == if o.0 == key then OutputsOf(outs, key) + [o.1] else OutputsOf(outs, key)
  {
    assert (outs + [o])[..|outs|] == outs;
  }

  /** Whatever other messages are interleaved, a key sees its own packets only. */
  lemma {:induction false} KeysAreIndependent(ps: seq<Packet>, key: string)
    ensures Lookup(MapRun(ps).0, key) == KeyRun(ForKey(ps, key)).0
    ensures OutputsOf(MapRun(ps).1, key) == KeyRun(ForKey(ps, key)).1
    decreases |ps|
  {
    if ps != [] {
      var front, p := ps[..|ps| - 1], ps[|ps| - 1];
      KeysAreIndependent(front, key);
      var (m, outs) := MapRun(front);
      StepOtherKey(m, p, key);
      var (m', out) := MapStep(m, p);
      if out.Some? && p.Fragment? {
        OutputsNext(outs, (p.key, out.value), key);
      }
      var qs := ForKey(front, key);
      assert (qs + [p])[..|qs|] == qs;
    }
  }

  /** Every entry left in the map still waits for a fragment, after any packets whatsoever. */
  lemma {:induction false} EntriesAreIncomplete(ps: seq<Packet>)
    ensures forall key <- MapRun(ps).0 :: !Complete(MapRun(ps).0[key])
    decreases |ps|
  {
    if ps != [] {
      EntriesAreIncomplete(ps[..|ps| - 1]);
    }
  }

  // ---------------------------------------------------------------- deliveries

  predicate Seen(qs: seq<Packet>, n: nat, i: int)
    requires n <= |qs|
  {
    exists j :: 0 <= j < n && qs[j].Fragment? && qs[j].fragment == i
  }

  /**
   * The fragments of one message in any order, copies among them, up to the packet that brings the
   * last missing one. Only the first packet's total is looked at; empty payloads never fill a slot.
   */
  ghost predicate Delivery(qs: seq<Packet>, total: nat) {
    && qs != [] && qs[0].Fragment? && qs[0].total == total
    && (forall j :: 0 <= j < |qs| ==> qs[j].Fragment? && 0 <= qs[j].fragment < total && qs[j].payload != "")
    && (forall i :: 0 <= i < total ==> Seen(qs, |qs|, i))
    && !Seen(qs, |qs| - 1, qs[|qs| - 1].fragment)
  }

  /** The slot text a packet leaves: the first packet of a message keeps its header. */
  function Text(qs: seq<Packet>, j: nat): string
    requires j < |qs| && qs[j].Fragment?
  {
    if j == 0 then qs[j].header + qs[j].payload else qs[j].payload
  }

  /** The text of the latest of the first n packets for slot i. */
  function Latest(qs: seq<Packet>, n: nat, i: int): string
    requires n <= |qs| && forall j :: 0 <= j < |qs| ==> qs[j].Fragment?
  {
    if n == 0 then "" else if qs[n - 1].fragment == i then Text(qs, n - 1) else Latest(qs, n - 1, i)
  }

  ghost predicate FilledBy(qs: seq<Packet>, total: nat, n: nat, slots: Slots)
    requires Delivery(qs, total) && n <= |qs|
  {
    |slots| == total && forall i :: 0 <= i < total ==> slots[i] == Latest(qs, n, i)
  }

  lemma {:induction false} LatestOfSeen(qs: seq<Packet>, total: nat, n: nat, i: int)
    requires Delivery(qs, total) && n <= |qs|
    ensures Latest(qs, n, i) != "" <==> Seen(qs, n, i)
    decreases n
  {
    if n > 0 {
      LatestOfSeen(qs, total, n - 1, i);
      assert Seen(qs, n, i) <==> Seen(qs, n - 1, i) || qs[n - 1].fragment == i;
    }
  }

  /** Some slot is still empty exactly while the last packet is outstanding. */
  lemma CompleteAtTheEnd(qs: seq<Packet>, total: nat, n: nat, slots: Slots)
    requires Delivery(qs, total) && n <= |qs| && FilledBy(qs, total, n, slots)
    ensures Complete(slots) <==> n == |qs|
  {
    if n < |qs| {
      var i := qs[|qs| - 1].fragment;
      LatestOfSeen(qs, total, n, i);
      assert Seen(qs, n, i) ==> Seen(qs, |qs| - 1, i);
      assert slots[i] == "";
    } else {
      forall i | 0 <= i < |slots|
        ensures slots[i] != ""
      {
        LatestOfSeen(qs, total, n, i);
      }
    }
  }

  lemma RunNext(before: seq<Packet>, qs: seq<Packet>, n: nat)
    requires n < |qs|
    ensures var (slots, outs) := KeyRun(before + qs[..n]);
            var (slots', out) := KeyStep(slots, qs[n]);
            KeyRun(before + qs[..n + 1]) == (slots', if out.Some? then outs + [out.value] else outs)
  {
    var run := before + qs[..n + 1];
    assert run[..|run| - 1] == before + qs[..n] && run[|run| - 1] == qs[n];
  }

  /** What a packet of a delivery does: it completes the slots exactly when it is the last. */
  ghost predicate Fills(qs: seq<Packet>, total: nat, n: nat, front: Option<Slots>, slots: Slots)
    requires Delivery(qs, total) && n < |qs|
  {
    && FilledBy(qs, total, n + 1, slots)
    && KeyStep(front, qs[n]) == if n + 1 < |qs| then (Some(slots), None) else (None, Some(Concat(slots)))
  }

  lemma FirstFills(qs: seq<Packet>, total: nat)
    requires Delivery(qs, total)
    ensures Fills(qs, total, 0, None, Blank(total)[qs[0].fragment := qs[0].header + qs[0].payload])
  {
    CompleteAtTheEnd(qs, total, 1, Blank(total)[qs[0].fragment := qs[0].header + qs[0].payload]);
  }

  lemma NextFills(qs: seq<Packet>, total: nat, n: nat, front: Slots)
    requires Delivery(qs, total) && 0 < n < |qs| && FilledBy(qs, total, n, front)
    ensures Fills(qs, total, n, Some(front), front[qs[n].fragment := qs[n].payload])
  {
    CompleteAtTheEnd(qs, total, n + 1, front[qs[n].fragment := qs[n].payload]);
  }

  /** Until the last packet of a delivery nothing is emitted; the last one emits the message and frees the key. */
  lemma {:induction false} PartialDelivery(before: seq<Packet>, qs: seq<Packet>, total: nat, n: nat) returns (slots: Slots)
    requires Delivery(qs, total) && n < |qs| && KeyRun(before).0 == None
    ensures FilledBy(qs, total, n + 1, slots)
    ensures KeyRun(before + qs[..n + 1]) ==
              if n + 1 < |qs| then (Some(slots), KeyRun(before).1) else (None, KeyRun(before).1 + [Concat(slots)])
    decreases n
  {
    RunNext(before, qs, n);
    if n == 0 {
      assert before + qs[..0] == before;
      slots := Blank(total)[qs[0].fragment := qs[0].header + qs[0].payload];
      FirstFills(qs, total);
    } else {
      var front := PartialDelivery(before, qs, total, n - 1);
      slots := front[qs[n].fragment := qs[n].payload];
      NextFills(qs, total, n, front);
    }
  }

  // ---------------------------------------------------------------- the message emitted

  /** The packets of a message: its payloads by index, and its header in fragment 0. */
  ghost predicate Carries(qs: seq<Packet>, payloads: seq<string>, header: string) {
    && Delivery(qs, |payloads|)
    && (forall j :: 0 <= j < |qs| ==> qs[j].payload == payloads[qs[j].fragment])
    && (forall j :: 0 <= j < |qs| && qs[j].fragment == 0 ==> qs[j].header == header)
  }

  /** A copy of the packet that came first arrives among the first n. */
  predicate Repeats(qs: seq<Packet>, n: nat)
    requires n <= |qs|
  {
    exists j :: 0 < j < n && qs[j].Fragment? && qs[0].Fragment? && qs[j].fragment == qs[0].fragment
  }

  /**
   * The payloads in index order, with the header of the packet that came first in front of that
   * packet's payload, unless a copy of it without header has replaced it.
   */
  function Emitted(qs: seq<Packet>, payloads: seq<string>): string
    requires qs != [] && qs[0].Fragment? && 0 <= qs[0].fragment <= |payloads|
  {
    var f := qs[0].fragment;
    if Repeats(qs, |qs|) then Concat(payloads) else Concat(payloads[..f]) + qs[0].header + Concat(payloads[f..])
  }

  lemma {:induction false} LatestIs(qs: seq<Packet>, payloads: seq<string>, header: string, n: nat, i: int)
    requires Carries(qs, payloads, header) && 0 < n <= |qs| && Seen(qs, n, i)
    ensures 0 <= i < |payloads|
    ensures Latest(qs, n, i)
         == if i == qs[0].fragment && !Repeats(qs, n) then qs[0].header + payloads[i] else payloads[i]
    decreases n
  {
    if qs[n - 1].fragment != i {
      LatestIs(qs, payloads, header, n - 1, i);
      assert i == qs[0].fragment ==> Repeats(qs, n) == Repeats(qs, n - 1);
    }
  }

  lemma SlotsArePayloads(qs: seq<Packet>, payloads: seq<string>, header: string, slots: Slots)
    requires Carries(qs, payloads, header) && FilledBy(qs, |payloads|, |qs|, slots)
    ensures slots == if Repeats(qs, |qs|) then payloads
                     else payloads[qs[0].fragment := qs[0].header + payloads[qs[0].fragment]]
  {
    forall i | 0 <= i < |payloads|
      ensures slots[i] == if i == qs[0].fragment && !Repeats(qs, |qs|) then qs[0].header + payloads[i] else payloads[i]
    {
      LatestIs(qs, payloads, header, |qs|, i);
    }
  }

  lemma ConcatAt(payloads: seq<string>, f: int)
    requires 0 <= f < |payloads|
    ensures Concat(payloads[f..]) == payloads[f] + Concat(payloads[f + 1..])
    ensures Concat(payloads) == Concat(payloads[..f]) + Concat(payloads[f..])
  {
    assert payloads[f..][1..] == payloads[f + 1..];
    ConcatCons(payloads[f..]);
    assert payloads == payloads[..f] + payloads[f..];
    ConcatAppend(payloads[..f], payloads[f..]);
  }

  lemma Regroup(a: string, header: string, p: string, rest: string)
    ensures a + ((header + p) + rest) == a + header + (p + rest)
  {
  }

  lemma ConcatWithHeader(payloads: seq<string>, f: int, header: string)
    requires 0 <= f < |payloads|
    ensures Concat(payloads[f := header + payloads[f]]) == Concat(payloads[..f]) + header + Concat(payloads[f..])
  {
    var changed := payloads[f := header + payloads[f]];
    ConcatAt(payloads, f);
    ConcatAt(changed, f);
    assert changed[..f] == payloads[..f] && changed[f + 1..] == payloads[f + 1..];
    Regroup(Concat(payloads[..f]), header, payloads[f], Concat(payloads[f + 1..]));
  }

  /** A message delivered in any order is emitted once, after its last packet, and nothing before. */
  lemma DeliveryIsEmitted(before: seq<Packet>, qs: seq<Packet>, payloads: seq<string>, header: string)
    requires Carries(qs, payloads, header) && KeyRun(before).0 == None
    ensures KeyRun(before + qs) == (None, KeyRun(before).1 + [Emitted(qs, payloads)])
    ensures forall n :: 0 < n < |qs| ==>
              KeyRun(before + qs[..n]).0.Some? && KeyRun(before + qs[..n]).1 == KeyRun(before).1
  {
    forall n | 0 < n < |qs|
      ensures KeyRun(before + qs[..n]).0.Some? && KeyRun(before + qs[..n]).1 == KeyRun(before).1
    {
      var s := PartialDelivery(before, qs, |payloads|, n - 1);
    }
    var slots := PartialDelivery(before, qs, |payloads|, |qs| - 1);
    assert qs[..|qs|] == qs;
    SlotsArePayloads(qs, payloads, header, slots);
    ConcatWithHeader(payloads, qs[0].fragment, qs[0].header);
  }

  lemma CancelTail(a: string, b: string, tail: string)
    ensures a + tail == b + tail <==> a == b
  {
    if a + tail == b + tail {
      assert |a| == |b|;
      assert a == (a + tail)[..|a|] && b == (b + tail)[..|b|];
    }
  }

  /** When exactly the message emitted is its header followed by its payloads. */
  lemma EmittedIsMessageIff(qs: seq<Packet>, payloads: seq<string>, header: string)
    requires Carries(qs, payloads, header)
    ensures var f := qs[0].fragment;
            Emitted(qs, payloads) == header + Concat(payloads) <==>
              if Repeats(qs, |qs|) then header == ""
              else Concat(payloads[..f]) + qs[0].header == header + Concat(payloads[..f])
  {
    var f := qs[0].fragment;
    ConcatAt(payloads, f);
    HeaderInPlace(Concat(payloads[..f]), qs[0].header, header, Concat(payloads[f..]));
  }

  lemma HeaderInPlace(a: string, h: string, header: string, tail: string)
    ensures a + h + tail == header + (a + tail) <==> a + h == header + a
    ensures a + tail == header + (a + tail) <==> header == ""
  {
    assert header + a + tail == header + (a + tail);
    CancelTail(a + h, header + a, tail);
    assert "" + (a + tail) == a + tail;
    CancelTail("", header, a + tail);
  }

  /** The header can be told from the first payload by its first character. */
  predicate Recognizable(header: string, payloads: seq<string>) {
    header != "" && payloads != [] && payloads[0] != "" && payloads[0][0] != header[0]
  }

  /** For such headers: if and only if fragment 0 comes first and is not repeated before completion. */
  lemma MessageIffFragmentZeroFirst(qs: seq<Packet>, payloads: seq<string>, header: string)
    requires Carries(qs, payloads, header) && Recognizable(header, payloads)
    ensures Emitted(qs, payloads) == header + Concat(payloads) <==> qs[0].fragment == 0 && !Repeats(qs, |qs|)
  {
    EmittedIsMessageIff(qs, payloads, header);
    var f := qs[0].fragment;
    if f == 0 {
      assert payloads[..0] == [] && Concat([]) + header == header + Concat([]);
    } else {
      ConcatAt(payloads[..f], 0);
      assert payloads[..f][0..] == payloads[..f] && payloads[..f][0] == payloads[0];
      assert (Concat(payloads[..f]) + qs[0].header)[0] == payloads[0][0];
      assert (header + Concat(payloads[..f]))[0] == header[0];
    }
  }

  /** When fragment 0 comes first and only once, the message is its header followed by all payloads in order. */
  lemma FirstFragmentFirst(before: seq<Packet>, qs: seq<Packet>, payloads: seq<string>, header: string)
    requires Carries(qs, payloads, header) && KeyRun(before).0 == None
    requires qs[0].fragment == 0 && !Repeats(qs, |qs|)
    ensures KeyRun(before + qs) == (None, KeyRun(before).1 + [header + Concat(payloads)])
  {
    DeliveryIsEmitted(before, qs, payloads, header);
    EmittedFirst(qs, payloads, header);
  }

  lemma EmittedFirst(qs: seq<Packet>, payloads: seq<string>, header: string)
    requires Carries(qs, payloads, header) && qs[0].fragment == 0 && !Repeats(qs, |qs|)
    ensures Emitted(qs, payloads) == header + Concat(payloads)
  {
    EmittedIsMessageIff(qs, payloads, header);
    assert payloads[..0] == [] && Concat([]) + header == header + Concat([]);
  }

  /**
   * The same in the map: however a message's packets are interleaved with those of other messages, and
   * whatever earlier messages had the key, when its fragment 0 comes first and once among its packets it
   * is emitted exactly once, and its key is freed.
   */
  lemma InterleavedMessageIsEmittedOnce(ps: seq<Packet>, key: string, before: seq<Packet>, qs: seq<Packet>,
                                        payloads: seq<string>, header: string)
    requires ForKey(ps, key) == before + qs && KeyRun(before).0 == None && Carries(qs, payloads, header)
    ensures key !in MapRun(ps).0
    ensures OutputsOf(MapRun(ps).1, key) == KeyRun(before).1 + [Emitted(qs, payloads)]
    ensures qs[0].fragment == 0 && !Repeats(qs, |qs|) ==>
              OutputsOf(MapRun(ps).1, key) == KeyRun(before).1 + [header + Concat(payloads)]
  {
    KeysAreIndependent(ps, key);
    DeliveryIsEmitted(before, qs, payloads, header);
    if qs[0].fragment == 0 && !Repeats(qs, |qs|) {
      FirstFragmentFirst(before, qs, payloads, header);
    }
  }

  /** A later fragment that comes first leaves its own header inside the message, and the message's is lost. */
  lemma LateFirstFragment()
    ensures var qs := [Fragment("k", 1, 2, "<h1>", "b"), Fragment("k", 0, 2, "<h0>", "a")];
            Carries(qs, ["a", "b"], "<h0>") && KeyRun(qs) == (None, ["a<h1>b"])
  {
    var qs := [Fragment("k", 1, 2, "<h1>", "b"), Fragment("k", 0, 2, "<h0>", "a")];
    TwoPackets(qs);
    DeliveryIsEmitted([], qs, ["a", "b"], "<h0>");
    assert [] + qs == qs;
    LateMessage();
  }

  lemma TwoPackets(qs: seq<Packet>)
    requires qs == [Fragment("k", 1, 2, "<h1>", "b"), Fragment("k", 0, 2, "<h0>", "a")]
    ensures Carries(qs, ["a", "b"], "<h0>") && !Repeats(qs, |qs|)
  {
    assert qs[0].fragment == 1 && qs[1].fragment == 0;
    assert Seen(qs, 2, 0) && Seen(qs, 2, 1) && !Seen(qs, 1, 0);
  }

  lemma LateMessage()
    ensures KeyRun([]).1 + [Concat(["a", "b"][..1]) + "<h1>" + Concat(["a", "b"][1..])] == ["a<h1>b"]
  {
    ConcatOne("a");
    ConcatOne("b");
    assert ["a", "b"][..1] == ["a"] && ["a", "b"][1..] == ["b"];
    assert "a" + "<h1>" + "b" == "a<h1>b";
  }
}
