/** Keeping the monitored edges of a vehicle in step with the edges near it (checkAreaOfMonitoredVehicle). */
module LocationManager {
  import opened Common

  /** A forwarding destination; mngID 0 means that it has not been requested yet. */
  datatype TranInfo = TranInfo(edgeSID: nat, mngID: nat)

  /** A request or its withdrawal, sent under the management id of the own station. */
  datatype Request = Add(mngID: nat, mngKey: string, edgeSID: nat) | Cancel(mngID: nat, mngKey: string, edgeSID: nat)

  predicate Distinct(ids: seq<nat>) {
    forall i, j :: 0 <= i < j < |ids| ==> ids[i] != ids[j]
  }

  predicate Monitored(list: seq<TranInfo>, edge: nat) {
    exists i :: 0 <= i < |list| && list[i].edgeSID == edge
  }

  /** The first entry of an edge. */
  function Entry(list: seq<TranInfo>, edge: nat): (i: nat)
    ensures i <= |list|
    ensures i < |list| ==> list[i].edgeSID == edge
    ensures i == |list| <==> !Monitored(list, edge)
  {
    if list == [] then 0
    else if list[0].edgeSID == edge then
      assert Monitored(list, edge);
      0
    else
      var i := Entry(list[1..], edge);
      assert Monitored(list, edge) <==> Monitored(list[1..], edge) by {
        if k :| 0 <= k < |list| && list[k].edgeSID == edge {
          assert list[1..][k - 1].edgeSID == edge;
        }
        if k :| 0 <= k < |list[1..]| && list[1..][k].edgeSID == edge {
          assert list[k + 1].edgeSID == edge;
        }
      }
      i + 1
  }

  predicate NeedsRequest(list: seq<TranInfo>, edge: nat) {
    var i := Entry(list, edge);
    i == |list| || list[i].mngID == 0
  }

  /** The near edges to request, in iteration order. */
  function Added(list: seq<TranInfo>, edges: seq<nat>): seq<nat> {
    if edges == [] then []
    else
      var front, e := Added(list, edges[..|edges| - 1]), edges[|edges| - 1];
      if NeedsRequest(list, e) then front + [e] else front
  }

  /** The entries appended for near edges that were not monitored. */
  function NewEntries(list: seq<TranInfo>, edges: seq<nat>): seq<TranInfo> {
    if edges == [] then []
    else
      var front, e := NewEntries(list, edges[..|edges| - 1]), edges[|edges| - 1];
      if Monitored(list, e) then front else front + [TranInfo(e, 0)]
  }

  /** The entries of near edges, in order and unchanged. */
  function Kept(list: seq<TranInfo>, edges: seq<nat>): seq<TranInfo> {
    if list == [] then []
    else
      var front, t := Kept(list[..|list| - 1], edges), list[|list| - 1];
      if t.edgeSID in edges then front + [t] else front
  }

  /** The edges whose entries are dropped, in order. */
  function Cancelled(list: seq<TranInfo>, edges: seq<nat>): seq<nat> {
    if list == [] then []
    else
      var front, t := Cancelled(list[..|list| - 1], edges), list[|list| - 1];
      if t.edgeSID in edges then front else front + [t.edgeSID]
  }

  // ---------------------------------------------------------------- the loops

  lemma {:induction false} InNewEntries(list: seq<TranInfo>, edges: seq<nat>, edge: nat)
    ensures Monitored(NewEntries(list, edges), edge) <==> edge in edges && !Monitored(list, edge)
    decreases |edges|
  {
    if edges != [] {
      var n := |edges| - 1;
      InNewEntries(list, edges[..n], edge);
      assert edges == edges[..n] + [edges[n]];
      if !Monitored(list, edges[n]) {
        MonitoredAppend(NewEntries(list, edges[..n]), [TranInfo(edges[n], 0)], edge);
        assert Monitored([TranInfo(edges[n], 0)], edge) <==> [TranInfo(edges[n], 0)][0].edgeSID == edge;
      }
    }
  }

  lemma MonitoredAppend(a: seq<TranInfo>, b: seq<TranInfo>, edge: nat)
    ensures Monitored(a + b, edge) <==> Monitored(a, edge) || Monitored(b, edge)
  {
    if i :| 0 <= i < |a| && a[i].edgeSID == edge {
      assert (a + b)[i].edgeSID == edge;
    }
    if i :| 0 <= i < |b| && b[i].edgeSID == edge {
      assert (a + b)[|a| + i].edgeSID == edge;
    }
    if i :| 0 <= i < |a + b| && (a + b)[i].edgeSID == edge {
      assert if i < |a| then a[i].edgeSID == edge else b[i - |a|].edgeSID == edge;
    }
  }

  /** The entry of an edge does not move when other edges are appended. */
  lemma {:induction false} EntryAppend(a: seq<TranInfo>, b: seq<TranInfo>, edge: nat)
    requires !Monitored(b, edge)
    ensures if Monitored(a, edge) then Entry(a + b, edge) == Entry(a, edge) else Entry(a + b, edge) == |a + b|
    decreases |a|
  {
    MonitoredAppend(a, b, edge);
    if a == [] {
      assert a + b == b;
    } else {
      assert (a + b)[1..] == a[1..] + b;
      EntryAppend(a[1..], b, edge);
      MonitoredAppend([a[0]], a[1..], edge);
      assert a == [a[0]] + a[1..];
    }
  }

  /** The first loop: near edges that are absent are appended, those never requested are requested again. */
  method AddNearEdges(start: seq<TranInfo>, edges: seq<nat>, addRequest: seq<nat>)
    returns (list: seq<TranInfo>, add: seq<nat>)
    requires Distinct(edges)
    ensures list == start + NewEntries(start, edges)
    ensures add == addRequest + Added(start, edges)
  {
    list, add := start, addRequest;
    assert edges[..0] == [];
    for n := 0 to |edges|
      invariant list == start + NewEntries(start, edges[..n])
      invariant add == addRequest + Added(start, edges[..n])
    {
      var edge := edges[n];
      assert edges[..n + 1][..n] == edges[..n];
      ghost var appended := NewEntries(start, edges[..n]);
      InNewEntries(start, edges[..n], edge);
      EntryAppend(start, appended, edge);
      var idx := 0;
      while idx < |list|
        invariant 0 <= idx <= |list|
        invariant forall k :: 0 <= k < idx ==> list[k].edgeSID != edge
      {
        if edge == list[idx].edgeSID {
          break;
        }
        idx := idx + 1;
      }
      FirstIsEntry(list, edge, idx);
      if idx == |list| {
        add := add + [edge];
        list := list + [TranInfo(edge, 0)];
      } else if list[idx].mngID == 0 {
        add := add + [edge];
      }
    }
    assert edges[..|edges|] == edges;
  }

  lemma {:induction false} FirstIsEntry(list: seq<TranInfo>, edge: nat, idx: nat)
    requires idx <= |list| && (forall k :: 0 <= k < idx ==> list[k].edgeSID != edge)
    requires idx < |list| ==> list[idx].edgeSID == edge
    ensures Entry(list, edge) == idx
    decreases |list|
  {
    if list != [] && list[0].edgeSID != edge {
      FirstIsEntry(list[1..], edge, idx - 1);
    }
  }

  /** The second loop: entries of far edges are erased in place and cancelled. */
  method DropFarEdges(before: seq<TranInfo>, edges: seq<nat>, cancelRequest: seq<nat>)
    returns (list: seq<TranInfo>, cancel: seq<nat>)
    ensures list == Kept(before, edges) && IsSelection(before, (t: TranInfo) => t.edgeSID in edges, list)
    ensures cancel == cancelRequest + Cancelled(before, edges)
  {
    list, cancel := before, cancelRequest;
    var it := 0;
    ghost var n := 0;
    assert before[..0] == [];
    while it < |list|
      invariant 0 <= it <= |list| && 0 <= n <= |before|
      invariant list[..it] == Kept(before[..n], edges) && list[it..] == before[n..]
      invariant cancel == cancelRequest + Cancelled(before[..n], edges)
      decreases |list| - it
    {
      var tranInfo := list[it];
      assert tranInfo == before[n] && before[..n + 1][..n] == before[..n];
      if tranInfo.edgeSID !in edges {
        cancel := cancel + [tranInfo.edgeSID];
        ghost var was := list;
        list := list[..it] + list[it + 1..];
        assert list[..it] == was[..it] && list[it..] == was[it..][1..];
      } else {
        assert list[..it + 1] == list[..it] + [tranInfo] && list[it + 1..] == list[it..][1..];
        it := it + 1;
      }
      n := n + 1;
    }
    assert before[..n] == before && list[..it] == list;
    KeptIsSelection(before, edges);
  }

  /** The survivors keep their order and their management ids. */
  lemma {:induction false} KeptIsSelection(list: seq<TranInfo>, edges: seq<nat>)
    ensures IsSelection(list, (t: TranInfo) => t.edgeSID in edges, Kept(list, edges))
    decreases |list|
  {
    var keep := (t: TranInfo) => t.edgeSID in edges;
    if list == [] {
      NothingSelected(keep);
    } else {
      KeptIsSelection(list[..|list| - 1], edges);
      SelectionNext(list, keep, Kept(list[..|list| - 1], edges));
    }
  }

  /** The list after reconciliation. */
  function Reconciled(list: seq<TranInfo>, edges: seq<nat>): seq<TranInfo> {
    Kept(list, edges) + NewEntries(list, edges)
  }

  lemma {:induction false} KeptAppend(a: seq<TranInfo>, b: seq<TranInfo>, edges: seq<nat>)
    requires forall t <- b :: t.edgeSID in edges
    ensures Kept(a + b, edges) == Kept(a, edges) + b && Cancelled(a + b, edges) == Cancelled(a, edges)
    decreases |b|
  {
    if b == [] {
      assert a + b == a;
    } else {
      var n := |b| - 1;
      KeptAppend(a, b[..n], edges);
      assert (a + b)[..|a| + n] == a + b[..n];
      assert b[n] in b;
    }
  }

  lemma {:induction false} NewEntriesAreNear(list: seq<TranInfo>, edges: seq<nat>)
    ensures forall t <- NewEntries(list, edges) :: t.edgeSID in edges && t.mngID == 0
    decreases |edges|
  {
    if edges != [] {
      NewEntriesAreNear(list, edges[..|edges| - 1]);
    }
  }

  class LocationManager {
    /** tranInfoList of every management key of the vehicle. */
    var info: map<string, seq<TranInfo>>

    /** The body of the loop for one management key. */
    method ReconcileKey(mngKey: string, edges: seq<nat>, addRequest: seq<nat>, cancelRequest: seq<nat>)
      returns (add: seq<nat>, cancel: seq<nat>)
      requires mngKey in info && Distinct(edges)
      modifies this
      ensures info == old(info)[mngKey := Reconciled(old(info)[mngKey], edges)]
      ensures add == addRequest + Added(old(info)[mngKey], edges)
      ensures cancel == cancelRequest + Cancelled(old(info)[mngKey], edges)
    {
      var list := info[mngKey];
      NewEntriesAreNear(list, edges);
      KeptAppend(list, NewEntries(list, edges), edges);
      list, add := AddNearEdges(list, edges, addRequest);
      list, cancel := DropFarEdges(list, edges, cancelRequest);
      info := info[mngKey := list];
    }

    /**
     * All management keys; the two request lists are never emptied between keys, and a key without the own
     * station sends under the management id of the keys before it.
     */
    method CheckAreaOfMonitoredVehicle(mngKeyList: seq<string>, near: string -> seq<nat>, station: nat)
      returns (sent: seq<Request>)
      requires forall i :: 0 <= i < |mngKeyList| ==> mngKeyList[i] in info && Distinct(near(mngKeyList[i]))
      modifies this
      ensures DifferentKeys(old(info), mngKeyList) ==>
                && SendsUpTo(sent, old(info), mngKeyList, |mngKeyList|, near, station)
                && Monitors(info, old(info), mngKeyList, near)
      ensures |mngKeyList| == 1 ==> SendsForKey(sent, old(info)[mngKeyList[0]], mngKeyList[0], near(mngKeyList[0]), station)
      ensures info == InfoAfter(old(info), mngKeyList, near)
      ensures sent == SentAfter(old(info), mngKeyList, near, station)
    {
      var addRequestEdgeSID, cancelRequestEdgeSID := [], [];
      var myMngId := 0;
      sent := [];
      assert mngKeyList[..0] == [];
      for i := 0 to |mngKeyList|
        invariant info == InfoAfter(old(info), mngKeyList[..i], near) && old(info).Keys <= info.Keys
        invariant addRequestEdgeSID == AllAdded(old(info), mngKeyList[..i], near)
        invariant cancelRequestEdgeSID == AllCancelled(old(info), mngKeyList[..i], near)
        invariant sent == SentAfter(old(info), mngKeyList[..i], near, station)
        invariant myMngId == MngIdAfter(old(info), mngKeyList[..i], near, station)
      {
        var mngKey := mngKeyList[i];
        assert mngKeyList[..i + 1][..i] == mngKeyList[..i];
        myMngId := FindOwnId(info[mngKey], station, myMngId);
        addRequestEdgeSID, cancelRequestEdgeSID :=
          ReconcileKey(mngKey, near(mngKey), addRequestEdgeSID, cancelRequestEdgeSID);
        var requests := SendAll(myMngId, mngKey, addRequestEdgeSID, cancelRequestEdgeSID);
        sent := sent + requests;
      }
      assert mngKeyList[..|mngKeyList|] == mngKeyList;
      if DifferentKeys(old(info), mngKeyList) {
        SendsExactly(old(info), mngKeyList, |mngKeyList|, near, station);
        MonitorsNear(old(info), mngKeyList, near);
      }
      if |mngKeyList| == 1 {
        OneKeySends(old(info), mngKeyList[0], near, station);
      }
    }
  }

  /** The loop that looks for the own station among the destinations. */
  method FindOwnId(list: seq<TranInfo>, station: nat, myMngId: nat) returns (id: nat)
    ensures id == OwnId(list, station, myMngId)
  {
    id := myMngId;
    var idx := 0;
    while idx < |list|
      invariant 0 <= idx <= |list| && id == myMngId
      invariant forall k :: 0 <= k < idx ==> list[k].edgeSID != station
    {
      if list[idx].edgeSID == station {
        id := list[idx].mngID;
        break;
      }
      idx := idx + 1;
    }
    FirstIsEntry(list, station, idx);
  }

  function OwnId(list: seq<TranInfo>, station: nat, otherwise: nat): nat {
    var i := Entry(list, station);
    if i < |list| then list[i].mngID else otherwise
  }

  method SendAll(mngID: nat, mngKey: string, add: seq<nat>, cancel: seq<nat>) returns (sent: seq<Request>)
    ensures sent == Requests(mngID, mngKey, add, cancel)
  {
    sent := [];
    for i := 0 to |add|
      invariant sent == Requests(mngID, mngKey, add, cancel)[..i]
    {
      sent := sent + [Add(mngID, mngKey, add[i])];
    }
    for i := 0 to |cancel|
      invariant sent == Requests(mngID, mngKey, add, cancel)[..|add| + i]
    {
      sent := sent + [Cancel(mngID, mngKey, cancel[i])];
    }
  }

  function Requests(mngID: nat, mngKey: string, add: seq<nat>, cancel: seq<nat>): (r: seq<Request>)
    ensures |r| == |add| + |cancel|
  {
    seq(|add|, i requires 0 <= i < |add| => Add(mngID, mngKey, add[i]))
    + seq(|cancel|, i requires 0 <= i < |cancel| => Cancel(mngID, mngKey, cancel[i]))
  }

  type Info = map<string, seq<TranInfo>>

  function ListOf(info: Info, key: string): seq<TranInfo> {
    if key in info then info[key] else []
  }

  function InfoAfter(info: Info, keys: seq<string>, near: string -> seq<nat>): Info {
    if keys == [] then info
    else
      var before, k := InfoAfter(info, keys[..|keys| - 1], near), keys[|keys| - 1];
      before[k := Reconciled(ListOf(before, k), near(k))]
  }

  /** The edges the last key has to request. */
  function LastAdded(info: Info, keys: seq<string>, near: string -> seq<nat>): seq<nat>
    requires keys != []
  {
    var k := keys[|keys| - 1];
    Added(ListOf(InfoAfter(info, keys[..|keys| - 1], near), k), near(k))
  }

  function LastCancelled(info: Info, keys: seq<string>, near: string -> seq<nat>): seq<nat>
    requires keys != []
  {
    var k := keys[|keys| - 1];
    Cancelled(ListOf(InfoAfter(info, keys[..|keys| - 1], near), k), near(k))
  }

  function AllAdded(info: Info, keys: seq<string>, near: string -> seq<nat>): seq<nat> {
    if keys == [] then [] else AllAdded(info, keys[..|keys| - 1], near) + LastAdded(info, keys, near)
  }

  function AllCancelled(info: Info, keys: seq<string>, near: string -> seq<nat>): seq<nat> {
    if keys == [] then [] else AllCancelled(info, keys[..|keys| - 1], near) + LastCancelled(info, keys, near)
  }

  /** The management id in use when the last key's requests are sent; 0 while no key had the own station. */
  function MngIdAfter(info: Info, keys: seq<string>, near: string -> seq<nat>, station: nat): nat {
    if keys == [] then 0
    else
      var front := keys[..|keys| - 1];
      OwnId(ListOf(InfoAfter(info, front, near), keys[|keys| - 1]), station, MngIdAfter(info, front, near, station))
  }

  /** The last key sends under its own id, or 0 for none, unless it lacks the station and an earlier key had it. */
  lemma MngIdIsOwnIff(info: Info, keys: seq<string>, near: string -> seq<nat>, station: nat)
    requires keys != []
    ensures var front := keys[..|keys| - 1];
            var list := ListOf(InfoAfter(info, front, near), keys[|keys| - 1]);
            MngIdAfter(info, keys, near, station) == OwnId(list, station, 0)
            <==> Monitored(list, station) || MngIdAfter(info, front, near, station) == 0
  {
  }

  /** The requests sent: every key also repeats the edges of the keys before it. */
  function SentAfter(info: Info, keys: seq<string>, near: string -> seq<nat>, station: nat): seq<Request> {
    if keys == [] then []
    else
      SentAfter(info, keys[..|keys| - 1], near, station)
      + Requests(MngIdAfter(info, keys, near, station), keys[|keys| - 1], AllAdded(info, keys, near), AllCancelled(info, keys, near))
  }

  /** The requests each key is due: its own edges. */
  function Due(info: Info, keys: seq<string>, near: string -> seq<nat>, station: nat): seq<Request> {
    if keys == [] then []
    else
      Due(info, keys[..|keys| - 1], near, station)
      + Requests(MngIdAfter(info, keys, near, station), keys[|keys| - 1], LastAdded(info, keys, near), LastCancelled(info, keys, near))
  }

  // ---------------------------------------------------------------- what reconciliation achieves

  lemma {:induction false} InKept(list: seq<TranInfo>, edges: seq<nat>, edge: nat)
    ensures Monitored(Kept(list, edges), edge) <==> Monitored(list, edge) && edge in edges
    decreases |list|
  {
    if list != [] {
      var n := |list| - 1;
      InKept(list[..n], edges, edge);
      MonitoredAppend(list[..n], [list[n]], edge);
      MonitoredAppend(Kept(list[..n], edges), [list[n]], edge);
      assert list == list[..n] + [list[n]];
      assert Monitored([list[n]], edge) <==> [list[n]][0].edgeSID == edge;
    }
  }

  lemma {:induction false} InAdded(list: seq<TranInfo>, edges: seq<nat>, edge: nat)
    ensures edge in Added(list, edges) <==> edge in edges && NeedsRequest(list, edge)
    decreases |edges|
  {
    if edges != [] {
      var n := |edges| - 1;
      InAdded(list, edges[..n], edge);
      assert edges == edges[..n] + [edges[n]];
    }
  }

  lemma {:induction false} InCancelled(list: seq<TranInfo>, edges: seq<nat>, edge: nat)
    ensures edge in Cancelled(list, edges) <==> Monitored(list, edge) && edge !in edges
    decreases |list|
  {
    if list != [] {
      var n := |list| - 1;
      InCancelled(list[..n], edges, edge);
      MonitoredAppend(list[..n], [list[n]], edge);
      assert list == list[..n] + [list[n]];
      assert Monitored([list[n]], edge) <==> [list[n]][0].edgeSID == edge;
    }
  }

  /**
   * After reconciliation exactly the near edges are monitored; requested are the near edges that were
   * absent or never requested, cancelled are the monitored edges that are not near, and no edge is both.
   */
  lemma ReconciliationIsExact(list: seq<TranInfo>, edges: seq<nat>, edge: nat)
    ensures Monitored(Reconciled(list, edges), edge) <==> edge in edges
    ensures edge in Added(list, edges) <==> edge in edges && NeedsRequest(list, edge)
    ensures edge in Cancelled(list, edges) <==> Monitored(list, edge) && edge !in edges
    ensures !(edge in Added(list, edges) && edge in Cancelled(list, edges))
  {
    InKept(list, edges, edge);
    InNewEntries(list, edges, edge);
    MonitoredAppend(Kept(list, edges), NewEntries(list, edges), edge);
    InAdded(list, edges, edge);
    InCancelled(list, edges, edge);
  }

  predicate DistinctIds(list: seq<TranInfo>) {
    forall i, j :: 0 <= i < j < |list| ==> list[i].edgeSID != list[j].edgeSID
  }

  lemma {:induction false} KeptIsPart(list: seq<TranInfo>, edges: seq<nat>)
    ensures forall t <- Kept(list, edges) :: t in list
    decreases |list|
  {
    if list != [] {
      var n := |list| - 1;
      KeptIsPart(list[..n], edges);
      assert forall t <- list[..n] :: t in list;
    }
  }

  lemma DistinctNext(list: seq<TranInfo>, last: TranInfo)
    requires DistinctIds(list) && forall t <- list :: t.edgeSID != last.edgeSID
    ensures DistinctIds(list + [last])
  {
  }

  lemma {:induction false} KeptDistinct(list: seq<TranInfo>, edges: seq<nat>)
    requires DistinctIds(list)
    ensures DistinctIds(Kept(list, edges))
    ensures forall t <- Kept(list, edges) :: t in list
    decreases |list|
  {
    KeptIsPart(list, edges);
    if list != [] {
      var n := |list| - 1;
      KeptDistinct(list[..n], edges);
      assert forall t <- list[..n] :: t.edgeSID != list[n].edgeSID;
      DistinctNext(Kept(list[..n], edges), list[n]);
    }
  }

  lemma {:induction false} NewEntriesDistinct(list: seq<TranInfo>, edges: seq<nat>)
    requires Distinct(edges)
    ensures DistinctIds(NewEntries(list, edges))
    decreases |edges|
  {
    if edges != [] {
      var n := |edges| - 1;
      NewEntriesDistinct(list, edges[..n]);
      InNewEntries(list, edges[..n], edges[n]);
    }
  }

  /** A list without duplicates stays one. */
  lemma ReconciledDistinct(list: seq<TranInfo>, edges: seq<nat>)
    requires DistinctIds(list) && Distinct(edges)
    ensures DistinctIds(Reconciled(list, edges))
  {
    KeptDistinct(list, edges);
    NewEntriesDistinct(list, edges);
    var k, n := Kept(list, edges), NewEntries(list, edges);
    forall i, j | 0 <= i < |k| && 0 <= j < |n|
      ensures k[i].edgeSID != n[j].edgeSID
    {
      InNewEntries(list, edges, n[j].edgeSID);
      assert Monitored(n, n[j].edgeSID);
      assert k[i] in list;
    }
  }

  lemma {:induction false} NothingToDrop(list: seq<TranInfo>, edges: seq<nat>)
    requires forall t <- list :: t.edgeSID in edges
    ensures Kept(list, edges) == list && Cancelled(list, edges) == []
    decreases |list|
  {
    if list != [] {
      NothingToDrop(list[..|list| - 1], edges);
    }
  }

  lemma {:induction false} NothingToAppend(list: seq<TranInfo>, edges: seq<nat>)
    requires forall e <- edges :: Monitored(list, e)
    ensures NewEntries(list, edges) == []
    decreases |edges|
  {
    if edges != [] {
      NothingToAppend(list, edges[..|edges| - 1]);
    }
  }

  /** Reconciling again with the same edges changes nothing and cancels nothing. */
  lemma ReconciliationIsIdempotent(list: seq<TranInfo>, edges: seq<nat>)
    ensures Reconciled(Reconciled(list, edges), edges) == Reconciled(list, edges)
    ensures Cancelled(Reconciled(list, edges), edges) == []
  {
    var once := Reconciled(list, edges);
    forall t | t in once
      ensures t.edgeSID in edges
    {
      ReconciliationIsExact(list, edges, t.edgeSID);
    }
    NothingToDrop(once, edges);
    forall e | e in edges
      ensures Monitored(once, e)
    {
      ReconciliationIsExact(list, edges, e);
    }
    NothingToAppend(once, edges);
  }

  lemma {:induction false} SentLength(info: Info, keys: seq<string>, near: string -> seq<nat>, station: nat)
    ensures |SentAfter(info, keys, near, station)| >= |Due(info, keys, near, station)|
    ensures keys != [] ==>
              var front := keys[..|keys| - 1];
              |SentAfter(info, keys, near, station)| - |Due(info, keys, near, station)|
              >= |AllAdded(info, front, near)| + |AllCancelled(info, front, near)|
    decreases |keys|
  {
    if keys != [] {
      SentLength(info, keys[..|keys| - 1], near, station);
    }
  }

  lemma {:induction false} SentIsDue(info: Info, keys: seq<string>, near: string -> seq<nat>, station: nat)
    requires keys != []
    requires AllAdded(info, keys[..|keys| - 1], near) == [] && AllCancelled(info, keys[..|keys| - 1], near) == []
    ensures SentAfter(info, keys, near, station) == Due(info, keys, near, station)
    decreases |keys|
  {
    var n := |keys| - 1;
    var front := keys[..n];
    assert AllAdded(info, keys, near) == LastAdded(info, keys, near);
    assert AllCancelled(info, keys, near) == LastCancelled(info, keys, near);
    if n > 0 {
      SentIsDue(info, front, near, station);
    }
  }

  /** Each key sends just the requests it is due exactly when only the last key has any edge to request or cancel. */
  lemma RequestsAreRepeatedUnlessOnlyLast(info: Info, keys: seq<string>, near: string -> seq<nat>, station: nat)
    requires keys != []
    ensures SentAfter(info, keys, near, station) == Due(info, keys, near, station) <==>
            AllAdded(info, keys[..|keys| - 1], near) == [] && AllCancelled(info, keys[..|keys| - 1], near) == []
  {
    SentLength(info, keys, near, station);
    if AllAdded(info, keys[..|keys| - 1], near) == [] && AllCancelled(info, keys[..|keys| - 1], near) == [] {
      SentIsDue(info, keys, near, station);
    }
  }

  // ---------------------------------------------------------------- what is sent, read off the lists

  predicate IsFirstEntry(list: seq<TranInfo>, i: nat, edge: nat) {
    i < |list| && list[i].edgeSID == edge && forall k :: 0 <= k < i ==> list[k].edgeSID != edge
  }

  /** A near edge with no entry, or with one that has no management id yet. */
  ghost predicate Wanted(list: seq<TranInfo>, near: seq<nat>, edge: nat) {
    edge in near && forall i: nat :: IsFirstEntry(list, i, edge) ==> list[i].mngID == 0
  }

  /** An edge with an entry, and not near. */
  ghost predicate LeftBehind(list: seq<TranInfo>, near: seq<nat>, edge: nat) {
    edge !in near && exists i :: 0 <= i < |list| && list[i].edgeSID == edge
  }

  /** The id of the station's entry; without one, what was there before. */
  ghost predicate IsIdOf(list: seq<TranInfo>, station: nat, id: nat, otherwise: nat) {
    if exists i :: 0 <= i < |list| && list[i].edgeSID == station
    then exists i: nat :: IsFirstEntry(list, i, station) && list[i].mngID == id
    else id == otherwise
  }

  /** Exactly the wanted edges of the one key are requested and those left behind cancelled, each once. */
  ghost predicate SendsForKey(sent: seq<Request>, list: seq<TranInfo>, mngKey: string, near: seq<nat>, station: nat) {
    && (forall id, key, edge :: Add(id, key, edge) in sent <==>
         key == mngKey && IsIdOf(list, station, id, 0) && Wanted(list, near, edge))
    && (forall id, key, edge :: Cancel(id, key, edge) in sent <==>
         key == mngKey && IsIdOf(list, station, id, 0) && LeftBehind(list, near, edge))
    && (DistinctIds(list) ==> forall i, j :: 0 <= i < j < |sent| ==> sent[i] != sent[j])
  }

  ghost predicate DifferentKeys(info: Info, keys: seq<string>) {
    (forall i :: 0 <= i < |keys| ==> keys[i] in info) && forall i, j :: 0 <= i < j < |keys| ==> keys[i] != keys[j]
  }

  /** The management id under which key j sends: that of the last key up to j that has the station. */
  ghost predicate SendsUnder(info: Info, keys: seq<string>, j: int, station: nat, id: nat)
    requires j < |keys| && DifferentKeys(info, keys)
    decreases j
  {
    if j < 0 then id == 0
    else exists before: nat :: SendsUnder(info, keys, j - 1, station, before) && IsIdOf(info[keys[j]], station, id, before)
  }

  ghost predicate WantedUpTo(info: Info, keys: seq<string>, n: nat, near: string -> seq<nat>, edge: nat)
    requires n <= |keys| && DifferentKeys(info, keys)
  {
    exists i :: 0 <= i < n && Wanted(info[keys[i]], near(keys[i]), edge)
  }

  ghost predicate LeftBehindUpTo(info: Info, keys: seq<string>, n: nat, near: string -> seq<nat>, edge: nat)
    requires n <= |keys| && DifferentKeys(info, keys)
  {
    exists i :: 0 <= i < n && LeftBehind(info[keys[i]], near(keys[i]), edge)
  }

  /** One of the first n keys, under the id it sends under, has the edge to request, for itself or for a key before it. */
  ghost predicate Requested(info: Info, keys: seq<string>, n: nat, near: string -> seq<nat>, station: nat,
                            id: nat, key: string, edge: nat)
    requires n <= |keys| && DifferentKeys(info, keys)
  {
    exists j :: 0 <= j < n && keys[j] == key && SendsUnder(info, keys, j, station, id) && WantedUpTo(info, keys, j + 1, near, edge)
  }

  /** The same for an edge to cancel. */
  ghost predicate Withdrawn(info: Info, keys: seq<string>, n: nat, near: string -> seq<nat>, station: nat,
                            id: nat, key: string, edge: nat)
    requires n <= |keys| && DifferentKeys(info, keys)
  {
    exists j :: 0 <= j < n && keys[j] == key && SendsUnder(info, keys, j, station, id) && LeftBehindUpTo(info, keys, j + 1, near, edge)
  }

  /** Exactly these are sent by the first n keys. */
  ghost predicate SendsUpTo(sent: seq<Request>, info: Info, keys: seq<string>, n: nat, near: string -> seq<nat>, station: nat)
    requires n <= |keys| && DifferentKeys(info, keys)
  {
    && (forall id, key, edge :: Add(id, key, edge) in sent <==> Requested(info, keys, n, near, station, id, key, edge))
    && (forall id, key, edge :: Cancel(id, key, edge) in sent <==> Withdrawn(info, keys, n, near, station, id, key, edge))
  }

  /** Afterwards every key has exactly its near edges, and other keys are as they were. */
  ghost predicate Monitors(info: Info, before: Info, keys: seq<string>, near: string -> seq<nat>) {
    && info.Keys == before.Keys
    && (forall key <- info :: if key in keys
         then forall edge :: (exists i :: 0 <= i < |info[key]| && info[key][i].edgeSID == edge) <==> edge in near(key)
         else info[key] == before[key])
  }

  lemma EntryIsFirst(list: seq<TranInfo>, edge: nat, i: nat)
    requires IsFirstEntry(list, i, edge)
    ensures Entry(list, edge) == i
  {
    FirstIsEntry(list, edge, i);
  }

  lemma {:induction false} FirstExists(list: seq<TranInfo>, edge: nat)
    ensures Entry(list, edge) < |list| ==> IsFirstEntry(list, Entry(list, edge), edge)
    decreases |list|
  {
    if list != [] && list[0].edgeSID != edge {
      FirstExists(list[1..], edge);
      var i := Entry(list[1..], edge);
      assert i < |list| - 1 ==> forall k :: 0 < k < i + 1 ==> list[k].edgeSID == list[1..][k - 1].edgeSID != edge;
    }
  }

  lemma RequestedIffWanted(list: seq<TranInfo>, near: seq<nat>, edge: nat)
    ensures edge in Added(list, near) <==> Wanted(list, near, edge)
    ensures edge in Cancelled(list, near) <==> LeftBehind(list, near, edge)
  {
    InAdded(list, near, edge);
    InCancelled(list, near, edge);
    FirstExists(list, edge);
    forall i: nat | IsFirstEntry(list, i, edge)
      ensures Entry(list, edge) == i
    {
      EntryIsFirst(list, edge, i);
    }
  }

  lemma OwnIdIs(list: seq<TranInfo>, station: nat, id: nat, otherwise: nat)
    ensures IsIdOf(list, station, id, otherwise) <==> id == OwnId(list, station, otherwise)
  {
    FirstExists(list, station);
    assert Monitored(list, station) <==> exists i :: 0 <= i < |list| && list[i].edgeSID == station;
    forall i: nat | IsFirstEntry(list, i, station)
      ensures Entry(list, station) == i
    {
      EntryIsFirst(list, station, i);
    }
  }

  lemma InRequests(mngID: nat, mngKey: string, add: seq<nat>, cancel: seq<nat>, id: nat, key: string, edge: nat)
    ensures var r := Requests(mngID, mngKey, add, cancel);
            && (Add(id, key, edge) in r <==> id == mngID && key == mngKey && edge in add)
            && (Cancel(id, key, edge) in r <==> id == mngID && key == mngKey && edge in cancel)
  {
    var r := Requests(mngID, mngKey, add, cancel);
    if edge in add {
      var i :| 0 <= i < |add| && add[i] == edge;
      assert r[i] == Add(mngID, mngKey, edge);
    }
    if edge in cancel {
      var i :| 0 <= i < |cancel| && cancel[i] == edge;
      assert r[|add| + i] == Cancel(mngID, mngKey, edge);
    }
  }

  lemma {:induction false} AddedDistinct(list: seq<TranInfo>, edges: seq<nat>)
    requires Distinct(edges)
    ensures Distinct(Added(list, edges))
    decreases |edges|
  {
    if edges != [] {
      var n := |edges| - 1;
      AddedDistinct(list, edges[..n]);
      InAdded(list, edges[..n], edges[n]);
    }
  }

  lemma {:induction false} CancelledDistinct(list: seq<TranInfo>, edges: seq<nat>)
    requires DistinctIds(list)
    ensures Distinct(Cancelled(list, edges))
    decreases |list|
  {
    if list != [] {
      var n := |list| - 1;
      CancelledDistinct(list[..n], edges);
      InCancelled(list[..n], edges, list[n].edgeSID);
    }
  }

  lemma OneKey(info: Info, mngKey: string, near: string -> seq<nat>, station: nat)
    requires mngKey in info
    ensures SentAfter(info, [mngKey], near, station)
         == Requests(OwnId(info[mngKey], station, 0), mngKey, Added(info[mngKey], near(mngKey)), Cancelled(info[mngKey], near(mngKey)))
  {
    var add, cancel := Added(info[mngKey], near(mngKey)), Cancelled(info[mngKey], near(mngKey));
    assert [mngKey][..0] == [];
    assert MngIdAfter(info, [mngKey], near, station) == OwnId(info[mngKey], station, 0);
    assert AllAdded(info, [mngKey], near) == [] + add == add && AllCancelled(info, [mngKey], near) == [] + cancel == cancel;
    var r := Requests(OwnId(info[mngKey], station, 0), mngKey, add, cancel);
    assert [] + r == r;
  }

  lemma RequestedOnce(mngID: nat, mngKey: string, add: seq<nat>, cancel: seq<nat>)
    requires Distinct(add) && Distinct(cancel)
    ensures var r := Requests(mngID, mngKey, add, cancel); forall i, j :: 0 <= i < j < |r| ==> r[i] != r[j]
  {
  }

  lemma OneKeySends(info: Info, mngKey: string, near: string -> seq<nat>, station: nat)
    requires mngKey in info && Distinct(near(mngKey))
    ensures SendsForKey(SentAfter(info, [mngKey], near, station), info[mngKey], mngKey, near(mngKey), station)
  {
    var list, edges := info[mngKey], near(mngKey);
    OneKey(info, mngKey, near, station);
    forall i, key, edge
      ensures Add(i, key, edge) in SentAfter(info, [mngKey], near, station) <==>
                key == mngKey && IsIdOf(list, station, i, 0) && Wanted(list, edges, edge)
      ensures Cancel(i, key, edge) in SentAfter(info, [mngKey], near, station) <==>
                key == mngKey && IsIdOf(list, station, i, 0) && LeftBehind(list, edges, edge)
    {
      InRequests(OwnId(list, station, 0), mngKey, Added(list, edges), Cancelled(list, edges), i, key, edge);
      OwnIdIs(list, station, i, 0);
      RequestedIffWanted(list, edges, edge);
    }
    AddedDistinct(list, edges);
    if DistinctIds(list) {
      CancelledDistinct(list, edges);
      RequestedOnce(OwnId(list, station, 0), mngKey, Added(list, edges), Cancelled(list, edges));
    }
  }

  lemma {:induction false} OtherKeysStay(info: Info, keys: seq<string>, near: string -> seq<nat>, key: string)
    requires key !in keys
    ensures ListOf(InfoAfter(info, keys, near), key) == ListOf(info, key)
    ensures key in InfoAfter(info, keys, near) <==> key in info
    decreases |keys|
  {
    if keys != [] {
      assert keys[|keys| - 1] in keys;
      OtherKeysStay(info, keys[..|keys| - 1], near, key);
    }
  }

  /** When its turn comes key n has the list it had at the start. */
  lemma ListAtItsTurn(info: Info, keys: seq<string>, n: nat, near: string -> seq<nat>)
    requires n < |keys| && DifferentKeys(info, keys)
    ensures ListOf(InfoAfter(info, keys[..n], near), keys[n]) == info[keys[n]]
    ensures keys[..n + 1][..n] == keys[..n]
  {
    OtherKeysStay(info, keys[..n], near, keys[n]);
  }

  lemma {:induction false} InAllAdded(info: Info, keys: seq<string>, n: nat, near: string -> seq<nat>, edge: nat)
    requires n <= |keys| && DifferentKeys(info, keys)
    ensures edge in AllAdded(info, keys[..n], near) <==> WantedUpTo(info, keys, n, near, edge)
    ensures edge in AllCancelled(info, keys[..n], near) <==> LeftBehindUpTo(info, keys, n, near, edge)
    decreases n
  {
    if n > 0 {
      InAllAdded(info, keys, n - 1, near, edge);
      ListAtItsTurn(info, keys, n - 1, near);
      RequestedIffWanted(info[keys[n - 1]], near(keys[n - 1]), edge);
      assert AllAdded(info, keys[..n], near) == AllAdded(info, keys[..n - 1], near) + Added(info[keys[n - 1]], near(keys[n - 1]));
      assert AllCancelled(info, keys[..n], near)
          == AllCancelled(info, keys[..n - 1], near) + Cancelled(info[keys[n - 1]], near(keys[n - 1]));
    }
  }

  lemma {:induction false} MngIdIsCarried(info: Info, keys: seq<string>, n: nat, near: string -> seq<nat>, station: nat, id: nat)
    requires n <= |keys| && DifferentKeys(info, keys)
    ensures SendsUnder(info, keys, n - 1, station, id) <==> id == MngIdAfter(info, keys[..n], near, station)
    decreases n
  {
    if n > 0 {
      var before := MngIdAfter(info, keys[..n - 1], near, station);
      ListAtItsTurn(info, keys, n - 1, near);
      MngIdIsCarried(info, keys, n - 1, near, station, before);
      OwnIdIs(info[keys[n - 1]], station, id, before);
      if SendsUnder(info, keys, n - 1, station, id) {
        var b: nat :| SendsUnder(info, keys, n - 2, station, b) && IsIdOf(info[keys[n - 1]], station, id, b);
        MngIdIsCarried(info, keys, n - 1, near, station, b);
      }
    }
  }

  /** The requests of key n alone. */
  lemma LastSends(info: Info, keys: seq<string>, n: nat, near: string -> seq<nat>, station: nat, id: nat, key: string, edge: nat)
    requires n < |keys| && DifferentKeys(info, keys)
    ensures var r := Requests(MngIdAfter(info, keys[..n + 1], near, station), keys[n],
                              AllAdded(info, keys[..n + 1], near), AllCancelled(info, keys[..n + 1], near));
            && (Add(id, key, edge) in r <==>
                 keys[n] == key && SendsUnder(info, keys, n, station, id) && WantedUpTo(info, keys, n + 1, near, edge))
            && (Cancel(id, key, edge) in r <==>
                 keys[n] == key && SendsUnder(info, keys, n, station, id) && LeftBehindUpTo(info, keys, n + 1, near, edge))
  {
    InRequests(MngIdAfter(info, keys[..n + 1], near, station), keys[n],
               AllAdded(info, keys[..n + 1], near), AllCancelled(info, keys[..n + 1], near), id, key, edge);
    MngIdIsCarried(info, keys, n + 1, near, station, id);
    InAllAdded(info, keys, n + 1, near, edge);
  }

  lemma SentNext(info: Info, keys: seq<string>, n: nat, near: string -> seq<nat>, station: nat, r: Request)
    requires 0 < n <= |keys| && DifferentKeys(info, keys)
    ensures r in SentAfter(info, keys[..n], near, station) <==>
              || r in SentAfter(info, keys[..n - 1], near, station)
              || r in Requests(MngIdAfter(info, keys[..n], near, station), keys[n - 1],
                               AllAdded(info, keys[..n], near), AllCancelled(info, keys[..n], near))
  {
    assert keys[..n][..n - 1] == keys[..n - 1];
  }

  lemma {:induction false} SendsExactly(info: Info, keys: seq<string>, n: nat, near: string -> seq<nat>, station: nat)
    requires n <= |keys| && DifferentKeys(info, keys)
    ensures SendsUpTo(SentAfter(info, keys[..n], near, station), info, keys, n, near, station)
    decreases n
  {
    if n > 0 {
      SendsExactly(info, keys, n - 1, near, station);
      forall id, key, edge
        ensures Add(id, key, edge) in SentAfter(info, keys[..n], near, station) <==> Requested(info, keys, n, near, station, id, key, edge)
        ensures Cancel(id, key, edge) in SentAfter(info, keys[..n], near, station) <==> Withdrawn(info, keys, n, near, station, id, key, edge)
      {
        LastSends(info, keys, n - 1, near, station, id, key, edge);
        SentNext(info, keys, n, near, station, Add(id, key, edge));
        SentNext(info, keys, n, near, station, Cancel(id, key, edge));
        OneKeyMore(info, keys, n, near, station, id, key, edge);
      }
    }
  }

  lemma OneKeyMore(info: Info, keys: seq<string>, n: nat, near: string -> seq<nat>, station: nat, id: nat, key: string, edge: nat)
    requires 0 < n <= |keys| && DifferentKeys(info, keys)
    ensures Requested(info, keys, n, near, station, id, key, edge) <==>
              || Requested(info, keys, n - 1, near, station, id, key, edge)
              || (keys[n - 1] == key && SendsUnder(info, keys, n - 1, station, id) && WantedUpTo(info, keys, n, near, edge))
    ensures Withdrawn(info, keys, n, near, station, id, key, edge) <==>
              || Withdrawn(info, keys, n - 1, near, station, id, key, edge)
              || (keys[n - 1] == key && SendsUnder(info, keys, n - 1, station, id) && LeftBehindUpTo(info, keys, n, near, edge))
  {
  }

  lemma {:induction false} ReconciledAtTheEnd(info: Info, keys: seq<string>, n: nat, near: string -> seq<nat>, j: nat)
    requires j < n <= |keys| && DifferentKeys(info, keys)
    ensures keys[j] in InfoAfter(info, keys[..n], near)
    ensures InfoAfter(info, keys[..n], near)[keys[j]] == Reconciled(info[keys[j]], near(keys[j]))
    decreases n
  {
    ListAtItsTurn(info, keys, n - 1, near);
    if j < n - 1 {
      ReconciledAtTheEnd(info, keys, n - 1, near, j);
    }
  }

  lemma {:induction false} KeysStay(info: Info, keys: seq<string>, near: string -> seq<nat>)
    requires forall i :: 0 <= i < |keys| ==> keys[i] in info
    ensures InfoAfter(info, keys, near).Keys == info.Keys
    decreases |keys|
  {
    if keys != [] {
      KeysStay(info, keys[..|keys| - 1], near);
    }
  }

  lemma MonitorsNear(info: Info, keys: seq<string>, near: string -> seq<nat>)
    requires DifferentKeys(info, keys)
    ensures Monitors(InfoAfter(info, keys, near), info, keys, near)
  {
    var after: map<string, seq<TranInfo>> := InfoAfter(info, keys, near);
    KeysStay(info, keys, near);
    assert keys[..|keys|] == keys;
    forall key: string, edge: nat | key in after && key in keys
      ensures (exists i :: 0 <= i < |after[key]| && after[key][i].edgeSID == edge) <==> edge in near(key)
    {
      var j :| 0 <= j < |keys| && keys[j] == key;
      ReconciledAtTheEnd(info, keys, |keys|, near, j);
      ReconciliationIsExact(info[key], near(key), edge);
      assert Monitored(after[key], edge) <==> exists i :: 0 <= i < |after[key]| && after[key][i].edgeSID == edge;
    }
    forall key | key in after && key !in keys
      ensures after[key] == info[key]
    {
      OtherKeysStay(info, keys, near, key);
    }
  }
}
