/**
 * Datatypes and sequence facts shared by the other modules: options, sizes of sets, selections of a
 * sequence by a test, and concatenation of texts.
 */
module Common {
  datatype Option<+T> = None | Some(value: T)

  function Min(x: int, y: int): int {
    if x < y then x else y
  }

  function Max(x: int, y: int): int {
    if x < y then y else x
  }

  /** A subset is no larger, and equal when it is as large. */
  lemma {:induction false} SubsetSize<T>(a: set<T>, b: set<T>)
    requires a <= b
    ensures |a| <= |b|
    ensures |a| == |b| ==> a == b
    decreases a
  {
    if t :| t in a {
      SubsetSize(a - {t}, b - {t});
      assert a == (a - {t}) + {t} && b == (b - {t}) + {t};
    }
  }

  // ---------------------------------------------------------------- selections

  predicate Increasing(at: seq<nat>) {
    forall j, k :: 0 <= j < k < |at| ==> at[j] < at[k]
  }

  /** `chosen` are the elements at these places. */
  predicate FoundAt<T(==)>(from: seq<T>, chosen: seq<T>, at: seq<nat>) {
    |at| == |chosen| && forall k :: 0 <= k < |at| ==> at[k] < |from| && chosen[k] == from[at[k]]
  }

  /** The places are those whose elements `keep` accepts. */
  predicate PlacesOf<T>(from: seq<T>, keep: T -> bool, at: seq<nat>) {
    forall i :: 0 <= i < |from| ==> (i in at <==> keep(from[i]))
  }

  /** `chosen` are the elements that `keep` accepts, in their order and as often as they are there. */
  ghost predicate IsSelection<T>(from: seq<T>, keep: T -> bool, chosen: seq<T>) {
    exists at: seq<nat> :: SelectsAt(from, keep, chosen, at)
  }

  predicate SelectsAt<T(==)>(from: seq<T>, keep: T -> bool, chosen: seq<T>, at: seq<nat>) {
    Increasing(at) && FoundAt(from, chosen, at) && PlacesOf(from, keep, at)
  }

  lemma NothingSelected<T>(keep: T -> bool)
    ensures IsSelection([], keep, [])
  {
    assert SelectsAt([], keep, [], []);
  }

  lemma FoundInLonger<T>(front: seq<T>, last: T, chosen: seq<T>, at: seq<nat>)
    requires FoundAt(front, chosen, at) && Increasing(at)
    ensures FoundAt(front + [last], chosen, at)
    ensures FoundAt(front + [last], chosen + [last], at + [|front|]) && Increasing(at + [|front|])
  {
  }

  lemma PlacesInLonger<T>(front: seq<T>, last: T, keep: T -> bool, at: seq<nat>)
    requires PlacesOf(front, keep, at) && forall k :: 0 <= k < |at| ==> at[k] < |front|
    ensures PlacesOf(front + [last], keep, if keep(last) then at + [|front|] else at)
  {
    var from, more := front + [last], if keep(last) then at + [|front|] else at;
    forall i | 0 <= i < |from|
      ensures i in more <==> keep(from[i])
    {
      assert i in more <==> i in at || (keep(last) && i == |front|);
    }
  }

  lemma SelectionSnoc<T>(front: seq<T>, last: T, keep: T -> bool, chosen: seq<T>)
    requires IsSelection(front, keep, chosen)
    ensures IsSelection(front + [last], keep, if keep(last) then chosen + [last] else chosen)
  {
    var at: seq<nat> :| SelectsAt(front, keep, chosen, at);
    FoundInLonger(front, last, chosen, at);
    PlacesInLonger(front, last, keep, at);
    assert SelectsAt(front + [last], keep, if keep(last) then chosen + [last] else chosen,
                     if keep(last) then at + [|front|] else at);
  }

  lemma SelectionNext<T>(from: seq<T>, keep: T -> bool, chosen: seq<T>)
    requires from != [] && IsSelection(from[..|from| - 1], keep, chosen)
    ensures IsSelection(from, keep, if keep(from[|from| - 1]) then chosen + [from[|from| - 1]] else chosen)
  {
    var n := |from| - 1;
    assert from == from[..n] + [from[n]];
    SelectionSnoc(from[..n], from[n], keep, chosen);
  }

  function Concat(parts: seq<string>): string {
    if parts == [] then "" else Concat(parts[..|parts| - 1]) + parts[|parts| - 1]
  }

  lemma {:induction false} ConcatAppend(a: seq<string>, b: seq<string>)
    ensures Concat(a + b) == Concat(a) + Concat(b)
    decreases |b|
  {
    if b == [] {
      assert a + b == a;
    } else {
      var n := |b| - 1;
      assert (a + b)[..|a| + n] == a + b[..n];
      ConcatAppend(a, b[..n]);
    }
  }

  lemma ConcatOne(s: string)
    ensures Concat([s]) == s
  {
    assert [s][..0] == [];
    assert Concat([]) + s == s;
  }

  lemma ConcatCons(parts: seq<string>)
    requires parts != []
    ensures Concat(parts) == parts[0] + Concat(parts[1..])
  {
    assert parts == [parts[0]] + parts[1..];
    ConcatAppend([parts[0]], parts[1..]);
    ConcatOne(parts[0]);
  }
}
