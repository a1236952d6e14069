/** The loop that assembles a compressed payload from the datagrams it was cut into (NetworkSource::recvUsingHeader). */
module ChunkAssembly {
  import opened Common

  /** Waiting when the datagrams run out, Failed for -1. */
  datatype Outcome = Waiting | Failed | Assembled(data: string)

  /** The first n datagrams leave the loop waiting for more. */
  ghost predicate Partial(chunks: seq<string>, n: nat, maxCompSize: int)
    requires n <= |chunks|
  {
    && (forall i :: 0 <= i < n ==> 0 < |chunks[i]| < maxCompSize)
    && (n > 0 ==> |Concat(chunks[..n])| < maxCompSize)
  }

  /** Datagram n ends the loop: it is a whole payload by itself, or completes those before it. */
  ghost predicate AssembledAt(chunks: seq<string>, n: nat, maxCompSize: int, data: string)
    requires n < |chunks|
  {
    && Partial(chunks, n, maxCompSize)
    && ((|chunks[n]| == maxCompSize && data == chunks[n])
        || (n > 0 && 0 < |chunks[n]| < maxCompSize == |Concat(chunks[..n + 1])| && data == Concat(chunks[..n + 1])))
  }

  lemma ConcatNext(chunks: seq<string>, n: nat)
    requires n < |chunks|
    ensures Concat(chunks[..n + 1]) == Concat(chunks[..n]) + chunks[n]
  {
    assert chunks[..n + 1][..n] == chunks[..n];
  }

  lemma {:induction false} PrefixLength(chunks: seq<string>, m: nat, n: nat)
    requires m <= n <= |chunks|
    ensures |Concat(chunks[..m])| <= |Concat(chunks[..n])|
    decreases n
  {
    if m < n {
      PrefixLength(chunks, m, n - 1);
      ConcatNext(chunks, n - 1);
    }
  }

  lemma PartialIsClosed(chunks: seq<string>, m: nat, n: nat, maxCompSize: int)
    requires m <= n <= |chunks| && Partial(chunks, n, maxCompSize)
    ensures Partial(chunks, m, maxCompSize)
  {
    PrefixLength(chunks, m, n);
  }

  /** The datagram that ends the loop, and so the payload, is determined. */
  lemma AssembledOnce(chunks: seq<string>, m: nat, n: nat, maxCompSize: int, a: string, b: string)
    requires m < |chunks| && n < |chunks|
    requires AssembledAt(chunks, m, maxCompSize, a) && AssembledAt(chunks, n, maxCompSize, b)
    ensures m == n && a == b
  {
    if m < n {
      NotPartialAfter(chunks, m, n, maxCompSize, a);
    } else if n < m {
      NotPartialAfter(chunks, n, m, maxCompSize, b);
    }
  }

  lemma NotPartialAfter(chunks: seq<string>, m: nat, n: nat, maxCompSize: int, data: string)
    requires m < n <= |chunks| && AssembledAt(chunks, m, maxCompSize, data)
    ensures !Partial(chunks, n, maxCompSize)
  {
    if Partial(chunks, n, maxCompSize) {
      PartialIsClosed(chunks, m + 1, n, maxCompSize);
      assert false;
    }
  }

  lemma PartialNext(chunks: seq<string>, n: nat, maxCompSize: int)
    requires n < |chunks| && Partial(chunks, n, maxCompSize)
    ensures Partial(chunks, n + 1, maxCompSize) <==>
              0 < |chunks[n]| < maxCompSize && |Concat(chunks[..n])| + |chunks[n]| < maxCompSize
  {
    ConcatNext(chunks, n);
    if n == 0 {
      assert chunks[..0] == [];
    }
  }

  lemma StuckStaysStuck(chunks: seq<string>, n: nat, maxCompSize: int)
    requires n < |chunks| && Partial(chunks, n, maxCompSize) && !Partial(chunks, n + 1, maxCompSize)
    requires forall data :: !AssembledAt(chunks, n, maxCompSize, data)
    ensures forall m: nat, data :: m < |chunks| ==> !AssembledAt(chunks, m, maxCompSize, data)
    ensures !Partial(chunks, |chunks|, maxCompSize)
  {
    forall m: nat, data | m < |chunks|
      ensures !AssembledAt(chunks, m, maxCompSize, data)
    {
      if m < n {
        if AssembledAt(chunks, m, maxCompSize, data) {
          NotPartialAfter(chunks, m, n, maxCompSize, data);
        }
      } else if m > n && Partial(chunks, m, maxCompSize) {
        PartialIsClosed(chunks, n + 1, m, maxCompSize);
      }
    }
    if Partial(chunks, |chunks|, maxCompSize) {
      PartialIsClosed(chunks, n + 1, |chunks|, maxCompSize);
    }
  }

  /** The receiving loop over the datagrams that arrive, the header of the first one taken off. */
  method AssembleChunks(chunks: seq<string>, maxCompSize: int) returns (r: Outcome)
    ensures r.Waiting? <==> Partial(chunks, |chunks|, maxCompSize)
    ensures r.Assembled? ==> exists n: nat :: n < |chunks| && AssembledAt(chunks, n, maxCompSize, r.data)
    ensures r.Failed? ==> forall n: nat, data :: n < |chunks| ==> !AssembledAt(chunks, n, maxCompSize, data)
  {
    var bufComp := "";
    var pre_len := 0;
    for n := 0 to |chunks|
      invariant Partial(chunks, n, maxCompSize)
      invariant bufComp == Concat(chunks[..n]) && pre_len == |bufComp|
    {
      var now_len := |chunks[n]|;
      PartialNext(chunks, n, maxCompSize);
      ConcatNext(chunks, n);
      if now_len <= 0 || now_len > maxCompSize {
        // after the loop the length is compared with the expected one, which may be 0
        if now_len != maxCompSize {
          StuckStaysStuck(chunks, n, maxCompSize);
          return Failed;
        }
      }
      if now_len == maxCompSize {
        assert AssembledAt(chunks, n, maxCompSize, chunks[n]);
        NotPartialAfter(chunks, n, |chunks|, maxCompSize, chunks[n]);
        return Assembled(chunks[n]);
      } else if pre_len > 0 {
        if pre_len + now_len == maxCompSize {
          bufComp := bufComp + chunks[n];
          assert AssembledAt(chunks, n, maxCompSize, bufComp);
          NotPartialAfter(chunks, n, |chunks|, maxCompSize, bufComp);
          return Assembled(bufComp);
        } else if pre_len + now_len < maxCompSize {
          bufComp := bufComp + chunks[n];
          pre_len := pre_len + now_len;
        } else {
          StuckStaysStuck(chunks, n, maxCompSize);
          return Failed;
        }
      } else {
        pre_len := now_len;
        bufComp := chunks[n];
      }
    }
    r := Waiting;
  }

  /** A payload cut into any non-empty pieces is assembled with the last piece, whatever follows. */
  lemma PiecesAreAssembled(pieces: seq<string>, later: seq<string>)
    requires pieces != [] && forall i :: 0 <= i < |pieces| ==> pieces[i] != ""
    ensures AssembledAt(pieces + later, |pieces| - 1, |Concat(pieces)|, Concat(pieces))
  {
    var all, last, size := pieces + later, |pieces| - 1, |Concat(pieces)|;
    assert pieces[..|pieces|] == pieces && all[..last + 1] == pieces && all[..last] == pieces[..last];
    ConcatNext(pieces, last);
    if last == 0 {
      assert pieces[..0] == [];
      assert Concat(pieces) == pieces[0];
    } else {
      forall i | 0 <= i < |pieces|
        ensures |pieces[i]| < size
      {
        PieceIsShorter(pieces, i);
      }
    }
  }

  lemma PieceIsShorter(pieces: seq<string>, i: nat)
    requires i < |pieces| && |pieces| >= 2 && forall j :: 0 <= j < |pieces| ==> pieces[j] != ""
    ensures |pieces[i]| < |Concat(pieces)|
  {
    assert pieces[..|pieces|] == pieces;
    ConcatNext(pieces, i);
    if i == 0 {
      ConcatNext(pieces, 1);
      PrefixLength(pieces, 2, |pieces|);
    } else {
      ConcatNext(pieces, i - 1);
      PrefixLength(pieces, i + 1, |pieces|);
    }
  }

  /** Nothing received is lost if and only if no full-size datagram ends a payload begun by others. */
  lemma NothingLostIff(chunks: seq<string>, n: nat, maxCompSize: int, data: string)
    requires n < |chunks| && AssembledAt(chunks, n, maxCompSize, data)
    ensures data == Concat(chunks[..n + 1]) <==> n == 0 || |chunks[n]| < maxCompSize
  {
    ConcatNext(chunks, n);
    if n > 0 {
      ConcatNext(chunks, n - 1);
    } else {
      assert chunks[..0] == [];
    }
  }

  /** A datagram of the full size ends the loop alone: pieces received before it are dropped. */
  lemma WholeDatagramOvertakes(pieces: seq<string>, whole: string)
    requires Partial(pieces, |pieces|, |whole|)
    ensures AssembledAt(pieces + [whole], |pieces|, |whole|, whole)
  {
    assert (pieces + [whole])[..|pieces|] == pieces == pieces[..|pieces|];
  }
}
