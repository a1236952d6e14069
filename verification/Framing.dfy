/** Size information that messages carry about themselves, and the splitting of long messages. */
module Framing {
  import opened Common
  import opened Decimal
  import opened StringUtil

  const REPLACE_WORD := "REPSIZE"
  const REPLACE_WORD_FLG := "F_NO"
  const REPLACE_WORD_FLG_MAX := "F_MAX"

  // ---------------------------------------------------------------- replaceSizeInfo

  /** A number that is the length of `rest` other characters and its own digits. */
  predicate SelfSizing(n: nat, rest: nat) {
    n == rest + |Digits(n)|
  }

  /** The number replaceSizeInfo writes. */
  function SizeInfo(emptySize: nat): nat {
    var addSize := emptySize + |Digits(emptySize)|;
    if |Digits(addSize)| != |Digits(emptySize)| then addSize + (|Digits(addSize)| - |Digits(emptySize)|) else addSize
  }

  /** Adding the digits makes the number longer by one digit at most. */
  lemma DigitsOfSum(emptySize: nat)
    ensures var d := |Digits(emptySize)|;
            d <= |Digits(emptySize + d)| <= |Digits(emptySize + d + 1)| <= d + 1
  {
    var d := |Digits(emptySize)|;
    DigitsBetweenPowers(emptySize);
    assert Pow10(d + 1) == 10 * Pow10(d);
    DigitsMonotone(emptySize, emptySize + d);
    DigitsMonotone(emptySize + d, emptySize + d + 1);
    DigitsAtMost(emptySize + d + 1, d + 1);
  }

  lemma SizeInfoIsLeast(emptySize: nat, m: nat)
    requires SelfSizing(m, emptySize)
    ensures SizeInfo(emptySize) <= m
  {
    DigitsOfSum(emptySize);
    DigitsMonotone(emptySize, m);
  }

  /** It counts its own digits, also when adding them carries into a longer number, and is the least to do so. */
  lemma SizeInfoIsSelfSizing(emptySize: nat)
    ensures SelfSizing(SizeInfo(emptySize), emptySize)
    ensures forall m: nat :: SelfSizing(m, emptySize) ==> SizeInfo(emptySize) <= m
  {
    DigitsOfSum(emptySize);
    forall m: nat | SelfSizing(m, emptySize)
      ensures SizeInfo(emptySize) <= m
    {
      SizeInfoIsLeast(emptySize, m);
    }
  }

  /** A message whose placeholder has been replaced by a number that reads back as the message's own length. */
  ghost predicate SaysItsLength(result: string, r: string) {
    var i := Find(result, REPLACE_WORD);
    var n := |r| - (|result| - |REPLACE_WORD|);
    && i != -1 && n > 0 && r == result[..i] + r[i..i + n] + result[i + |REPLACE_WORD|..]
    && r[i..i + n] == Digits(|r|) && Parse(r[i..i + n]) == |r|
  }

  lemma SizedMessage(result: string)
    requires Contains(result, REPLACE_WORD)
    ensures |result| >= |REPLACE_WORD|
    ensures SaysItsLength(result, ReplaceOnce(result, REPLACE_WORD, Digits(SizeInfo(|result| - |REPLACE_WORD|))))
  {
    var size := SizeInfo(|result| - |REPLACE_WORD|);
    var i, r := Find(result, REPLACE_WORD), ReplaceOnce(result, REPLACE_WORD, Digits(size));
    SizeInfoIsSelfSizing(|result| - |REPLACE_WORD|);
    ReplaceLength(result, REPLACE_WORD, Digits(size));
    assert r[i..i + |Digits(size)|] == Digits(size);
    ParseDigits(size);
  }

  /** Fills in the message's own length in place of the placeholder. */
  method ReplaceSizeInfo(result: string) returns (r: string)
    ensures Contains(result, REPLACE_WORD) ==> SaysItsLength(result, r)
    ensures !Contains(result, REPLACE_WORD) ==> r == result
  {
    var size := SizeWithDigits(|result| - |REPLACE_WORD|);
    r := ReplaceOnce(result, REPLACE_WORD, ToString(size));
    if Contains(result, REPLACE_WORD) {
      SizedMessage(result);
    }
  }

  method SizeWithDigits(emptySize: int) returns (size: int)
    ensures emptySize >= 0 ==> size == SizeInfo(emptySize)
  {
    var addSize := emptySize + |ToString(emptySize)|;
    size := addSize;
    if |ToString(addSize)| != |ToString(emptySize)| {
      size := addSize + (|ToString(addSize)| - |ToString(emptySize)|);
    }
  }

  // ---------------------------------------------------------------- splitting

  function TotalLength(parts: seq<string>): nat {
    if parts == [] then 0 else TotalLength(parts[..|parts| - 1]) + |parts[|parts| - 1]|
  }

  /** Pieces of `size` characters; only the last may be shorter, none is empty. */
  predicate CutBySize(pieces: seq<string>, size: nat) {
    forall i :: 0 <= i < |pieces| ==> 0 < |pieces[i]| <= size && (i < |pieces| - 1 ==> |pieces[i]| == size)
  }

  /** Splits into pieces of `size` characters; only the last may be shorter, none is empty. */
  method SplitBySize(target: string, size: nat) returns (result: seq<string>)
    requires size > 0
    ensures Concat(result) == target
    ensures CutBySize(result, size)
  {
    var sumLen := 0;
    result := [];
    assert target[..0] == "";
    while sumLen != |target|
      invariant 0 <= sumLen <= |target|
      invariant Concat(result) == target[..sumLen]
      invariant forall i :: 0 <= i < |result| ==> 0 < |result[i]| <= size
      invariant forall i :: 0 <= i < |result| && (i < |result| - 1 || sumLen < |target|) ==> |result[i]| == size
      decreases |target| - sumLen
    {
      var len := if |target| - sumLen > size then size else |target| - sumLen;
      var splitStr := target[sumLen..sumLen + len];
      assert (result + [splitStr])[..|result|] == result;
      assert target[..sumLen + len] == target[..sumLen] + splitStr;
      result := result + [splitStr];
      sumLen := sumLen + |splitStr|;
    }
    assert target[..|target|] == target;
  }

  /** The second line of a message; vector::at throws when there is none. */
  function HeaderStr(target: string): Option<string> {
    var i := Find(target, "\n");
    if i == -1 then None
    else
      var rest := target[i + 1..];
      var j := Find(rest, "\n");
      Some(if j == -1 then rest else rest[..j])
  }

  /** There is a header exactly when there is a newline, and it is what stands behind the first up to the next. */
  lemma HeaderIsSecondLine(first: string, second: string, rest: string)
    requires Avoids(first, '\n') && Avoids(second, '\n')
    ensures HeaderStr(first) == None
    ensures HeaderStr(first + "\n" + second) == Some(second)
    ensures HeaderStr(first + "\n" + second + "\n" + rest) == Some(second)
  {
    var tail := second + "\n" + rest;
    FindSeparator(first, "\n", second);
    FindSeparator(first, "\n", tail);
    FindSeparator(second, "\n", rest);
    assert (first + "\n" + second)[|first| + 1..] == second;
    assert first + "\n" + second + "\n" + rest == first + "\n" + tail && (first + "\n" + tail)[|first| + 1..] == tail;
    assert tail[..|second|] == second;
  }

  /** Fragment i before its size is known: fragment 0 keeps its own header line, the others get a copy. */
  function Numbered(chunks: seq<string>, header: string, i: nat): string
    requires i < |chunks|
  {
    var max := Digits(|chunks|);
    if i == 0 then ReplaceOnce(ReplaceOnce(chunks[0], REPLACE_WORD_FLG_MAX, max), REPLACE_WORD_FLG, Digits(0))
    else ReplaceOnce(ReplaceOnce(header, REPLACE_WORD_FLG_MAX, max) + "\n" + chunks[i], REPLACE_WORD_FLG, Digits(i))
  }

  function AllNumbered(chunks: seq<string>, header: string, n: nat): (r: seq<string>)
    requires n <= |chunks|
    ensures |r| == n
  {
    seq(n, i requires 0 <= i < n => Numbered(chunks, header, i))
  }

  /** The total the fragments announce: the digits are estimated once, from the total without them. */
  function AnnouncedTotal(sumLength: int, count: nat): int {
    var bare := sumLength - |REPLACE_WORD| * count;
    bare + |ToString(bare)| * count
  }

  /** The length of the rejoined message, with the digits estimated in the same way. */
  function AnnouncedLength(parts: seq<string>, chunks: seq<string>): int
    requires parts != [] && chunks != []
  {
    var sizeLen := |ToString(TotalLength(parts) - |REPLACE_WORD| * |parts|)|;
    |parts[0]| + TotalLength(chunks[1..]) - (|REPLACE_WORD| - sizeLen)
  }

  function Filled(parts: seq<string>, text: string): (r: seq<string>)
    ensures |r| == |parts|
  {
    seq(|parts|, i requires 0 <= i < |parts| => ReplaceOnce(parts[i], REPLACE_WORD, text))
  }

  lemma LengthNext(parts: seq<string>, from: nat, i: nat)
    requires from <= i < |parts|
    ensures TotalLength(parts[from..i + 1]) == TotalLength(parts[from..i]) + |parts[i]|
  {
    assert parts[from..i + 1][..i - from] == parts[from..i];
  }

  method NumberFragment(chunks: seq<string>, line: string, header: string, i: nat) returns (part: string)
    requires i < |chunks| && header == ReplaceOnce(line, REPLACE_WORD_FLG_MAX, ToString(|chunks|))
    ensures part == AllNumbered(chunks, line, |chunks|)[i]
  {
    part := chunks[i];
    if i != 0 {
      part := header + "\n" + part;
    } else {
      part := ReplaceOnce(part, REPLACE_WORD_FLG_MAX, ToString(|chunks|));
    }
    part := ReplaceOnce(part, REPLACE_WORD_FLG, ToString(i));
  }

  /** The length of the first i fragments without the headers copied into them. */
  function NoHeaderLength(parts: seq<string>, chunks: seq<string>, i: nat): nat
    requires |parts| == |chunks| >= i
  {
    if i == 0 then 0 else |parts[0]| + TotalLength(chunks[1..i])
  }

  lemma TakeNext(parts: seq<string>, i: nat)
    requires i < |parts|
    ensures parts[..i + 1] == parts[..i] + [parts[i]]
  {
  }

  lemma NoHeaderNext(parts: seq<string>, chunks: seq<string>, i: nat)
    requires |parts| == |chunks| > i
    ensures NoHeaderLength(parts, chunks, i + 1)
         == NoHeaderLength(parts, chunks, i) + if i == 0 then |parts[0]| else |chunks[i]|
  {
    if i > 0 {
      LengthNext(chunks, 1, i);
    }
  }

  /** The first loop: headers and fragment numbers. */
  method NumberFragments(chunks: seq<string>, line: string)
    returns (list: seq<string>, sumLength: nat, noHeaderLen: nat)
    ensures list == AllNumbered(chunks, line, |chunks|) && sumLength == TotalLength(list)
    ensures chunks != [] ==> noHeaderLen == |list[0]| + TotalLength(chunks[1..])
  {
    var header := ReplaceOnce(line, REPLACE_WORD_FLG_MAX, ToString(|chunks|));
    ghost var all := AllNumbered(chunks, line, |chunks|);
    list, sumLength, noHeaderLen := [], 0, 0;
    for i := 0 to |chunks|
      invariant list == all[..i] && sumLength == TotalLength(all[0..i])
      invariant noHeaderLen == NoHeaderLength(all, chunks, i)
    {
      var part := NumberFragment(chunks, line, header, i);
      NoHeaderNext(all, chunks, i);
      TakeNext(all, i);
      if i != 0 {
        noHeaderLen := noHeaderLen + |chunks[i]|;
      } else {
        noHeaderLen := noHeaderLen + |part|;
      }
      LengthNext(all, 0, i);
      list := list + [part];
      sumLength := sumLength + |part|;
    }
    assert all[0..|chunks|] == all[..|chunks|] == all;
    assert chunks != [] ==> chunks[1..|chunks|] == chunks[1..];
  }

  /** The second loop: the total size. */
  method FillTotal(parts: seq<string>, sumLength: int) returns (list: seq<string>, sizeLen: nat)
    ensures list == Filled(parts, ToString(AnnouncedTotal(sumLength, |parts|)))
    ensures sizeLen == |ToString(sumLength - |REPLACE_WORD| * |parts|)|
  {
    sizeLen := |ToString(sumLength - |REPLACE_WORD| * |parts|)|;
    var total := sumLength - (|REPLACE_WORD| - sizeLen) * |parts|;
    TotalIsAnnounced(sumLength, |parts|, sizeLen, total);
    list := FillParts(parts, ToString(total));
  }

  method FillParts(parts: seq<string>, text: string) returns (list: seq<string>)
    ensures list == Filled(parts, text)
  {
    list := [];
    for i := 0 to |parts|
      invariant list == Filled(parts, text)[..i]
    {
      list := list + [ReplaceOnce(parts[i], REPLACE_WORD, text)];
    }
  }

  /** Splits a message and announces, in every fragment, its number, the fragment count and a total size. */
  method ConvertToXMLList(xmlResult: string, size: nat)
    returns (ret: Option<seq<string>>, noHeaderLen: int, ghost chunks: seq<string>)
    requires size > 0
    ensures ret.None? <==> HeaderStr(xmlResult).None?
    ensures ret.Some? ==> Concat(chunks) == xmlResult && chunks != [] && CutBySize(chunks, size)
    ensures ret.Some? ==>
              var parts := AllNumbered(chunks, HeaderStr(xmlResult).value, |chunks|);
              && ret.value == Filled(parts, ToString(AnnouncedTotal(TotalLength(parts), |parts|)))
              && noHeaderLen == AnnouncedLength(parts, chunks)
  {
    match HeaderStr(xmlResult) {
      case None =>
        ret, noHeaderLen, chunks := None, 0, [];
      case Some(header) =>
        chunks := [];
        var pieces := SplitBySize(xmlResult, size);
        chunks := pieces;
        NonEmptySplit(xmlResult, pieces);
        var parts, sumLength, sizeLen, list;
        parts, sumLength, noHeaderLen := NumberFragments(pieces, header);
        list, sizeLen := FillTotal(parts, sumLength);
        ret := Some(list);
        noHeaderLen := noHeaderLen - (|REPLACE_WORD| - sizeLen);
    }
  }

  lemma NonEmptySplit(s: string, parts: seq<string>)
    requires HeaderStr(s).Some? && Concat(parts) == s
    ensures parts != []
  {
    assert Concat([]) == "";
  }

  lemma MinusTimes(a: int, b: int, n: int)
    ensures (a - b) * n == a * n - b * n
  {
  }

  lemma TotalIsAnnounced(sumLength: int, count: nat, sizeLen: nat, total: int)
    requires sizeLen == |ToString(sumLength - |REPLACE_WORD| * count)|
    requires total == sumLength - (|REPLACE_WORD| - sizeLen) * count
    ensures total == AnnouncedTotal(sumLength, count)
  {
    MinusTimes(|REPLACE_WORD|, sizeLen, count);
  }

  // ---------------------------------------------------------------- what the fragments say

  lemma TimesNext(a: int, n: int)
    ensures a * n + a == a * (n + 1)
  {
  }

  lemma {:induction false} FilledLength(parts: seq<string>, text: string)
    requires forall p <- parts :: Contains(p, REPLACE_WORD)
    ensures TotalLength(Filled(parts, text)) == TotalLength(parts) + (|text| - |REPLACE_WORD|) * |parts|
    decreases |parts|
  {
    if parts != [] {
      var n := |parts| - 1;
      FilledLength(parts[..n], text);
      var filled := Filled(parts, text);
      assert filled[..n] == Filled(parts[..n], text);
      assert parts[n] in parts;
      ReplaceLength(parts[n], REPLACE_WORD, text);
      TimesNext(|text| - |REPLACE_WORD|, n);
    }
  }

  /**
   * The announced total is the real total of the fragments exactly when adding the digits does not
   * carry into a longer number: unlike replaceSizeInfo, the digits are counted only once.
   */
  lemma TotalIsRightUnlessCarry(parts: seq<string>)
    requires parts != [] && forall p <- parts :: Contains(p, REPLACE_WORD)
    ensures var bare := TotalLength(parts) - |REPLACE_WORD| * |parts|;
            var total := AnnouncedTotal(TotalLength(parts), |parts|);
            TotalLength(Filled(parts, ToString(total))) == total <==> |ToString(total)| == |ToString(bare)|
  {
    var n := |parts|;
    var bare := TotalLength(parts) - |REPLACE_WORD| * n;
    var total := AnnouncedTotal(TotalLength(parts), n);
    FilledLength(parts, ToString(total));
    assert total == bare + |ToString(bare)| * n;
    CompareTotals(TotalLength(parts), |REPLACE_WORD|, |ToString(bare)|, |ToString(total)|, n);
  }

  lemma CompareTotals(sum: int, w: int, d: int, d': int, n: int)
    requires n > 0
    ensures sum + (d' - w) * n == sum - w * n + d * n <==> d' == d
  {
    assert (d' - w) * n == d' * n - w * n;
    assert d' * n - d * n == (d' - d) * n;
  }

  lemma {:induction false} ConcatLength(parts: seq<string>)
    ensures |Concat(parts)| == TotalLength(parts)
    decreases |parts|
  {
    if parts != [] {
      ConcatLength(parts[..|parts| - 1]);
    }
  }

  /** One filler line and a header line with all three placeholders. */
  function CarryMessage(): string {
    seq(95, _ => 'x') + "\n" + "F_MAXF_NOREPSIZE"
  }

  /** A message that fits one piece is cut into one. */
  lemma OnePiece(chunks: seq<string>, size: nat)
    requires CutBySize(chunks, size) && 0 < |Concat(chunks)| <= size
    ensures chunks == [Concat(chunks)]
  {
    if |chunks| > 1 {
      ConcatCons(chunks);
      ConcatCons(chunks[1..]);
    } else if |chunks| == 1 {
      assert chunks == [chunks[0]];
      ConcatOne(chunks[0]);
    }
  }

  /**
   * However large the pieces may be, from the message's own length of 112 on: the one fragment made of this
   * message announces 100 characters and has 101.
   */
  lemma CarryIsMissed(chunks: seq<string>, size: nat)
    requires Concat(chunks) == CarryMessage() && CutBySize(chunks, size) && size >= 112
    ensures HeaderStr(CarryMessage()).Some?
    ensures var parts := AllNumbered(chunks, HeaderStr(CarryMessage()).value, |chunks|);
            var total := AnnouncedTotal(TotalLength(parts), |parts|);
            var ret := Filled(parts, ToString(total));
            |ret| == 1 && total == 100 && |ret[0]| == 101
  {
    OnePiece(chunks, size);
    CarryHeader();
    CarryPart();
    var pre, line := seq(95, _ => 'x') + "\n", "F_MAXF_NOREPSIZE";
    var parts := AllNumbered([CarryMessage()], line, 1);
    assert parts == [pre + "10" + "REPSIZE"];
    assert parts[..0] == [] && TotalLength(parts) == 105;
    TwoDigits();
    ReplaceLength(parts[0], REPLACE_WORD, ToString(100));
  }

  lemma TwoDigits()
    ensures |ToString(98)| == 2 && |ToString(100)| == 3 && Digits(0) == "0" && Digits(1) == "1"
  {
    assert Digits(98) == Digits(9) + [Digit(8)];
    assert Digits(100) == Digits(10) + [Digit(0)] && Digits(10) == Digits(1) + [Digit(0)];
  }

  lemma CarryHeader()
    ensures HeaderStr(CarryMessage()) == Some("F_MAXF_NOREPSIZE")
  {
    var filler, line := seq(95, _ => 'x'), "F_MAXF_NOREPSIZE";
    FindSeparator(filler, "\n", line);
    assert CarryMessage()[96..] == line;
    FindSeparator(line, "\n", "");
  }

  lemma CarryPart()
    ensures var pre := seq(95, _ => 'x') + "\n";
            && Numbered([CarryMessage()], "F_MAXF_NOREPSIZE", 0) == pre + "10" + "REPSIZE"
            && Contains(pre + "10" + "REPSIZE", REPLACE_WORD)
  {
    var pre := seq(95, _ => 'x') + "\n";
    TwoDigits();
    FilledInTurn(pre, "1", "0");
    assert "1" + "0" == "10";
    ReplaceFirst(pre + "10", REPLACE_WORD, "", "");
    assert pre + "10" + "REPSIZE" + "" == pre + "10" + "REPSIZE";
  }

  lemma FilledInTurn(pre: string, max: string, no: string)
    requires Avoids(pre, 'F') && Avoids(max, 'F')
    ensures ReplaceOnce(ReplaceOnce(pre + "F_MAXF_NOREPSIZE", REPLACE_WORD_FLG_MAX, max), REPLACE_WORD_FLG, no)
         == pre + (max + no) + "REPSIZE"
  {
    MaxFilled(pre, max);
    NumberFilled(pre + max, no);
    assert (pre + max) + no + "REPSIZE" == pre + (max + no) + "REPSIZE";
  }

  lemma MaxFilled(pre: string, max: string)
    requires Avoids(pre, 'F')
    ensures ReplaceOnce(pre + "F_MAXF_NOREPSIZE", REPLACE_WORD_FLG_MAX, max) == pre + max + "F_NOREPSIZE"
  {
    assert pre + "F_MAXF_NOREPSIZE" == pre + "F_MAX" + "F_NOREPSIZE";
    ReplaceFirst(pre, REPLACE_WORD_FLG_MAX, "F_NOREPSIZE", max);
  }

  lemma NumberFilled(pre: string, no: string)
    requires Avoids(pre, 'F')
    ensures ReplaceOnce(pre + "F_NOREPSIZE", REPLACE_WORD_FLG, no) == pre + no + "REPSIZE"
  {
    assert pre + "F_NOREPSIZE" == pre + "F_NO" + "REPSIZE";
    ReplaceFirst(pre, REPLACE_WORD_FLG, "REPSIZE", no);
  }

  lemma ReplaceFirst(pre: string, word: string, tail: string, text: string)
    requires word != "" && Avoids(pre, word[0])
    ensures Contains(pre + word + tail, word)
    ensures ReplaceOnce(pre + word + tail, word, text) == pre + text + tail
  {
    FindSeparator(pre, word, tail);
    var s := pre + word + tail;
    assert s[..|pre|] == pre && s[|pre| + |word|..] == tail;
  }

  // ---------------------------------------------------------------- rejoining the fragments

  /** A fragment without its copied header line. */
  function Stripped(fragment: string): string {
    var i := Find(fragment, "\n");
    if i == -1 then fragment else fragment[i + 1..]
  }

  function AllStripped(fragments: seq<string>): (r: seq<string>)
    ensures |r| == |fragments|
  {
    seq(|fragments|, i requires 0 <= i < |fragments| => Stripped(fragments[i]))
  }

  /** What a receiver gets by dropping the copied header lines and joining the fragments. */
  function Rejoined(ret: seq<string>): string
    requires ret != []
  {
    ret[0] + Concat(AllStripped(ret[1..]))
  }

  /** All three placeholders can be filled in, one after the other. */
  ghost predicate Fillable(s: string, count: nat) {
    var max := ReplaceOnce(s, REPLACE_WORD_FLG_MAX, Digits(count));
    && Contains(s, REPLACE_WORD_FLG_MAX) && Contains(max, REPLACE_WORD_FLG)
    && forall i: nat :: Contains(ReplaceOnce(max, REPLACE_WORD_FLG, Digits(i)), REPLACE_WORD)
  }

  /** The header line of fragment i with its fields filled in. */
  function Completed(s: string, count: nat, i: nat, text: string): string {
    ReplaceOnce(ReplaceOnce(ReplaceOnce(s, REPLACE_WORD_FLG_MAX, Digits(count)), REPLACE_WORD_FLG, Digits(i)),
                REPLACE_WORD, text)
  }

  lemma FieldMoved(a: string, m: string, b: string, w: string, t: string)
    ensures a + m + (b + w + t) == (a + m + b) + w + t
  {
  }

  /** The next field, behind what has been filled in. */
  lemma FieldFilled(a: string, m: string, b: string, word: string, t: string, text: string)
    requires word != "" && Avoids(a + m + b, word[0])
    ensures ReplaceOnce(a + m + (b + word + t), word, text) == a + m + b + text + t
  {
    FieldMoved(a, m, b, word, t);
    ReplaceFirst(a + m + b, word, t, text);
  }

  lemma AvoidsAll(a: string, m: string, b: string, c: char)
    requires Avoids(a, c) && Avoids(m, c) && Avoids(b, c)
    ensures Avoids(a + m + b, c)
  {
  }

  /** The three fields of a header, written out: the count, the fragment's own number and the total. */
  lemma FieldsFilled(a: string, b: string, c: string, rest: string, count: nat, i: nat, text: string)
    requires Avoids(a, 'F') && Avoids(a, 'R') && Avoids(b, 'F') && Avoids(b, 'R') && Avoids(c, 'R')
    ensures Completed(a + "F_MAX" + (b + "F_NO" + (c + "REPSIZE" + rest)), count, i, text)
         == a + Digits(count) + b + Digits(i) + c + text + rest
  {
    var max, no := Digits(count), Digits(i);
    DigitsAvoid(count, 'F');
    DigitsAvoid(count, 'R');
    DigitsAvoid(i, 'R');
    AvoidsAll(a, max, b, 'F');
    AvoidsAll(a, max, b, 'R');
    AvoidsAll(a + max + b, no, c, 'R');
    ReplaceFirst(a, REPLACE_WORD_FLG_MAX, b + "F_NO" + (c + "REPSIZE" + rest), max);
    FieldFilled(a, max, b, REPLACE_WORD_FLG, c + "REPSIZE" + rest, no);
    FieldFilled(a + max + b, no, c, REPLACE_WORD, rest, text);
  }

  lemma {:induction false} DigitsAvoid(n: nat, c: char)
    requires !('0' <= c <= '9')
    ensures Avoids(Digits(n), c)
  {
    if n >= 10 {
      DigitsAvoid(n / 10, c);
    }
  }

  /** Filling a text in that can be filled in leaves what follows it as it is. */
  lemma CompletedPrefix(s: string, tail: string, count: nat, i: nat, text: string)
    requires Fillable(s, count)
    ensures Completed(s + tail, count, i, text) == Completed(s, count, i, text) + tail
  {
    var max := ReplaceOnce(s, REPLACE_WORD_FLG_MAX, Digits(count));
    ReplaceInPrefix(s, tail, REPLACE_WORD_FLG_MAX, Digits(count));
    ReplaceInPrefix(max, tail, REPLACE_WORD_FLG, Digits(i));
    ReplaceInPrefix(ReplaceOnce(max, REPLACE_WORD_FLG, Digits(i)), tail, REPLACE_WORD, text);
  }

  lemma NewlineOccurs(s: string, k: nat)
    requires k < |s|
    ensures OccursAt(s, "\n", k) <==> s[k] == '\n'
  {
    assert s[k..k + 1] == [s[k]];
  }

  lemma HeaderIsOneLine(s: string)
    requires HeaderStr(s).Some?
    ensures Avoids(HeaderStr(s).value, '\n')
  {
    var rest := s[Find(s, "\n") + 1..];
    var j := Find(rest, "\n");
    forall k | 0 <= k < |HeaderStr(s).value|
      ensures HeaderStr(s).value[k] != '\n'
    {
      NewlineOccurs(rest, k);
    }
  }

  lemma ReplaceAvoids(s: string, before: string, after: string, c: char)
    requires Avoids(s, c) && Avoids(after, c)
    ensures Avoids(ReplaceOnce(s, before, after), c)
  {
  }

  lemma CompletedIsOneLine(line: string, count: nat, i: nat, text: string)
    requires Avoids(line, '\n') && Avoids(text, '\n')
    ensures Avoids(Completed(line, count, i, text), '\n')
  {
    DigitsAvoid(count, '\n');
    DigitsAvoid(i, '\n');
    var max := ReplaceOnce(line, REPLACE_WORD_FLG_MAX, Digits(count));
    ReplaceAvoids(line, REPLACE_WORD_FLG_MAX, Digits(count), '\n');
    ReplaceAvoids(max, REPLACE_WORD_FLG, Digits(i), '\n');
    ReplaceAvoids(ReplaceOnce(max, REPLACE_WORD_FLG, Digits(i)), REPLACE_WORD, text, '\n');
  }

  /** Every later fragment is a completed header line followed by its piece of the message, untouched. */
  lemma LaterFragmentKeepsPiece(chunks: seq<string>, header: string, text: string, i: nat)
    requires 0 < i < |chunks| && Fillable(header, |chunks|) && Avoids(header, '\n') && Avoids(text, '\n')
    ensures ReplaceOnce(Numbered(chunks, header, i), REPLACE_WORD, text)
         == Completed(header, |chunks|, i, text) + "\n" + chunks[i]
    ensures Stripped(ReplaceOnce(Numbered(chunks, header, i), REPLACE_WORD, text)) == chunks[i]
  {
    var h := ReplaceOnce(header, REPLACE_WORD_FLG_MAX, Digits(|chunks|));
    var tail := "\n" + chunks[i];
    assert h + "\n" + chunks[i] == h + tail;
    ReplaceInPrefix(h, tail, REPLACE_WORD_FLG, Digits(i));
    var g := ReplaceOnce(h, REPLACE_WORD_FLG, Digits(i));
    ReplaceInPrefix(g, tail, REPLACE_WORD, text);
    var line := Completed(header, |chunks|, i, text);
    assert line + tail == line + "\n" + chunks[i];
    CompletedIsOneLine(header, |chunks|, i, text);
    LineStripped(line, chunks[i]);
  }

  lemma LineStripped(line: string, piece: string)
    requires Avoids(line, '\n')
    ensures Stripped(line + "\n" + piece) == piece
  {
    FindSeparator(line, "\n", piece);
    assert (line + "\n" + piece)[|line| + 1..] == piece;
  }

  /** The fragments of a message, with this text as the total size. */
  function Fragments(chunks: seq<string>, header: string, text: string): (r: seq<string>)
    ensures |r| == |chunks|
  {
    Filled(AllNumbered(chunks, header, |chunks|), text)
  }

  lemma StrippedAreChunks(chunks: seq<string>, header: string, text: string)
    requires chunks != [] && Fillable(header, |chunks|) && Avoids(header, '\n') && Avoids(text, '\n')
    ensures AllStripped(Fragments(chunks, header, text)[1..]) == chunks[1..]
  {
    var ret := Fragments(chunks, header, text);
    forall i | 0 < i < |ret|
      ensures Stripped(ret[i]) == chunks[i]
    {
      LaterStripped(chunks, header, text, i);
    }
    RestStripped(ret, chunks);
  }

  lemma RestStripped(ret: seq<string>, chunks: seq<string>)
    requires |ret| == |chunks| > 0 && forall i :: 0 < i < |ret| ==> Stripped(ret[i]) == chunks[i]
    ensures AllStripped(ret[1..]) == chunks[1..]
  {
    assert forall i :: 0 <= i < |ret| - 1 ==> ret[1..][i] == ret[i + 1] && chunks[1..][i] == chunks[i + 1];
  }

  lemma LaterStripped(chunks: seq<string>, header: string, text: string, i: nat)
    requires 0 < i < |chunks| && Fillable(header, |chunks|) && Avoids(header, '\n') && Avoids(text, '\n')
    ensures Stripped(Fragments(chunks, header, text)[i]) == chunks[i]
  {
    LaterFragmentKeepsPiece(chunks, header, text, i);
  }

  /**
   * Dropping the copied header lines from the fragments after the first and joining them gives the
   * message with its own three header fields filled in.
   */
  lemma FragmentsRejoin(chunks: seq<string>, total: int)
    requires chunks != [] && HeaderStr(Concat(chunks)).Some?
    requires Fillable(chunks[0], |chunks|) && Fillable(HeaderStr(Concat(chunks)).value, |chunks|)
    ensures Rejoined(Fragments(chunks, HeaderStr(Concat(chunks)).value, ToString(total)))
         == Completed(Concat(chunks), |chunks|, 0, ToString(total))
  {
    var header, text := HeaderStr(Concat(chunks)).value, ToString(total);
    HeaderIsOneLine(Concat(chunks));
    NumberIsOneLine(total);
    StrippedAreChunks(chunks, header, text);
    FirstIsCompleted(chunks, header, text);
  }

  lemma FirstIsCompleted(chunks: seq<string>, header: string, text: string)
    requires chunks != [] && Fillable(chunks[0], |chunks|)
    ensures Fragments(chunks, header, text)[0] + Concat(chunks[1..]) == Completed(Concat(chunks), |chunks|, 0, text)
  {
    ConcatCons(chunks);
    CompletedPrefix(chunks[0], Concat(chunks[1..]), |chunks|, 0, text);
    FirstFragment(chunks, header, text);
  }

  lemma FirstFragment(chunks: seq<string>, header: string, text: string)
    requires chunks != []
    ensures Fragments(chunks, header, text)[0] == Completed(chunks[0], |chunks|, 0, text)
  {
  }

  lemma NumberIsOneLine(i: int)
    ensures Avoids(ToString(i), '\n')
  {
    DigitsAvoid(if i < 0 then -i else i, '\n');
  }

  /** The returned length is that of the rejoined message if and only if no digit is carried. */
  lemma LengthIsRightUnlessCarry(chunks: seq<string>)
    requires chunks != [] && HeaderStr(Concat(chunks)).Some?
    requires Fillable(chunks[0], |chunks|) && Fillable(HeaderStr(Concat(chunks)).value, |chunks|)
    ensures var header := HeaderStr(Concat(chunks)).value;
            var parts := AllNumbered(chunks, header, |chunks|);
            var bare := TotalLength(parts) - |REPLACE_WORD| * |parts|;
            var total := AnnouncedTotal(TotalLength(parts), |parts|);
            |Rejoined(Fragments(chunks, header, ToString(total)))| == AnnouncedLength(parts, chunks)
            <==> |ToString(total)| == |ToString(bare)|
  {
    var header := HeaderStr(Concat(chunks)).value;
    var parts := AllNumbered(chunks, header, |chunks|);
    var total := AnnouncedTotal(TotalLength(parts), |parts|);
    HeaderIsOneLine(Concat(chunks));
    NumberIsOneLine(total);
    StrippedAreChunks(chunks, header, ToString(total));
    ConcatLength(chunks[1..]);
    assert parts[0] == ReplaceOnce(ReplaceOnce(chunks[0], REPLACE_WORD_FLG_MAX, Digits(|chunks|)), REPLACE_WORD_FLG, Digits(0));
    ReplaceLength(parts[0], REPLACE_WORD, ToString(total));
  }
}
