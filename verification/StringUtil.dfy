/**
 * The string operations the other modules take from StringUtil and std::string: comparison, replacing,
 * splitting and joining, and splitting at the commas outside brackets.
 */
module StringUtil {
  // ---------------------------------------------------------------- comparison

  /** string::compare > 0. */
  predicate Greater(a: string, b: string) {
    if a == "" then false
    else if b == "" then true
    else if a[0] == b[0] then Greater(a[1..], b[1..])
    else a[0] > b[0]
  }

  lemma {:induction false} GreaterIsTotal(a: string, b: string)
    ensures a == b ==> !Greater(a, b)
    ensures a != b ==> (Greater(a, b) <==> !Greater(b, a))
    decreases |a|
  {
    if a != "" && b != "" && a[0] == b[0] {
      GreaterIsTotal(a[1..], b[1..]);
      assert a == [a[0]] + a[1..] && b == [b[0]] + b[1..];
    }
  }

  /** `a` and `b` agree up to k, where `b` ends or has the smaller character. */
  predicate DiffersAt(a: string, b: string, k: nat) {
    k < |a| && k <= |b| && a[..k] == b[..k] && (k < |b| ==> a[k] > b[k])
  }

  lemma {:induction false} GreaterAtDifference(a: string, b: string)
    ensures Greater(a, b) <==> exists k: nat :: DiffersAt(a, b, k)
    decreases |a|
  {
    if a != "" && b != "" && a[0] == b[0] {
      GreaterAtDifference(a[1..], b[1..]);
      if k: nat :| DiffersAt(a[1..], b[1..], k) {
        assert a[..k + 1] == [a[0]] + a[1..][..k] && b[..k + 1] == [b[0]] + b[1..][..k];
        assert DiffersAt(a, b, k + 1);
      }
      if k: nat :| DiffersAt(a, b, k) {
        assert k > 0 && a[1..][..k - 1] == a[..k][1..] && b[1..][..k - 1] == b[..k][1..];
        assert DiffersAt(a[1..], b[1..], k - 1);
      }
    } else if a != "" {
      assert a[..0] == b[..0];
      assert (b == "" || a[0] > b[0]) ==> DiffersAt(a, b, 0);
    }
  }

  // ---------------------------------------------------------------- replaceOnce

  predicate OccursAt(s: string, w: string, i: int) {
    0 <= i <= |s| - |w| && s[i..i + |w|] == w
  }

  /** string::find: the first position at or after `from`, or -1. */
  function FindFrom(s: string, w: string, from: nat): (i: int)
    requires from <= |s|
    ensures i == -1 || (from <= i && OccursAt(s, w, i))
    ensures forall j :: from <= j && OccursAt(s, w, j) ==> 0 <= i <= j
    decreases |s| - from
  {
    if OccursAt(s, w, from) then from
    else if from == |s| then -1
    else FindFrom(s, w, from + 1)
  }

  function Find(s: string, w: string): (i: int)
    ensures i == -1 || OccursAt(s, w, i)
    ensures forall j :: OccursAt(s, w, j) ==> 0 <= i <= j
  {
    FindFrom(s, w, 0)
  }

  predicate Contains(s: string, w: string) {
    Find(s, w) != -1
  }

  function ReplaceOnce(s: string, before: string, after: string): string {
    var i := Find(s, before);
    if i == -1 then s else s[..i] + after + s[i + |before|..]
  }

  lemma ReplaceLength(s: string, before: string, after: string)
    requires Contains(s, before)
    ensures |ReplaceOnce(s, before, after)| == |s| - |before| + |after|
  {
  }

  lemma FoundInPrefix(s: string, tail: string, before: string)
    requires Contains(s, before)
    ensures Find(s + tail, before) == Find(s, before)
  {
    var i := Find(s, before);
    var j := Find(s + tail, before);
    assert (s + tail)[i..i + |before|] == s[i..i + |before|];
    assert OccursAt(s + tail, before, i);
    assert (s + tail)[j..j + |before|] == s[j..j + |before|];
    assert OccursAt(s, before, j);
  }

  /** The first occurrence in a prefix is the first occurrence. */
  lemma ReplaceInPrefix(s: string, tail: string, before: string, after: string)
    requires Contains(s, before)
    ensures Contains(s + tail, before)
    ensures ReplaceOnce(s + tail, before, after) == ReplaceOnce(s, before, after) + tail
  {
    var i := Find(s, before);
    FoundInPrefix(s, tail, before);
    assert (s + tail)[i + |before|..] == s[i + |before|..] + tail;
    assert (s + tail)[..i] == s[..i];
  }

  // ---------------------------------------------------------------- split

  /** The texts with a separator between them. */
  function JoinWith(sep: string, texts: seq<string>): string {
    if texts == [] then ""
    else if |texts| == 1 then texts[0]
    else texts[0] + sep + JoinWith(sep, texts[1..])
  }

  /** Joining one text more: what a loop that appends text and separator has built. */
  lemma {:induction false} JoinWithNext(sep: string, texts: seq<string>, i: nat)
    requires i < |texts|
    ensures JoinWith(sep, texts[..i + 1])
         == JoinWith(sep, texts[..i]) + (if i > 0 then sep else "") + texts[i]
    decreases |texts|
  {
    if i > 0 {
      JoinWithNext(sep, texts[1..], i - 1);
      assert texts[..i + 1][1..] == texts[1..][..i] && texts[..i][1..] == texts[1..][..i - 1];
    }
  }

  /** What a loop has written when it appends each text and, except after the last, the separator. */
  function SoFar(sep: string, texts: seq<string>, i: nat): string
    requires i <= |texts|
  {
    JoinWith(sep, texts[..i]) + if 0 < i < |texts| then sep else ""
  }

  lemma SoFarNext(sep: string, texts: seq<string>, i: nat)
    requires i < |texts|
    ensures SoFar(sep, texts, i + 1) == SoFar(sep, texts, i) + texts[i] + if i + 1 < |texts| then sep else ""
  {
    JoinWithNext(sep, texts, i);
  }

  lemma SoFarEnds(sep: string, texts: seq<string>)
    ensures SoFar(sep, texts, 0) == ""
    ensures SoFar(sep, texts, |texts|) == JoinWith(sep, texts)
  {
    assert texts[..|texts|] == texts;
  }

  function SplitRest(s: string, sep: string): (parts: seq<string>)
    requires sep != ""
    ensures parts != []
  {
    var i := Find(s, sep);
    if i == -1 then [s] else [s[..i]] + SplitRest(s[i + |sep|..], sep)
  }

  /** StringUtil::split; the empty string has no parts. */
  function Split(s: string, sep: string): seq<string>
    requires sep != ""
  {
    if s == "" then [] else SplitRest(s, sep)
  }

  predicate Avoids(s: string, c: char) {
    forall i :: 0 <= i < |s| ==> s[i] != c
  }

  lemma OccursHead(s: string, w: string)
    requires w != ""
    ensures forall j :: OccursAt(s, w, j) ==> s[j] == w[0]
  {
    forall j | OccursAt(s, w, j)
      ensures s[j] == w[0]
    {
      assert s[j..j + |w|][0] == s[j];
    }
  }

  lemma FindSeparator(text: string, sep: string, rest: string)
    requires sep != "" && Avoids(text, sep[0])
    ensures Find(text, sep) == -1
    ensures Find(text + sep + rest, sep) == |text|
  {
    var s := text + sep + rest;
    assert OccursAt(s, sep, |text|);
    OccursHead(s, sep);
    OccursHead(text, sep);
    assert forall j :: 0 <= j < |text| ==> s[j] == text[j];
  }

  /** Splitting undoes joining when no text contains the separator's first character. */
  lemma {:induction false} SplitJoin(sep: string, texts: seq<string>)
    requires sep != "" && texts != [] && forall t <- texts :: Avoids(t, sep[0])
    ensures SplitRest(JoinWith(sep, texts), sep) == texts
    decreases |texts|
  {
    assert texts[0] in texts;
    if |texts| == 1 {
      FindSeparator(texts[0], sep, "");
    } else {
      var rest := JoinWith(sep, texts[1..]);
      FindSeparator(texts[0], sep, rest);
      SplitJoin(sep, texts[1..]);
      var s := texts[0] + sep + rest;
      assert s[..|texts[0]|] == texts[0] && s[|texts[0]| + |sep|..] == rest;
      assert texts == [texts[0]] + texts[1..];
    }
  }

  // ---------------------------------------------------------------- splitting outside brackets

  /** Splits at the commas outside all brackets. */
  function TopParts(s: string, depth: nat, current: string): (parts: seq<string>)
    ensures forall p <- parts :: |p| <= |s| + |current|
    decreases |s|
  {
    if s == "" then [current]
    else if s[0] == ',' && depth == 0 then [current] + TopParts(s[1..], 0, "")
    else
      var deeper := if s[0] == '(' then depth + 1 else if s[0] == ')' && depth > 0 then depth - 1 else depth;
      TopParts(s[1..], deeper, current + [s[0]])
  }

  /** StringUtil::splitExcludeBrackets at commas. */
  function SplitExcludeBrackets(s: string): (parts: seq<string>)
    ensures forall p <- parts :: |p| <= |s|
  {
    if s == "" then [] else TopParts(s, 0, "")
  }

  predicate IsOrdinary(s: string) {
    Avoids(s, '(') && Avoids(s, ')') && Avoids(s, ',')
  }

  lemma {:induction false} PassOrdinary(s: string, depth: nat, current: string, rest: string)
    requires IsOrdinary(s)
    ensures TopParts(s + rest, depth, current) == TopParts(rest, depth, current + s)
    decreases |s|
  {
    if s == "" {
      assert s + rest == rest && current + s == current;
    } else {
      PassOrdinary(s[1..], depth, current + [s[0]], rest);
      assert (s + rest)[1..] == s[1..] + rest;
      assert current + [s[0]] + s[1..] == current + s;
    }
  }

  lemma PassOne(c: char, depth: nat, current: string, rest: string)
    requires c != ',' || depth > 0
    ensures TopParts([c] + rest, depth, current) ==
            TopParts(rest, if c == '(' then depth + 1 else if c == ')' && depth > 0 then depth - 1 else depth,
                     current + [c])
  {
    assert ([c] + rest)[1..] == rest;
  }

  lemma Regroup(a: string, b: string, c: string, d: string, e: string)
    ensures a + b + c + d + e == a + (b + (c + (d + e)))
    ensures e + a + b + c + d == e + (a + b + c + d)
  {
  }

  /** A call passes when its argument text passes one level deeper. */
  lemma PassCall(name: string, body: string, depth: nat, current: string, rest: string)
    requires IsOrdinary(name)
    requires TopParts(body + (")" + rest), depth + 1, current + name + "(")
          == TopParts(")" + rest, depth + 1, current + name + "(" + body)
    ensures TopParts(name + "(" + body + ")" + rest, depth, current)
         == TopParts(rest, depth, current + (name + "(" + body + ")"))
  {
    var tail := body + (")" + rest);
    Regroup(name, "(", body, ")", rest);
    Regroup(name, "(", body, ")", current);
    assert "(" == ['('] && ")" == [')'];
    calc {
      TopParts(name + ("(" + tail), depth, current);
      { PassOrdinary(name, depth, current, "(" + tail); }
      TopParts("(" + tail, depth, current + name);
      { PassOne('(', depth, current + name, tail); }
      TopParts(tail, depth + 1, current + name + "(");
      TopParts(")" + rest, depth + 1, current + name + "(" + body);
      { PassOne(')', depth + 1, current + name + "(" + body, rest); }
      TopParts(rest, depth, current + name + "(" + body + ")");
    }
  }

  /** A list passes when its head and its remainder do. */
  lemma PassComma(first: string, more: string, depth: nat, current: string, rest: string)
    requires depth > 0
    requires TopParts(first + ("," + (more + rest)), depth, current)
          == TopParts("," + (more + rest), depth, current + first)
    requires TopParts(more + rest, depth, current + first + ",")
          == TopParts(rest, depth, current + first + "," + more)
    ensures TopParts(first + "," + more + rest, depth, current)
         == TopParts(rest, depth, current + (first + "," + more))
  {
    Regroup3(first, ",", more, rest);
    Regroup3(first, ",", more, current);
    PassOne(',', depth, current + first, more + rest);
    assert "," == [','];
  }

  lemma Regroup3(a: string, b: string, c: string, d: string)
    ensures a + b + c + d == a + (b + (c + d))
    ensures d + a + b + c == d + (a + b + c)
  {
  }
}
