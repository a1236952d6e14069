/** What CalcString makes of any text at all: which errors it logs, and which odd texts it accepts. */
module CalcLaws {
  import opened Common
  import opened CalcUtil

  // ---------------------------------------------------------------- errors, by counting

  /** Digit-led tokens less the others. */
  function Surplus(tokens: seq<string>): int {
    if tokens == [] then 0 else Surplus(tokens[1..]) + if IsDigitLed(tokens[0]) then 1 else -1
  }

  /** Token k is no numeral and has fewer than two values before it, with n on the stack at the start. */
  predicate Starves(tokens: seq<string>, n: int, k: nat)
    requires k < |tokens|
  {
    !IsDigitLed(tokens[k]) && n + Surplus(tokens[..k]) < 2
  }

  predicate SomeStarves(tokens: seq<string>, n: int) {
    exists k :: 0 <= k < |tokens| && Starves(tokens, n, k)
  }

  lemma StarvesFirstOrLater(tokens: seq<string>, n: int)
    requires tokens != []
    ensures SomeStarves(tokens, n) <==>
              (!IsDigitLed(tokens[0]) && n < 2) || SomeStarves(tokens[1..], n + if IsDigitLed(tokens[0]) then 1 else -1)
  {
    var m := n + if IsDigitLed(tokens[0]) then 1 else -1;
    assert tokens[..0] == [];
    assert Starves(tokens, n, 0) <==> !IsDigitLed(tokens[0]) && n < 2;
    forall k: nat | 0 < k < |tokens|
      ensures Starves(tokens, n, k) <==> Starves(tokens[1..], m, k - 1)
    {
      assert tokens[..k][1..] == tokens[1..][..k - 1];
    }
    if k :| 0 <= k < |tokens[1..]| && Starves(tokens[1..], m, k) {
      assert Starves(tokens, n, k + 1);
    }
  }

  lemma {:induction false} RunByCounting<V>(ar: Arithmetic<V>, tokens: seq<string>, stack: seq<V>)
    ensures Run(ar, tokens, stack).None? <==> SomeStarves(tokens, |stack|)
    ensures Run(ar, tokens, stack).Some? ==> |Run(ar, tokens, stack).value| == |stack| + Surplus(tokens)
    decreases |tokens|
  {
    if tokens != [] {
      StarvesFirstOrLater(tokens, |stack|);
      var n := |stack|;
      if IsDigitLed(tokens[0]) {
        RunByCounting(ar, tokens[1..], stack + [ar.atof(tokens[0])]);
      } else if n >= 2 {
        RunByCounting(ar, tokens[1..], stack[..n - 2] + [ar.Apply(tokens[0], stack[n - 2], stack[n - 1])]);
      }
    }
  }

  /** Which error is logged is decided by counting tokens: some operator starves, or not just one value is left. */
  lemma ErrorsByCounting<V>(ar: Arithmetic<V>, tokens: seq<string>)
    ensures RunPostfix(ar, tokens).1 ==
              if SomeStarves(tokens, 0) then Some(TooFewOperands)
              else if Surplus(tokens) != 1 then Some(NotOneResult) else None
  {
    RunByCounting(ar, tokens, []);
  }

  // ---------------------------------------------------------------- numerals

  /** A numeral of up to 19 characters that starts with a digit has the value atof gives it. */
  lemma NumeralAlone<V>(ar: Arithmetic<V>, s: string)
    requires 1 <= |s| <= 19 && '0' <= s[0] <= '9' && forall i :: 0 <= i < |s| ==> '0' <= s[i] <= '9' || s[i] == '.'
    ensures FactorOk(Number(s)) && Calc(ar, s) == (ar.atof(s), None)
  {
    var f, t := Number(s), One(Number(s));
    assert FactorText(f) == s && FactorValue(ar, f) == ar.atof(s);
    assert TermText(t) == s && TermValue(ar, t) == ar.atof(s);
    var e := Just(t);
    CalcEvaluatesInfix(ar, e);
  }

  lemma Opened()
    ensures ScanAll(START, "(") == Scan([], "(", "")
  {
    ScanOne(START, '(');
    assert "" + ['('] == "(" == ['('];
  }

  /** The twentieth character of a numeral would leave no room for its NUL. */
  lemma LongNumeralOverruns(s: string)
    requires |s| == 20 && forall i :: 0 <= i < |s| ==> '0' <= s[i] <= '9' || s[i] == '.'
    ensures !NumeralsFit(START, "(" + s + ")")
  {
    var st := Scan([], "(", "");
    assert "(" + s + ")" == "(" + (s + ")");
    Opened();
    FitsAppend(START, "(", s + ")");
    FitsAppend(st, s, ")");
    ScanNumeral(st, s);
    if NumeralsFit(st, s) {
      FitsAtEnd(st, s);
    }
  }

  lemma {:induction false} FitsAtEnd(st: Scan, s: string)
    requires NumeralsFit(st, s)
    ensures |ScanAll(st, s).num| <= 19
    decreases |s|
  {
    if s != "" {
      FitsAtEnd(Step(st, s[0]), s[1..]);
    }
  }

  /** A numeral that starts with a point is taken for an operator. */
  lemma PointLedFails<V>(ar: Arithmetic<V>, s: string)
    requires 1 <= |s| <= 19 && s[0] == '.' && forall i :: 0 <= i < |s| ==> '0' <= s[i] <= '9' || s[i] == '.'
    ensures Calc(ar, s) == (ar.zero, Some(TooFewOperands))
  {
    NumeralPostfix(s);
    assert [s][0] == s && [s][..0] == [];
    assert Starves([s], 0, 0);
    ErrorsByCounting(ar, [s]);
  }

  lemma NumeralPostfix(s: string)
    requires s != "" && forall i :: 0 <= i < |s| ==> '0' <= s[i] <= '9' || s[i] == '.'
    ensures Postfix(s) == [s]
  {
    var st := Scan([], "(", "");
    assert "(" + s + ")" == "(" + (s + ")");
    Opened();
    ScanAppend(START, "(", s + ")");
    ScanSnoc(st, s, ')');
    ScanNumeral(st, s);
    assert "" + s == s;
    CloseStep(Scan([], "(", s), "", "", "");
    assert "" + "(" + "" + "" == "(" && [] + [s] + [] + [] == [s];
    assert s + ")" == s + [')'];
  }

  /** Over two values such a token drops the upper one without a message, as in "(1)(2).5". */
  lemma PointLedDrops<V>(ar: Arithmetic<V>, a: string, b: string, p: string)
    requires IsDigitLed(a) && IsDigitLed(b) && p != "" && p[0] == '.'
    ensures RunPostfix(ar, [a, b, p]) == (ar.atof(a), None)
  {
    var t := Bin(p, Num(a), Num(b));
    assert t.Post() == [a] + [b] + [p] == [a, b, p];
    RunPostorder(ar, t);
    assert t.Value(ar) == ar.atof(a);
  }

  // ---------------------------------------------------------------- texts that pass unnoticed

  /** The text without the characters the switch has no case for. */
  function Known(s: string): string {
    if s == "" then "" else (if s[0] in "0123456789.+-*/()" then [s[0]] else "") + Known(s[1..])
  }

  /** Characters that are no numeral, operator or parenthesis, blanks among them, are skipped. */
  lemma {:induction false} OthersAreSkipped(st: Scan, s: string)
    ensures ScanAll(st, s) == ScanAll(st, Known(s))
    decreases |s|
  {
    if s != "" {
      OthersAreSkipped(Step(st, s[0]), s[1..]);
      if s[0] in "0123456789.+-*/()" {
        assert ([s[0]] + Known(s[1..]))[1..] == Known(s[1..]);
      } else {
        assert Step(st, s[0]) == st && "" + Known(s[1..]) == Known(s[1..]);
      }
    }
  }

  lemma {:induction false} KnownAppend(a: string, b: string)
    ensures Known(a + b) == Known(a) + Known(b)
    decreases |a|
  {
    if a == "" {
      assert a + b == b;
    } else {
      KnownAppend(a[1..], b);
      assert (a + b)[1..] == a[1..] + b;
      var first := if a[0] in "0123456789.+-*/()" then [a[0]] else "";
      assert Known(a) == first + Known(a[1..]) && Known(a + b) == first + (Known(a[1..]) + Known(b));
    }
  }

  /** A text evaluates like what is left of it without them. */
  lemma SkippedInPostfix(s: string)
    ensures Postfix(s) == Postfix(Known(s))
  {
    OthersAreSkipped(START, "(" + s + ")");
    KnownAppend("(" + s, ")");
    KnownAppend("(", s);
    assert Known("(") == "(" && Known(")") == ")";
  }

  /** A parenthesis too many, on either side, is not noticed. */
  lemma UnbalancedPasses<V>(ar: Arithmetic<V>, e: Expr)
    requires ExprOk(e) && |ExprText(e)| <= 96
    ensures Calc(ar, "(" + ExprText(e)) == Calc(ar, ExprText(e) + ")") == (ExprValue(ar, e), None)
  {
    OpenUnclosed(e);
    CloseUnopened(e);
    TreeOfExpr(ar, e);
    RunPostorder(ar, ExprTree(e));
  }

  lemma OpenUnclosed(e: Expr)
    requires ExprOk(e)
    ensures Postfix("(" + ExprText(e)) == ExprTree(e).Post()
  {
    var text := "(" + ExprText(e);
    var a, m := ScanExpr(e, [], "(");
    var inner := ScanAll(Scan([], "(", ""), text);
    CloseStep(inner, "(", a, m);
    Opened();
    ScanAppend(START, "(", text);
    ScanSnoc(START, "(" + text, ')');
    assert [] + ExprTree(e).Post() == ExprTree(e).Post();
  }

  lemma CloseUnopened(e: Expr)
    requires ExprOk(e)
    ensures Postfix(ExprText(e) + ")") == ExprTree(e).Post()
  {
    var a, m := ScanExpr(e, [], "");
    var inner := ScanAll(START, "(" + ExprText(e));
    assert inner.ops == "" + "(" + a + m;
    CloseStep(inner, "", a, m);
    ScanSnoc(START, "(" + ExprText(e), ')');
    ScanSnoc(START, "(" + ExprText(e) + ")", ')');
    assert "(" + (ExprText(e) + ")") + ")" == "(" + ExprText(e) + ")" + ")";
    assert [] + ExprTree(e).Post() == ExprTree(e).Post();
  }
}
