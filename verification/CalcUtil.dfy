/** The arithmetic evaluator CalcString: infix text to postfix tokens, and a stack machine. */
module CalcUtil {
  import opened Common

  /** The double arithmetic the evaluator uses, kept abstract. */
  datatype Arithmetic<!V> = Arithmetic(
    zero: V,
    atof: string -> V,
    add: (V, V) -> V,
    sub: (V, V) -> V,
    mul: (V, V) -> V,
    div: (V, V) -> V)
  {
    /** A token whose first character is no operator leaves the lower operand in place. */
    function Apply(token: string, x: V, y: V): V {
      if token == "" then x
      else match token[0]
        case '-' => sub(x, y)
        case '+' => add(x, y)
        case '/' => div(x, y)
        case '*' => mul(x, y)
        case _ => x
    }
  }

  /** The messages CalcString logs before it returns 0.0. */
  datatype Error = ParameterEmpty | ParameterTooLong | TooFewOperands | NotOneResult

  const MAX_NUMERAL: nat := 19
  const TOO_LONG: nat := 98

  // ---------------------------------------------------------------- specification

  predicate IsNumeralChar(c: char) {
    '0' <= c <= '9' || c == '.'
  }

  predicate IsDigitLed(token: string) {
    token != "" && '0' <= token[0] <= '9'
  }

  /** The postfix tokens written so far, the operator stack (top last) and the pending numeral. */
  datatype Scan = Scan(out: seq<string>, ops: string, num: string)

  function Flush(st: Scan): Scan {
    if st.num == "" then st else Scan(st.out + [st.num], st.ops, "")
  }

  function PopToParen(st: Scan): Scan
    decreases |st.ops|
  {
    if st.ops == "" || st.ops[|st.ops| - 1] == '(' then st else PopToParen(PopOne(st))
  }

  function PopOne(st: Scan): Scan
    requires st.ops != ""
  {
    Scan(st.out + [[st.ops[|st.ops| - 1]]], st.ops[..|st.ops| - 1], st.num)
  }

  predicate TopIsMultiplicative(ops: string) {
    ops != "" && ops[|ops| - 1] in "*/"
  }

  function PushOp(st: Scan, c: char): Scan {
    st.(ops := st.ops + [c])
  }

  function Step(st: Scan, c: char): Scan {
    if IsNumeralChar(c) then st.(num := st.num + [c])
    else if c in "+-" then PushOp(PopToParen(Flush(st)), c)
    else if c in "*/" then
      var f := Flush(st);
      PushOp(if TopIsMultiplicative(f.ops) then PopOne(f) else f, c)
    else if c == '(' then PushOp(st, c)
    else if c == ')' then
      var p := PopToParen(Flush(st));
      if p.ops == "" then p else p.(ops := p.ops[..|p.ops| - 1])
    else st
  }

  function ScanAll(st: Scan, s: string): Scan
    decreases |s|
  {
    if s == "" then st else ScanAll(Step(st, s[0]), s[1..])
  }

  const START := Scan([], "", "")

  function Postfix(s: string): seq<string> {
    ScanAll(START, "(" + s + ")").out
  }

  /** The C string in a std::string: everything before the first NUL. */
  function CString(s: string): string {
    if s == "" || s[0] == '\0' then "" else [s[0]] + CString(s[1..])
  }

  /** Along the whole scan the pending numeral fits its 20-byte buffer with the closing NUL. */
  predicate NumeralsFit(st: Scan, s: string)
    decreases |s|
  {
    |st.num| <= MAX_NUMERAL && (s == "" || NumeralsFit(Step(st, s[0]), s[1..]))
  }

  /** The stack machine; None when an operator finds fewer than two operands. */
  function Run<V>(ar: Arithmetic<V>, tokens: seq<string>, stack: seq<V>): Option<seq<V>> {
    if tokens == [] then Some(stack)
    else if IsDigitLed(tokens[0]) then Run(ar, tokens[1..], stack + [ar.atof(tokens[0])])
    else if |stack| < 2 then None
    else
      var n := |stack|;
      Run(ar, tokens[1..], stack[..n - 2] + [ar.Apply(tokens[0], stack[n - 2], stack[n - 1])])
  }

  function RunPostfix<V>(ar: Arithmetic<V>, tokens: seq<string>): (V, Option<Error>) {
    match Run(ar, tokens, [])
    case None => (ar.zero, Some(TooFewOperands))
    case Some(stack) => if |stack| != 1 then (ar.zero, Some(NotOneResult)) else (stack[0], None)
  }

  function Calc<V>(ar: Arithmetic<V>, s: string): (V, Option<Error>) {
    if s == "" then (ar.zero, Some(ParameterEmpty))
    else if |s| >= TOO_LONG then (ar.zero, Some(ParameterTooLong))
    else RunPostfix(ar, Postfix(s))
  }

  // ---------------------------------------------------------------- infix grammar

  /** Sums of products of factors, both left associative. */
  datatype Expr = Just(term: Term) | Sum(left: Expr, op: char, right: Term)
  datatype Term = One(factor: Factor) | Product(left: Term, op: char, right: Factor)
  datatype Factor = Number(text: string) | Parens(expr: Expr)

  predicate IsNumeral(s: string) {
    IsDigitLed(s) && |s| <= MAX_NUMERAL && forall c <- s :: IsNumeralChar(c)
  }

  predicate ExprOk(e: Expr) {
    match e
    case Just(t) => TermOk(t)
    case Sum(l, op, r) => op in "+-" && ExprOk(l) && TermOk(r)
  }

  predicate TermOk(t: Term) {
    match t
    case One(f) => FactorOk(f)
    case Product(l, op, r) => op in "*/" && TermOk(l) && FactorOk(r)
  }

  predicate FactorOk(f: Factor) {
    match f
    case Number(text) => IsNumeral(text)
    case Parens(e) => ExprOk(e)
  }

  function ExprText(e: Expr): string {
    match e
    case Just(t) => TermText(t)
    case Sum(l, op, r) => ExprText(l) + [op] + TermText(r)
  }

  function TermText(t: Term): string {
    match t
    case One(f) => FactorText(f)
    case Product(l, op, r) => TermText(l) + [op] + FactorText(r)
  }

  function FactorText(f: Factor): string {
    match f
    case Number(text) => text
    case Parens(e) => "(" + ExprText(e) + ")"
  }

  function ExprValue<V>(ar: Arithmetic<V>, e: Expr): V {
    match e
    case Just(t) => TermValue(ar, t)
    case Sum(l, op, r) =>
      if op == '+' then ar.add(ExprValue(ar, l), TermValue(ar, r))
      else ar.sub(ExprValue(ar, l), TermValue(ar, r))
  }

  function TermValue<V>(ar: Arithmetic<V>, t: Term): V {
    match t
    case One(f) => FactorValue(ar, f)
    case Product(l, op, r) =>
      if op == '*' then ar.mul(TermValue(ar, l), FactorValue(ar, r))
      else ar.div(TermValue(ar, l), FactorValue(ar, r))
  }

  function FactorValue<V>(ar: Arithmetic<V>, f: Factor): V {
    match f
    case Number(text) => ar.atof(text)
    case Parens(e) => ExprValue(ar, e)
  }

  // ---------------------------------------------------------------- postfix trees

  /** What a list of postfix tokens can denote; an inner node may carry any token that is not digit-led. */
  datatype Tree = Num(text: string) | Bin(token: string, left: Tree, right: Tree)
  {
    predicate Ok() {
      match this
      case Num(text) => IsDigitLed(text)
      case Bin(token, l, r) => !IsDigitLed(token) && l.Ok() && r.Ok()
    }

    function Post(): seq<string> {
      match this
      case Num(text) => [text]
      case Bin(token, l, r) => l.Post() + r.Post() + [token]
    }

    function Value<V>(ar: Arithmetic<V>): V {
      match this
      case Num(text) => ar.atof(text)
      case Bin(token, l, r) => ar.Apply(token, l.Value(ar), r.Value(ar))
    }
  }

  function ExprTree(e: Expr): Tree {
    match e
    case Just(t) => TermTree(t)
    case Sum(l, op, r) => Bin([op], ExprTree(l), TermTree(r))
  }

  function TermTree(t: Term): Tree {
    match t
    case One(f) => FactorTree(f)
    case Product(l, op, r) => Bin([op], TermTree(l), FactorTree(r))
  }

  function FactorTree(f: Factor): Tree {
    match f
    case Number(text) => Num(text)
    case Parens(e) => ExprTree(e)
  }

  // ---------------------------------------------------------------- the stack machine

  /** The stack machine run on trees instead of values. */
  function Parse(tokens: seq<string>, stack: seq<Tree>): Option<seq<Tree>> {
    if tokens == [] then Some(stack)
    else if IsDigitLed(tokens[0]) then Parse(tokens[1..], stack + [Num(tokens[0])])
    else if |stack| < 2 then None
    else
      var n := |stack|;
      Parse(tokens[1..], stack[..n - 2] + [Bin(tokens[0], stack[n - 2], stack[n - 1])])
  }

  function Values<V>(ar: Arithmetic<V>, trees: seq<Tree>): seq<V> {
    seq(|trees|, i requires 0 <= i < |trees| => trees[i].Value(ar))
  }

  function PostAll(trees: seq<Tree>): seq<string> {
    if trees == [] then [] else PostAll(trees[..|trees| - 1]) + trees[|trees| - 1].Post()
  }

  lemma {:induction false} RunIsParse<V>(ar: Arithmetic<V>, tokens: seq<string>, stack: seq<Tree>)
    ensures var p := Parse(tokens, stack);
            Run(ar, tokens, Values(ar, stack)) == if p.None? then None else Some(Values(ar, p.value))
    decreases |tokens|
  {
    if tokens == [] {
    } else if IsDigitLed(tokens[0]) {
      assert Values(ar, stack + [Num(tokens[0])]) == Values(ar, stack) + [ar.atof(tokens[0])];
      RunIsParse(ar, tokens[1..], stack + [Num(tokens[0])]);
    } else if |stack| >= 2 {
      var n := |stack|;
      var top := Bin(tokens[0], stack[n - 2], stack[n - 1]);
      assert Values(ar, stack[..n - 2] + [top]) == Values(ar, stack)[..n - 2] + [top.Value(ar)];
      RunIsParse(ar, tokens[1..], stack[..n - 2] + [top]);
    }
  }

  lemma PostAllSnoc(trees: seq<Tree>, t: Tree)
    ensures PostAll(trees + [t]) == PostAll(trees) + t.Post()
  {
    assert (trees + [t])[..|trees|] == trees;
  }

  lemma PostAllReduce(under: seq<Tree>, l: Tree, r: Tree, token: string)
    ensures PostAll(under + [Bin(token, l, r)]) == PostAll(under + [l] + [r]) + [token]
  {
    PostAllSnoc(under, Bin(token, l, r));
    PostAllSnoc(under, l);
    PostAllSnoc(under + [l], r);
    var p, pl, pr := PostAll(under), l.Post(), r.Post();
    assert p + (pl + pr + [token]) == p + pl + pr + [token];
  }

  lemma {:induction false} ParseKeepsTokens(tokens: seq<string>, stack: seq<Tree>)
    requires forall t <- stack :: t.Ok()
    requires Parse(tokens, stack).Some?
    ensures var r := Parse(tokens, stack).value;
            PostAll(r) == PostAll(stack) + tokens && forall t <- r :: t.Ok()
    decreases |tokens|
  {
    if tokens == [] {
      assert PostAll(stack) + tokens == PostAll(stack);
    } else {
      var n, token := |stack|, tokens[0];
      assert PostAll(stack) + tokens == PostAll(stack) + [token] + tokens[1..];
      if IsDigitLed(token) {
        PostAllSnoc(stack, Num(token));
        ParseKeepsTokens(tokens[1..], stack + [Num(token)]);
      } else {
        var under, l, r := stack[..n - 2], stack[n - 2], stack[n - 1];
        assert stack == under + [l] + [r];
        PostAllReduce(under, l, r, token);
        ParseKeepsTokens(tokens[1..], under + [Bin(token, l, r)]);
      }
    }
  }

  lemma {:induction false} ParsePostorder(t: Tree, rest: seq<string>, stack: seq<Tree>)
    requires t.Ok()
    ensures Parse(t.Post() + rest, stack) == Parse(rest, stack + [t])
    decreases t
  {
    match t
    case Num(text) =>
      assert (t.Post() + rest)[1..] == rest;
    case Bin(token, l, r) =>
      assert t.Post() + rest == l.Post() + (r.Post() + ([token] + rest));
      ParsePostorder(l, r.Post() + ([token] + rest), stack);
      ParsePostorder(r, [token] + rest, stack + [l]);
      assert ([token] + rest)[1..] == rest;
      assert (stack + [l] + [r])[..|stack|] == stack;
  }

  /** The value of the postorder of a tree is the tree's value, with no error logged. */
  lemma RunPostorder<V>(ar: Arithmetic<V>, t: Tree)
    requires t.Ok()
    ensures RunPostfix(ar, t.Post()) == (t.Value(ar), None)
  {
    ParsePostorder(t, [], []);
    assert t.Post() + [] == t.Post() && [] + [t] == [t];
    assert Parse(t.Post(), []) == Some([t]);
    RunIsParse(ar, t.Post(), []);
    assert Values(ar, []) == [];
  }

  lemma AcceptedIsPostorder<V>(ar: Arithmetic<V>, tokens: seq<string>) returns (t: Tree)
    requires RunPostfix(ar, tokens).1.None?
    ensures t.Ok() && t.Post() == tokens
  {
    RunIsParse(ar, tokens, []);
    ParseKeepsTokens(tokens, []);
    var r := Parse(tokens, []).value;
    t := r[0];
    PostAllSnoc([], t);
    assert [] + [t] == r;
    assert [] + tokens == tokens && [] + t.Post() == t.Post();
  }

  /** Both error checks pass exactly on the postorders of trees. */
  lemma PostfixAcceptsExactlyPostorders<V>(ar: Arithmetic<V>, tokens: seq<string>)
    ensures RunPostfix(ar, tokens).1.None? <==> exists t: Tree :: t.Ok() && t.Post() == tokens
  {
    if RunPostfix(ar, tokens).1.None? {
      var t := AcceptedIsPostorder(ar, tokens);
    }
    if t: Tree :| t.Ok() && t.Post() == tokens {
      RunPostorder(ar, t);
    }
  }

  /** A token list is the postorder of at most one tree. */
  lemma PostorderIsUnique(t: Tree, u: Tree)
    requires t.Ok() && u.Ok() && t.Post() == u.Post()
    ensures t == u
  {
    assert t.Post() + [] == t.Post();
    ParsePostorder(t, [], []);
    ParsePostorder(u, [], []);
    assert [] + [t] == [t] && [] + [u] == [u] && [t][0] == [u][0];
  }

  // ---------------------------------------------------------------- the infix pass

  lemma {:induction false} ScanAppend(st: Scan, s: string, t: string)
    ensures ScanAll(st, s + t) == ScanAll(ScanAll(st, s), t)
    decreases |s|
  {
    if s == "" {
      assert s + t == t;
    } else {
      assert (s + t)[1..] == s[1..] + t;
      ScanAppend(Step(st, s[0]), s[1..], t);
    }
  }

  lemma ScanSnoc(st: Scan, s: string, c: char)
    ensures ScanAll(st, s + [c]) == Step(ScanAll(st, s), c)
  {
    ScanAppend(st, s, [c]);
    ScanOne(ScanAll(st, s), c);
  }

  lemma ScanOne(st: Scan, c: char)
    ensures ScanAll(st, [c]) == Step(st, c)
  {
    assert [c][1..] == "";
  }

  lemma {:induction false} ScanNumeral(st: Scan, s: string)
    requires forall c <- s :: IsNumeralChar(c)
    ensures ScanAll(st, s) == st.(num := st.num + s)
    decreases |s|
  {
    if s != "" {
      ScanNumeral(Step(st, s[0]), s[1..]);
      assert st.num + [s[0]] + s[1..] == st.num + s;
    } else {
      assert st.num + s == st.num;
    }
  }

  /** One multiplicative operator at most. */
  predicate MulTail(m: string) {
    m == "" || (|m| == 1 && m[0] in "*/")
  }

  predicate AddTail(a: string) {
    a == "" || (|a| == 1 && a[0] in "+-")
  }

  function Tokens(ops: string): seq<string> {
    if ops == "" then [] else [[ops[0]]]
  }

  /** Everything the scan holds above the operators in `base`, in the order it will be written. */
  function Pending(st: Scan): seq<string> {
    st.out + if st.num == "" then [] else [st.num]
  }

  predicate FactorDone(st: Scan, out: seq<string>, base: string, f: Factor) {
    st.ops == base && Pending(st) == out + FactorTree(f).Post()
  }

  /** Above `base` there is at most one multiplicative operator. */
  predicate TermDone(st: Scan, out: seq<string>, base: string, m: string, t: Term) {
    && MulTail(m)
    && st.ops == base + m
    && Pending(st) + Tokens(m) == out + TermTree(t).Post()
  }

  /** Above the open parenthesis there is at most one additive, then at most one multiplicative operator. */
  predicate ExprDone(st: Scan, out: seq<string>, base: string, a: string, m: string, e: Expr) {
    && AddTail(a) && MulTail(m)
    && st.ops == base + "(" + a + m
    && Pending(st) + Tokens(m) + Tokens(a) == out + ExprTree(e).Post()
  }

  lemma PopTails(st: Scan, base: string, a: string, m: string)
    requires AddTail(a) && MulTail(m) && st.ops == base + "(" + a + m
    ensures PopToParen(Flush(st)) == Scan(Pending(st) + Tokens(m) + Tokens(a), base + "(", "")
  {
    var f := Flush(st);
    PopTail(f, base + "(" + a, m);
    PopTail(Scan(Pending(st) + Tokens(m), base + "(" + a, ""), base + "(", a);
  }

  lemma PopTail(st: Scan, under: string, tail: string)
    requires under != "" && (tail == "" || (|tail| == 1 && tail[0] != '(')) && st.ops == under + tail
    ensures PopToParen(st) == PopToParen(Scan(st.out + Tokens(tail), under, st.num))
  {
    if tail == "" {
      assert under + tail == under;
      assert st.out + Tokens(tail) == st.out;
    } else {
      assert (under + tail)[..|under|] == under;
      assert Tokens(tail) == [[tail[0]]];
    }
  }

  lemma AddStep(st: Scan, base: string, a: string, m: string, op: char)
    requires AddTail(a) && MulTail(m) && st.ops == base + "(" + a + m && op in "+-"
    ensures Step(st, op) == Scan(Pending(st) + Tokens(m) + Tokens(a), base + "(" + [op], "")
  {
    PopTails(st, base, a, m);
  }

  lemma CloseStep(st: Scan, base: string, a: string, m: string)
    requires AddTail(a) && MulTail(m) && st.ops == base + "(" + a + m
    ensures Step(st, ')') == Scan(Pending(st) + Tokens(m) + Tokens(a), base, "")
  {
    PopTails(st, base, a, m);
    assert (base + "(")[..|base|] == base;
  }

  lemma MulStep(st: Scan, base: string, m: string, op: char)
    requires MulTail(m) && st.ops == base + m && op in "*/"
    requires base != "" && !TopIsMultiplicative(base)
    ensures Step(st, op) == Scan(Pending(st) + Tokens(m), base + [op], "")
  {
    if m == "" {
      assert base + m == base;
      assert Pending(st) + Tokens(m) == Pending(st);
    } else {
      assert (base + m)[..|base|] == base;
      assert Tokens(m) == [[m[0]]];
    }
  }

  lemma {:induction false} ScanFactor(f: Factor, out: seq<string>, base: string)
    requires FactorOk(f)
    ensures FactorDone(ScanAll(Scan(out, base, ""), FactorText(f)), out, base, f)
    decreases f, 0
  {
    var st := Scan(out, base, "");
    match f
    case Number(text) =>
      ScanNumeral(st, text);
      assert "" + text == text;
    case Parens(e) =>
      var a, m := ScanExpr(e, out, base);
      ScanSnoc(st, "(" + ExprText(e), ')');
      CloseStep(ScanAll(st, "(" + ExprText(e)), base, a, m);
      assert out + ExprTree(e).Post() + [] == out + ExprTree(e).Post();
  }

  lemma {:induction false} ScanTerm(t: Term, out: seq<string>, base: string) returns (m: string)
    requires TermOk(t) && base != "" && !TopIsMultiplicative(base)
    ensures TermDone(ScanAll(Scan(out, base, ""), TermText(t)), out, base, m, t)
    decreases t, 0
  {
    var st := Scan(out, base, "");
    match t
    case One(f) =>
      ScanFactor(f, out, base);
      m := "";
      TermOfFactor(ScanAll(st, TermText(t)), out, base, f);
    case Product(l, op, r) =>
      var ml := ScanTerm(l, out, base);
      var before := ScanAll(st, TermText(l));
      ScanSnoc(st, TermText(l), op);
      MulStep(before, base, ml, op);
      ScanAppend(st, TermText(l) + [op], FactorText(r));
      ScanFactor(r, out + TermTree(l).Post(), base + [op]);
      m := [op];
      JoinPost(out, TermTree(l), FactorTree(r), op);
  }

  lemma TermOfFactor(st: Scan, out: seq<string>, base: string, f: Factor)
    requires FactorDone(st, out, base, f)
    ensures TermDone(st, out, base, "", One(f))
  {
    assert base + "" == base;
    assert Pending(st) + Tokens("") == Pending(st);
  }

  lemma ExprOfTerm(st: Scan, out: seq<string>, base: string, m: string, t: Term)
    requires TermDone(st, out, base + "(", m, t)
    ensures ExprDone(st, out, base, "", m, Just(t))
  {
    assert base + "(" + "" == base + "(";
    assert Pending(st) + Tokens(m) + Tokens("") == Pending(st) + Tokens(m);
  }

  lemma JoinPost(out: seq<string>, l: Tree, r: Tree, op: char)
    ensures out + l.Post() + r.Post() + [[op]] == out + Bin([op], l, r).Post()
  {
    assert out + (l.Post() + r.Post() + [[op]]) == out + l.Post() + r.Post() + [[op]];
  }

  lemma {:induction false} ScanExpr(e: Expr, out: seq<string>, base: string) returns (a: string, m: string)
    requires ExprOk(e)
    ensures ExprDone(ScanAll(Scan(out, base, ""), "(" + ExprText(e)), out, base, a, m, e)
    decreases e, 0
  {
    var st := Scan(out, base, "");
    match e
    case Just(t) =>
      ScanAppend(st, "(", TermText(t));
      ScanOne(st, '(');
      m := ScanTerm(t, out, base + "(");
      a := "";
      ExprOfTerm(ScanAll(st, "(" + ExprText(e)), out, base, m, t);
    case Sum(l, op, r) =>
      var al, ml := ScanExpr(l, out, base);
      a, m := ScanSum(l, op, r, out, base, al, ml);
  }

  /** One more additive operator and its right operand. */
  lemma ScanSum(l: Expr, op: char, r: Term, out: seq<string>, base: string, al: string, ml: string)
    returns (a: string, m: string)
    requires ExprOk(Sum(l, op, r))
    requires ExprDone(ScanAll(Scan(out, base, ""), "(" + ExprText(l)), out, base, al, ml, l)
    ensures ExprDone(ScanAll(Scan(out, base, ""), "(" + ExprText(Sum(l, op, r))), out, base, a, m, Sum(l, op, r))
    decreases r, 1
  {
    var st, text := Scan(out, base, ""), "(" + ExprText(l);
    AddStep(ScanAll(st, text), base, al, ml, op);
    ScanSnoc(st, text, op);
    assert "(" + ExprText(Sum(l, op, r)) == text + [op] + TermText(r);
    ScanAppend(st, text + [op], TermText(r));
    m := ScanTerm(r, out + ExprTree(l).Post(), base + "(" + [op]);
    a := [op];
    SumOfTerm(ScanAll(st, text + [op] + TermText(r)), out, base, m, l, op, r);
  }

  lemma SumOfTerm(st: Scan, out: seq<string>, base: string, m: string, l: Expr, op: char, r: Term)
    requires op in "+-" && TermDone(st, out + ExprTree(l).Post(), base + "(" + [op], m, r)
    ensures ExprDone(st, out, base, [op], m, Sum(l, op, r))
  {
    JoinPost(out, ExprTree(l), TermTree(r), op);
  }

  /** The infix pass compiles an expression to the postorder of its tree. */
  lemma PostfixOfExpr(e: Expr)
    requires ExprOk(e)
    ensures Postfix(ExprText(e)) == ExprTree(e).Post()
  {
    var a, m := ScanExpr(e, [], "");
    var inner := ScanAll(START, "(" + ExprText(e));
    assert inner.ops == "" + "(" + a + m;
    CloseStep(inner, "", a, m);
    ScanSnoc(START, "(" + ExprText(e), ')');
    assert [] + ExprTree(e).Post() == ExprTree(e).Post();
  }

  lemma {:induction false} TreeOfExpr<V>(ar: Arithmetic<V>, e: Expr)
    requires ExprOk(e)
    ensures ExprTree(e).Ok() && ExprTree(e).Value(ar) == ExprValue(ar, e)
    decreases e
  {
    match e
    case Just(t) => TreeOfTerm(ar, t);
    case Sum(l, op, r) => TreeOfExpr(ar, l); TreeOfTerm(ar, r);
  }

  lemma {:induction false} TreeOfTerm<V>(ar: Arithmetic<V>, t: Term)
    requires TermOk(t)
    ensures TermTree(t).Ok() && TermTree(t).Value(ar) == TermValue(ar, t)
    decreases t
  {
    match t
    case One(f) => TreeOfFactor(ar, f);
    case Product(l, op, r) => TreeOfTerm(ar, l); TreeOfFactor(ar, r);
  }

  lemma {:induction false} TreeOfFactor<V>(ar: Arithmetic<V>, f: Factor)
    requires FactorOk(f)
    ensures FactorTree(f).Ok() && FactorTree(f).Value(ar) == FactorValue(ar, f)
    decreases f
  {
    match f
    case Number(_) =>
    case Parens(e) => TreeOfExpr(ar, e);
  }

  /** Every well-formed infix string evaluates to the value its precedence-respecting parse tree has. */
  lemma CalcEvaluatesInfix<V>(ar: Arithmetic<V>, e: Expr)
    requires ExprOk(e) && |ExprText(e)| <= 97
    ensures Calc(ar, ExprText(e)) == (ExprValue(ar, e), None)
  {
    PostfixOfExpr(e);
    TreeOfExpr(ar, e);
    RunPostorder(ar, ExprTree(e));
    ExprNotEmpty(e);
  }

  lemma {:induction false} ExprNotEmpty(e: Expr)
    requires ExprOk(e)
    ensures ExprText(e) != ""
  {
    if e.Just? {
      TermNotEmpty(e.term);
    }
  }

  lemma {:induction false} TermNotEmpty(t: Term)
    requires TermOk(t)
    ensures TermText(t) != ""
  {
  }

  /** A string has at most one reading: two expressions with the same text have the same tree. */
  lemma InfixIsUnambiguous(e: Expr, f: Expr)
    requires ExprOk(e) && ExprOk(f) && ExprText(e) == ExprText(f)
    ensures ExprTree(e) == ExprTree(f)
  {
    var ar := Arithmetic(0, _ => 0, (_, _) => 0, (_, _) => 0, (_, _) => 0, (_, _) => 0);
    PostfixOfExpr(e);
    PostfixOfExpr(f);
    TreeOfExpr(ar, e);
    TreeOfExpr(ar, f);
    PostorderIsUnique(ExprTree(e), ExprTree(f));
  }

  // ---------------------------------------------------------------- buffer bounds

  lemma {:induction false} FitsAppend(st: Scan, s: string, t: string)
    ensures NumeralsFit(st, s + t) <==> NumeralsFit(st, s) && NumeralsFit(ScanAll(st, s), t)
    decreases |s|
  {
    if s == "" {
      assert s + t == t;
    } else {
      assert (s + t)[1..] == s[1..] + t;
      FitsAppend(Step(st, s[0]), s[1..], t);
    }
  }

  lemma FlushClears(st: Scan)
    ensures PopToParen(Flush(st)).num == ""
  {
    PopKeepsNum(Flush(st));
  }

  lemma {:induction false} PopKeepsNum(st: Scan)
    ensures PopToParen(st).num == st.num
    decreases |st.ops|
  {
    if st.ops != "" && st.ops[|st.ops| - 1] != '(' {
      PopKeepsNum(PopOne(st));
    }
  }

  lemma FitsOperator(st: Scan, s: string, c: char)
    requires NumeralsFit(st, s) && c in "+-*/)"
    ensures NumeralsFit(st, s + [c]) && ScanAll(st, s + [c]).num == ""
  {
    var mid := ScanAll(st, s);
    FlushClears(mid);
    FitsAppend(st, s, "");
    assert s + "" == s;
    FitsAppend(st, s, [c]);
    ScanSnoc(st, s, c);
    assert NumeralsFit(mid, [c]) by { assert [c][1..] == ""; }
  }

  lemma {:induction false} FitsNumeral(st: Scan, s: string)
    requires (forall c <- s :: IsNumeralChar(c)) && |st.num| + |s| <= MAX_NUMERAL
    ensures NumeralsFit(st, s)
    decreases |s|
  {
    if s != "" {
      FitsNumeral(Step(st, s[0]), s[1..]);
    }
  }

  lemma {:induction false} FitsFactor(st: Scan, f: Factor)
    requires FactorOk(f) && st.num == ""
    ensures NumeralsFit(st, FactorText(f))
    decreases f
  {
    match f
    case Number(text) => FitsNumeral(st, text);
    case Parens(e) =>
      ScanOne(st, '(');
      FitsAppend(st, "(", ExprText(e));
      FitsExpr(PushOp(st, '('), e);
      FitsOperator(st, "(" + ExprText(e), ')');
  }

  lemma {:induction false} FitsTerm(st: Scan, t: Term)
    requires TermOk(t) && st.num == ""
    ensures NumeralsFit(st, TermText(t))
    decreases t
  {
    match t
    case One(f) => FitsFactor(st, f);
    case Product(l, op, r) =>
      FitsTerm(st, l);
      FitsOperator(st, TermText(l), op);
      FitsFactor(ScanAll(st, TermText(l) + [op]), r);
      FitsAppend(st, TermText(l) + [op], FactorText(r));
  }

  lemma {:induction false} FitsExpr(st: Scan, e: Expr)
    requires ExprOk(e) && st.num == ""
    ensures NumeralsFit(st, ExprText(e))
    decreases e
  {
    match e
    case Just(t) => FitsTerm(st, t);
    case Sum(l, op, r) =>
      FitsExpr(st, l);
      FitsOperator(st, ExprText(l), op);
      FitsTerm(ScanAll(st, ExprText(l) + [op]), r);
      FitsAppend(st, ExprText(l) + [op], TermText(r));
  }

  /** A well-formed expression meets the precondition of CalcString. */
  lemma InfixFits(e: Expr)
    requires ExprOk(e)
    ensures NumeralsFit(START, "(" + ExprText(e) + ")")
  {
    FitsFactor(START, Parens(e));
  }

  // ---------------------------------------------------------------- infix texts as C strings

  predicate NoNul(s: string) {
    forall i :: 0 <= i < |s| ==> s[i] != '\0'
  }

  lemma {:induction false} ExprHasNoNul(e: Expr)
    requires ExprOk(e)
    ensures NoNul(ExprText(e))
    decreases e
  {
    match e
    case Just(t) => TermHasNoNul(t);
    case Sum(l, op, r) => ExprHasNoNul(l); TermHasNoNul(r);
  }

  lemma {:induction false} TermHasNoNul(t: Term)
    requires TermOk(t)
    ensures NoNul(TermText(t))
    decreases t
  {
    match t
    case One(f) => FactorHasNoNul(f);
    case Product(l, op, r) => TermHasNoNul(l); FactorHasNoNul(r);
  }

  lemma {:induction false} FactorHasNoNul(f: Factor)
    requires FactorOk(f)
    ensures NoNul(FactorText(f))
    decreases f
  {
    match f
    case Number(text) => assert forall i :: 0 <= i < |text| ==> text[i] in text;
    case Parens(e) => ExprHasNoNul(e);
  }

  /** What a C function sees in the characters of `state`: all of them before the first NUL. */
  predicate SeenAs(state: string, s: string) {
    s <= state && NoNul(s) && (|s| < |state| ==> state[|s|] == '\0')
  }

  lemma {:induction false} CStringIsSeen(state: string, s: string)
    ensures CString(state) == s <==> SeenAs(state, s)
    decreases |state|
  {
    if state != "" && state[0] != '\0' && s != "" {
      CStringIsSeen(state[1..], s[1..]);
      SeenAfter(state, s);
    }
  }

  lemma SeenAfter(state: string, s: string)
    requires state != "" && s != "" && state[0] != '\0'
    ensures SeenAs(state, s) <==> s[0] == state[0] && SeenAs(state[1..], s[1..])
  {
    assert s == [s[0]] + s[1..] && state == [state[0]] + state[1..];
    if SeenAs(state, s) {
      assert forall i :: 0 <= i < |s| - 1 ==> s[1..][i] == s[i + 1];
    }
  }

  /**
   * The whole of CalcString on infix input: its precondition holds and what it answers is the value of
   * the parse tree.
   */
  lemma CalcStringOnInfix<V>(ar: Arithmetic<V>, e: Expr)
    requires ExprOk(e) && |ExprText(e)| <= 97
    ensures NumeralsFit(START, "(" + CString(ExprText(e)) + ")")
    ensures Calc(ar, CString(ExprText(e))) == (ExprValue(ar, e), None)
  {
    ExprHasNoNul(e);
    CStringIsSeen(ExprText(e), ExprText(e));
    InfixFits(e);
    CalcEvaluatesInfix(ar, e);
  }

  lemma RefusedTexts(state: string)
    ensures CString(state) == "" <==> state == "" || state[0] == '\0'
    ensures |CString(state)| >= 98 <==> |state| >= 98 && NoNul(state[..98])
  {
    var s := CString(state);
    CStringIsSeen(state, s);
    if |s| >= 98 {
      assert forall i :: 0 <= i < 98 ==> state[..98][i] == s[i];
    } else if |s| < |state| && |state| >= 98 {
      assert state[..98][|s|] == '\0';
    }
  }

  /** What the text given to the method decides about its answer. */
  lemma CalcAnswers<V>(ar: Arithmetic<V>, state: string)
    ensures var (r, logged) := Calc(ar, CString(state));
            && (forall e :: ExprOk(e) && |ExprText(e)| <= 97 && SeenAs(state, ExprText(e)) ==>
                 r == ExprValue(ar, e) && logged == None)
            && (logged == Some(ParameterEmpty) <==> state == "" || state[0] == '\0')
            && (logged == Some(ParameterTooLong) <==> |state| >= 98 && NoNul(state[..98]))
            && (logged.Some? ==> r == ar.zero)
  {
    RefusedTexts(state);
    forall e | ExprOk(e) && |ExprText(e)| <= 97 && SeenAs(state, ExprText(e))
      ensures Calc(ar, CString(state)) == (ExprValue(ar, e), None)
    {
      CStringIsSeen(state, ExprText(e));
      CalcEvaluatesInfix(ar, e);
    }
  }

  // ---------------------------------------------------------------- array bounds

  /** How many cells of the two stacks and of the numeral buffer a scan occupies. */
  function Cells(st: Scan): nat {
    |st.out| + |st.ops| + if st.num == "" then 0 else 1
  }

  lemma {:induction false} PopKeepsCells(st: Scan)
    ensures Cells(PopToParen(st)) == Cells(st)
    decreases |st.ops|
  {
    if st.ops != "" && st.ops[|st.ops| - 1] != '(' {
      PopKeepsCells(PopOne(st));
    }
  }

  /** One character occupies at most one more cell, so 99 characters never overrun the 100-cell arrays. */
  lemma StepCells(st: Scan, c: char)
    ensures Cells(Step(st, c)) <= Cells(st) + 1
  {
    PopKeepsCells(Flush(st));
  }

  // ---------------------------------------------------------------- the implementation

  /** Pops the operator stack into the postfix array down to an open parenthesis. */
  method PopUntilParen(varstack: array<char>, porstr: array<string>, size: nat, count: nat, ghost num: string)
    returns (varstacksize: nat, k: nat)
    requires size <= varstack.Length && count + size <= porstr.Length
    modifies porstr
    ensures varstacksize <= size && count <= k <= porstr.Length
    ensures Scan(porstr[..k], varstack[..varstacksize], num)
         == PopToParen(Scan(old(porstr[..count]), varstack[..size], num))
  {
    varstacksize, k := size, count;
    while varstacksize > 0
      invariant varstacksize <= size && k == count + (size - varstacksize)
      invariant PopToParen(Scan(porstr[..k], varstack[..varstacksize], num))
             == PopToParen(Scan(old(porstr[..count]), varstack[..size], num))
      decreases varstacksize
    {
      if varstack[varstacksize - 1] == '(' {
        break;
      }
      ghost var st := Scan(porstr[..k], varstack[..varstacksize], num);
      porstr[k] := [varstack[varstacksize - 1]];
      k := k + 1;
      varstacksize := varstacksize - 1;
      assert PopOne(st) == Scan(porstr[..k], varstack[..varstacksize], num);
    }
  }

  /** Closes the pending numeral, if there is one, and writes it to the postfix array. */
  method WriteNumeral(numstr: array<char>, porstr: array<string>, count: nat, numSize: nat, ghost ops: string)
    returns (k: nat)
    requires numSize < numstr.Length && count < porstr.Length
    modifies numstr, porstr
    ensures count <= k <= count + (if numSize == 0 then 0 else 1)
    ensures Scan(porstr[..k], ops, "") == Flush(old(Scan(porstr[..count], ops, numstr[..numSize])))
  {
    k := count;
    if numSize > 0 {
      numstr[numSize] := '\0';
      porstr[k] := numstr[..numSize];
      k := k + 1;
    }
  }

  /** '*' and '/': at most one operator is popped before the new one is pushed. */
  method ReadMultiplicative(c: char, varstack: array<char>, porstr: array<string>, size: nat, count: nat)
    returns (varstacksize: nat, k: nat)
    requires c in "*/" && size < varstack.Length && count + size < porstr.Length
    modifies varstack, porstr
    ensures varstacksize <= size + 1 && k <= count + 1 && k <= porstr.Length
    ensures Scan(porstr[..k], varstack[..varstacksize], "")
         == Step(old(Scan(porstr[..count], varstack[..size], "")), c)
  {
    varstacksize, k := size, count;
    if varstacksize > 0 && (varstack[varstacksize - 1] == '*' || varstack[varstacksize - 1] == '/') {
      porstr[k] := [varstack[varstacksize - 1]];
      k := k + 1;
      varstacksize := varstacksize - 1;
    }
    varstack[varstacksize] := c;
    varstacksize := varstacksize + 1;
  }

  /** '+', '-' and ')': everything above the innermost open parenthesis is popped first. */
  method ReadAdditiveOrClose(c: char, varstack: array<char>, porstr: array<string>, size: nat, count: nat)
    returns (varstacksize: nat, k: nat)
    requires c in "+-)" && size < varstack.Length && count + size < porstr.Length
    modifies varstack, porstr
    ensures varstacksize <= size + 1 && k <= porstr.Length
    ensures Scan(porstr[..k], varstack[..varstacksize], "")
         == Step(old(Scan(porstr[..count], varstack[..size], "")), c)
  {
    varstacksize, k := PopUntilParen(varstack, porstr, size, count, "");
    if c == ')' {
      if varstacksize > 0 {
        varstacksize := varstacksize - 1;
      }
    } else {
      varstack[varstacksize] := c;
      varstacksize := varstacksize + 1;
    }
  }

  /** The switch of the infix pass on one input character. */
  method ReadChar(c: char, varstack: array<char>, porstr: array<string>, numstr: array<char>,
                  size: nat, count: nat, numSize: nat)
    returns (varstacksize: nat, k: nat, numstrsize: nat)
    requires varstack.Length == porstr.Length == 100 && numstr.Length == 20 && varstack != numstr
    requires numSize <= MAX_NUMERAL && count + size + (if numSize == 0 then 0 else 1) < 100
    requires |Step(Scan(porstr[..count], varstack[..size], numstr[..numSize]), c).num| <= MAX_NUMERAL
    modifies varstack, porstr, numstr
    ensures varstacksize <= 100 && k <= 100 && numstrsize <= MAX_NUMERAL
    ensures Scan(porstr[..k], varstack[..varstacksize], numstr[..numstrsize])
         == Step(old(Scan(porstr[..count], varstack[..size], numstr[..numSize])), c)
  {
    varstacksize, k, numstrsize := size, count, numSize;
    if '0' <= c <= '9' || c == '.' {
      numstr[numstrsize] := c;
      numstrsize := numstrsize + 1;
    } else if c == '(' {
      varstack[varstacksize] := c;
      varstacksize := varstacksize + 1;
    } else if c in "+-*/)" {
      k := WriteNumeral(numstr, porstr, k, numstrsize, varstack[..varstacksize]);
      numstrsize := 0;
      if c in "*/" {
        varstacksize, k := ReadMultiplicative(c, varstack, porstr, varstacksize, k);
      } else {
        varstacksize, k := ReadAdditiveOrClose(c, varstack, porstr, varstacksize, k);
      }
    }
  }

  /** The infix pass over the parenthesised string, with the three fixed-size buffers of the original. */
  method ToPostfix(str: array<char>, strLen: nat, porstr: array<string>) returns (k: nat)
    requires strLen < 100 && str.Length == 100 && porstr.Length == 100
    requires NumeralsFit(START, str[..strLen])
    modifies porstr
    ensures k <= 100 && porstr[..k] == ScanAll(START, str[..strLen]).out
  {
    var varstack := new char[100];
    var numstr := new char[20];
    var varstacksize, numstrsize := 0, 0;
    k := 0;
    assert str[..0] == "";
    for i := 0 to strLen
      invariant 0 <= varstacksize <= 100 && 0 <= numstrsize <= MAX_NUMERAL && k <= 100
      invariant Scan(porstr[..k], varstack[..varstacksize], numstr[..numstrsize]) == ScanAll(START, str[..i])
      invariant Cells(ScanAll(START, str[..i])) <= i
    {
      ghost var done := str[..i];
      var c := str[i];
      assert str[..i + 1] == done + [c];
      assert str[..strLen] == done + [c] + str[i + 1..strLen];
      ScanSnoc(START, done, c);
      StepCells(ScanAll(START, done), c);
      FitsAppend(START, done + [c], str[i + 1..strLen]);
      varstacksize, k, numstrsize := ReadChar(c, varstack, porstr, numstr, varstacksize, k, numstrsize);
    }
  }

  /** The stack machine over the postfix array; `logged` is the message written before 0.0 is returned. */
  method Evaluate<V>(ar: Arithmetic<V>, porstr: array<string>, k: nat) returns (r: V, logged: Option<Error>)
    requires k <= porstr.Length && k <= 100
    ensures (r, logged) == RunPostfix(ar, porstr[..k])
  {
    var numstack := new V[100](_ => ar.zero);
    var numstacksize := 0;
    assert numstack[..0] == [];
    assert porstr[..k] == porstr[0..k];
    for i := 0 to k
      invariant 0 <= numstacksize <= i
      invariant Run(ar, porstr[i..k], numstack[..numstacksize]) == Run(ar, porstr[..k], [])
    {
      assert porstr[i..k][0] == porstr[i] && porstr[i..k][1..] == porstr[i + 1..k];
      ghost var stack := numstack[..numstacksize];
      if porstr[i] != "" && '0' <= porstr[i][0] <= '9' {
        numstack[numstacksize] := ar.atof(porstr[i]);
        numstacksize := numstacksize + 1;
        assert numstack[..numstacksize] == stack + [ar.atof(porstr[i])];
      } else {
        if numstacksize < 2 {
          return ar.zero, Some(TooFewOperands);
        }
        var ope1, ope2 := numstack[numstacksize - 2], numstack[numstacksize - 1];
        numstack[numstacksize - 2] := ar.Apply(porstr[i], ope1, ope2);
        numstacksize := numstacksize - 1;
        assert numstack[..numstacksize] == stack[..|stack| - 2] + [ar.Apply(porstr[i], ope1, ope2)];
      }
    }
    assert porstr[k..k] == [];
    if numstacksize != 1 {
      return ar.zero, Some(NotOneResult);
    }
    r, logged := numstack[0], None;
  }

  /** strncpy and strlen over the 100-byte local buffer. */
  method CopyCString(state: string, str: array<char>) returns (strLen: nat)
    requires str.Length == 100
    modifies str
    ensures strLen == Min(100, |CString(state)|)
    ensures strLen < 100 ==> str[..strLen] == CString(state)
  {
    strLen := 0;
    while strLen < 100 && strLen < |state| && state[strLen] != '\0'
      invariant strLen <= 100 && strLen <= |state|
      invariant CString(state) == str[..strLen] + CString(state[strLen..])
    {
      str[strLen] := state[strLen];
      assert state[strLen..][1..] == state[strLen + 1..];
      strLen := strLen + 1;
    }
    if strLen < 100 {
      assert CString(state[strLen..]) == "";
    }
  }

  /** Shifts the buffer one place to the right and writes the outer parentheses. */
  method Parenthesize(str: array<char>, len: nat) returns (strLen: nat)
    requires str.Length == 100 && len < TOO_LONG
    modifies str
    ensures strLen == len + 2 && str[..strLen] == "(" + old(str[..len]) + ")"
  {
    var i := len;
    while i > 0
      invariant 0 <= i <= len
      invariant forall j :: 0 <= j < i ==> str[j] == old(str[j])
      invariant forall j :: i < j <= len ==> str[j] == old(str[j - 1])
    {
      str[i] := str[i - 1];
      i := i - 1;
    }
    str[0] := '(';
    strLen := len + 2;
    str[strLen - 1] := ')';
    str[strLen] := '\0';
  }

  /**
   * The whole method: a well-formed expression of at most 97 characters gets the value of its tree, and the
   * other texts are refused with 0.0 and a message.
   */
  method CalcString<V>(ar: Arithmetic<V>, state: string) returns (r: V, logged: Option<Error>)
    requires |CString(state)| < TOO_LONG ==> NumeralsFit(START, "(" + CString(state) + ")")
    ensures forall e :: ExprOk(e) && |ExprText(e)| <= 97 && SeenAs(state, ExprText(e)) ==>
              r == ExprValue(ar, e) && logged == None
    ensures logged == Some(ParameterEmpty) <==> state == "" || state[0] == '\0'
    ensures logged == Some(ParameterTooLong) <==> |state| >= 98 && NoNul(state[..98])
    ensures logged.Some? ==> r == ar.zero
    ensures (r, logged) == Calc(ar, CString(state))
  {
    CalcAnswers(ar, state);
    var str := new char[100];
    var strLen := CopyCString(state, str);
    if strLen == 0 {
      return ar.zero, Some(ParameterEmpty);
    }
    if strLen >= TOO_LONG {
      return ar.zero, Some(ParameterTooLong);
    }
    strLen := Parenthesize(str, strLen);
    var porstr := new string[100];
    var k := ToPostfix(str, strLen, porstr);
    r, logged := Evaluate(ar, porstr, k);
  }
}
