/** Laws of the pricing language: its operators and functions are tied to each other and to arithmetic, operators group by
    one table of levels, and a program with two bands charges the band its tokens are in. */
module BillingLaws {
  import opened Wrappers
  import opened BillingLexer
  import opened BillingSyntax
  import opened BillingParser
  import opened BillingProgram
  import opened BillingEval
  import Machine = BillingCompile

  // -- Operands ------------------------------------------------------------------------------

  // n is the number x here, whatever tier has matched, and matches none itself.
  ghost predicate Is(rt: Runtime, env: Env, n: Node, x: real) { forall tier :: Eval(rt, env, n, tier) == Yield(Number(x), tier) }

  ghost predicate IsFlag(rt: Runtime, env: Env, n: Node, flag: bool) { forall tier :: Eval(rt, env, n, tier) == Yield(Flag(flag), tier) }

  ghost predicate IsText(rt: Runtime, env: Env, n: Node, text: string) { forall tier :: Eval(rt, env, n, tier) == Yield(Text(text), tier) }

  ghost predicate Fails(rt: Runtime, env: Env, n: Node, e: EvalError) { forall tier :: Eval(rt, env, n, tier) == Evaluated(Err(e), tier) }

  // n fails or succeeds, with whatever value and tier: m does the same.
  ghost predicate Same(rt: Runtime, env: Env, n: Node, m: Node) { forall tier :: Eval(rt, env, n, tier) == Eval(rt, env, m, tier) }

  lemma Operands(rt: Runtime, env: Env, x: real, flag: bool, text: string)
    ensures Is(rt, env, NumberLiteral(x), x) && IsFlag(rt, env, FlagLiteral(flag), flag) && IsText(rt, env, TextLiteral(text), text)
    ensures Is(rt, env, NumberVar(text), if text in env.numbers then env.numbers[text] else 0.0)
    ensures IsText(rt, env, StringVar(text), if text in env.strings then env.strings[text] else "")
  {
  }

  function Both(op: string, a: Node, b: Node): Node { BinaryNode(op, a, b) }

  function Not(a: Node): Node { UnaryNode("!", a) }

  function Minus(a: Node): Node { UnaryNode("-", a) }

  function If(c: Node, a: Node, b: Node): Node { TernaryNode(c, a, b) }

  function Of(name: string, args: seq<Node>): Node { CallNode(name, args) }

  lemma One(rt: Runtime, env: Env, a: Node, tier: string)
    ensures var r := Eval(rt, env, a, tier);
            EvalAll(rt, env, [a], tier) == if r.value.Err? then Evaluated(Err(r.value.error), r.tier) else Evaluated(Ok([r.value.value]), r.tier)
  {
    assert [a][1..] == [];
    assert EvalAll(rt, env, [], Eval(rt, env, a, tier).tier) == Evaluated(Ok([]), Eval(rt, env, a, tier).tier);
    if Eval(rt, env, a, tier).value.Ok? { assert [Eval(rt, env, a, tier).value.value] + [] == [Eval(rt, env, a, tier).value.value]; }
  }

  lemma Two(rt: Runtime, env: Env, a: Node, b: Node, tier: string)
    requires Eval(rt, env, a, tier).value.Ok?
    requires Eval(rt, env, b, Eval(rt, env, a, tier).tier).value.Ok?
    ensures var r := Eval(rt, env, a, tier);
            var q := Eval(rt, env, b, r.tier);
            EvalAll(rt, env, [a, b], tier) == Evaluated(Ok([r.value.value, q.value.value]), q.tier)
  {
    assert [a, b][1..] == [b];
    var r := Eval(rt, env, a, tier);
    var q := Eval(rt, env, b, r.tier);
    One(rt, env, b, r.tier);
    assert [r.value.value] + [q.value.value] == [r.value.value, q.value.value];
  }

  // -- Arithmetic ----------------------------------------------------------------------------

  lemma BothIs(rt: Runtime, env: Env, op: string, a: Node, b: Node, x: Value, y: Value)
    requires op != "&&" && op != "||"
    requires forall tier :: Eval(rt, env, a, tier) == Yield(x, tier) && Eval(rt, env, b, tier) == Yield(y, tier)
    ensures forall tier :: Eval(rt, env, Both(op, a, b), tier) == Evaluated(Combine(rt, op, x, y), tier)
  {
    forall tier ensures Eval(rt, env, Both(op, a, b), tier) == Evaluated(Combine(rt, op, x, y), tier) {
      assert Eval(rt, env, a, tier) == Yield(x, tier) && Eval(rt, env, b, tier) == Yield(y, tier);
    }
  }

  lemma Combined(rt: Runtime, x: real, y: real)
    ensures Combine(rt, "+", Number(x), Number(y)) == Ok(Number(x + y)) && Combine(rt, "-", Number(x), Number(y)) == Ok(Number(x - y))
    ensures Combine(rt, "*", Number(x), Number(y)) == Ok(Number(Product(x, y)))
    ensures Combine(rt, "/", Number(x), Number(y)) == if y == 0.0 then Err(DivisionByZero) else Ok(Number(x / y))
    ensures Combine(rt, "<", Number(x), Number(y)) == Ok(Flag(x < y)) && Combine(rt, "<=", Number(x), Number(y)) == Ok(Flag(x <= y))
    ensures Combine(rt, ">", Number(x), Number(y)) == Ok(Flag(x > y)) && Combine(rt, ">=", Number(x), Number(y)) == Ok(Flag(x >= y))
    ensures Combine(rt, "==", Number(x), Number(y)) == Ok(Flag(x == y)) && Combine(rt, "!=", Number(x), Number(y)) == Ok(Flag(x != y))
  {
    assert |"=="| == |"!="| == |"<="| == |">="| == 2;
    assert "<="[0] == '<' && ">="[0] == '>' && "=="[0] == '=' && "!="[0] == '!';
    assert "+"[0] == '+' && "-"[0] == '-' && "*"[0] == '*' && "/"[0] == '/' && "<"[0] == '<' && ">"[0] == '>';
  }

  // Numbers and comparisons of numbers.
  lemma Arithmetics(rt: Runtime, env: Env, a: Node, b: Node, x: real, y: real)
    requires Is(rt, env, a, x) && Is(rt, env, b, y)
    ensures Is(rt, env, Both("+", a, b), x + y) && Is(rt, env, Both("-", a, b), x - y) && Is(rt, env, Both("*", a, b), Product(x, y))
    ensures if y == 0.0 then Fails(rt, env, Both("/", a, b), DivisionByZero) else Is(rt, env, Both("/", a, b), x / y)
    ensures IsFlag(rt, env, Both("<", a, b), x < y) && IsFlag(rt, env, Both("<=", a, b), x <= y)
    ensures IsFlag(rt, env, Both(">", a, b), x > y) && IsFlag(rt, env, Both(">=", a, b), x >= y)
    ensures IsFlag(rt, env, Both("==", a, b), x == y) && IsFlag(rt, env, Both("!=", a, b), x != y)
  {
    Combined(rt, x, y);
    forall op | op in {"+", "-", "*", "/", "<", "<=", ">", ">=", "==", "!="}
      ensures forall tier :: Eval(rt, env, Both(op, a, b), tier) == Evaluated(Combine(rt, op, Number(x), Number(y)), tier)
    {
      assert op != "&&" && op != "||" by { assert "&&"[0] == '&' && "||"[0] == '|'; }
      BothIs(rt, env, op, a, b, Number(x), Number(y));
    }
  }

  lemma Negatives(rt: Runtime, env: Env, a: Node, x: real)
    requires Is(rt, env, a, x)
    ensures Is(rt, env, Minus(a), -x)
  {
    forall tier ensures Eval(rt, env, Minus(a), tier) == Yield(Number(-x), tier) {
      assert Eval(rt, env, a, tier) == Yield(Number(x), tier) && "-"[0] == '-';
    }
  }

  // -- Operators against operators, and against the functions -----------------------------------

  // The smaller and the larger of two, and the sign.
  lemma ChoosesExtreme(rt: Runtime, env: Env, a: Node, b: Node, x: real, y: real)
    requires Is(rt, env, a, x) && Is(rt, env, b, y)
    ensures Same(rt, env, If(Both("<", a, b), a, b), Of("min", [a, b])) && Is(rt, env, Of("min", [a, b]), if x < y then x else y)
    ensures Same(rt, env, If(Both(">", a, b), a, b), Of("max", [a, b])) && Is(rt, env, Of("max", [a, b]), if x > y then x else y)
  {
    Arithmetics(rt, env, a, b, x, y);
    ExtremeOfTwo(rt, env, "min", a, b, x, y);
    ExtremeOfTwo(rt, env, "max", a, b, x, y);
  }

  lemma ExtremeOfTwo(rt: Runtime, env: Env, name: string, a: Node, b: Node, x: real, y: real)
    requires (name == "min" || name == "max") && Is(rt, env, a, x) && Is(rt, env, b, y)
    ensures Is(rt, env, Of(name, [a, b]), if (name == "min") == (y < x) && x != y then y else x)
  {
    var values := [Number(x), Number(y)];
    assert values[1..] == [Number(y)];
    NotClock(name);
    ExtremeIsExtreme(name, values[1..], x);
    assert values[1..][0] == Number(y);
    forall tier ensures Eval(rt, env, Of(name, [a, b]), tier) == Yield(Number(if (name == "min") == (y < x) && x != y then y else x), tier) {
      Two(rt, env, a, b, tier);
    }
  }

  lemma NotClock(name: string)
    requires name in {"min", "max", "abs", "ceil", "floor", "round", "usd", "fixed", "tier", "contains", "has", "u", "s", "param"}
    ensures name !in CLOCK_FUNCTIONS
  {
  }

  lemma Opposites(rt: Runtime, env: Env, a: Node, b: Node, x: real, y: real)
    requires Is(rt, env, a, x) && Is(rt, env, b, y)
    ensures Same(rt, env, Not(Both("<", a, b)), Both(">=", a, b)) && Same(rt, env, Not(Both(">", a, b)), Both("<=", a, b))
    ensures Same(rt, env, Not(Both("==", a, b)), Both("!=", a, b))
    ensures Same(rt, env, Both("==", a, b), Both("&&", Both("<=", a, b), Both(">=", a, b)))
  {
    Arithmetics(rt, env, a, b, x, y);
    Negates(rt, env, Both("<", a, b), x < y);
    Negates(rt, env, Both(">", a, b), x > y);
    Negates(rt, env, Both("==", a, b), x == y);
    Connects(rt, env, Both("<=", a, b), Both(">=", a, b), x <= y, x >= y);
  }

  lemma Undoes(rt: Runtime, env: Env, a: Node, b: Node, x: real, y: real)
    requires Is(rt, env, a, x) && Is(rt, env, b, y)
    ensures Same(rt, env, Both("+", Both("-", a, b), b), a) && Same(rt, env, Both("+", a, Minus(b)), Both("-", a, b))
  {
    Arithmetics(rt, env, a, b, x, y);
    Arithmetics(rt, env, Both("-", a, b), b, x - y, y);
    Negatives(rt, env, b, y);
    Arithmetics(rt, env, a, Minus(b), x, -y);
  }

  lemma Divides(rt: Runtime, env: Env, a: Node, b: Node, x: real, y: real)
    requires Is(rt, env, a, x) && Is(rt, env, b, y) && y != 0.0
    ensures Same(rt, env, Both("*", Both("/", a, b), b), a)
  {
    Arithmetics(rt, env, a, b, x, y);
    Arithmetics(rt, env, Both("/", a, b), b, x / y, y);
    Quotient(x, y);
  }

  lemma Doubles(rt: Runtime, env: Env, a: Node, x: real)
    requires Is(rt, env, a, x)
    ensures Same(rt, env, Both("+", a, a), Both("*", a, NumberLiteral(2.0)))
  {
    Arithmetics(rt, env, a, a, x, x);
    Operands(rt, env, 2.0, false, "");
    Arithmetics(rt, env, a, NumberLiteral(2.0), x, 2.0);
    Doubled(x);
  }

  lemma Doubled(x: real)
    ensures Product(x, 2.0) == x + x
  {
  }

  lemma Quotient(x: real, y: real)
    requires y != 0.0
    ensures Product(x / y, y) == x
  {
  }

  // -- Flags -----------------------------------------------------------------------------------

  lemma Negates(rt: Runtime, env: Env, a: Node, p: bool)
    requires IsFlag(rt, env, a, p)
    ensures IsFlag(rt, env, Not(a), !p)
  {
    forall tier ensures Eval(rt, env, Not(a), tier) == Yield(Flag(!p), tier) {
      assert Eval(rt, env, a, tier) == Yield(Flag(p), tier);
    }
  }

  lemma Connects(rt: Runtime, env: Env, a: Node, b: Node, p: bool, q: bool)
    requires IsFlag(rt, env, a, p) && IsFlag(rt, env, b, q)
    ensures IsFlag(rt, env, Both("&&", a, b), p && q) && IsFlag(rt, env, Both("||", a, b), p || q)
  {
    forall tier
      ensures Eval(rt, env, Both("&&", a, b), tier) == Yield(Flag(p && q), tier)
      ensures Eval(rt, env, Both("||", a, b), tier) == Yield(Flag(p || q), tier)
    {
      assert Eval(rt, env, a, tier) == Yield(Flag(p), tier) && Eval(rt, env, b, tier) == Yield(Flag(q), tier);
      assert "&&"[0] == '&' && "||"[0] == '|';
    }
  }

  // The second operand is not evaluated when the first decides, so it cannot fail.
  lemma ShortCircuits(rt: Runtime, env: Env, a: Node, b: Node, p: bool)
    requires IsFlag(rt, env, a, p)
    ensures !p ==> IsFlag(rt, env, Both("&&", a, b), false)
    ensures p ==> IsFlag(rt, env, Both("||", a, b), true)
  {
  }

  lemma Chooses(rt: Runtime, env: Env, c: Node, a: Node, b: Node, p: bool)
    requires IsFlag(rt, env, c, p)
    ensures Same(rt, env, If(c, a, b), if p then a else b)
  {
    forall tier ensures Eval(rt, env, If(c, a, b), tier) == Eval(rt, env, if p then a else b, tier) {
      assert Eval(rt, env, c, tier) == Yield(Flag(p), tier);
    }
  }

  const COMBINING: set<string> := {"+", "-", "*", "/", "<", "<=", ">", ">=", "==", "!="}

  // Operands of the wrong type fail.
  lemma WrongTypes(rt: Runtime, env: Env, a: Node, b: Node, x: real, text: string, op: string)
    requires Is(rt, env, a, x) && IsText(rt, env, b, text) && op in COMBINING
    ensures Fails(rt, env, Both(op, a, b), WrongType) && Fails(rt, env, Both(op, b, a), WrongType)
  {
    assert op != "&&" && op != "||" by { assert "&&"[0] == '&' && "||"[0] == '|'; }
    BothIs(rt, env, op, a, b, Number(x), Text(text));
    BothIs(rt, env, op, b, a, Text(text), Number(x));
  }

  lemma WrongOperands(rt: Runtime, env: Env, a: Node, b: Node, x: real, text: string)
    requires Is(rt, env, a, x) && IsText(rt, env, b, text)
    ensures Fails(rt, env, Not(a), WrongType) && Fails(rt, env, Minus(b), WrongType)
  {
    assert "-"[0] == '-';
    forall tier
      ensures Eval(rt, env, Not(a), tier) == Evaluated(Err(WrongType), tier) && Eval(rt, env, Minus(b), tier) == Evaluated(Err(WrongType), tier)
    {
      assert Eval(rt, env, a, tier) == Yield(Number(x), tier) && Eval(rt, env, b, tier) == Yield(Text(text), tier);
    }
  }

  lemma WrongConditions(rt: Runtime, env: Env, a: Node, b: Node, x: real)
    requires Is(rt, env, a, x)
    ensures Fails(rt, env, If(a, b, b), WrongType)
    ensures Fails(rt, env, Both("&&", a, b), WrongType) && Fails(rt, env, Both("||", a, b), WrongType)
  {
    forall tier
      ensures Eval(rt, env, If(a, b, b), tier) == Evaluated(Err(WrongType), tier)
      ensures Eval(rt, env, Both("&&", a, b), tier) == Evaluated(Err(WrongType), tier)
      ensures Eval(rt, env, Both("||", a, b), tier) == Evaluated(Err(WrongType), tier)
    {
      assert Eval(rt, env, a, tier) == Yield(Number(x), tier);
    }
  }

  lemma TextsCompare(rt: Runtime, env: Env, a: Node, b: Node, s: string, t: string)
    requires IsText(rt, env, a, s) && IsText(rt, env, b, t)
    ensures IsFlag(rt, env, Both("==", a, b), rt.equalFold(s, t)) && IsFlag(rt, env, Both("!=", a, b), !rt.equalFold(s, t))
  {
    assert "=="[0] == '=' && "!="[0] == '!' && "&&"[0] == '&' && "||"[0] == '|';
    BothIs(rt, env, "==", a, b, Text(s), Text(t));
    BothIs(rt, env, "!=", a, b, Text(s), Text(t));
  }

  // -- Functions -------------------------------------------------------------------------------

  lemma OfOne(rt: Runtime, env: Env, name: string, a: Node, v: Value)
    requires forall tier :: Eval(rt, env, a, tier) == Yield(v, tier)
    ensures forall tier :: Eval(rt, env, Of(name, [a]), tier) == Apply(rt, env, name, [v], tier)
  {
    forall tier ensures Eval(rt, env, Of(name, [a]), tier) == Apply(rt, env, name, [v], tier) {
      assert Eval(rt, env, a, tier) == Yield(v, tier);
      One(rt, env, a, tier);
    }
  }

  lemma OfTwo(rt: Runtime, env: Env, name: string, a: Node, b: Node, v: Value, w: Value)
    requires forall tier :: Eval(rt, env, a, tier) == Yield(v, tier) && Eval(rt, env, b, tier) == Yield(w, tier)
    ensures forall tier :: Eval(rt, env, Of(name, [a, b]), tier) == Apply(rt, env, name, [v, w], tier)
  {
    forall tier ensures Eval(rt, env, Of(name, [a, b]), tier) == Apply(rt, env, name, [v, w], tier) {
      assert Eval(rt, env, a, tier) == Yield(v, tier) && Eval(rt, env, b, tier) == Yield(w, tier);
      Two(rt, env, a, b, tier);
    }
  }

  // The names of the functions differ at one of the first characters.
  lemma NamesDiffer()
    ensures "abs"[1] == 'b' && "ceil"[0] == 'c' && "floor"[0] == 'f' && "fixed"[1] == 'i' && "floor"[1] == 'l' && "round"[0] == 'r'
            && "usd"[0] == 'u' && |"u"| == |"s"| == 1 && "u"[0] == 'u' && "s"[0] == 's' && "param"[0] == 'p' && "min"[1] == 'i'
            && "max"[1] == 'a' && "tier"[0] == 't' && "contains"[0] == 'c' && "contains"[1] == 'o' && "has"[0] == 'h' && "ceil"[1] == 'e'
            && "abs"[0] == 'a' && |"usd"| == 3
  {
  }

  ghost predicate IsWhole(rt: Runtime, env: Env, a: Node, n: int) { Is(rt, env, a, n as real) }

  // abs takes the sign away.
  lemma Signs(rt: Runtime, env: Env, a: Node, x: real)
    requires Is(rt, env, a, x)
    ensures Same(rt, env, Of("abs", [a]), If(Both("<", a, NumberLiteral(0.0)), Minus(a), a))
  {
    NamesDiffer();
    OfOne(rt, env, "abs", a, Number(x));
    Operands(rt, env, 0.0, false, "");
    Arithmetics(rt, env, a, NumberLiteral(0.0), x, 0.0);
    Negatives(rt, env, a, x);
    Chooses(rt, env, Both("<", a, NumberLiteral(0.0)), Minus(a), a, x < 0.0);
  }

  // floor is the greatest whole number that is no larger, ceil the same from above, and round a nearest one.
  lemma Roundings(rt: Runtime, env: Env, a: Node, x: real)
    requires Is(rt, env, a, x)
    ensures exists n: int :: IsWhole(rt, env, Of("floor", [a]), n) && n as real <= x < n as real + 1.0
    ensures exists n: int :: IsWhole(rt, env, Of("ceil", [a]), n) && n as real - 1.0 < x <= n as real
    ensures exists n: int :: IsWhole(rt, env, Of("round", [a]), n) && -0.5 <= n as real - x <= 0.5
  {
    NamesDiffer();
    forall name | name in {"floor", "ceil", "round"}
      ensures forall tier :: Eval(rt, env, Of(name, [a]), tier) == Apply(rt, env, name, [Number(x)], tier)
    {
      OfOne(rt, env, name, a, Number(x));
    }
    Whole(rt, env, a, x);
  }

  lemma Whole(rt: Runtime, env: Env, a: Node, x: real)
    requires forall name, tier :: name in {"floor", "ceil", "round"} ==>
               Eval(rt, env, Of(name, [a]), tier) == Apply(rt, env, name, [Number(x)], tier)
    ensures IsWhole(rt, env, Of("floor", [a]), x.Floor) && x.Floor as real <= x < x.Floor as real + 1.0
    ensures IsWhole(rt, env, Of("ceil", [a]), -(-x).Floor) && (-(-x).Floor) as real - 1.0 < x <= (-(-x).Floor) as real
    ensures exists n: int :: IsWhole(rt, env, Of("round", [a]), n) && -0.5 <= n as real - x <= 0.5
  {
    NamesDiffer();
    RoundNearest(x);
    var n := if x >= 0.0 then (x + 0.5).Floor else -(0.5 - x).Floor;
    assert Round(x) == n as real;
    assert IsWhole(rt, env, Of("round", [a]), n);
  }

  // Dollars: a number is worth itself per million, usd of an amount is worth that amount, fixed of it that
  // amount for each request, and tier passes a number on under a name.
  lemma Worth(rt: Runtime, env: Env, a: Node, x: real)
    requires Is(rt, env, a, x)
    ensures EvalUSD(rt, env, a) == if x < 0.0 then Err(Negative) else Ok((x / 1000000.0, ""))
  {
    assert Eval(rt, env, a, "") == Yield(Number(x), "");
  }

  lemma UsdIs(rt: Runtime, env: Env, a: Node, x: real)
    requires Is(rt, env, a, x)
    ensures EvalUSD(rt, env, Of("usd", [a])) == if x < 0.0 then Err(Negative) else Ok((x, ""))
  {
    NamesDiffer();
    OfOne(rt, env, "usd", a, Number(x));
    Million(x);
    Worth(rt, env, Of("usd", [a]), x * TOKENS_PER_MILLION);
  }

  lemma FixedIs(rt: Runtime, env: Env, a: Node, x: real)
    requires Is(rt, env, a, x)
    ensures EvalUSD(rt, env, Of("fixed", [a])) ==
            var worth := Product(x, if "req" in env.numbers then env.numbers["req"] else 1.0);
            if worth < 0.0 then Err(Negative) else Ok((worth, ""))
  {
    NamesDiffer();
    OfOne(rt, env, "fixed", a, Number(x));
    Million(Product(x, env.Requests()));
    FixedProduct(x, env.Requests());
    Worth(rt, env, Of("fixed", [a]), Product(x, env.Requests()) * TOKENS_PER_MILLION);
  }

  lemma FixedProduct(x: real, requests: real)
    ensures Fixed(x, requests) == Product(x, requests) * TOKENS_PER_MILLION
  {
  }

  lemma TierIs(rt: Runtime, env: Env, a: Node, b: Node, x: real, name: string)
    requires Is(rt, env, a, x) && IsText(rt, env, b, name)
    ensures forall tier :: Eval(rt, env, Of("tier", [b, a]), tier) == Yield(Number(x), name)
  {
    NamesDiffer();
    OfTwo(rt, env, "tier", b, a, Text(name), Number(x));
  }

  lemma Million(x: real)
    ensures x * TOKENS_PER_MILLION / TOKENS_PER_MILLION == x && (x * TOKENS_PER_MILLION < 0.0 <==> x < 0.0)
  {
  }

  // What is looked up: texts in texts, values by path, and the clock in a zone.
  lemma Lookups(rt: Runtime, env: Env, a: Node, b: Node, s: string, t: string)
    requires IsText(rt, env, a, s) && IsText(rt, env, b, t)
    ensures IsFlag(rt, env, Of("contains", [a, b]), rt.containsFold(s, t)) && IsFlag(rt, env, Of("has", [a, b]), rt.containsFold(s, t))
    ensures Is(rt, env, Of("u", [a]), if env.lookupNumber.Some? then env.lookupNumber.value(s) else 0.0)
    ensures forall name :: name in {"s", "param"} ==>
              IsText(rt, env, Of(name, [a]), if env.lookupString.Some? then env.lookupString.value(s) else "")
    ensures forall name :: name in CLOCK_FUNCTIONS ==>
              Is(rt, env, Of(name, [a]), env.clock(name, s)) && Is(rt, env, Of(name, []), env.clock(name, "UTC"))
  {
    NamesDiffer();
    OfTwo(rt, env, "contains", a, b, Text(s), Text(t));
    OfTwo(rt, env, "has", a, b, Text(s), Text(t));
    OfOne(rt, env, "u", a, Text(s));
    forall name | name in {"s", "param"} ensures IsText(rt, env, Of(name, [a]), if env.lookupString.Some? then env.lookupString.value(s) else "") {
      OfOne(rt, env, name, a, Text(s));
    }
    forall name | name in CLOCK_FUNCTIONS
      ensures Is(rt, env, Of(name, [a]), env.clock(name, s)) && Is(rt, env, Of(name, []), env.clock(name, "UTC"))
    {
      OfOne(rt, env, name, a, Text(s));
    }
  }

  // -- Grouping --------------------------------------------------------------------------------

  // The levels of the binary operators, loosest first.
  const LEVELS: seq<set<string>> := [{"||"}, {"&&"}, {"==", "!="}, {"<", "<=", ">", ">="}, {"+", "-"}, {"*", "/"}]

  lemma PrecedenceIsLevel(op: string, level: nat)
    requires level < |LEVELS|
    ensures op in LEVELS[level] <==> Precedence(op) == level + 1
  {
  }

  // A literal or a known word.
  predicate Leaf(rt: Runtime, t: Tree) { (t.Numeral? || t.Quoted? || t.Word?) && WellFormed(rt, t) }

  lemma LeafDepth(rt: Runtime, t: Tree)
    requires Leaf(rt, t)
    ensures Depth(t) == 0 && WellFormed(rt, t) && !t.Infix? && !t.Choice?
  {
  }

  lemma PairFits(rt: Runtime, op: string, x: Tree, y: Tree)
    requires Precedence(op) > 0 && Leaf(rt, x) && Leaf(rt, y)
    ensures WellFormed(rt, Infix(op, x, y)) && Depth(Infix(op, x, y)) == 1
    ensures Flatten(Infix(op, x, y)) == Flatten(x) + [Op(op)] + Flatten(y)
  {
    LeafDepth(rt, x);
    LeafDepth(rt, y);
  }

  lemma GroupsRight(rt: Runtime, first: string, second: string, x: Tree, y: Tree, z: Tree)
    requires 0 < Precedence(first) < Precedence(second) && Leaf(rt, x) && Leaf(rt, y) && Leaf(rt, z)
    ensures var t := Infix(first, x, Infix(second, y, z));
            WellFormed(rt, t) && Depth(t) == 2 && Flatten(t) == Flatten(x) + [Op(first)] + (Flatten(y) + [Op(second)] + Flatten(z))
  {
    LeafDepth(rt, x);
    PairFits(rt, second, y, z);
  }

  lemma GroupsLeft(rt: Runtime, first: string, second: string, x: Tree, y: Tree, z: Tree)
    requires 0 < Precedence(second) <= Precedence(first) && Leaf(rt, x) && Leaf(rt, y) && Leaf(rt, z)
    ensures var t := Infix(second, Infix(first, x, y), z);
            WellFormed(rt, t) && Depth(t) == 1 && Flatten(t) == (Flatten(x) + [Op(first)] + Flatten(y)) + [Op(second)] + Flatten(z)
  {
    LeafDepth(rt, z);
    PairFits(rt, first, x, y);
  }

  // x first y second z is one tree: the operator of the higher level takes y, and of one level the first does.
  lemma Groups(rt: Runtime, first: string, second: string, i: nat, j: nat, x: Tree, y: Tree, z: Tree, tokens: seq<Token>)
    requires i < |LEVELS| && j < |LEVELS| && first in LEVELS[i] && second in LEVELS[j]
    requires Leaf(rt, x) && Leaf(rt, y) && Leaf(rt, z)
    requires tokens == Flatten(x) + [Op(first)] + Flatten(y) + [Op(second)] + Flatten(z) && Terminated(tokens + [EndOfInput])
    ensures ParseAll(rt, tokens + [EndOfInput]) ==
            Ok(if i < j then Infix(first, x, Infix(second, y, z)) else Infix(second, Infix(first, x, y), z))
  {
    PrecedenceIsLevel(first, i);
    PrecedenceIsLevel(second, j);
    if i < j {
      GroupsRight(rt, first, second, x, y, z);
      assert Flatten(x) + [Op(first)] + (Flatten(y) + [Op(second)] + Flatten(z)) == tokens;
      ParseAllAccepts(rt, tokens, Infix(first, x, Infix(second, y, z)));
    } else {
      GroupsLeft(rt, first, second, x, y, z);
      ParseAllAccepts(rt, tokens, Infix(second, Infix(first, x, y), z));
    }
  }

  // A prefix operator takes the smallest operand.
  lemma GroupsPrefix(rt: Runtime, prefix: string, op: string, i: nat, x: Tree, y: Tree, tokens: seq<Token>)
    requires (prefix == "-" || prefix == "!") && i < |LEVELS| && op in LEVELS[i] && Leaf(rt, x) && Leaf(rt, y)
    requires tokens == [Op(prefix)] + Flatten(x) + [Op(op)] + Flatten(y) && Terminated(tokens + [EndOfInput])
    ensures ParseAll(rt, tokens + [EndOfInput]) == Ok(Infix(op, Prefix(prefix, x), y))
  {
    PrecedenceIsLevel(op, i);
    LeafDepth(rt, x);
    LeafDepth(rt, y);
    assert Flatten(Prefix(prefix, x)) == [Op(prefix)] + Flatten(x);
    assert WellFormed(rt, Prefix(prefix, x)) && Depth(Prefix(prefix, x)) == 1;
    ParseAllAccepts(rt, tokens, Infix(op, Prefix(prefix, x), y));
  }

  // -- Tables ----------------------------------------------------------------------------------

  // The functions, with the least and the greatest number of arguments.
  const FUNCTIONS: map<string, (nat, nat)> := map[
    "hour" := (0, 1), "minute" := (0, 1), "weekday" := (0, 1), "month" := (0, 1), "day" := (0, 1),
    "min" := (1, 16), "max" := (1, 16), "abs" := (1, 1), "ceil" := (1, 1), "floor" := (1, 1), "round" := (1, 1),
    "usd" := (1, 1), "fixed" := (1, 1), "tier" := (2, 2), "contains" := (2, 2), "has" := (2, 2),
    "u" := (1, 1), "s" := (1, 1), "param" := (1, 1)]

  // A call is legal exactly if the table has its name and number of arguments, and a zone given to a clock
  // function is a literal one that exists.
  lemma LegalExactly(rt: Runtime, name: string, args: seq<Node>)
    ensures LegalCall(rt, name, args) <==>
            && name in FUNCTIONS && FUNCTIONS[name].0 <= |args| <= FUNCTIONS[name].1
            && (FUNCTIONS[name] == (0, 1) && |args| == 1 ==> args[0].TextLiteral? && rt.zone(args[0].text))
  {
  }

  // The operators as they are written.
  const PAIRS: set<string> := {"||", "&&", "==", "!=", "<=", ">="}

  const SINGLES: set<string> := {"<", ">", "+", "-", "*", "/", "!", "?", ":", "(", ")", ","}

  lemma OperatorsOnly(op: string)
    ensures PairOperator(op) <==> op in PAIRS
    ensures |op| == 1 && SingleOperator(op[0]) <==> op in SINGLES
  {
    if |op| == 1 { assert op == [op[0]]; }
  }

  lemma PairReads(rt: Runtime, op: string)
    requires Faithful(rt) && op in PAIRS
    ensures Next(rt, op + " ") == Read(OperatorToken(op), 2)
  {
    assert |op| == 2 && (op + " ")[..2] == op && (op + " ")[0] == op[0];
    assert op[0] in "|&=!<>";
    SymbolReads(rt, op + " ");
  }

  lemma SingleReads(rt: Runtime, op: string)
    requires Faithful(rt) && op in SINGLES
    ensures Next(rt, op + " ") == Read(OperatorToken(op), 1)
  {
    OperatorsOnly(op);
    assert (op + " ")[..1] == op && (op + " ")[0] == op[0] && (op + " ")[..2][1] == ' ';
    assert op[0] in "<>+-*/!?:(),";
    SymbolReads(rt, op + " ");
  }

  // What begins with a symbol is no space, number, text or word.
  lemma SymbolReads(rt: Runtime, s: string)
    requires Faithful(rt) && |s| >= 2 && s[0] in "|&=!<>+-*/?:(),"
    ensures Next(rt, s) == if PairOperator(s[..2]) then Read(OperatorToken(s[..2]), 2)
                           else if SingleOperator(s[0]) then Read(OperatorToken(s[..1]), 1) else Next(rt, s)
  {
    assert s[0] < 128 as char;
  }

  // -- Words -----------------------------------------------------------------------------------

  // The flags are what they say; any other word is the variable of its canonical name, a text or a number.
  lemma WordsMean(rt: Runtime, text: string)
    ensures Erase(rt, Word("true")) == FlagLiteral(true) && Erase(rt, Word("false")) == FlagLiteral(false)
    ensures text != "true" && text != "false" ==>
              var name := if text in rt.aliases then rt.aliases[text] else text;
              Erase(rt, Word(text)) == if name in rt.numberVars then NumberVar(name) else StringVar(name)
  {
    assert |"true"| == 4 && |"false"| == 5;
  }

  // A variable of a program is spelled out in it, under its own name or an alias.
  ghost predicate Spelled(rt: Runtime, tokens: seq<Token>, name: string) {
    exists text :: IdentToken(text) in tokens && name == CanonicalName(rt, text)
  }

  lemma SpelledEither(rt: Runtime, a: seq<Token>, b: seq<Token>, name: string)
    requires Spelled(rt, a, name) || Spelled(rt, b, name)
    ensures Spelled(rt, a + b, name)
  {
    var text :| (IdentToken(text) in a || IdentToken(text) in b) && name == CanonicalName(rt, text);
    assert IdentToken(text) in a + b;
  }

  lemma {:induction false} VarsSpelled(rt: Runtime, t: Tree, name: string)
    requires name in Vars(Erase(rt, t))
    ensures Spelled(rt, Flatten(t), name)
    decreases t, 1
  {
    match t
    case Word(text) => assert IdentToken(text) in Flatten(t);
    case Paren(inner) =>
      VarsSpelled(rt, inner, name);
      SpelledEither(rt, [Op("(")], Flatten(inner), name);
      SpelledEither(rt, [Op("(")] + Flatten(inner), [Op(")")], name);
    case Prefix(op, operand) =>
      VarsSpelled(rt, operand, name);
      SpelledEither(rt, [Op(op)], Flatten(operand), name);
    case Infix(op, left, right) =>
      if name in Vars(Erase(rt, left)) { VarsSpelled(rt, left, name); } else { VarsSpelled(rt, right, name); }
      InfixSpelled(rt, Flatten(left), op, Flatten(right), name);
    case Choice(cond, yes, no) =>
      if name in Vars(Erase(rt, cond)) { VarsSpelled(rt, cond, name); }
      else if name in Vars(Erase(rt, yes)) { VarsSpelled(rt, yes, name); }
      else { VarsSpelled(rt, no, name); }
      ChoiceSpelled(rt, Flatten(cond), Flatten(yes), Flatten(no), name);
    case Call(callee, args) =>
      ArgsSpelled(rt, args, name);
      SpelledEither(rt, [IdentToken(callee), Op("(")], FlattenArgs(args), name);
      SpelledEither(rt, [IdentToken(callee), Op("(")] + FlattenArgs(args), [Op(")")], name);
    case _ =>
  }

  lemma InfixSpelled(rt: Runtime, a: seq<Token>, op: string, b: seq<Token>, name: string)
    requires Spelled(rt, a, name) || Spelled(rt, b, name)
    ensures Spelled(rt, a + [Op(op)] + b, name)
  {
    if Spelled(rt, a, name) { SpelledEither(rt, a, [Op(op)], name); }
    SpelledEither(rt, a + [Op(op)], b, name);
  }

  lemma ChoiceSpelled(rt: Runtime, a: seq<Token>, b: seq<Token>, c: seq<Token>, name: string)
    requires Spelled(rt, a, name) || Spelled(rt, b, name) || Spelled(rt, c, name)
    ensures Spelled(rt, a + [Op("?")] + b + [Op(":")] + c, name)
  {
    if Spelled(rt, a, name) || Spelled(rt, b, name) { InfixSpelled(rt, a, "?", b, name); }
    InfixSpelled(rt, a + [Op("?")] + b, ":", c, name);
  }

  lemma {:induction false} ArgsSpelled(rt: Runtime, args: seq<Tree>, name: string)
    requires name in VarsOf(EraseAll(rt, args))
    ensures Spelled(rt, FlattenArgs(args), name)
    decreases args, 0
  {
    assert EraseAll(rt, args)[1..] == EraseAll(rt, args[1..]);
    if name in Vars(Erase(rt, args[0])) { VarsSpelled(rt, args[0], name); } else { ArgsSpelled(rt, args[1..], name); }
    if |args| > 1 { InfixSpelled(rt, Flatten(args[0]), ",", FlattenArgs(args[1..]), name); }
  }

  // -- A program with two bands ------------------------------------------------------------------

  // p < threshold ? p * low : p * high
  function Bands(threshold: real, low: real, high: real, t: string, l: string, h: string): Tree {
    Choice(Infix("<", Word("p"), Numeral(t, threshold)), Infix("*", Word("p"), Numeral(l, low)), Infix("*", Word("p"), Numeral(h, high)))
  }

  function BandTokens(threshold: real, low: real, high: real, t: string, l: string, h: string): seq<Token> {
    [IdentToken("p"), Op("<"), NumberToken(t, threshold), Op("?"), IdentToken("p"), Op("*"), NumberToken(l, low), Op(":"),
     IdentToken("p"), Op("*"), NumberToken(h, high)]
  }

  ghost predicate PlainP(rt: Runtime) { "p" in rt.numberVars && "p" !in rt.aliases }

  lemma BandsFit(rt: Runtime, threshold: real, low: real, high: real, t: string, l: string, h: string)
    requires PlainP(rt)
    ensures var tree := Bands(threshold, low, high, t, l, h);
            WellFormed(rt, tree) && Depth(tree) == 2 && Flatten(tree) == BandTokens(threshold, low, high, t, l, h)
  {
    assert "p"[0] == 'p' && |"p"| == 1 && |"true"| == 4 && |"false"| == 5;
    PrecedenceIsLevel("<", 3);
    PrecedenceIsLevel("*", 5);
    PairFits(rt, "<", Word("p"), Numeral(t, threshold));
    PairFits(rt, "*", Word("p"), Numeral(l, low));
    PairFits(rt, "*", Word("p"), Numeral(h, high));
    FlattenPair("<", t, threshold);
    FlattenPair("*", l, low);
    FlattenPair("*", h, high);
    assert Flatten(Bands(threshold, low, high, t, l, h)) ==
      [IdentToken("p"), Op("<"), NumberToken(t, threshold)] + [Op("?")] + [IdentToken("p"), Op("*"), NumberToken(l, low)] + [Op(":")]
      + [IdentToken("p"), Op("*"), NumberToken(h, high)];
  }

  lemma FlattenPair(op: string, text: string, value: real)
    ensures Flatten(Infix(op, Word("p"), Numeral(text, value))) == [IdentToken("p"), Op(op), NumberToken(text, value)]
  {
    assert Flatten(Word("p")) == [IdentToken("p")] && Flatten(Numeral(text, value)) == [NumberToken(text, value)];
  }

  // A source with these tokens compiles, and charges the low rate exactly below the threshold.
  lemma BandsCharge(rt: Runtime, text: string, env: Env, threshold: real, low: real, high: real, t: string, l: string, h: string)
    requires PlainP(rt) && ByteLength(Trim(rt, text)) <= Machine.MAX_SOURCE_LENGTH
    requires Lex(rt, Body(rt, Trim(rt, text))) == Some(BandTokens(threshold, low, high, t, l, h))
    ensures var p := if "p" in env.numbers then env.numbers["p"] else 0.0;
            var worth := if p < threshold then Product(p, low) else Product(p, high);
            && Compile(rt, text).Ok?
            && EvalUSD(rt, env, Erase(rt, Compile(rt, text).value)) == if worth < 0.0 then Err(Negative) else Ok((worth / 1000000.0, ""))
  {
    BandsFit(rt, threshold, low, high, t, l, h);
    CompileAccepts(rt, text, Bands(threshold, low, high, t, l, h));
    BandsWorth(rt, env, threshold, low, high, t, l, h);
  }

  lemma ErasePair(rt: Runtime, op: string, text: string, value: real)
    requires PlainP(rt)
    ensures Erase(rt, Infix(op, Word("p"), Numeral(text, value))) == Both(op, NumberVar("p"), NumberLiteral(value))
  {
    assert |"p"| == 1 && |"true"| == 4 && |"false"| == 5;
    assert Erase(rt, Word("p")) == NumberVar("p");
    assert Erase(rt, Numeral(text, value)) == NumberLiteral(value);
  }

  lemma BandsWorth(rt: Runtime, env: Env, threshold: real, low: real, high: real, t: string, l: string, h: string)
    requires PlainP(rt)
    ensures var p := if "p" in env.numbers then env.numbers["p"] else 0.0;
            var worth := if p < threshold then Product(p, low) else Product(p, high);
            EvalUSD(rt, env, Erase(rt, Bands(threshold, low, high, t, l, h))) ==
            if worth < 0.0 then Err(Negative) else Ok((worth / 1000000.0, ""))
  {
    var p := if "p" in env.numbers then env.numbers["p"] else 0.0;
    var v := NumberVar("p");
    var c, a, b := Both("<", v, NumberLiteral(threshold)), Both("*", v, NumberLiteral(low)), Both("*", v, NumberLiteral(high));
    ErasePair(rt, "<", t, threshold);
    ErasePair(rt, "*", l, low);
    ErasePair(rt, "*", h, high);
    assert Erase(rt, Bands(threshold, low, high, t, l, h)) == If(c, a, b);
    Operands(rt, env, threshold, false, "p");
    Operands(rt, env, low, false, "p");
    Operands(rt, env, high, false, "p");
    Arithmetics(rt, env, v, NumberLiteral(threshold), p, threshold);
    Arithmetics(rt, env, v, NumberLiteral(low), p, low);
    Arithmetics(rt, env, v, NumberLiteral(high), p, high);
    Chooses(rt, env, c, a, b, p < threshold);
    Worth(rt, env, If(c, a, b), if p < threshold then Product(p, low) else Product(p, high));
  }
}
