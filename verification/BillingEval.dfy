/** Evaluation of pricing expressions over real numbers, so without rounding, NaN or infinity. The
    name of the tier that tier() matched is threaded through, as the environment field is. */
module BillingEval {
  import opened Wrappers
  import opened BillingLexer
  import opened BillingSyntax

  const TOKENS_PER_MILLION: real := 1000000.0

  datatype Value = Number(number: real) | Text(text: string) | Flag(flag: bool)

  datatype EvalError = WrongType | DivisionByZero | Unsupported | NotANumber | Negative

  // clock gives hour, minute, weekday, month and day in a time zone at the moment of evaluation.
  datatype Env = Env(numbers: map<string, real>, strings: map<string, string>,
                     lookupNumber: Option<string -> real>, lookupString: Option<string -> string>,
                     clock: (string, string) -> real)
  {
    function NumberOf(name: string): real { if name in numbers then numbers[name] else 0.0 }

    function StringOf(name: string): string { if name in strings then strings[name] else "" }

    // What fixed() multiplies by.
    function Requests(): real { if "req" in numbers then numbers["req"] else 1.0 }
  }

  datatype Evaluated<+T> = Evaluated(value: Result<T, EvalError>, tier: string)

  function Fail<T>(e: EvalError, tier: string): Evaluated<T> { Evaluated(Err(e), tier) }

  function Yield(v: Value, tier: string): Evaluated<Value> { Evaluated(Ok(v), tier) }

  function Eval(rt: Runtime, env: Env, n: Node, tier: string): Evaluated<Value>
    decreases n, 1
  {
    match n
    case NumberLiteral(number) => Yield(Number(number), tier)
    case TextLiteral(text) => Yield(Text(text), tier)
    case FlagLiteral(flag) => Yield(Flag(flag), tier)
    case NumberVar(name) => Yield(Number(env.NumberOf(name)), tier)
    case StringVar(name) => Yield(Text(env.StringOf(name)), tier)
    case UnaryNode(op, operand) =>
      var r := Eval(rt, env, operand, tier);
      if r.value.Err? then r
      else if op == "!" then (if r.value.value.Flag? then Yield(Flag(!r.value.value.flag), r.tier) else Fail(WrongType, r.tier))
      else if r.value.value.Number? then Yield(Number(-r.value.value.number), r.tier)
      else Fail(WrongType, r.tier)
    case BinaryNode(op, left, right) =>
      var l := Eval(rt, env, left, tier);
      if l.value.Err? then l
      else if op == "&&" || op == "||" then
        if !l.value.value.Flag? then Fail(WrongType, l.tier)
        else if l.value.value.flag == (op == "||") then l
        else
          var r := Eval(rt, env, right, l.tier);
          if r.value.Ok? && !r.value.value.Flag? then Fail(WrongType, r.tier) else r
      else
        var r := Eval(rt, env, right, l.tier);
        if r.value.Err? then r else Evaluated(Combine(rt, op, l.value.value, r.value.value), r.tier)
    case TernaryNode(cond, whenTrue, whenFalse) =>
      var c := Eval(rt, env, cond, tier);
      if c.value.Err? then c
      else if !c.value.value.Flag? then Fail(WrongType, c.tier)
      else if c.value.value.flag then Eval(rt, env, whenTrue, c.tier)
      else Eval(rt, env, whenFalse, c.tier)
    case CallNode(name, args) =>
      var r := EvalAll(rt, env, args, tier);
      match r.value
      case Err(e) => Fail(e, r.tier)
      case Ok(values) => Apply(rt, env, name, values, r.tier)
  }

  function EvalAll(rt: Runtime, env: Env, args: seq<Node>, tier: string): Evaluated<seq<Value>>
    decreases args, 0
  {
    if args == [] then Evaluated(Ok([]), tier)
    else
      var first := Eval(rt, env, args[0], tier);
      match first.value
      case Err(e) => Fail(e, first.tier)
      case Ok(v) =>
        var rest := EvalAll(rt, env, args[1..], first.tier);
        if rest.value.Err? then rest else Evaluated(Ok([v] + rest.value.value), rest.tier)
  }

  function Combine(rt: Runtime, op: string, left: Value, right: Value): Result<Value, EvalError> {
    if op == "==" || op == "!=" then
      var equal :=
        if left.Text? && right.Text? then rt.equalFold(left.text, right.text) else left == right;
      if left.Number? != right.Number? || left.Text? != right.Text? then Err(WrongType) else Ok(Flag(equal == (op == "==")))
    else if !left.Number? || !right.Number? then Err(WrongType)
    else Arithmetic(op, left.number, right.number)
  }

  function Product(a: real, b: real): real { a * b }

  function Arithmetic(op: string, a: real, b: real): Result<Value, EvalError> {
    if op == "+" then Ok(Number(a + b))
    else if op == "-" then Ok(Number(a - b))
    else if op == "*" then Ok(Number(Product(a, b)))
    else if op == "/" then (if b == 0.0 then Err(DivisionByZero) else Ok(Number(a / b)))
    else if op == "<" then Ok(Flag(a < b))
    else if op == "<=" then Ok(Flag(a <= b))
    else if op == ">" then Ok(Flag(a > b))
    else if op == ">=" then Ok(Flag(a >= b))
    else Err(Unsupported)
  }

  function Floor(x: real): real { x.Floor as real }

  // math.Round: halves go away from zero.
  function Round(x: real): real { if x >= 0.0 then Floor(x + 0.5) else -Floor(0.5 - x) }

  // The least or greatest number of values and best.
  function Extreme(name: string, values: seq<Value>, best: real): Result<Value, EvalError> {
    if values == [] then Ok(Number(best))
    else if !values[0].Number? then Err(WrongType)
    else
      var v := values[0].number;
      Extreme(name, values[1..], if (name == "min" && v < best) || (name == "max" && v > best) then v else best)
  }

  // A dollar amount per request, as a value per million tokens.
  function Fixed(amount: real, requests: real): real { amount * requests * TOKENS_PER_MILLION }

  // A call on evaluated arguments. Compilation has checked how many there are and that the time
  // zone of a clock function is a literal one that exists.
  function Apply(rt: Runtime, env: Env, name: string, values: seq<Value>, tier: string): Evaluated<Value> {
    if name in CLOCK_FUNCTIONS then
      if values == [] then Yield(Number(env.clock(name, "UTC")), tier)
      else if !values[0].Text? then Fail(Unsupported, tier)
      else Yield(Number(env.clock(name, values[0].text)), tier)
    else if values == [] then Fail(Unsupported, tier)
    else if name == "min" || name == "max" then
      if values[0].Number? then Evaluated(Extreme(name, values[1..], values[0].number), tier) else Fail(WrongType, tier)
    else if name == "tier" || name == "contains" || name == "has" then
      if |values| != 2 then Fail(Unsupported, tier)
      else if name == "tier" then
        if values[0].Text? && values[1].Number? then Yield(values[1], values[0].text) else Fail(WrongType, tier)
      else if values[0].Text? && values[1].Text? then Yield(Flag(rt.containsFold(values[0].text, values[1].text)), tier)
      else Fail(WrongType, tier)
    else if name == "u" || name == "s" || name == "param" then
      if !values[0].Text? then Fail(WrongType, tier)
      else if name == "u" then Yield(Number(if env.lookupNumber.None? then 0.0 else env.lookupNumber.value(values[0].text)), tier)
      else Yield(Text(if env.lookupString.None? then "" else env.lookupString.value(values[0].text)), tier)
    else if !values[0].Number? then Fail(WrongType, tier)
    else
      var x := values[0].number;
      if name == "abs" then Yield(Number(if x < 0.0 then -x else x), tier)
      else if name == "ceil" then Yield(Number(-Floor(-x)), tier)
      else if name == "floor" then Yield(Number(Floor(x)), tier)
      else if name == "round" then Yield(Number(Round(x)), tier)
      else if name == "usd" then Yield(Number(x * TOKENS_PER_MILLION), tier)
      else if name == "fixed" then Yield(Number(Fixed(x, env.Requests())), tier)
      else Fail(Unsupported, tier)
  }

  // EvalUSDWithTrace: dollars and the matched tier.
  function EvalUSD(rt: Runtime, env: Env, root: Node): Result<(real, string), EvalError> {
    var r := Eval(rt, env, root, "");
    match r.value
    case Err(e) => Err(e)
    case Ok(value) =>
      if !value.Number? then Err(NotANumber)
      else if value.number < 0.0 then Err(Negative)
      else Ok((value.number / TOKENS_PER_MILLION, r.tier))
  }

  // -- What evaluation depends on --------------------------------------------------------

  // Two environments that differ in nothing an expression over these variables can see.
  ghost predicate Alike(a: Env, b: Env, names: set<string>) {
    && a.lookupNumber == b.lookupNumber && a.lookupString == b.lookupString && a.clock == b.clock
    && a.Requests() == b.Requests()
    && forall name :: name in names ==> a.NumberOf(name) == b.NumberOf(name) && a.StringOf(name) == b.StringOf(name)
  }

  lemma AlikeWithin(a: Env, b: Env, names: set<string>, fewer: set<string>)
    requires Alike(a, b, names) && fewer <= names
    ensures Alike(a, b, fewer)
  {
  }

  // Only the variables of the tree, req, the lookups and the clock matter.
  lemma {:induction false} EvalDepends(rt: Runtime, a: Env, b: Env, n: Node, tier: string)
    requires Alike(a, b, Vars(n))
    ensures Eval(rt, a, n, tier) == Eval(rt, b, n, tier)
    decreases n, 1
  {
    match n
    case UnaryNode(_, operand) => EvalDepends(rt, a, b, operand, tier);
    case BinaryNode(_, left, right) =>
      AlikeWithin(a, b, Vars(n), Vars(left));
      AlikeWithin(a, b, Vars(n), Vars(right));
      EvalDepends(rt, a, b, left, tier);
      EvalDepends(rt, a, b, right, Eval(rt, a, left, tier).tier);
    case TernaryNode(cond, whenTrue, whenFalse) =>
      AlikeWithin(a, b, Vars(n), Vars(cond));
      AlikeWithin(a, b, Vars(n), Vars(whenTrue));
      AlikeWithin(a, b, Vars(n), Vars(whenFalse));
      EvalDepends(rt, a, b, cond, tier);
      EvalDepends(rt, a, b, whenTrue, Eval(rt, a, cond, tier).tier);
      EvalDepends(rt, a, b, whenFalse, Eval(rt, a, cond, tier).tier);
    case CallNode(name, args) =>
      EvalAllDepends(rt, a, b, args, tier);
      var r := EvalAll(rt, a, args, tier);
      if r.value.Ok? { ApplyDepends(rt, a, b, name, r.value.value, r.tier); }
    case _ =>
  }

  lemma ApplyDepends(rt: Runtime, a: Env, b: Env, name: string, values: seq<Value>, tier: string)
    requires Alike(a, b, {})
    ensures Apply(rt, a, name, values, tier) == Apply(rt, b, name, values, tier)
  {
  }

  lemma {:induction false} EvalAllDepends(rt: Runtime, a: Env, b: Env, args: seq<Node>, tier: string)
    requires Alike(a, b, VarsOf(args))
    ensures EvalAll(rt, a, args, tier) == EvalAll(rt, b, args, tier)
    decreases args, 0
  {
    if args != [] {
      AlikeWithin(a, b, VarsOf(args), Vars(args[0]));
      AlikeWithin(a, b, VarsOf(args), VarsOf(args[1..]));
      EvalDepends(rt, a, b, args[0], tier);
      EvalAllDepends(rt, a, b, args[1..], Eval(rt, a, args[0], tier).tier);
    }
  }

  // -- What min, max and the roundings are -----------------------------------------------

  // best is the least or greatest of these numbers and of from, which may itself be the one.
  lemma {:induction false} ExtremeIsExtreme(name: string, values: seq<Value>, from: real)
    requires (name == "min" || name == "max") && forall i :: 0 <= i < |values| ==> values[i].Number?
    ensures Extreme(name, values, from).Ok? && Extreme(name, values, from).value.Number?
    ensures var best := Extreme(name, values, from).value.number;
            && (best == from || exists i :: 0 <= i < |values| && values[i].number == best)
            && (if name == "min" then best <= from else best >= from)
            && forall i :: 0 <= i < |values| ==> if name == "min" then best <= values[i].number else best >= values[i].number
  {
    assert "min"[1] == 'i' && "max"[1] == 'a';
    if values != [] {
      var v := values[0].number;
      var next := if (name == "min" && v < from) || (name == "max" && v > from) then v else from;
      ExtremeIsExtreme(name, values[1..], next);
      var best := Extreme(name, values[1..], next).value.number;
      if best != next {
        var i :| 0 <= i < |values[1..]| && values[1..][i].number == best;
        assert values[i + 1].number == best;
      }
      forall i | 0 <= i < |values| ensures if name == "min" then best <= values[i].number else best >= values[i].number {
        if i > 0 { assert values[i] == values[1..][i - 1]; }
      }
    }
  }

  // A value that is not a number anywhere among the arguments makes min and max fail.
  lemma {:induction false} ExtremeNeedsNumbers(name: string, values: seq<Value>, from: real)
    ensures Extreme(name, values, from).Err? <==> exists i :: 0 <= i < |values| && !values[i].Number?
  {
    if values != [] && values[0].Number? {
      var v := values[0].number;
      var next := if (name == "min" && v < from) || (name == "max" && v > from) then v else from;
      ExtremeNeedsNumbers(name, values[1..], next);
      if exists i :: 0 <= i < |values| && !values[i].Number? {
        var i :| 0 <= i < |values| && !values[i].Number?;
        assert values[1..][i - 1] == values[i];
      }
    }
  }

  lemma FloorBelow(x: real)
    ensures Floor(x) <= x < Floor(x) + 1.0
  {
  }

  // Rounding goes to a nearest whole number, halves away from zero, and is odd.
  lemma RoundNearest(x: real)
    ensures x >= 0.0 ==> -0.5 < Round(x) - x <= 0.5
    ensures x <= 0.0 ==> -0.5 <= Round(x) - x < 0.5
    ensures Round(-x) == -Round(x)
  {
    if x == 0.0 {
      assert Floor(0.5) == 0.0;
    } else if x > 0.0 {
      FloorBelow(x + 0.5);
      assert 0.5 - -x == x + 0.5;
    } else {
      FloorBelow(0.5 - x);
      assert -x + 0.5 == 0.5 - x;
    }
  }
}
