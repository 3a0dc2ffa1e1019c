/** Scaling a pricing expression at source level, as a price import with a multiplier does: the text
    is wrapped into "(body) * k". The scaled text means k times the original. */
module BillingScaling {
  import opened Wrappers
  import opened BillingLexer
  import opened BillingSyntax
  import opened BillingParser
  import opened BillingProgram
  import opened BillingEval
  import Machine = BillingCompile

  // The pricing expression of billingImportMultiplyCost. printed is how the multiplier k prints.
  function Scale(rt: Runtime, text: string, printed: string, k: real): string {
    var source := Trim(rt, text);
    if source == "" || k == 1.0 then source else "(" + Body(rt, source) + ") * " + printed
  }

  // The tree of the scaled source.
  function Scaled(t: Tree, printed: string, k: real): Tree {
    Infix("*", Paren(t), Numeral(printed, k))
  }

  lemma ScaledText(rt: Runtime, body: string, mantissa: string, exponent: string, k: real)
    requires Faithful(rt) && Printed(rt, mantissa, exponent, k)
    ensures var s := "(" + body + ") * " + (mantissa + exponent); Trim(rt, s) == s && Body(rt, s) == s
  {
    var printed := mantissa + exponent;
    var s := "(" + body + ") * " + printed;
    assert s[0] == '(' && s[|s| - 1] == printed[|printed| - 1];
    if exponent == "" { assert printed[|printed| - 1] == mantissa[|mantissa| - 1]; }
    else { assert printed[|printed| - 1] == exponent[|exponent| - 1]; }
    TrimIdempotent(rt, s);
    assert "v1:"[0] == 'v';
  }

  lemma ScaledTokens(t: Tree, printed: string, k: real)
    ensures Flatten(Scaled(t, printed, k)) == [Op("(")] + Flatten(t) + [Op(")"), Op("*"), NumberToken(printed, k)]
    ensures Depth(Scaled(t, printed, k)) == 1 + Depth(t)
  {
    var f := Flatten(t);
    assert Flatten(Paren(t)) == [Op("(")] + f + [Op(")")];
    assert Flatten(Numeral(printed, k)) == [NumberToken(printed, k)];
  }

  lemma ScaledWellFormed(rt: Runtime, t: Tree, printed: string, k: real)
    ensures WellFormed(rt, Scaled(t, printed, k)) <==> WellFormed(rt, t)
  {
  }

  // The text of the body is that of the tree, and it fits the limits once it is wrapped.
  ghost predicate Wrappable(rt: Runtime, text: string, t: Tree, scaled: string) {
    && Lex(rt, Body(rt, Trim(rt, text))) == Some(Flatten(t)) && WellFormed(rt, t)
    && 2 + Depth(t) <= Machine.MAX_DEPTH && ByteLength(scaled) <= Machine.MAX_SOURCE_LENGTH
  }

  lemma WrappedCompiles(rt: Runtime, text: string, t: Tree, mantissa: string, exponent: string, k: real)
    requires Faithful(rt) && Printed(rt, mantissa, exponent, k) && k != 1.0
    requires Lex(rt, Body(rt, Trim(rt, text))) == Some(Flatten(t)) && WellFormed(rt, t)
    ensures var scaled := Scale(rt, text, mantissa + exponent, k);
            && (Compile(rt, scaled).Ok? <==> Wrappable(rt, text, t, scaled))
            && (Compile(rt, scaled).Ok? ==> Compile(rt, scaled) == Ok(Scaled(t, mantissa + exponent, k)))
  {
    var source := Trim(rt, text);
    NoEmptySource(rt, source);
    ScaledText(rt, Body(rt, source), mantissa, exponent, k);
    LexScaled(rt, Body(rt, source), mantissa, exponent, k);
    ScaledTokens(t, mantissa + exponent, k);
    ScaledWellFormed(rt, t, mantissa + exponent, k);
    AcceptsOnly(rt, Scale(rt, text, mantissa + exponent, k), Scaled(t, mantissa + exponent, k));
  }

  lemma MiddleSame(a: seq<Token>, b: seq<Token>, c: seq<Token>, d: seq<Token>)
    requires a + b + d == a + c + d
    ensures b == c
  {
    assert |b| == |c|;
    forall i | 0 <= i < |b| ensures b[i] == c[i] {
      assert (a + b + d)[|a| + i] == b[i] && (a + c + d)[|a| + i] == c[i];
    }
  }

  // Only a body with the tokens of t is scaled to the product of t.
  lemma WrappedTokens(rt: Runtime, text: string, t: Tree, mantissa: string, exponent: string, k: real)
    requires Faithful(rt) && Printed(rt, mantissa, exponent, k) && k != 1.0
    requires Compile(rt, Scale(rt, text, mantissa + exponent, k)) == Ok(Scaled(t, mantissa + exponent, k))
    ensures Lex(rt, Body(rt, Trim(rt, text))) == Some(Flatten(t)) && WellFormed(rt, t)
  {
    var scaled := Scale(rt, text, mantissa + exponent, k);
    var body := Body(rt, Trim(rt, text));
    CompileAccepts(rt, scaled, Scaled(t, mantissa + exponent, k));
    ScaledTokens(t, mantissa + exponent, k);
    ScaledWellFormed(rt, t, mantissa + exponent, k);
    if Trim(rt, text) != "" {
      ScaledText(rt, body, mantissa, exponent, k);
      if Lex(rt, body).None? {
        LexScaledFails(rt, body, mantissa, exponent, k);
      } else {
        LexScaled(rt, body, mantissa, exponent, k);
        MiddleSame([Op("(")], Lex(rt, body).value, Flatten(t), [Op(")"), Op("*"), NumberToken(mantissa + exponent, k)]);
      }
    }
  }

  // Of every source whatever: its scaled form compiles to the product of a tree and k exactly if the
  // source's own tokens are those of that tree and the scaled form fits the limits. For a source within the
  // length limit that means exactly if the source compiles to the tree and the scaled form fits.
  lemma ScaledCompiles(rt: Runtime, text: string, t: Tree, mantissa: string, exponent: string, k: real)
    requires Faithful(rt) && Printed(rt, mantissa, exponent, k) && k != 1.0
    ensures var scaled := Scale(rt, text, mantissa + exponent, k);
            && (Compile(rt, scaled) == Ok(Scaled(t, mantissa + exponent, k)) <==> Wrappable(rt, text, t, scaled))
            && (Compile(rt, text) == Ok(t) && Compile(rt, scaled).Ok? ==> Compile(rt, scaled) == Ok(Scaled(t, mantissa + exponent, k)))
            && (ByteLength(Trim(rt, text)) <= Machine.MAX_SOURCE_LENGTH ==>
                  (Compile(rt, scaled) == Ok(Scaled(t, mantissa + exponent, k)) <==>
                   Compile(rt, text) == Ok(t) && 2 + Depth(t) <= Machine.MAX_DEPTH && ByteLength(scaled) <= Machine.MAX_SOURCE_LENGTH))
  {
    var scaled := Scale(rt, text, mantissa + exponent, k);
    CompileAccepts(rt, text, t);
    if Lex(rt, Body(rt, Trim(rt, text))) == Some(Flatten(t)) && WellFormed(rt, t) {
      WrappedCompiles(rt, text, t, mantissa, exponent, k);
    }
    if Compile(rt, scaled) == Ok(Scaled(t, mantissa + exponent, k)) {
      WrappedTokens(rt, text, t, mantissa, exponent, k);
    }
  }

  // A source with the tokens of a well-formed tree compiles to that tree or, beyond a limit, not at all.
  lemma AcceptsOnly(rt: Runtime, source: string, t: Tree)
    requires Trim(rt, source) == source && Lex(rt, Body(rt, source)) == Some(Flatten(t)) && WellFormed(rt, t)
    ensures Compile(rt, source).Ok? <==> 1 + Depth(t) <= Machine.MAX_DEPTH && ByteLength(source) <= Machine.MAX_SOURCE_LENGTH
    ensures Compile(rt, source).Ok? ==> Compile(rt, source) == Ok(t)
  {
    CompileAccepts(rt, source, t);
    if Compile(rt, source).Ok? {
      CompileAccepts(rt, source, Compile(rt, source).value);
      Unambiguous(rt, Compile(rt, source).value, t);
    }
  }

  lemma NoEmptySource(rt: Runtime, source: string)
    requires Body(rt, source) != ""
    ensures source != ""
  {
  }

  ghost predicate NoEnd(tokens: seq<Token>) { forall token :: token in tokens ==> !token.EndOfInput? }

  lemma {:induction false} FlattenNoEnd(t: Tree)
    ensures NoEnd(Flatten(t))
    decreases t, 1
  {
    match t
    case Paren(inner) => FlattenNoEnd(inner);
    case Prefix(_, operand) => FlattenNoEnd(operand);
    case Infix(_, left, right) =>
      FlattenNoEnd(left);
      FlattenNoEnd(right);
    case Choice(cond, yes, no) =>
      FlattenNoEnd(cond);
      FlattenNoEnd(yes);
      FlattenNoEnd(no);
    case Call(_, args) => FlattenArgsNoEnd(args);
    case _ =>
  }

  lemma {:induction false} FlattenArgsNoEnd(args: seq<Tree>)
    ensures NoEnd(FlattenArgs(args))
    decreases args, 0
  {
    if args != [] {
      FlattenNoEnd(args[0]);
      FlattenArgsNoEnd(args[1..]);
    }
  }

  // Two well-formed trees with the same tokens are one tree.
  lemma Unambiguous(rt: Runtime, a: Tree, b: Tree)
    requires WellFormed(rt, a) && WellFormed(rt, b) && Flatten(a) == Flatten(b)
    ensures a == b
  {
    var ts := Flatten(a) + [EndOfInput];
    FlattenNoEnd(a);
    var room := 1 + Max(Depth(a), Depth(b));
    FlattenLies(ts, 0, a);
    FlattenLies(ts, 0, b);
    ExpressionFound(rt, ts, 0, room, 0, a);
    ExpressionFound(rt, ts, 0, room, 0, b);
  }

  // -- Meaning ---------------------------------------------------------------------------

  // r is k times original: they fail together, match the same tier, and differ by the factor.
  ghost predicate Multiplied(r: Result<(real, string), EvalError>, original: Result<(real, string), EvalError>, k: real) {
    && (r.Ok? <==> original.Ok?)
    && (r.Ok? ==> r.value.0 == k * original.value.0 && r.value.1 == original.value.1)
  }

  lemma ProductScales(k: real, x: real)
    requires k > 0.0
    ensures x * k < 0.0 <==> x < 0.0
    ensures x * k / TOKENS_PER_MILLION == k * (x / TOKENS_PER_MILLION)
  {
  }

  lemma EvalProduct(rt: Runtime, env: Env, n: Node, k: real)
    ensures var r := Eval(rt, env, n, "");
            Eval(rt, env, BinaryNode("*", n, NumberLiteral(k)), "") ==
            if r.value.Err? then r
            else if r.value.value.Number? then Yield(Number(Product(r.value.value.number, k)), r.tier)
            else Evaluated(Err(WrongType), r.tier)
  {
    assert |"*"| == 1 && "*"[0] == '*' && "+"[0] == '+' && "-"[0] == '-';
    assert |"&&"| == |"||"| == |"=="| == |"!="| == 2;
    var r := Eval(rt, env, n, "");
    assert Eval(rt, env, NumberLiteral(k), r.tier) == Yield(Number(k), r.tier);
  }

  lemma ProductMeans(rt: Runtime, env: Env, n: Node, k: real)
    requires k > 0.0
    ensures Multiplied(EvalUSD(rt, env, BinaryNode("*", n, NumberLiteral(k))), EvalUSD(rt, env, n), k)
  {
    var r := Eval(rt, env, n, "");
    EvalProduct(rt, env, n, k);
    if r.value.Ok? && r.value.value.Number? {
      ProductScales(k, r.value.value.number);
    }
  }

  // Scaling preserves meaning. For an original that compiles and a positive multiplier: the scaled
  // source compiles exactly when it fits the limits, and then refers to the same variables and is
  // worth k times the original in every environment.
  lemma ScalingPreservesMeaning(rt: Runtime, text: string, t: Tree, mantissa: string, exponent: string, k: real, env: Env)
    requires Faithful(rt) && Printed(rt, mantissa, exponent, k) && k > 0.0
    requires Compile(rt, text) == Ok(t)
    ensures var scaled := Scale(rt, text, mantissa + exponent, k);
            var r := Compile(rt, scaled);
            && (r.Ok? <==> k == 1.0 || (2 + Depth(t) <= Machine.MAX_DEPTH && ByteLength(scaled) <= Machine.MAX_SOURCE_LENGTH))
            && (r.Ok? ==> SameProgram(rt, env, r.value, t, k))
  {
    if k == 1.0 {
      Unscaled(rt, text);
      assert EvalUSD(rt, env, Erase(rt, t)).Ok? ==> 1.0 * EvalUSD(rt, env, Erase(rt, t)).value.0 == EvalUSD(rt, env, Erase(rt, t)).value.0;
    } else {
      CompileAccepts(rt, text, t);
      WrappedCompiles(rt, text, t, mantissa, exponent, k);
      ScaledSame(rt, env, t, mantissa + exponent, k);
    }
  }

  // The scaled tree refers to the same variables as the original and is worth k times as much.
  ghost predicate SameProgram(rt: Runtime, env: Env, scaled: Tree, t: Tree, k: real) {
    && Vars(Erase(rt, scaled)) == Vars(Erase(rt, t))
    && Multiplied(EvalUSD(rt, env, Erase(rt, scaled)), EvalUSD(rt, env, Erase(rt, t)), k)
  }

  lemma ScaledSame(rt: Runtime, env: Env, t: Tree, printed: string, k: real)
    requires k > 0.0
    ensures SameProgram(rt, env, Scaled(t, printed, k), t, k)
  {
    var n := Erase(rt, t);
    assert Erase(rt, Paren(t)) == n;
    assert Erase(rt, Scaled(t, printed, k)) == BinaryNode("*", n, NumberLiteral(k));
    assert Vars(NumberLiteral(k)) == {};
    ProductMeans(rt, env, n, k);
  }

  lemma Unscaled(rt: Runtime, text: string)
    ensures Compile(rt, Trim(rt, text)) == Compile(rt, text)
  {
    TrimIdempotent(rt, text);
    TrimIdempotent(rt, Trim(rt, text));
  }

  // -- What scaling does to a source that does not compile --------------------------------

  const BROKEN := "1)+(1"

  // "1)+(1" lexes, but closes a parenthesis before it opens one.
  lemma BrokenTokens(rt: Runtime)
    requires Faithful(rt) && Printed(rt, "1", "", 1.0)
    ensures Lex(rt, BROKEN) == Some([NumberToken("1", 1.0), Op(")"), Op("+"), Op("("), NumberToken("1", 1.0)])
  {
    var one := NumberToken("1", 1.0);
    var open := ['('] + "1";
    var plus := ['+'] + open;
    var close := [')'] + plus;
    assert "1" + "" == "1" && BROKEN == "1" + close;
    LexPrinted(rt, "1", "", 1.0);
    LexOperator(rt, '(', "1");
    LexOperator(rt, '+', open);
    LexOperator(rt, ')', plus);
    LexBefore(rt, "1", close);
    PrefixedFive(one, Op(")"), Op("+"), Op("("), one);
  }

  lemma PrefixedFive(a: Token, b: Token, c: Token, d: Token, e: Token)
    ensures Prefixed([a], Prefixed([b], Prefixed([c], Prefixed([d], Some([e]))))) == Some([a, b, c, d, e])
  {
    PrefixedThree(c, d, e);
    assert [a] + ([b] + [c, d, e]) == [a, b, c, d, e];
  }

  lemma BrokenFails(rt: Runtime, ts: seq<Token>)
    requires Terminated(ts) && |ts| > 2 && ts[0] == NumberToken("1", 1.0) && ts[1] == Op(")")
    ensures ParseAll(rt, ts) == Err(UnexpectedToken)
  {
    var one := Numeral("1", 1.0);
    assert ts[1].text == ")" && Precedence(")") == 0;
    assert ParseUnary(rt, ts, 0, 63) == Ok(Found(one, 1));
    assert ParseLoop(rt, ts, 1, 63, 0, one) == Ok(Found(one, 1));
    assert ParseExpression(rt, ts, 0, 64, 0) == Ok(Found(one, 1));
  }

  lemma {:induction false} ByteLengthBounded(s: string)
    ensures ByteLength(s) <= 4 * |s|
  {
    if s != "" { ByteLengthBounded(s[1..]); }
  }

  // (1) + (1) * k, as the grammar reads it.
  function Repaired(printed: string, k: real): Tree {
    Infix("+", Paren(Numeral("1", 1.0)), Infix("*", Paren(Numeral("1", 1.0)), Numeral(printed, k)))
  }

  lemma RepairedTokens(rt: Runtime, printed: string, k: real)
    ensures WellFormed(rt, Repaired(printed, k)) && Depth(Repaired(printed, k)) == 2
    ensures Flatten(Repaired(printed, k)) ==
      [Op("(")] + [NumberToken("1", 1.0), Op(")"), Op("+"), Op("("), NumberToken("1", 1.0)] + [Op(")"), Op("*"), NumberToken(printed, k)]
  {
    var one := Paren(Numeral("1", 1.0));
    assert Flatten(Numeral("1", 1.0)) == [NumberToken("1", 1.0)];
    assert Flatten(one) == [Op("("), NumberToken("1", 1.0), Op(")")];
    var product := Infix("*", one, Numeral(printed, k));
    assert Flatten(product) == [Op("("), NumberToken("1", 1.0), Op(")"), Op("*"), NumberToken(printed, k)];
    assert Depth(one) == 1 && Depth(Numeral(printed, k)) == 0;
    assert WellFormed(rt, product) && Depth(product) == 1;
  }

  lemma BodyOfTrimmed(rt: Runtime, source: string)
    requires Trimmed(rt, source) && source != "" && source[0] != 'v'
    ensures Trim(rt, source) == source && Body(rt, source) == source
  {
    TrimIdempotent(rt, source);
    assert "v1:"[0] == 'v';
  }

  lemma BrokenCompiles(rt: Runtime)
    requires Faithful(rt) && Printed(rt, "1", "", 1.0)
    ensures Body(rt, Trim(rt, BROKEN)) == BROKEN && Compile(rt, BROKEN).Err?
  {
    assert BROKEN[0] == '1' && BROKEN[4] == '1';
    BodyOfTrimmed(rt, BROKEN);
    BrokenTokens(rt);
    FailsToParse(rt, BROKEN, Lex(rt, BROKEN).value);
  }

  lemma FailsToParse(rt: Runtime, source: string, tokens: seq<Token>)
    requires Body(rt, Trim(rt, source)) == source && Lex(rt, source) == Some(tokens)
    requires |tokens| > 1 && tokens[0] == NumberToken("1", 1.0) && tokens[1] == Op(")")
    ensures Compile(rt, source).Err?
  {
    BrokenFails(rt, tokens + [EndOfInput]);
  }

  // Scaling does not reflect errors, so the premise above is needed: the parentheses it adds may
  // repair a body that does not compile, and the result is then not a product.
  lemma ScalingRepairs(rt: Runtime, printed: string, k: real)
    requires Faithful(rt) && Printed(rt, "1", "", 1.0) && Printed(rt, printed, "", k) && k != 1.0 && |printed| < 100
    ensures Compile(rt, BROKEN).Err?
    ensures Compile(rt, Scale(rt, BROKEN, printed, k)) == Ok(Repaired(printed, k))
  {
    var scaled := Scale(rt, BROKEN, printed, k);
    BrokenCompiles(rt);
    BrokenTokens(rt);
    NoEmptySource(rt, Trim(rt, BROKEN));
    assert printed + "" == printed;
    ScaledText(rt, BROKEN, printed, "", k);
    LexScaled(rt, BROKEN, printed, "", k);
    RepairedTokens(rt, printed, k);
    ByteLengthBounded(scaled);
    AcceptsOnly(rt, scaled, Repaired(printed, k));
  }
}
