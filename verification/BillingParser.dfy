/** The precedence-climbing parser as a function from token positions to concrete trees. It
    accepts exactly the grammar: what it returns is well formed and stands for the tokens it
    consumed, and every well-formed tree that fits the depth limit is found again. */
module BillingParser {
  import opened Wrappers
  import opened BillingLexer
  import opened BillingSyntax

  datatype ParseError =
    | TooDeep | UnexpectedEnd | UnexpectedToken | Expected(text: string)
    | UnknownVariable(name: string) | UnknownFunction(name: string) | WrongArguments(name: string)

  // A tree and the position after it.
  datatype Found = Found(tree: Tree, pos: nat)
  datatype FoundArgs = FoundArgs(args: seq<Tree>, pos: nat)

  // The lexer's output: an end marker in the last place and nowhere else.
  predicate Terminated(ts: seq<Token>) {
    && |ts| > 0 && ts[|ts| - 1].EndOfInput?
    && forall i :: 0 <= i < |ts| - 1 ==> !ts[i].EndOfInput?
  }

  predicate Ahead(ts: seq<Token>, pos: nat, r: Result<Found, ParseError>) {
    r.Ok? ==> pos < r.value.pos < |ts|
  }

  // parseExpression. room is how many more levels may be entered.
  function ParseExpression(rt: Runtime, ts: seq<Token>, pos: nat, room: nat, min: nat): (r: Result<Found, ParseError>)
    requires Terminated(ts) && pos < |ts|
    ensures Ahead(ts, pos, r)
    decreases |ts| - pos, 3
  {
    if room == 0 then Err(TooDeep)
    else match ParseUnary(rt, ts, pos, room - 1)
      case Err(e) => Err(e)
      case Ok(left) => ParseLoop(rt, ts, left.pos, room - 1, min, left.tree)
  }

  function ParseLoop(rt: Runtime, ts: seq<Token>, pos: nat, room: nat, min: nat, left: Tree): (r: Result<Found, ParseError>)
    requires Terminated(ts) && pos < |ts|
    ensures r.Ok? ==> pos <= r.value.pos < |ts|
    decreases |ts| - pos, 4
  {
    if !ts[pos].OperatorToken? then Ok(Found(left, pos))
    else if ts[pos].text == "?" && min == 0 then
      match ParseExpression(rt, ts, pos + 1, room, 0)
      case Err(e) => Err(e)
      case Ok(yes) =>
        if ts[yes.pos] != Op(":") then Err(Expected(":"))
        else match ParseExpression(rt, ts, yes.pos + 1, room, 0)
          case Err(e) => Err(e)
          case Ok(no) => ParseLoop(rt, ts, no.pos, room, min, Choice(left, yes.tree, no.tree))
    else if Precedence(ts[pos].text) <= min then Ok(Found(left, pos))
    else match ParseExpression(rt, ts, pos + 1, room, Precedence(ts[pos].text))
      case Err(e) => Err(e)
      case Ok(right) => ParseLoop(rt, ts, right.pos, room, min, Infix(ts[pos].text, left, right.tree))
  }

  function ParseUnary(rt: Runtime, ts: seq<Token>, pos: nat, room: nat): (r: Result<Found, ParseError>)
    requires Terminated(ts) && pos < |ts|
    ensures Ahead(ts, pos, r)
    decreases |ts| - pos, 2
  {
    if ts[pos] == Op("-") || ts[pos] == Op("!") then
      if room == 0 then Err(TooDeep)
      else match ParseUnary(rt, ts, pos + 1, room - 1)
        case Err(e) => Err(e)
        case Ok(operand) => Ok(Found(Prefix(ts[pos].text, operand.tree), operand.pos))
    else ParsePrimary(rt, ts, pos, room)
  }

  function ParsePrimary(rt: Runtime, ts: seq<Token>, pos: nat, room: nat): (r: Result<Found, ParseError>)
    requires Terminated(ts) && pos < |ts|
    ensures Ahead(ts, pos, r)
    decreases |ts| - pos, 1
  {
    match ts[pos]
    case EndOfInput => Err(UnexpectedEnd)
    case NumberToken(text, value) => Ok(Found(Numeral(text, value), pos + 1))
    case StringToken(text) => Ok(Found(Quoted(text), pos + 1))
    case IdentToken(text) =>
      if text == "true" || text == "false" then Ok(Found(Word(text), pos + 1))
      else if ts[pos + 1] == Op("(") then ParseCall(rt, ts, pos + 2, room, text)
      else if KnownWord(rt, text) then Ok(Found(Word(text), pos + 1))
      else Err(UnknownVariable(text))
    case OperatorToken(text) =>
      if text != "(" then Err(UnexpectedToken)
      else match ParseExpression(rt, ts, pos + 1, room, 0)
        case Err(e) => Err(e)
        case Ok(inner) => if ts[inner.pos] == Op(")") then Ok(Found(Paren(inner.tree), inner.pos + 1)) else Err(Expected(")"))
  }

  function ParseCall(rt: Runtime, ts: seq<Token>, pos: nat, room: nat, name: string): (r: Result<Found, ParseError>)
    requires Terminated(ts) && pos < |ts|
    ensures Ahead(ts, pos, r)
    decreases |ts| - pos, 6
  {
    if FunctionArity(name).None? then Err(UnknownFunction(name))
    else
      var parsed := if ts[pos] == Op(")") then Ok(FoundArgs([], pos + 1)) else ParseArgs(rt, ts, pos, room);
      match parsed
      case Err(e) => Err(e)
      case Ok(found) =>
        if LegalCall(rt, name, EraseAll(rt, found.args)) then Ok(Found(Call(name, found.args), found.pos)) else Err(WrongArguments(name))
  }

  // One or more arguments, up to and including the closing parenthesis.
  function ParseArgs(rt: Runtime, ts: seq<Token>, pos: nat, room: nat): (r: Result<FoundArgs, ParseError>)
    requires Terminated(ts) && pos < |ts|
    ensures r.Ok? ==> pos < r.value.pos < |ts|
    decreases |ts| - pos, 5
  {
    match ParseExpression(rt, ts, pos, room, 0)
    case Err(e) => Err(e)
    case Ok(arg) =>
      if ts[arg.pos] == Op(")") then Ok(FoundArgs([arg.tree], arg.pos + 1))
      else if ts[arg.pos] != Op(",") then Err(Expected(","))
      else match ParseArgs(rt, ts, arg.pos + 1, room)
        case Err(e) => Err(e)
        case Ok(rest) => Ok(FoundArgs([arg.tree] + rest.args, rest.pos))
  }

  // -- Soundness -------------------------------------------------------------------------

  // The token after an expression: one that the loop reading operators tighter than min leaves alone.
  predicate Stops(token: Token, min: nat) {
    token.OperatorToken? ==> !(token.text == "?" && min == 0) && Precedence(token.text) <= min
  }

  ghost predicate Sound(rt: Runtime, ts: seq<Token>, start: nat, room: nat, found: Found) {
    && start < found.pos < |ts|
    && WellFormed(rt, found.tree)
    && ts[start..found.pos] == Flatten(found.tree)
    && Depth(found.tree) <= room
  }

  // What ParseExpression returns is a well-formed tree over exactly the consumed tokens, at most as
  // deep as the room allows, binding tighter than min, and followed by a token the loop stops at.
  lemma {:induction false} ExpressionSound(rt: Runtime, ts: seq<Token>, pos: nat, room: nat, min: nat)
    requires Terminated(ts) && pos < |ts|
    ensures var r := ParseExpression(rt, ts, pos, room, min);
            r.Ok? ==> room > 0 && Sound(rt, ts, pos, room - 1, r.value) && Binds(r.value.tree, min) && Stops(ts[r.value.pos], min)
    decreases |ts| - pos, 3
  {
    if room > 0 {
      UnarySound(rt, ts, pos, room - 1);
      var left := ParseUnary(rt, ts, pos, room - 1);
      if left.Ok? { LoopSound(rt, ts, pos, left.value.pos, room - 1, min, left.value.tree); }
    }
  }

  // The token after the left operand cannot bind into it.
  predicate Closed(left: Tree, token: Token) {
    match left
    case Infix(op, _, _) => Stops(token, Precedence(op))
    case Choice(_, _, _) => Stops(token, 0)
    case _ => true
  }

  ghost predicate LoopHolds(rt: Runtime, ts: seq<Token>, start: nat, room: nat, min: nat, r: Result<Found, ParseError>) {
    r.Ok? ==> Sound(rt, ts, start, room, r.value) && Binds(r.value.tree, min) && Stops(ts[r.value.pos], min)
  }

  lemma {:induction false} LoopSound(rt: Runtime, ts: seq<Token>, start: nat, pos: nat, room: nat, min: nat, left: Tree)
    requires Terminated(ts) && Sound(rt, ts, start, room, Found(left, pos)) && Binds(left, min) && Closed(left, ts[pos])
    ensures LoopHolds(rt, ts, start, room, min, ParseLoop(rt, ts, pos, room, min, left))
    decreases |ts| - pos, 5
  {
    if ts[pos].OperatorToken? {
      if ts[pos].text == "?" && min == 0 {
        LoopChoiceSound(rt, ts, start, pos, room, left);
      } else if Precedence(ts[pos].text) > min {
        LoopInfixSound(rt, ts, start, pos, room, min, left);
      }
    }
  }

  lemma {:induction false} LoopInfixSound(rt: Runtime, ts: seq<Token>, start: nat, pos: nat, room: nat, min: nat, left: Tree)
    requires Terminated(ts) && Sound(rt, ts, start, room, Found(left, pos)) && Closed(left, ts[pos])
    requires ts[pos].OperatorToken? && Precedence(ts[pos].text) > min
    ensures LoopHolds(rt, ts, start, room, min, ParseLoop(rt, ts, pos, room, min, left))
    decreases |ts| - pos, 4
  {
    var op := ts[pos].text;
    ExpressionSound(rt, ts, pos + 1, room, Precedence(op));
    var right := ParseExpression(rt, ts, pos + 1, room, Precedence(op));
    if right.Ok? {
      InfixSound(rt, ts, start, pos, room, left, right.value);
      LoopSound(rt, ts, start, right.value.pos, room, min, Infix(op, left, right.value.tree));
    }
  }

  lemma {:induction false} LoopChoiceSound(rt: Runtime, ts: seq<Token>, start: nat, pos: nat, room: nat, left: Tree)
    requires Terminated(ts) && Sound(rt, ts, start, room, Found(left, pos)) && Closed(left, ts[pos]) && ts[pos] == Op("?")
    ensures LoopHolds(rt, ts, start, room, 0, ParseLoop(rt, ts, pos, room, 0, left))
    decreases |ts| - pos, 4
  {
    ExpressionSound(rt, ts, pos + 1, room, 0);
    var yes := ParseExpression(rt, ts, pos + 1, room, 0);
    if yes.Ok? && ts[yes.value.pos] == Op(":") {
      LoopElseSound(rt, ts, start, pos, room, left, yes.value);
    }
  }

  lemma {:induction false} LoopElseSound(rt: Runtime, ts: seq<Token>, start: nat, pos: nat, room: nat, left: Tree, yes: Found)
    requires Terminated(ts) && Sound(rt, ts, start, room, Found(left, pos)) && Closed(left, ts[pos]) && ts[pos] == Op("?")
    requires room > 0 && ParseExpression(rt, ts, pos + 1, room, 0) == Ok(yes) && Sound(rt, ts, pos + 1, room - 1, yes)
        && ts[yes.pos] == Op(":")
    ensures LoopHolds(rt, ts, start, room, 0, ParseLoop(rt, ts, pos, room, 0, left))
    decreases |ts| - pos, 3
  {
    ExpressionSound(rt, ts, yes.pos + 1, room, 0);
    var no := ParseExpression(rt, ts, yes.pos + 1, room, 0);
    if no.Ok? {
      ChoiceSound(rt, ts, start, pos, room, left, yes, no.value);
      LoopSound(rt, ts, start, no.value.pos, room, 0, Choice(left, yes.tree, no.value.tree));
    }
  }

  lemma {:induction false} InfixSound(rt: Runtime, ts: seq<Token>, start: nat, pos: nat, room: nat, left: Tree, right: Found)
    requires Sound(rt, ts, start, room, Found(left, pos)) && Closed(left, ts[pos]) && ts[pos].OperatorToken?
    requires room > 0 && Precedence(ts[pos].text) > 0 && Sound(rt, ts, pos + 1, room - 1, right) && Binds(right.tree,
        Precedence(ts[pos].text))
    ensures Sound(rt, ts, start, room, Found(Infix(ts[pos].text, left, right.tree), right.pos))
  {
    assert ts[start..right.pos] == ts[start..pos] + [ts[pos]] + ts[pos + 1..right.pos];
  }

  lemma {:induction false} ChoiceSound(rt: Runtime, ts: seq<Token>, start: nat, pos: nat, room: nat, left: Tree, yes: Found, no: Found)
    requires Sound(rt, ts, start, room, Found(left, pos)) && Closed(left, ts[pos]) && ts[pos] == Op("?") && room > 0
    requires Sound(rt, ts, pos + 1, room - 1, yes) && ts[yes.pos] == Op(":") && Sound(rt, ts, yes.pos + 1, room - 1, no)
    ensures Sound(rt, ts, start, room, Found(Choice(left, yes.tree, no.tree), no.pos))
  {
    assert ts[start..no.pos] == ts[start..pos] + [ts[pos]] + ts[pos + 1..yes.pos] + [ts[yes.pos]] + ts[yes.pos + 1..no.pos];
  }

  lemma {:induction false} UnarySound(rt: Runtime, ts: seq<Token>, pos: nat, room: nat)
    requires Terminated(ts) && pos < |ts|
    ensures var r := ParseUnary(rt, ts, pos, room);
            r.Ok? ==> Sound(rt, ts, pos, room, r.value) && !r.value.tree.Infix? && !r.value.tree.Choice?
    decreases |ts| - pos, 2
  {
    if ts[pos] == Op("-") || ts[pos] == Op("!") {
      if room > 0 {
        UnarySound(rt, ts, pos + 1, room - 1);
        var operand := ParseUnary(rt, ts, pos + 1, room - 1);
        if operand.Ok? { assert ts[pos..operand.value.pos] == [ts[pos]] + ts[pos + 1..operand.value.pos]; }
      }
    } else {
      PrimarySound(rt, ts, pos, room);
    }
  }

  lemma {:induction false} ParenSound(rt: Runtime, ts: seq<Token>, pos: nat, room: nat, inner: Found)
    requires Terminated(ts) && pos < |ts| && ts[pos] == Op("(") && room > 0 && Sound(rt, ts, pos + 1, room - 1, inner)
        && ts[inner.pos] == Op(")")
    ensures Sound(rt, ts, pos, room, Found(Paren(inner.tree), inner.pos + 1))
  {
    assert ts[pos..inner.pos + 1] == [Op("(")] + ts[pos + 1..inner.pos] + [Op(")")];
  }

  lemma CallFlat(ts: seq<Token>, pos: nat, name: string, found: Found)
    requires pos + 2 < found.pos < |ts| && ts[pos] == IdentToken(name) && ts[pos + 1] == Op("(")
    requires found.tree.Call? && found.tree.name == name && ts[pos + 2..found.pos] == FlattenArgs(found.tree.args) + [Op(")")]
    ensures ts[pos..found.pos] == Flatten(found.tree)
  {
    assert ts[pos..found.pos] == [IdentToken(name), Op("(")] + ts[pos + 2..found.pos];
  }

  lemma {:induction false} PrimarySound(rt: Runtime, ts: seq<Token>, pos: nat, room: nat)
    requires Terminated(ts) && pos < |ts|
    ensures var r := ParsePrimary(rt, ts, pos, room);
            r.Ok? ==> Sound(rt, ts, pos, room, r.value) && !r.value.tree.Infix? && !r.value.tree.Choice?
    decreases |ts| - pos, 1
  {
    match ts[pos]
    case IdentToken(text) =>
      if text != "true" && text != "false" && ts[pos + 1] == Op("(") {
        CallSound(rt, ts, pos + 2, room, text);
        var r := ParseCall(rt, ts, pos + 2, room, text);
        if r.Ok? { CallFlat(ts, pos, text, r.value); }
      }
    case OperatorToken(text) =>
      if text == "(" {
        ExpressionSound(rt, ts, pos + 1, room, 0);
        var inner := ParseExpression(rt, ts, pos + 1, room, 0);
        if inner.Ok? && ts[inner.value.pos] == Op(")") { ParenSound(rt, ts, pos, room, inner.value); }
      }
    case _ =>
  }

  lemma {:induction false} CallSound(rt: Runtime, ts: seq<Token>, pos: nat, room: nat, name: string)
    requires Terminated(ts) && pos < |ts|
    ensures var r := ParseCall(rt, ts, pos, room, name);
            r.Ok? ==> && r.value.tree.Call? && r.value.tree.name == name && WellFormed(rt, r.value.tree) && Depth(r.value.tree) <= room
                      && pos < r.value.pos < |ts| && ts[pos..r.value.pos] == FlattenArgs(r.value.tree.args) + [Op(")")]
    decreases |ts| - pos, 6
  {
    if FunctionArity(name).Some? {
      if ts[pos] == Op(")") {
        assert ts[pos..pos + 1] == [] + [Op(")")];
      } else {
        ArgsSound(rt, ts, pos, room);
      }
    }
  }

  // The consumed tokens are well-formed arguments and the parenthesis that closes them.
  ghost predicate SoundArgs(rt: Runtime, ts: seq<Token>, start: nat, room: nat, found: FoundArgs) {
    && start < found.pos <= |ts|
    && found.args != [] && WellFormedArgs(rt, found.args) && DepthArgs(found.args) <= room
    && ts[start..found.pos] == FlattenArgs(found.args) + [Op(")")]
  }

  lemma {:induction false} ArgsJoined(rt: Runtime, ts: seq<Token>, pos: nat, room: nat, arg: Found, rest: FoundArgs)
    requires room > 0 && Sound(rt, ts, pos, room - 1, arg) && ts[arg.pos] == Op(",")
    requires SoundArgs(rt, ts, arg.pos + 1, room, rest)
    ensures SoundArgs(rt, ts, pos, room, FoundArgs([arg.tree] + rest.args, rest.pos))
  {
    assert ts[pos..rest.pos] == ts[pos..arg.pos] + [Op(",")] + ts[arg.pos + 1..rest.pos];
    assert ([arg.tree] + rest.args)[1..] == rest.args;
  }

  lemma {:induction false} ArgsClosed(rt: Runtime, ts: seq<Token>, pos: nat, room: nat, arg: Found)
    requires room > 0 && Sound(rt, ts, pos, room - 1, arg) && ts[arg.pos] == Op(")")
    ensures SoundArgs(rt, ts, pos, room, FoundArgs([arg.tree], arg.pos + 1))
  {
    assert ts[pos..arg.pos + 1] == ts[pos..arg.pos] + [Op(")")];
  }

  lemma {:induction false} ArgsSound(rt: Runtime, ts: seq<Token>, pos: nat, room: nat)
    requires Terminated(ts) && pos < |ts|
    ensures var r := ParseArgs(rt, ts, pos, room);
            r.Ok? ==> SoundArgs(rt, ts, pos, room, r.value)
    decreases |ts| - pos, 5
  {
    ExpressionSound(rt, ts, pos, room, 0);
    var arg := ParseExpression(rt, ts, pos, room, 0);
    if arg.Ok? {
      var p := arg.value.pos;
      if ts[p] == Op(")") {
        ArgsClosed(rt, ts, pos, room, arg.value);
      } else if ts[p] == Op(",") {
        ArgsSound(rt, ts, p + 1, room);
        var rest := ParseArgs(rt, ts, p + 1, room);
        if rest.Ok? {
          ArgsJoined(rt, ts, pos, room, arg.value, rest.value);
        }
      }
    }
  }

  // -- Completeness ----------------------------------------------------------------------

  // The number of tokens of a tree; of an argument list with its closing parenthesis.
  function Size(t: Tree): (n: nat)
    ensures n > 0
  {
    match t
    case Paren(inner) => Size(inner) + 2
    case Prefix(_, operand) => Size(operand) + 1
    case Infix(_, left, right) => Size(left) + 1 + Size(right)
    case Choice(cond, yes, no) => Size(cond) + 1 + Size(yes) + 1 + Size(no)
    case Call(_, args) => 2 + SizeArgs(args)
    case _ => 1
  }

  function SizeArgs(args: seq<Tree>): nat {
    if args == [] then 1
    else if |args| == 1 then Size(args[0]) + 1
    else Size(args[0]) + 1 + SizeArgs(args[1..])
  }

  // The tokens of t lie in ts from pos on, and at least one more token follows them.
  predicate Lies(ts: seq<Token>, pos: nat, t: Tree)
    decreases t
  {
    && pos + Size(t) < |ts|
    && match t
       case Numeral(text, value) => ts[pos] == NumberToken(text, value)
       case Quoted(text) => ts[pos] == StringToken(text)
       case Word(text) => ts[pos] == IdentToken(text)
       case Paren(inner) => ts[pos] == Op("(") && Lies(ts, pos + 1, inner) && ts[pos + 1 + Size(inner)] == Op(")")
       case Prefix(op, operand) => ts[pos] == Op(op) && Lies(ts, pos + 1, operand)
       case Infix(op, left, right) => Lies(ts, pos, left) && ts[pos + Size(left)] == Op(op) && Lies(ts, pos + Size(left) + 1, right)
       case Choice(cond, yes, no) =>
         && Lies(ts, pos, cond) && ts[pos + Size(cond)] == Op("?") && Lies(ts, pos + Size(cond) + 1, yes)
         && ts[pos + Size(cond) + 1 + Size(yes)] == Op(":") && Lies(ts, pos + Size(cond) + 1 + Size(yes) + 1, no)
       case Call(name, args) => ts[pos] == IdentToken(name) && ts[pos + 1] == Op("(") && LieArgs(ts, pos + 2, args)
  }

  predicate LieArgs(ts: seq<Token>, pos: nat, args: seq<Tree>)
    decreases args
  {
    && pos + SizeArgs(args) < |ts|
    && if args == [] then ts[pos] == Op(")")
       else if |args| == 1 then Lies(ts, pos, args[0]) && ts[pos + Size(args[0])] == Op(")")
       else Lies(ts, pos, args[0]) && ts[pos + Size(args[0])] == Op(",") && LieArgs(ts, pos + Size(args[0]) + 1, args[1..])
  }

  // ts holds tokens from pos on, and at least one more token.
  ghost predicate At(ts: seq<Token>, pos: nat, tokens: seq<Token>) {
    pos + |tokens| < |ts| && forall i {:trigger tokens[i]} :: 0 <= i < |tokens| ==> ts[pos + i] == tokens[i]
  }

  lemma AtSplit(ts: seq<Token>, pos: nat, a: seq<Token>, b: seq<Token>)
    requires At(ts, pos, a + b)
    ensures At(ts, pos, a) && At(ts, pos + |a|, b)
  {
    forall i | 0 <= i < |a| ensures ts[pos + i] == a[i] { assert (a + b)[i] == a[i]; }
    forall i | 0 <= i < |b| ensures ts[pos + |a| + i] == b[i] { assert (a + b)[|a| + i] == b[i]; }
  }

  lemma AtSandwich(ts: seq<Token>, pos: nat, a: seq<Token>, b: Token, c: seq<Token>)
    requires At(ts, pos, a + [b] + c)
    ensures At(ts, pos, a) && ts[pos + |a|] == b && At(ts, pos + |a| + 1, c)
  {
    AtSplit(ts, pos, a + [b], c);
    AtSplit(ts, pos, a, [b]);
    assert [b][0] == b;
  }

  lemma {:induction false} FlattenLies(ts: seq<Token>, pos: nat, t: Tree)
    requires At(ts, pos, Flatten(t))
    ensures Lies(ts, pos, t) && |Flatten(t)| == Size(t)
    decreases t, 1
  {
    match t
    case Paren(inner) =>
      assert [] + [Op("(")] + (Flatten(inner) + [Op(")")]) == Flatten(t);
      AtSandwich(ts, pos, [], Op("("), Flatten(inner) + [Op(")")]);
      AtSplit(ts, pos + 1, Flatten(inner), [Op(")")]);
      FlattenLies(ts, pos + 1, inner);
      assert [Op(")")][0] == Op(")");
    case Prefix(op, operand) =>
      assert [] + [Op(op)] + Flatten(operand) == Flatten(t);
      AtSandwich(ts, pos, [], Op(op), Flatten(operand));
      FlattenLies(ts, pos + 1, operand);
    case Infix(op, left, right) =>
      AtSandwich(ts, pos, Flatten(left), Op(op), Flatten(right));
      FlattenLies(ts, pos, left);
      FlattenLies(ts, pos + Size(left) + 1, right);
    case Choice(_, _, _) => FlattenChoiceLies(ts, pos, t);
    case Call(_, _) => FlattenCallLies(ts, pos, t);
    case _ => assert Flatten(t)[0] == Flatten(t)[0];
  }

  lemma {:induction false} FlattenChoiceLies(ts: seq<Token>, pos: nat, t: Tree)
    requires t.Choice? && At(ts, pos, Flatten(t))
    ensures Lies(ts, pos, t) && |Flatten(t)| == Size(t)
    decreases t, 0
  {
    AtSandwich(ts, pos, Flatten(t.cond) + [Op("?")] + Flatten(t.yes), Op(":"), Flatten(t.no));
    AtSandwich(ts, pos, Flatten(t.cond), Op("?"), Flatten(t.yes));
    FlattenLies(ts, pos, t.cond);
    FlattenLies(ts, pos + Size(t.cond) + 1, t.yes);
    FlattenLies(ts, pos + Size(t.cond) + 1 + Size(t.yes) + 1, t.no);
  }

  lemma {:induction false} FlattenCallLies(ts: seq<Token>, pos: nat, t: Tree)
    requires t.Call? && At(ts, pos, Flatten(t))
    ensures Lies(ts, pos, t) && |Flatten(t)| == Size(t)
    decreases t, 0
  {
    var tail := FlattenArgs(t.args) + [Op(")")];
    assert [IdentToken(t.name)] + [Op("(")] + tail == Flatten(t);
    AtSandwich(ts, pos, [IdentToken(t.name)], Op("("), tail);
    assert [IdentToken(t.name)][0] == IdentToken(t.name);
    FlattenArgsLie(ts, pos + 2, t.args);
  }

  lemma {:induction false} FlattenArgsLie(ts: seq<Token>, pos: nat, args: seq<Tree>)
    requires At(ts, pos, FlattenArgs(args) + [Op(")")])
    ensures LieArgs(ts, pos, args) && |FlattenArgs(args)| + 1 == SizeArgs(args)
    decreases args, 0
  {
    assert [Op(")")][0] == Op(")");
    if |args| <= 1 {
      AtSplit(ts, pos, FlattenArgs(args), [Op(")")]);
      if |args| == 1 { FlattenLies(ts, pos, args[0]); }
    } else {
      var rest := FlattenArgs(args[1..]) + [Op(")")];
      assert FlattenArgs(args) + [Op(")")] == Flatten(args[0]) + [Op(",")] + rest;
      AtSandwich(ts, pos, Flatten(args[0]), Op(","), rest);
      FlattenLies(ts, pos, args[0]);
      FlattenArgsLie(ts, pos + Size(args[0]) + 1, args[1..]);
    }
  }

  // The token after an expression that was read with this minimum precedence: the loop stops at
  // it and it does not turn a trailing word into a call.
  predicate Follows(token: Token, min: nat) { Stops(token, min) && token != Op("(") }

  // The smallest operand a tree begins with: what parseUnary reads before the loop starts.
  function Head(t: Tree): Tree {
    match t
    case Infix(_, left, _) => Head(left)
    case Choice(cond, _, _) => Head(cond)
    case _ => t
  }

  // From pos, parseUnary reads the first operand of t, and the loop goes on from there to t as a whole.
  ghost predicate Reaches(rt: Runtime, ts: seq<Token>, pos: nat, room: nat, min: nat, t: Tree, end: nat) {
    && Terminated(ts) && pos < |ts| && end < |ts|
    && var head := ParseUnary(rt, ts, pos, room);
       head.Ok? && head.value.tree == Head(t)
       && ParseLoop(rt, ts, head.value.pos, room, min, Head(t)) == ParseLoop(rt, ts, end, room, min, t)
  }

  lemma ReachedIsFound(rt: Runtime, ts: seq<Token>, pos: nat, room: nat, min: nat, t: Tree, end: nat)
    requires Reaches(rt, ts, pos, room, min, t, end) && Stops(ts[end], min)
    ensures ParseExpression(rt, ts, pos, room + 1, min) == Ok(Found(t, end))
  {
  }

  // A well-formed tree laid out at pos, no deeper than the room.
  ghost predicate Fits(rt: Runtime, ts: seq<Token>, pos: nat, room: nat, t: Tree) {
    Terminated(ts) && WellFormed(rt, t) && Depth(t) <= room && Lies(ts, pos, t)
  }

  lemma {:induction false} ExpressionFound(rt: Runtime, ts: seq<Token>, pos: nat, room: nat, min: nat, t: Tree)
    requires room > 0 && Fits(rt, ts, pos, room - 1, t) && Binds(t, min) && Follows(ts[pos + Size(t)], min)
    ensures ParseExpression(rt, ts, pos, room, min) == Ok(Found(t, pos + Size(t)))
    decreases t, 3
  {
    LoopFound(rt, ts, pos, room - 1, min, t);
    ReachedIsFound(rt, ts, pos, room - 1, min, t, pos + Size(t));
  }

  // From the first operand the loop reaches the whole tree, whatever minimum it binds tighter than.
  lemma {:induction false} LoopFound(rt: Runtime, ts: seq<Token>, pos: nat, room: nat, min: nat, t: Tree)
    requires Fits(rt, ts, pos, room, t) && Binds(t, min)
    requires Closed(t, ts[pos + Size(t)]) && ts[pos + Size(t)] != Op("(")
    ensures Reaches(rt, ts, pos, room, min, t, pos + Size(t))
    decreases t, 2
  {
    match t
    case Infix(op, left, right) => InfixFound(rt, ts, pos, room, min, t);
    case Choice(cond, yes, no) => ChoiceFound(rt, ts, pos, room, t);
    case _ => UnaryFound(rt, ts, pos, room, t);
  }

  lemma {:induction false} InfixFits(rt: Runtime, ts: seq<Token>, pos: nat, room: nat, min: nat, t: Tree)
    requires t.Infix? && Fits(rt, ts, pos, room, t) && Binds(t, min)
    requires Closed(t, ts[pos + Size(t)]) && ts[pos + Size(t)] != Op("(")
    ensures Fits(rt, ts, pos, room, t.left) && Binds(t.left, min) && ts[pos + Size(t.left)] == Op(t.op) != Op("(")
    ensures Precedence(t.op) > min && Closed(t.left, Op(t.op))
    ensures room > 0 && Fits(rt, ts, pos + Size(t.left) + 1, room - 1, t.right) && Binds(t.right, Precedence(t.op))
    ensures Follows(ts[pos + Size(t)], Precedence(t.op)) && pos + Size(t.left) + 1 + Size(t.right) == pos + Size(t)
  {
  }

  lemma {:induction false} InfixFound(rt: Runtime, ts: seq<Token>, pos: nat, room: nat, min: nat, t: Tree)
    requires t.Infix? && Fits(rt, ts, pos, room, t) && Binds(t, min)
    requires Closed(t, ts[pos + Size(t)]) && ts[pos + Size(t)] != Op("(")
    ensures Reaches(rt, ts, pos, room, min, t, pos + Size(t))
    decreases t, 1
  {
    InfixFits(rt, ts, pos, room, min, t);
    LoopFound(rt, ts, pos, room, min, t.left);
    ExpressionFound(rt, ts, pos + Size(t.left) + 1, room, Precedence(t.op), t.right);
    InfixTurn(rt, ts, pos, pos + Size(t.left), room, min, t.left, Found(t.right, pos + Size(t)));
  }

  lemma {:induction false} ChoiceFound(rt: Runtime, ts: seq<Token>, pos: nat, room: nat, t: Tree)
    requires t.Choice? && Fits(rt, ts, pos, room, t) && Follows(ts[pos + Size(t)], 0)
    ensures Reaches(rt, ts, pos, room, 0, t, pos + Size(t))
    decreases t, 1
  {
    var ask := pos + Size(t.cond);
    ChoiceFits(rt, ts, pos, room, t);
    LoopFound(rt, ts, pos, room, 0, t.cond);
    BranchesFound(rt, ts, pos, room, t);
    ChoiceTurn(rt, ts, pos, ask, room, t.cond, Found(t.yes, ask + 1 + Size(t.yes)), Found(t.no, pos + Size(t)));
  }

  lemma {:induction false} ChoiceFits(rt: Runtime, ts: seq<Token>, pos: nat, room: nat, t: Tree)
    requires t.Choice? && Fits(rt, ts, pos, room, t) && Follows(ts[pos + Size(t)], 0)
    ensures var ask := pos + Size(t.cond);
            var colon := ask + 1 + Size(t.yes);
            && room > 0 && Fits(rt, ts, ask + 1, room - 1, t.yes) && ts[colon] == Op(":") && Follows(ts[colon], 0)
            && Fits(rt, ts, colon + 1, room - 1, t.no) && colon + 1 + Size(t.no) == pos + Size(t)
            && Fits(rt, ts, pos, room, t.cond) && Binds(t.cond, 0) && ts[ask] == Op("?") && Closed(t.cond, ts[ask])
  {
  }

  lemma {:induction false} BranchesFound(rt: Runtime, ts: seq<Token>, pos: nat, room: nat, t: Tree)
    requires t.Choice? && Fits(rt, ts, pos, room, t) && Follows(ts[pos + Size(t)], 0)
    ensures var ask := pos + Size(t.cond);
            var colon := ask + 1 + Size(t.yes);
            && ParseExpression(rt, ts, ask + 1, room, 0) == Ok(Found(t.yes, colon))
            && ParseExpression(rt, ts, colon + 1, room, 0) == Ok(Found(t.no, pos + Size(t)))
    decreases t, 0
  {
    ChoiceFits(rt, ts, pos, room, t);
    ExpressionFound(rt, ts, pos + Size(t.cond) + 1, room, 0, t.yes);
    ExpressionFound(rt, ts, pos + Size(t.cond) + 1 + Size(t.yes) + 1, room, 0, t.no);
  }

  // One turn of the loop.
  lemma InfixTurn(rt: Runtime, ts: seq<Token>, pos: nat, middle: nat, room: nat, min: nat, left: Tree, right: Found)
    requires Reaches(rt, ts, pos, room, min, left, middle) && ts[middle].OperatorToken? && Precedence(ts[middle].text) > min
    requires ParseExpression(rt, ts, middle + 1, room, Precedence(ts[middle].text)) == Ok(right)
    ensures Reaches(rt, ts, pos, room, min, Infix(ts[middle].text, left, right.tree), right.pos)
  {
  }

  lemma ChoiceTurn(rt: Runtime, ts: seq<Token>, pos: nat, ask: nat, room: nat, left: Tree, yes: Found, no: Found)
    requires Reaches(rt, ts, pos, room, 0, left, ask) && ts[ask] == Op("?")
    requires ParseExpression(rt, ts, ask + 1, room, 0) == Ok(yes) && ts[yes.pos] == Op(":")
    requires ParseExpression(rt, ts, yes.pos + 1, room, 0) == Ok(no)
    ensures Reaches(rt, ts, pos, room, 0, Choice(left, yes.tree, no.tree), no.pos)
  {
  }

  lemma {:induction false} UnaryFound(rt: Runtime, ts: seq<Token>, pos: nat, room: nat, t: Tree)
    requires Fits(rt, ts, pos, room, t) && !t.Infix? && !t.Choice? && ts[pos + Size(t)] != Op("(")
    ensures ParseUnary(rt, ts, pos, room) == Ok(Found(t, pos + Size(t)))
    decreases t, 1
  {
    match t
    case Prefix(op, operand) => UnaryFound(rt, ts, pos + 1, room - 1, operand);
    case Paren(inner) => ParenFound(rt, ts, pos, room, t);
    case Call(name, args) =>
      assert name != "true" && name != "false";
      CallFound(rt, ts, pos + 2, room, t);
    case _ =>
  }

  lemma {:induction false} ParenFound(rt: Runtime, ts: seq<Token>, pos: nat, room: nat, t: Tree)
    requires t.Paren? && Fits(rt, ts, pos, room, t)
    ensures ParsePrimary(rt, ts, pos, room) == Ok(Found(t, pos + Size(t)))
    decreases t, 0
  {
    ExpressionFound(rt, ts, pos + 1, room, 0, t.inner);
  }

  lemma {:induction false} CallFound(rt: Runtime, ts: seq<Token>, pos: nat, room: nat, t: Tree)
    requires Terminated(ts) && t.Call? && WellFormed(rt, t) && Depth(t) <= room && LieArgs(ts, pos, t.args)
    ensures ParseCall(rt, ts, pos, room, t.name) == Ok(Found(t, pos + SizeArgs(t.args)))
    decreases t.args, 5
  {
    if t.args != [] {
      NotCloser(rt, ts, pos, t.args[0]);
      ArgsFound(rt, ts, pos, room, t.args);
    }
  }

  // No expression begins with a closing parenthesis.
  lemma {:induction false} NotCloser(rt: Runtime, ts: seq<Token>, pos: nat, t: Tree)
    requires WellFormed(rt, t) && Lies(ts, pos, t)
    ensures ts[pos] != Op(")")
  {
    match t
    case Infix(_, left, _) => NotCloser(rt, ts, pos, left);
    case Choice(cond, _, _) => NotCloser(rt, ts, pos, cond);
    case _ =>
  }

  lemma {:induction false} ArgsFit(rt: Runtime, ts: seq<Token>, pos: nat, room: nat, args: seq<Tree>)
    requires Terminated(ts) && args != [] && WellFormedArgs(rt, args) && DepthArgs(args) <= room && LieArgs(ts, pos, args)
    ensures room > 0 && Fits(rt, ts, pos, room - 1, args[0]) && Binds(args[0], 0) && Follows(ts[pos + Size(args[0])], 0)
    ensures pos + Size(args[0]) + 1 < |ts|
    ensures |args| > 1 ==> ts[pos + Size(args[0])] == Op(",") && WellFormedArgs(rt, args[1..]) && DepthArgs(args[1..]) <= room
                           && LieArgs(ts, pos + Size(args[0]) + 1, args[1..])
    ensures |args| == 1 ==> ts[pos + Size(args[0])] == Op(")")
  {
  }

  // Parsing arguments, given what parsing the first one and the others finds.
  lemma ArgsRead(rt: Runtime, ts: seq<Token>, pos: nat, room: nat, args: seq<Tree>)
    requires Terminated(ts) && args != [] && pos + Size(args[0]) + 1 < |ts|
    requires ParseExpression(rt, ts, pos, room, 0) == Ok(Found(args[0], pos + Size(args[0])))
    requires if |args| == 1 then ts[pos + Size(args[0])] == Op(")")
             else ts[pos + Size(args[0])] == Op(",") && ParseArgs(rt, ts, pos + Size(args[0]) + 1, room) ==
                  Ok(FoundArgs(args[1..], pos + Size(args[0]) + 1 + SizeArgs(args[1..])))
    ensures ParseArgs(rt, ts, pos, room) == Ok(FoundArgs(args, pos + SizeArgs(args)))
  {
    if |args| == 1 {
      assert args == [args[0]];
    } else {
      assert [args[0]] + args[1..] == args;
    }
  }

  lemma {:induction false} ArgsFound(rt: Runtime, ts: seq<Token>, pos: nat, room: nat, args: seq<Tree>)
    requires Terminated(ts) && args != [] && WellFormedArgs(rt, args) && DepthArgs(args) <= room && LieArgs(ts, pos, args)
    ensures ParseArgs(rt, ts, pos, room) == Ok(FoundArgs(args, pos + SizeArgs(args)))
    decreases args, 4
  {
    ArgsFit(rt, ts, pos, room, args);
    ExpressionFound(rt, ts, pos, room, 0, args[0]);
    if |args| > 1 { ArgsFound(rt, ts, pos + Size(args[0]) + 1, room, args[1..]); }
    ArgsRead(rt, ts, pos, room, args);
  }
}
