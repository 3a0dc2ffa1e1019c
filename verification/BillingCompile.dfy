/** Compilation of pricing expressions: the parser with its mutable position, depth and variable
    set, and Compile, which accepts exactly the sources whose tokens are a well-formed tree. */
module BillingCompile {
  import opened Wrappers
  import opened BillingLexer
  import opened BillingSyntax
  import Spec = BillingParser
  import opened BillingParser

  const MAX_SOURCE_LENGTH: nat := 4096
  const MAX_DEPTH: nat := 64

  // What a parsing method returns and leaves behind, against what the parsing function finds.
  ghost predicate Agrees(rt: Runtime, spec: Result<Found, ParseError>, r: Result<Node, ParseError>, pos: nat,
      before: set<string>, after: set<string>) {
    match spec
    case Err(e) => r == Err(e)
    case Ok(found) => r == Ok(Erase(rt, found.tree)) && pos == found.pos && after == before + Vars(Erase(rt, found.tree))
  }

  function AfterArgs(done: seq<Tree>, r: Result<FoundArgs, ParseError>): Result<FoundArgs, ParseError> {
    match r
    case Err(e) => Err(e)
    case Ok(found) => Ok(FoundArgs(done + found.args, found.pos))
  }

  lemma {:induction false} AppendArg(rt: Runtime, args: seq<Tree>, last: Tree)
    ensures EraseAll(rt, args + [last]) == EraseAll(rt, args) + [Erase(rt, last)]
    ensures VarsOf(EraseAll(rt, args + [last])) == VarsOf(EraseAll(rt, args)) + Vars(Erase(rt, last))
  {
    var all := args + [last];
    if args == [] {
      assert all[1..] == [];
    } else {
      assert all[0] == args[0] && all[1..] == args[1..] + [last];
      AppendArg(rt, args[1..], last);
      assert EraseAll(rt, all)[1..] == EraseAll(rt, all[1..]) && EraseAll(rt, args)[1..] == EraseAll(rt, args[1..]);
    }
  }

  lemma ArgsTurn(rt: Runtime, ts: seq<Token>, pos: nat, room: nat, done: seq<Tree>, first: Found)
    requires Terminated(ts) && pos < |ts| && Spec.ParseExpression(rt, ts, pos, room, 0) == Ok(first)
    ensures var whole := AfterArgs(done, Spec.ParseArgs(rt, ts, pos, room));
            if ts[first.pos] == Op(")") then whole == Ok(FoundArgs(done + [first.tree], first.pos + 1))
            else if ts[first.pos] != Op(",") then whole == Err(Expected(","))
            else whole == AfterArgs(done + [first.tree], Spec.ParseArgs(rt, ts, first.pos + 1, room))
  {
    if ts[first.pos] == Op(",") {
      var rest := Spec.ParseArgs(rt, ts, first.pos + 1, room);
      if rest.Ok? { assert done + ([first.tree] + rest.value.args) == done + [first.tree] + rest.value.args; }
    }
  }

  lemma ChoiceErased(rt: Runtime, cond: Tree, yes: Tree, no: Tree)
    ensures Erase(rt, Choice(cond, yes, no)) == TernaryNode(Erase(rt, cond), Erase(rt, yes), Erase(rt, no))
  {
  }

  class Parser {
    const rt: Runtime
    const tokens: seq<Token>
    var pos: nat
    var depth: nat
    var uses: set<string>

    // The parser never stands past the end marker.
    predicate Valid()
      reads this
    {
      Terminated(tokens) && pos < |tokens| && depth <= MAX_DEPTH
    }

    constructor (rt: Runtime, tokens: seq<Token>)
      requires Terminated(tokens)
      ensures Valid() && this.rt == rt && this.tokens == tokens && pos == 0 && depth == 0 && uses == {}
    {
      this.rt, this.tokens, pos, depth, uses := rt, tokens, 0, 0, {};
    }

    method Next() returns (current: Token)
      requires Valid()
      modifies this`pos
      ensures Valid() && current == tokens[old(pos)]
      ensures pos == if current.EndOfInput? then old(pos) else old(pos) + 1
    {
      current := tokens[pos];
      if !current.EndOfInput? { pos := pos + 1; }
    }

    method AcceptOperator(text: string) returns (accepted: bool)
      requires Valid()
      modifies this`pos
      ensures Valid() && accepted == (tokens[old(pos)] == Op(text))
      ensures pos == if accepted then old(pos) + 1 else old(pos)
    {
      accepted := tokens[pos] == Op(text);
      if accepted { pos := pos + 1; }
    }

    method ParseExpression(min: nat) returns (r: Result<Node, ParseError>)
      requires Valid()
      modifies this`pos, this`depth, this`uses
      ensures Valid() && depth == old(depth)
      ensures Agrees(rt, Spec.ParseExpression(rt, tokens, old(pos), MAX_DEPTH - old(depth), min), r, pos, old(uses), uses)
      decreases |tokens| - pos, 3
    {
      if depth + 1 > MAX_DEPTH { return Err(TooDeep); }
      depth := depth + 1;
      ghost var first := Spec.ParseUnary(rt, tokens, pos, MAX_DEPTH - depth);
      r := ParseUnary();
      if r.Ok? {
        ghost var tree := first.value.tree;
        ghost var whole := Spec.ParseLoop(rt, tokens, pos, MAX_DEPTH - depth, min, tree);
        var reading := true;
        while reading
          invariant Valid() && depth == old(depth) + 1 && (r.Ok? ==> old(pos) < pos)
          invariant r.Ok? ==> r.value == Erase(rt, tree) && uses == old(uses) + Vars(r.value)
          invariant r.Ok? ==> Spec.ParseLoop(rt, tokens, pos, MAX_DEPTH - depth, min, tree) == whole
          invariant r.Err? ==> !reading && whole == Err(r.error)
          invariant !reading && r.Ok? ==> whole == Ok(Found(tree, pos))
          decreases reading, |tokens| - pos
        {
          var current := tokens[pos];
          if current.OperatorToken? && current.text == "?" && min == 0 {
            r, tree := ParseBranches(r.value, tree);
            reading := r.Ok?;
          } else if current.OperatorToken? && Precedence(current.text) > min {
            r, tree := ParseOperand(min, r.value, tree);
            reading := r.Ok?;
          } else {
            reading := false;
          }
        }
      }
      depth := depth - 1;
    }

    // The rest of a conditional, from its question mark on.
    method ParseBranches(cond: Node, ghost tree: Tree) returns (r: Result<Node, ParseError>, ghost next: Tree)
      requires Valid() && tokens[pos] == Op("?") && cond == Erase(rt, tree) && Vars(cond) <= uses
      modifies this`pos, this`depth, this`uses
      ensures Valid() && depth == old(depth)
      ensures var whole := Spec.ParseLoop(rt, tokens, old(pos), MAX_DEPTH - depth, 0, tree);
              match r
              case Err(e) => whole == Err(e)
              case Ok(node) => old(pos) < pos && node == Erase(rt, next) && Vars(cond) <= Vars(node) && uses == old(uses) + Vars(node)
                               && Spec.ParseLoop(rt, tokens, pos, MAX_DEPTH - depth, 0, next) == whole
      decreases |tokens| - pos, 4
    {
      next := tree;
      var question := Next();
      ghost var yesSpec := Spec.ParseExpression(rt, tokens, pos, MAX_DEPTH - depth, 0);
      var yes := ParseExpression(0);
      if yes.Err? { return Err(yes.error), tree; }
      var colon := AcceptOperator(":");
      if !colon { return Err(Expected(":")), tree; }
      ghost var noSpec := Spec.ParseExpression(rt, tokens, pos, MAX_DEPTH - depth, 0);
      var no := ParseExpression(0);
      if no.Err? { return Err(no.error), tree; }
      next := Choice(tree, yesSpec.value.tree, noSpec.value.tree);
      ChoiceErased(rt, tree, yesSpec.value.tree, noSpec.value.tree);
      r := Ok(TernaryNode(cond, yes.value, no.value));
    }

    // The rest of a binary operation, from its operator on.
    method ParseOperand(min: nat, left: Node, ghost tree: Tree) returns (r: Result<Node, ParseError>, ghost next: Tree)
      requires Valid() && tokens[pos].OperatorToken? && Precedence(tokens[pos].text) > min && left == Erase(rt, tree) && Vars(left) <= uses
      modifies this`pos, this`depth, this`uses
      ensures Valid() && depth == old(depth)
      ensures var whole := Spec.ParseLoop(rt, tokens, old(pos), MAX_DEPTH - depth, min, tree);
              match r
              case Err(e) => whole == Err(e)
              case Ok(node) => old(pos) < pos && node == Erase(rt, next) && Vars(left) <= Vars(node) && uses == old(uses) + Vars(node)
                               && Spec.ParseLoop(rt, tokens, pos, MAX_DEPTH - depth, min, next) == whole
      decreases |tokens| - pos, 4
    {
      next := tree;
      var op := Next();
      ghost var spec := Spec.ParseExpression(rt, tokens, pos, MAX_DEPTH - depth, Precedence(op.text));
      var right := ParseExpression(Precedence(op.text));
      if right.Err? { return Err(right.error), tree; }
      next := Infix(op.text, tree, spec.value.tree);
      r := Ok(BinaryNode(op.text, left, right.value));
    }

    method ParseUnary() returns (r: Result<Node, ParseError>)
      requires Valid()
      modifies this`pos, this`depth, this`uses
      ensures Valid() && depth == old(depth)
      ensures Agrees(rt, Spec.ParseUnary(rt, tokens, old(pos), MAX_DEPTH - old(depth)), r, pos, old(uses), uses)
      decreases |tokens| - pos, 2
    {
      var op := tokens[pos];
      var accepted := AcceptOperator("-");
      if !accepted { accepted := AcceptOperator("!"); }
      if accepted {
        if depth + 1 > MAX_DEPTH { return Err(TooDeep); }
        depth := depth + 1;
        var operand := ParseUnary();
        depth := depth - 1;
        r := if operand.Err? then operand else Ok(UnaryNode(op.text, operand.value));
      } else {
        r := ParsePrimary();
      }
    }

    method ParsePrimary() returns (r: Result<Node, ParseError>)
      requires Valid()
      modifies this`pos, this`depth, this`uses
      ensures Valid() && depth == old(depth)
      ensures Agrees(rt, Spec.ParsePrimary(rt, tokens, old(pos), MAX_DEPTH - old(depth)), r, pos, old(uses), uses)
      decreases |tokens| - pos, 1
    {
      var current := Next();
      match current
      case EndOfInput => r := Err(UnexpectedEnd);
      case NumberToken(_, value) => r := Ok(NumberLiteral(value));
      case StringToken(text) => r := Ok(TextLiteral(text));
      case IdentToken(text) =>
        if text == "true" { return Ok(FlagLiteral(true)); }
        if text == "false" { return Ok(FlagLiteral(false)); }
        var call := AcceptOperator("(");
        if call {
          r := ParseCall(text);
          return;
        }
        var canonical := CanonicalName(rt, text);
        if canonical in rt.numberVars {
          uses := uses + {canonical};
          return Ok(NumberVar(canonical));
        }
        if canonical in rt.stringVars {
          uses := uses + {canonical};
          return Ok(StringVar(canonical));
        }
        r := Err(UnknownVariable(text));
      case OperatorToken(text) =>
        if text == "(" {
          r := ParseExpression(0);
          if r.Err? { return; }
          var closed := AcceptOperator(")");
          if !closed { r := Err(Expected(")")); }
        } else {
          r := Err(UnexpectedToken);
        }
    }

    method ParseCall(name: string) returns (r: Result<Node, ParseError>)
      requires Valid()
      modifies this`pos, this`depth, this`uses
      ensures Valid() && depth == old(depth)
      ensures Agrees(rt, Spec.ParseCall(rt, tokens, old(pos), MAX_DEPTH - old(depth), name), r, pos, old(uses), uses)
      decreases |tokens| - pos, 6
    {
      var arity := FunctionArity(name);
      if arity.None? { return Err(UnknownFunction(name)); }
      var args: seq<Node> := [];
      var empty := AcceptOperator(")");
      if !empty {
        var parsed := ParseArgs();
        if parsed.Err? { return Err(parsed.error); }
        args := parsed.value;
      }
      if !(arity.value.min <= |args| <= arity.value.max) { return Err(WrongArguments(name)); }
      if name in CLOCK_FUNCTIONS && |args| == 1 && !(args[0].TextLiteral? && rt.zone(args[0].text)) {
        return Err(WrongArguments(name));
      }
      r := Ok(CallNode(name, args));
    }

    // The arguments of a call, up to and including the closing parenthesis.
    method ParseArgs() returns (r: Result<seq<Node>, ParseError>)
      requires Valid()
      modifies this`pos, this`depth, this`uses
      ensures Valid() && depth == old(depth)
      ensures match Spec.ParseArgs(rt, tokens, old(pos), MAX_DEPTH - depth)
              case Err(e) => r == Err(e)
              case Ok(found) =>
                  r == Ok(EraseAll(rt, found.args)) && pos == found.pos && uses == old(uses) + VarsOf(EraseAll(rt, found.args))
      decreases |tokens| - pos, 5
    {
      var args: seq<Node> := [];
      ghost var trees: seq<Tree> := [];
      ghost var whole := Spec.ParseArgs(rt, tokens, pos, MAX_DEPTH - depth);
      assert whole.Ok? ==> [] + whole.value.args == whole.value.args;
      var reading := true;
      while reading
        invariant Valid() && depth == old(depth) && old(pos) <= pos
        invariant args == EraseAll(rt, trees) && uses == old(uses) + VarsOf(args)
        invariant reading ==> AfterArgs(trees, Spec.ParseArgs(rt, tokens, pos, MAX_DEPTH - depth)) == whole
        invariant !reading ==> whole == Ok(FoundArgs(trees, pos))
        decreases reading, |tokens| - pos
      {
        ghost var tree: Tree;
        var arg;
        arg, tree, reading := ParseArg(trees);
        if arg.Err? { return Err(arg.error); }
        AppendArg(rt, trees, tree);
        args := args + [arg.value];
        trees := trees + [tree];
      }
      r := Ok(args);
    }

    // One argument and the token after it, which says whether another one follows.
    method ParseArg(ghost trees: seq<Tree>) returns (r: Result<Node, ParseError>, ghost tree: Tree, more: bool)
      requires Valid()
      modifies this`pos, this`depth, this`uses
      ensures Valid() && depth == old(depth)
      ensures var whole := AfterArgs(trees, Spec.ParseArgs(rt, tokens, old(pos), MAX_DEPTH - depth));
              match r
              case Err(e) => whole == Err(e)
              case Ok(node) =>
                && node == Erase(rt, tree) && old(pos) < pos && uses == old(uses) + Vars(node)
                && whole == if more then AfterArgs(trees + [tree], Spec.ParseArgs(rt, tokens, pos,
                    MAX_DEPTH - depth)) else Ok(FoundArgs(trees + [tree], pos))
      decreases |tokens| - pos, 4
    {
      ghost var spec := Spec.ParseExpression(rt, tokens, pos, MAX_DEPTH - depth, 0);
      tree, more := Word(""), false;
      r := ParseExpression(0);
      if r.Err? { return; }
      tree := spec.value.tree;
      ArgsTurn(rt, tokens, old(pos), MAX_DEPTH - depth, trees, spec.value);
      var closed := AcceptOperator(")");
      if closed { return; }
      more := AcceptOperator(",");
      if !more { r := Err(Expected(",")); }
    }
  }
}
