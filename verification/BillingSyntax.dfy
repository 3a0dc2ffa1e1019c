/** The pricing expression language: its functions and operators, its trees and its grammar. The grammar is stated
    over concrete trees, which keep the grouping parentheses that evaluation trees drop. */
module BillingSyntax {
  import opened Wrappers
  import opened BillingLexer

  // -- Names and operators ---------------------------------------------------------------

  datatype Arity = Arity(min: nat, max: nat)

  // How many arguments a function takes; None for a name that is not a function.
  function FunctionArity(name: string): Option<Arity> {
    if name in CLOCK_FUNCTIONS then Some(Arity(0, 1))
    else if name == "min" || name == "max" then Some(Arity(1, 16))
    else if name in UNARY_FUNCTIONS then Some(Arity(1, 1))
    else if name == "tier" || name == "contains" || name == "has" then Some(Arity(2, 2))
    else None
  }

  const UNARY_FUNCTIONS: set<string> := {"abs", "ceil", "floor", "round", "usd", "fixed", "u", "s", "param"}

  const CLOCK_FUNCTIONS: set<string> := {"hour", "minute", "weekday", "month", "day"}

  function CanonicalName(rt: Runtime, name: string): string { if name in rt.aliases then rt.aliases[name] else name }

  // 0 for what is not a binary operator.
  function Precedence(op: string): nat {
    if op == "||" then 1
    else if op == "&&" then 2
    else if op == "==" || op == "!=" then 3
    else if op == "<" || op == "<=" || op == ">" || op == ">=" then 4
    else if op == "+" || op == "-" then 5
    else if op == "*" || op == "/" then 6
    else 0
  }

  // -- Evaluation trees ------------------------------------------------------------------

  datatype Node =
    | NumberLiteral(number: real)
    | TextLiteral(text: string)
    | FlagLiteral(flag: bool)
    | NumberVar(name: string)
    | StringVar(name: string)
    | UnaryNode(op: string, operand: Node)
    | BinaryNode(op: string, left: Node, right: Node)
    | TernaryNode(cond: Node, whenTrue: Node, whenFalse: Node)
    | CallNode(callee: string, args: seq<Node>)

  // The variables a tree refers to.
  function Vars(n: Node): set<string> {
    match n
    case NumberVar(name) => {name}
    case StringVar(name) => {name}
    case UnaryNode(_, operand) => Vars(operand)
    case BinaryNode(_, left, right) => Vars(left) + Vars(right)
    case TernaryNode(cond, whenTrue, whenFalse) => Vars(cond) + Vars(whenTrue) + Vars(whenFalse)
    case CallNode(_, args) => VarsOf(args)
    case _ => {}
  }

  function VarsOf(args: seq<Node>): set<string> {
    if args == [] then {} else Vars(args[0]) + VarsOf(args[1..])
  }

  // -- Concrete trees --------------------------------------------------------------------

  datatype Tree =
    | Numeral(text: string, value: real)
    | Quoted(text: string)
    | Word(text: string)
    | Paren(inner: Tree)
    | Prefix(op: string, operand: Tree)
    | Infix(op: string, left: Tree, right: Tree)
    | Choice(cond: Tree, yes: Tree, no: Tree)
    | Call(name: string, args: seq<Tree>)

  function Op(text: string): Token { OperatorToken(text) }

  // The tokens a tree stands for, from left to right.
  function Flatten(t: Tree): (tokens: seq<Token>)
    ensures |tokens| > 0
  {
    match t
    case Numeral(text, value) => [NumberToken(text, value)]
    case Quoted(text) => [StringToken(text)]
    case Word(text) => [IdentToken(text)]
    case Paren(inner) => [Op("(")] + Flatten(inner) + [Op(")")]
    case Prefix(op, operand) => [Op(op)] + Flatten(operand)
    case Infix(op, left, right) => Flatten(left) + [Op(op)] + Flatten(right)
    case Choice(cond, yes, no) => Flatten(cond) + [Op("?")] + Flatten(yes) + [Op(":")] + Flatten(no)
    case Call(name, args) => [IdentToken(name), Op("(")] + FlattenArgs(args) + [Op(")")]
  }

  function FlattenArgs(args: seq<Tree>): seq<Token> {
    if args == [] then []
    else if |args| == 1 then Flatten(args[0])
    else Flatten(args[0]) + [Op(",")] + FlattenArgs(args[1..])
  }

  // The evaluation tree: grouping parentheses go, identifiers become constants or variables.
  function Erase(rt: Runtime, t: Tree): Node {
    match t
    case Numeral(_, value) => NumberLiteral(value)
    case Quoted(text) => TextLiteral(text)
    case Word(text) =>
      if text == "true" then FlagLiteral(true)
      else if text == "false" then FlagLiteral(false)
      else if CanonicalName(rt, text) in rt.numberVars then NumberVar(CanonicalName(rt, text))
      else StringVar(CanonicalName(rt, text))
    case Paren(inner) => Erase(rt, inner)
    case Prefix(op, operand) => UnaryNode(op, Erase(rt, operand))
    case Infix(op, left, right) => BinaryNode(op, Erase(rt, left), Erase(rt, right))
    case Choice(cond, yes, no) => TernaryNode(Erase(rt, cond), Erase(rt, yes), Erase(rt, no))
    case Call(name, args) => CallNode(name, EraseAll(rt, args))
  }

  function EraseAll(rt: Runtime, args: seq<Tree>): (nodes: seq<Node>)
    ensures |nodes| == |args|
  {
    if args == [] then [] else [Erase(rt, args[0])] + EraseAll(rt, args[1..])
  }

  function Max(a: nat, b: nat): nat { if a < b then b else a }

  // How many nested levels the parser enters below the one that reads the tree.
  function Depth(t: Tree): nat {
    match t
    case Paren(inner) => 1 + Depth(inner)
    case Prefix(_, operand) => 1 + Depth(operand)
    case Infix(_, left, right) => Max(Depth(left), 1 + Depth(right))
    case Choice(cond, yes, no) => Max(Depth(cond), Max(1 + Depth(yes), 1 + Depth(no)))
    case Call(_, args) => DepthArgs(args)
    case _ => 0
  }

  function DepthArgs(args: seq<Tree>): nat {
    if args == [] then 0 else Max(1 + Depth(args[0]), DepthArgs(args[1..]))
  }

  // -- Grammar ---------------------------------------------------------------------------

  // Whether a tree may appear, ungrouped, where operators must bind tighter than min.
  predicate Binds(t: Tree, min: nat) {
    match t
    case Infix(op, _, _) => Precedence(op) > min
    case Choice(_, _, _) => min == 0
    case _ => true
  }

  // Whether a tree may be the ungrouped left operand of an operator of this precedence.
  predicate BindsLeft(t: Tree, precedence: nat) {
    match t
    case Infix(op, _, _) => Precedence(op) >= precedence
    case Choice(_, _, _) => false
    case _ => true
  }

  predicate KnownWord(rt: Runtime, text: string) {
    text == "true" || text == "false" || CanonicalName(rt, text) in rt.numberVars || CanonicalName(rt, text) in rt.stringVars
  }

  // A call names a function, has as many arguments as it takes, and gives a clock function a
  // literal time zone that exists.
  predicate LegalCall(rt: Runtime, name: string, args: seq<Node>) {
    && FunctionArity(name).Some? && FunctionArity(name).value.min <= |args| <= FunctionArity(name).value.max
    && (name in CLOCK_FUNCTIONS && |args| == 1 ==> args[0].TextLiteral? && rt.zone(args[0].text))
  }

  // The grammar: tight operators group first, operators of one precedence group to the left, a
  // prefix operator takes the smallest operand, and ?: is the loosest.
  predicate WellFormed(rt: Runtime, t: Tree) {
    match t
    case Numeral(_, _) => true
    case Quoted(_) => true
    case Word(text) => KnownWord(rt, text)
    case Paren(inner) => WellFormed(rt, inner)
    case Prefix(op, operand) =>
      (op == "-" || op == "!") && WellFormed(rt, operand) && !operand.Infix? && !operand.Choice?
    case Infix(op, left, right) =>
      && Precedence(op) > 0 && WellFormed(rt, left) && WellFormed(rt, right)
      && BindsLeft(left, Precedence(op)) && Binds(right, Precedence(op))
    case Choice(cond, yes, no) =>
      WellFormed(rt, cond) && !cond.Choice? && WellFormed(rt, yes) && WellFormed(rt, no)
    case Call(name, args) => WellFormedArgs(rt, args) && LegalCall(rt, name, EraseAll(rt, args))
  }

  predicate WellFormedArgs(rt: Runtime, args: seq<Tree>) {
    args == [] || (WellFormed(rt, args[0]) && WellFormedArgs(rt, args[1..]))
  }
}
