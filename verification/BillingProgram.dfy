/** Compile: from source text to program. A source compiles exactly when the tokens of its body are
    those of a well-formed tree within the nesting limit, and that tree is the only one. */
module BillingProgram {
  import opened Wrappers
  import opened BillingLexer
  import opened BillingSyntax
  import opened BillingParser
  import Machine = BillingCompile

  // -- Source text -----------------------------------------------------------------------

  function TrimRight(rt: Runtime, s: string): string {
    if s != "" && rt.space(s[|s| - 1]) then TrimRight(rt, s[..|s| - 1]) else s
  }

  function Trim(rt: Runtime, s: string): string { TrimRight(rt, s[Span(s, 0, rt.space)..]) }

  predicate Trimmed(rt: Runtime, s: string) { s == "" || (!rt.space(s[0]) && !rt.space(s[|s| - 1])) }

  // The expression without one version prefix.
  function Body(rt: Runtime, source: string): string {
    Trim(rt, if "v1:" <= source then source[3..] else source)
  }

  // len of a Go string: bytes of its UTF-8 encoding.
  function ByteLength(s: string): nat {
    if s == "" then 0
    else
      (if s[0] < 0x80 as char then 1 else if s[0] < 0x800 as char then 2 else if s[0] < 0x1_0000 as char then 3 else 4)
        + ByteLength(s[1..])
  }

  lemma {:induction false} TrimRightTrimmed(rt: Runtime, s: string)
    requires s == "" || !rt.space(s[0])
    ensures Trimmed(rt, TrimRight(rt, s))
  {
    if s != "" && rt.space(s[|s| - 1]) { TrimRightTrimmed(rt, s[..|s| - 1]); }
  }

  // Trimming removes the surrounding spaces, all of them, and nothing once they are gone.
  lemma TrimIdempotent(rt: Runtime, s: string)
    ensures Trimmed(rt, Trim(rt, s))
    ensures Trimmed(rt, s) ==> Trim(rt, s) == s
  {
    TrimRightTrimmed(rt, s[Span(s, 0, rt.space)..]);
    assert s[0..] == s;
  }

  // -- Compilation -----------------------------------------------------------------------

  datatype CompileError = EmptySource | SourceTooLong | BadToken | BadSyntax(error: ParseError)

  // Tokens to a tree: the whole list has to be one expression.
  function ParseAll(rt: Runtime, ts: seq<Token>): (r: Result<Tree, ParseError>)
    requires Terminated(ts)
  {
    match ParseExpression(rt, ts, 0, Machine.MAX_DEPTH, 0)
    case Err(e) => Err(e)
    case Ok(found) => if ts[found.pos].EndOfInput? then Ok(found.tree) else Err(UnexpectedToken)
  }

  function Compile(rt: Runtime, text: string): (r: Result<Tree, CompileError>) {
    var source := Trim(rt, text);
    var body := Body(rt, source);
    if body == "" then Err(EmptySource)
    else if ByteLength(source) > Machine.MAX_SOURCE_LENGTH then Err(SourceTooLong)
    else CompileTokens(rt, Lex(rt, body))
  }

  function CompileTokens(rt: Runtime, lexed: Option<seq<Token>>): Result<Tree, CompileError>
    requires lexed.Some? ==> Terminated(lexed.value + [EndOfInput])
  {
    match lexed
    case None => Err(BadToken)
    case Some(tokens) =>
      match ParseAll(rt, tokens + [EndOfInput])
      case Err(e) => Err(BadSyntax(e))
      case Ok(tree) => Ok(tree)
  }

  // A tree a token list may be parsed into.
  ghost predicate Represents(rt: Runtime, tokens: seq<Token>, t: Tree) {
    tokens == Flatten(t) && WellFormed(rt, t) && 1 + Depth(t) <= Machine.MAX_DEPTH
  }

  // The parser accepts exactly the grammar, and the grammar is unambiguous.
  lemma ParseAllAccepts(rt: Runtime, tokens: seq<Token>, t: Tree)
    requires Terminated(tokens + [EndOfInput])
    ensures ParseAll(rt, tokens + [EndOfInput]) == Ok(t) <==> Represents(rt, tokens, t)
  {
    var ts := tokens + [EndOfInput];
    if ParseAll(rt, ts) == Ok(t) {
      ExpressionSound(rt, ts, 0, Machine.MAX_DEPTH, 0);
      assert ts[0..|tokens|] == tokens;
    }
    if Represents(rt, tokens, t) {
      forall i | 0 <= i < |Flatten(t)| ensures ts[0 + i] == Flatten(t)[i] {}
      FlattenLies(ts, 0, t);
      ExpressionFound(rt, ts, 0, Machine.MAX_DEPTH, 0, t);
    }
  }

  lemma CompileAccepts(rt: Runtime, text: string, t: Tree)
    ensures Compile(rt, text) == Ok(t) <==>
      var source := Trim(rt, text);
      && ByteLength(source) <= Machine.MAX_SOURCE_LENGTH
      && Lex(rt, Body(rt, source)).Some? && Represents(rt, Lex(rt, Body(rt, source)).value, t)
  {
    var body := Body(rt, Trim(rt, text));
    if Lex(rt, body).Some? { ParseAllAccepts(rt, Lex(rt, body).value, t); }
  }

  // Trimming takes away spaces on both sides and nothing else.
  lemma {:induction false} TrimRightTakes(rt: Runtime, s: string)
    ensures TrimRight(rt, s) <= s && forall i :: |TrimRight(rt, s)| <= i < |s| ==> rt.space(s[i])
  {
    if s != "" && rt.space(s[|s| - 1]) { TrimRightTakes(rt, s[..|s| - 1]); }
  }

  lemma TrimTakes(rt: Runtime, s: string)
    ensures exists a, b :: s == a + Trim(rt, s) + b && (forall c :: c in a + b ==> rt.space(c))
  {
    var start := Span(s, 0, rt.space);
    var rest := s[start..];
    TrimRightTakes(rt, rest);
    var a, b := s[..start], rest[|TrimRight(rt, rest)|..];
    assert s == a + Trim(rt, s) + b;
    forall c | c in a + b ensures rt.space(c) {
      var k :| 0 <= k < |a + b| && (a + b)[k] == c;
      if k < |a| { assert s[k] == c; } else { assert rest[|TrimRight(rt, rest)| + (k - |a|)] == c; }
    }
  }

  // A version prefix makes no difference to what a source compiles to, where both fit the length limit.
  lemma VersionPrefix(rt: Runtime, text: string)
    requires Faithful(rt) && text != "" && Trimmed(rt, text) && !("v1:" <= text)
    ensures ByteLength("v1:" + text) <= Machine.MAX_SOURCE_LENGTH && ByteLength(text) <= Machine.MAX_SOURCE_LENGTH
            ==> Compile(rt, "v1:" + text) == Compile(rt, text)
  {
    var long := "v1:" + text;
    assert "v1:"[0] == 'v' && long[0] == 'v' && long[|long| - 1] == text[|text| - 1] && long[3..] == text && long[..3] == "v1:";
    TrimIdempotent(rt, long);
    TrimIdempotent(rt, text);
    assert Body(rt, long) == text && Body(rt, text) == text;
  }

  // Lengths are those of UTF-8: they add up, and a character takes between one and four bytes, one if it is ASCII.
  lemma {:induction false} ByteLengthAdds(s: string, t: string)
    ensures ByteLength(s + t) == ByteLength(s) + ByteLength(t)
  {
    if s == "" {
      assert s + t == t;
    } else {
      assert (s + t)[1..] == s[1..] + t;
      ByteLengthAdds(s[1..], t);
    }
  }

  lemma ByteLengthOne(c: char)
    ensures 1 <= ByteLength([c]) <= 4
    ensures ByteLength([c]) == 1 <==> c as int < 128
    ensures ByteLength([c]) <= 2 <==> c as int < 2048
    ensures ByteLength([c]) <= 3 <==> c as int < 65536
  {
    assert [c][1..] == "";
  }

  // What a compiled program keeps of the tree.
  datatype Program = Program(source: string, root: Node, uses: set<string>)

  // -- The imperative compiler -----------------------------------------------------------

  // A program against the tree it was compiled from.
  ghost predicate Built(rt: Runtime, source: string, spec: Result<Tree, CompileError>, r: Result<Program, CompileError>) {
    match spec
    case Err(e) => r == Err(e)
    case Ok(tree) => r == Ok(Program(source, Erase(rt, tree), Vars(Erase(rt, tree))))
  }

  method BuildProgram(rt: Runtime, source: string, tokens: seq<Token>) returns (r: Result<Program, CompileError>)
    requires Terminated(tokens + [EndOfInput])
    ensures Built(rt, source, CompileTokens(rt, Some(tokens)), r)
  {
    var parser := new Machine.Parser(rt, tokens + [EndOfInput]);
    var root := parser.ParseExpression(0);
    if root.Err? { return Err(BadSyntax(root.error)); }
    assert parser.uses == Vars(root.value);
    if !parser.tokens[parser.pos].EndOfInput? { return Err(BadSyntax(UnexpectedToken)); }
    r := Ok(Program(source, root.value, parser.uses));
  }

  method CompileProgram(rt: Runtime, text: string) returns (r: Result<Program, CompileError>)
    ensures Built(rt, Trim(rt, text), Compile(rt, text), r)
  {
    var source := Trim(rt, text);
    var body := Body(rt, source);
    if body == "" { return Err(EmptySource); }
    if ByteLength(source) > Machine.MAX_SOURCE_LENGTH { return Err(SourceTooLong); }
    var lexed := LexAll(rt, body);
    if lexed.None? { return Err(BadToken); }
    ghost var tokens := Lex(rt, body).value;
    assert lexed.value[..|lexed.value| - 1] == tokens;
    r := BuildProgram(rt, source, lexed.value[..|lexed.value| - 1]);
  }
}
