/** Printing tokens and reading them back: a token list that is spelled with single spaces lexes to itself, so every
    well-formed tree has a source that compiles to it. */
module BillingPrinter {
  import opened Wrappers
  import opened BillingLexer
  import opened BillingSyntax
  import opened BillingProgram
  import Machine = BillingCompile

  predicate Digit(c: char) { '0' <= c <= '9' }

  predicate WordStart(c: char) { 'a' <= c <= 'z' || 'A' <= c <= 'Z' || c == '_' }

  // Tokens with a plain ASCII spelling. A string may not contain both kinds of quote.
  predicate Spellable(rt: Runtime, token: Token) {
    match token
    case EndOfInput => false
    case NumberToken(text, value) =>
      text != "" && Digit(text[0]) && (forall i :: 0 <= i < |text| ==> Digit(text[i]) || text[i] == '.')
          && rt.parseFloat(text) == Some(value)
    case StringToken(text) => '"' !in text || '\'' !in text
    case IdentToken(text) => text != "" && WordStart(text[0]) && forall i :: 0 <= i < |text| ==> WordStart(text[i]) || Digit(text[i])
    case OperatorToken(text) => PairOperator(text) || (|text| == 1 && SingleOperator(text[0]))
  }

  function Spell(token: Token): string {
    match token
    case EndOfInput => ""
    case NumberToken(text, _) => text
    case StringToken(text) => var quote := if '"' in text then '\'' else '"'; [quote] + text + [quote]
    case IdentToken(text) => text
    case OperatorToken(text) => text
  }

  // What may follow a spelled token.
  predicate Separates(rest: string) { rest == "" || rest[0] == ' ' }

  lemma SpelledNumber(rt: Runtime, token: Token, rest: string)
    requires Faithful(rt) && token.NumberToken? && Spellable(rt, token) && Separates(rest)
    ensures Next(rt, token.text + rest) == Read(token, |token.text|)
  {
    var text := token.text;
    var s := text + rest;
    forall k | 0 <= k < |text| ensures NumeralChar(rt, s[k]) { assert s[k] == text[k]; }
    assert rest != "" ==> s[|text|] == ' ';
    SpanAll(s, 0, |text|, c => NumeralChar(rt, c));
    assert rt.digit(s[0]) && NumeralEnd(rt, s) == |text| && s[..|text|] == text;
    WithoutNone(text, '_');
  }

  lemma SpelledString(rt: Runtime, token: Token, rest: string)
    requires Faithful(rt) && token.StringToken? && Spellable(rt, token)
    ensures Next(rt, Spell(token) + rest) == Read(token, |Spell(token)|)
  {
    var text := token.text;
    var quote := Spell(token)[0];
    var s := Spell(token) + rest;
    assert s == [quote] + text + [quote] + rest && quote !in text;
    forall k | 1 <= k < |text| + 1 ensures s[k] != quote { assert s[k] == text[k - 1] && text[k - 1] in text; }
    assert s[|text| + 1] == quote;
    QuoteEnd(s, 1, |text| + 1);
    assert s[1..|text| + 1] == text;
  }

  lemma {:induction false} QuoteEnd(s: string, i: nat, end: nat)
    requires 0 < i <= end < |s| && s[end] == s[0] && forall k :: i <= k < end ==> s[k] != s[0]
    ensures Span(s, i, c => c != s[0]) == end
    decreases end - i
  {
    if i < end { QuoteEnd(s, i + 1, end); }
  }

  lemma SpelledWord(rt: Runtime, token: Token, rest: string)
    requires Faithful(rt) && token.IdentToken? && Spellable(rt, token) && Separates(rest)
    ensures Next(rt, token.text + rest) == Read(token, |token.text|)
  {
    var text := token.text;
    var s := text + rest;
    forall k | 0 <= k < |text| ensures WordChar(rt, s[k]) { assert s[k] == text[k]; }
    assert rest != "" ==> s[|text|] == ' ';
    SpanAll(s, 0, |text|, c => WordChar(rt, c));
    assert s[0] == text[0] && s[..|text|] == text;
  }

  // A character that begins an operator and nothing else.
  predicate OperatorStart(c: char) { c in "+-*/()<>!?:,=&|" }

  lemma StartsOperator(rt: Runtime, c: char)
    requires Faithful(rt) && OperatorStart(c)
    ensures !rt.space(c) && !rt.digit(c) && !rt.letter(c) && c !in "._\"'"
  {
  }

  lemma SpelledPair(rt: Runtime, text: string, rest: string)
    requires Faithful(rt) && PairOperator(text)
    ensures Next(rt, text + rest) == Read(OperatorToken(text), 2) && |text| == 2
  {
    var s := text + rest;
    assert |text| == 2 && OperatorStart(text[0]);
    StartsOperator(rt, text[0]);
    assert s[0] == text[0] && s[..2] == text;
  }

  lemma SpelledSingle(rt: Runtime, c: char, rest: string)
    requires Faithful(rt) && SingleOperator(c) && Separates(rest)
    ensures Next(rt, [c] + rest) == Read(OperatorToken([c]), 1)
  {
    var s := [c] + rest;
    assert OperatorStart(c);
    StartsOperator(rt, c);
    assert s[0] == c && s[..1] == [c];
    if rest != "" {
      assert s[..2] == [c, ' '];
      NoPair(c);
    }
  }

  lemma NoPair(c: char)
    ensures !PairOperator([c, ' '])
  {
    assert [c, ' '][1] == ' ';
  }

  lemma SpelledOperator(rt: Runtime, token: Token, rest: string)
    requires Faithful(rt) && token.OperatorToken? && Spellable(rt, token) && Separates(rest)
    ensures Next(rt, token.text + rest) == Read(token, |token.text|)
  {
    if PairOperator(token.text) {
      SpelledPair(rt, token.text, rest);
    } else {
      assert token.text == [token.text[0]];
      SpelledSingle(rt, token.text[0], rest);
    }
  }

  // A spelled token is read back whole.
  lemma NextSpelled(rt: Runtime, token: Token, rest: string)
    requires Faithful(rt) && Spellable(rt, token) && Separates(rest)
    ensures Next(rt, Spell(token) + rest) == Read(token, |Spell(token)|) && Spell(token) != ""
  {
    match token
    case NumberToken(_, _) => SpelledNumber(rt, token, rest);
    case StringToken(_) => SpelledString(rt, token, rest);
    case IdentToken(_) => SpelledWord(rt, token, rest);
    case OperatorToken(_) => SpelledOperator(rt, token, rest);
  }

  // The spellings with single spaces between.
  function Print(tokens: seq<Token>): string {
    if tokens == [] then ""
    else if |tokens| == 1 then Spell(tokens[0])
    else Spell(tokens[0]) + ([' '] + Print(tokens[1..]))
  }

  ghost predicate AllSpellable(rt: Runtime, tokens: seq<Token>) { forall i :: 0 <= i < |tokens| ==> Spellable(rt, tokens[i]) }

  // Reading back what was printed.
  lemma {:induction false} LexPrint(rt: Runtime, tokens: seq<Token>)
    requires Faithful(rt) && AllSpellable(rt, tokens)
    ensures Lex(rt, Print(tokens)) == Some(tokens)
  {
    if tokens != [] {
      var rest := if |tokens| == 1 then "" else [' '] + Print(tokens[1..]);
      var s := Spell(tokens[0]) + rest;
      NextSpelled(rt, tokens[0], rest);
      LexPrint(rt, tokens[1..]);
      if |tokens| > 1 { LexSpace(rt, Print(tokens[1..])); }
      assert Print(tokens) == s && s[|Spell(tokens[0])|..] == rest;
      assert [tokens[0]] + tokens[1..] == tokens;
    }
  }

  lemma SpellingTight(rt: Runtime, token: Token)
    requires Faithful(rt) && Spellable(rt, token)
    ensures var s := Spell(token); s != "" && !rt.space(s[0]) && !rt.space(s[|s| - 1]) && !("v1:" <= s)
  {
    var s := Spell(token);
    assert "v1:"[0] == 'v' && "v1:"[2] == ':';
    assert |s| >= 3 && s[0] == 'v' ==> s[2] != ':';
  }

  lemma {:induction false} PrintTight(rt: Runtime, tokens: seq<Token>)
    requires Faithful(rt) && AllSpellable(rt, tokens) && tokens != []
    ensures Print(tokens) != "" && Trimmed(rt, Print(tokens)) && !("v1:" <= Print(tokens))
  {
    SpellingTight(rt, tokens[0]);
    if |tokens| > 1 {
      PrintTight(rt, tokens[1..]);
      var first, s := Spell(tokens[0]), Print(tokens);
      assert s[0] == first[0] && s[|s| - 1] == Print(tokens[1..])[|Print(tokens[1..])| - 1];
      assert "v1:"[0] == 'v' && "v1:"[1] == '1' && "v1:"[2] == ':';
      assert |s| >= 3 && s[0] == 'v' && s[1] == '1' ==> s[2] != ':';
    }
  }

  // Every well-formed tree within the limits whose tokens can be spelled has a source that compiles to it.
  lemma PrintCompiles(rt: Runtime, t: Tree)
    requires Faithful(rt) && WellFormed(rt, t) && 1 + Depth(t) <= Machine.MAX_DEPTH && AllSpellable(rt, Flatten(t))
    requires ByteLength(Print(Flatten(t))) <= Machine.MAX_SOURCE_LENGTH
    ensures Compile(rt, Print(Flatten(t))) == Ok(t)
  {
    var source := Print(Flatten(t));
    PrintTight(rt, Flatten(t));
    TrimIdempotent(rt, source);
    LexPrint(rt, Flatten(t));
    CompileAccepts(rt, source, t);
  }
}
