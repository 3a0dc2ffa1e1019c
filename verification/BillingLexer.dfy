/** The lexer of the pricing expression language. Token positions, which only appear in error
    messages, are not kept. */
module BillingLexer {
  import opened Wrappers

  datatype Token =
    | EndOfInput
    | NumberToken(text: string, value: real)
    | StringToken(text: string)
    | IdentToken(text: string)
    | OperatorToken(text: string)

  // What the language takes from its runtime: the Unicode classes, strconv.ParseFloat, the time
  // zones that can be loaded, and text matching that ignores case; and its tables of variable
  // names. Nothing below depends on which names the tables hold.
  datatype Runtime = Runtime(space: char -> bool, digit: char -> bool, letter: char -> bool,
                             parseFloat: string -> Option<real>, zone: string -> bool,
                             equalFold: (string, string) -> bool, containsFold: (string, string) -> bool,
                             numberVars: set<string>, stringVars: set<string>, aliases: map<string, string>)

  // The Unicode classes restricted to ASCII.
  ghost predicate Faithful(rt: Runtime) {
    forall c: char :: c < 128 as char ==>
      && (rt.space(c) <==> c == ' ' || '\t' <= c <= '\r')
      && (rt.digit(c) <==> '0' <= c <= '9')
      && (rt.letter(c) <==> 'a' <= c <= 'z' || 'A' <= c <= 'Z')
  }

  // The first index at or after i whose character does not satisfy p.
  function Span(s: string, i: nat, p: char -> bool): (j: nat)
    requires i <= |s|
    ensures i <= j <= |s|
    ensures forall k :: i <= k < j ==> p(s[k])
    ensures j < |s| ==> !p(s[j])
    decreases |s| - i
  {
    if i < |s| && p(s[i]) then Span(s, i + 1, p) else i
  }

  function Without(s: string, c: char): string {
    if s == "" then "" else (if s[0] == c then "" else [s[0]]) + Without(s[1..], c)
  }

  predicate NumeralChar(rt: Runtime, c: char) { rt.digit(c) || c == '.' || c == '_' }
  predicate WordChar(rt: Runtime, c: char) { rt.letter(c) || rt.digit(c) || c == '_' }

  // The end of the numeral that starts s: digits, dots and underscores, then an optional exponent.
  function NumeralEnd(rt: Runtime, s: string): (j: nat)
    ensures j <= |s|
  {
    var mantissa := Span(s, 0, c => NumeralChar(rt, c));
    if mantissa < |s| && (s[mantissa] == 'e' || s[mantissa] == 'E') then
      var sign := if mantissa + 1 < |s| && (s[mantissa + 1] == '+' || s[mantissa + 1] == '-') then mantissa + 2 else mantissa + 1;
      Span(s, sign, c => rt.digit(c))
    else mantissa
  }

  predicate StartsNumeral(rt: Runtime, s: string)
    requires s != ""
  {
    rt.digit(s[0]) || (s[0] == '.' && |s| > 1 && rt.digit(s[1]))
  }

  predicate PairOperator(s: string) {
    s == "==" || s == "!=" || s == "<=" || s == ">=" || s == "&&" || s == "||"
  }

  predicate SingleOperator(c: char) { c in "+-*/()<>!?:," }

  // What the lexer does at the start of s: skip a space, read a token of some length, or fail.
  datatype Step = Skip | Read(token: Token, size: nat) | Fail

  function Next(rt: Runtime, s: string): (step: Step)
    requires s != ""
    ensures step.Read? ==> 0 < step.size <= |s|
    ensures step.Read? ==> !step.token.EndOfInput?
  {
    if rt.space(s[0]) then Skip
    else if StartsNumeral(rt, s) then
      var end := NumeralEnd(rt, s);
      assert end > 0;
      var text := Without(s[..end], '_');
      match rt.parseFloat(text)
      case None => Fail
      case Some(value) => Read(NumberToken(text, value), end)
    else if s[0] == '"' || s[0] == '\'' then
      var end := Span(s, 1, c => c != s[0]);
      if end >= |s| then Fail else Read(StringToken(s[1..end]), end + 1)
    else if rt.letter(s[0]) || s[0] == '_' then
      var end := Span(s, 0, c => WordChar(rt, c));
      Read(IdentToken(s[..end]), end)
    else if |s| >= 2 && PairOperator(s[..2]) then Read(OperatorToken(s[..2]), 2)
    else if SingleOperator(s[0]) then Read(OperatorToken(s[..1]), 1)
    else Fail
  }

  function Prefixed(tokens: seq<Token>, r: Option<seq<Token>>): Option<seq<Token>> {
    if r.None? then None else Some(tokens + r.value)
  }

  // The tokens of s without the end marker, or None where lex reports an error.
  function Lex(rt: Runtime, s: string): (r: Option<seq<Token>>)
    ensures r.Some? ==> forall i :: 0 <= i < |r.value| ==> !r.value[i].EndOfInput?
    decreases |s|
  {
    if s == "" then Some([])
    else match Next(rt, s)
      case Fail => None
      case Skip => Lex(rt, s[1..])
      case Read(token, size) => Prefixed([token], Lex(rt, s[size..]))
  }

  // -- The imperative lexer --------------------------------------------------------------

  method ScanWhile(s: string, start: nat, p: char -> bool) returns (j: nat)
    requires start <= |s|
    ensures j == Span(s, start, p)
  {
    j := start;
    while j < |s| && p(s[j])
      invariant start <= j <= |s| && Span(s, j, p) == Span(s, start, p)
    {
      j := j + 1;
    }
  }

  method RemoveAll(s: string, c: char) returns (t: string)
    ensures t == Without(s, c)
  {
    t := "";
    var i := |s|;
    while i > 0
      invariant 0 <= i <= |s| && t == Without(s[i..], c)
    {
      i := i - 1;
      assert s[i..][1..] == s[i + 1..];
      t := (if s[i] == c then "" else [s[i]]) + t;
    }
  }

  // Reads one token of rest; rest is what is left of the source.
  method ReadNext(rt: Runtime, rest: string) returns (step: Step)
    requires rest != ""
    ensures step == Next(rt, rest)
  {
    if rt.space(rest[0]) { return Skip; }
    if StartsNumeral(rt, rest) {
      var end := ScanWhile(rest, 0, c => NumeralChar(rt, c));
      if end < |rest| && (rest[end] == 'e' || rest[end] == 'E') {
        end := end + 1;
        if end < |rest| && (rest[end] == '+' || rest[end] == '-') { end := end + 1; }
        end := ScanWhile(rest, end, c => rt.digit(c));
      }
      var text := RemoveAll(rest[..end], '_');
      var value := rt.parseFloat(text);
      return if value.None? then Fail else Read(NumberToken(text, value.value), end);
    }
    if rest[0] == '"' || rest[0] == '\'' {
      var end := ScanWhile(rest, 1, c => c != rest[0]);
      if end >= |rest| { return Fail; }
      return Read(StringToken(rest[1..end]), end + 1);
    }
    if rt.letter(rest[0]) || rest[0] == '_' {
      var end := ScanWhile(rest, 0, c => WordChar(rt, c));
      return Read(IdentToken(rest[..end]), end);
    }
    if |rest| >= 2 && PairOperator(rest[..2]) { return Read(OperatorToken(rest[..2]), 2); }
    if SingleOperator(rest[0]) { return Read(OperatorToken(rest[..1]), 1); }
    return Fail;
  }

  // tokens were read from source[..index].
  ghost predicate Progress(rt: Runtime, source: string, index: nat, tokens: seq<Token>) {
    index <= |source| && Lex(rt, source) == Prefixed(tokens, Lex(rt, source[index..]))
  }

  lemma ProgressStart(rt: Runtime, source: string)
    ensures Progress(rt, source, 0, [])
  {
    assert source[0..] == source;
    PrefixedNone(Lex(rt, source));
  }

  lemma ProgressEnd(rt: Runtime, source: string, tokens: seq<Token>)
    requires Progress(rt, source, |source|, tokens)
    ensures Lex(rt, source) == Some(tokens)
  {
    assert source[|source|..] == "" && tokens + [] == tokens;
  }

  lemma ProgressStep(rt: Runtime, source: string, index: nat, tokens: seq<Token>)
    requires Progress(rt, source, index, tokens) && index < |source|
    ensures match Next(rt, source[index..])
            case Fail => Lex(rt, source) == None
            case Skip => Progress(rt, source, index + 1, tokens)
            case Read(token, size) => Progress(rt, source, index + size, tokens + [token])
  {
    var rest := source[index..];
    match Next(rt, rest)
    case Fail =>
    case Skip => assert rest[1..] == source[index + 1..];
    case Read(token, size) =>
      assert rest[size..] == source[index + size..];
      PrefixedTwice(tokens, [token], Lex(rt, rest[size..]));
  }

  // What lex answers, end marker included.
  ghost predicate Answers(r: Option<seq<Token>>, lexed: Option<seq<Token>>) {
    if lexed.None? then r == None else r == Some(lexed.value + [EndOfInput])
  }

  // lex: one pass over the runes, an index and a growing token list.
  method LexAll(rt: Runtime, source: string) returns (r: Option<seq<Token>>)
    ensures Answers(r, Lex(rt, source))
  {
    var tokens: seq<Token> := [];
    var index := 0;
    ProgressStart(rt, source);
    while index < |source|
      invariant Progress(rt, source, index, tokens)
    {
      var step := ReadNext(rt, source[index..]);
      ProgressStep(rt, source, index, tokens);
      match step
      case Fail => return None;
      case Skip => index := index + 1;
      case Read(token, size) => tokens, index := tokens + [token], index + size;
    }
    ProgressEnd(rt, source, tokens);
    r := Some(tokens + [EndOfInput]);
  }

  lemma PrefixedNone(r: Option<seq<Token>>)
    ensures Prefixed([], r) == r
  {
    if r.Some? { assert [] + r.value == r.value; }
  }

  lemma PrefixedTwice(a: seq<Token>, b: seq<Token>, r: Option<seq<Token>>)
    ensures Prefixed(a, Prefixed(b, r)) == Prefixed(a + b, r)
  {
    if r.Some? { assert a + (b + r.value) == a + b + r.value; }
  }

  // -- Composition -----------------------------------------------------------------------

  lemma {:induction false} SpanBefore(s: string, t: string, i: nat, p: char -> bool)
    requires i <= |s| && t != "" && !p(t[0])
    ensures Span(s + t, i, p) == Span(s, i, p)
    decreases |s| - i
  {
    if i < |s| && p(s[i]) { SpanBefore(s, t, i + 1, p); }
  }

  ghost predicate Plain(rt: Runtime, c: char) { !rt.space(c) && !rt.digit(c) && !rt.letter(c) }

  lemma NumeralBefore(rt: Runtime, s: string, t: string)
    requires Plain(rt, ')') && s != "" && t != "" && t[0] == ')' && StartsNumeral(rt, s)
    ensures NumeralEnd(rt, s + t) == NumeralEnd(rt, s)
  {
    SpanBefore(s, t, 0, c => NumeralChar(rt, c));
    var mantissa := Span(s, 0, c => NumeralChar(rt, c));
    if mantissa < |s| && (s[mantissa] == 'e' || s[mantissa] == 'E') {
      var sign := if mantissa + 1 < |s| && (s[mantissa + 1] == '+' || s[mantissa + 1] == '-') then mantissa + 2 else mantissa + 1;
      SpanBefore(s, t, sign, c => rt.digit(c));
    }
  }

  // A closing parenthesis ends whatever token comes before it: reading s does not look past it.
  lemma NextBefore(rt: Runtime, s: string, t: string)
    requires Plain(rt, ')') && s != "" && t != "" && t[0] == ')' && !Next(rt, s).Fail?
    ensures Next(rt, s + t) == Next(rt, s)
  {
    var u := s + t;
    assert u[0] == s[0];
    assert forall i :: 0 <= i <= |s| ==> u[..i] == s[..i];
    if rt.space(s[0]) {
    } else if StartsNumeral(rt, s) {
      NumeralBefore(rt, s, t);
    } else if s[0] == '"' || s[0] == '\'' {
      var end := Span(s, 1, c => c != s[0]);
      QuoteBefore(s, t, 1);
      assert u[1..end] == s[1..end];
    } else if rt.letter(s[0]) || s[0] == '_' {
      SpanBefore(s, t, 0, c => WordChar(rt, c));
    } else if |s| == 1 {
      assert u[..2][1] == ')';
    }
  }

  lemma {:induction false} QuoteBefore(s: string, t: string, i: nat)
    requires 0 < i <= |s| && Span(s, i, c => c != s[0]) < |s|
    ensures Span(s + t, i, c => c != (s + t)[0]) == Span(s, i, c => c != s[0])
    decreases |s| - i
  {
    if i < |s| && s[i] != s[0] { QuoteBefore(s, t, i + 1); }
  }

  lemma {:induction false} LexBefore(rt: Runtime, s: string, t: string)
    requires Plain(rt, ')') && t != "" && t[0] == ')' && Lex(rt, s).Some?
    ensures Lex(rt, s + t) == Prefixed(Lex(rt, s).value, Lex(rt, t))
    decreases |s|
  {
    if s == "" {
      assert s + t == t;
      PrefixedNone(Lex(rt, t));
    } else {
      NextBefore(rt, s, t);
      match Next(rt, s)
      case Skip =>
        assert (s + t)[1..] == s[1..] + t;
        LexBefore(rt, s[1..], t);
      case Read(token, size) =>
        assert (s + t)[size..] == s[size..] + t;
        LexBefore(rt, s[size..], t);
        PrefixedTwice([token], Lex(rt, s[size..]).value, Lex(rt, t));
    }
  }

  predicate Unquoted(t: string) { '"' !in t && '\'' !in t }

  lemma {:induction false} QuoteOpen(s: string, t: string, i: nat)
    requires 0 < i <= |s| && Span(s, i, c => c != s[0]) >= |s| && s[0] !in t
    ensures Span(s + t, i, c => c != (s + t)[0]) >= |s + t|
    decreases |s| - i
  {
    if i < |s| {
      QuoteOpen(s, t, i + 1);
    } else {
      SpanAll(s + t, i, |s + t|, c => c != (s + t)[0]);
    }
  }

  // Nor does it repair anything: where reading s fails, it fails with more text without quotes behind it.
  lemma NextFails(rt: Runtime, s: string, t: string)
    requires Plain(rt, ')') && s != "" && t != "" && t[0] == ')' && Unquoted(t) && Next(rt, s).Fail?
    ensures Next(rt, s + t).Fail?
  {
    var u := s + t;
    assert u[0] == s[0];
    assert forall i :: 0 <= i <= |s| ==> u[..i] == s[..i];
    if StartsNumeral(rt, s) {
      NumeralBefore(rt, s, t);
    } else if s[0] == '"' || s[0] == '\'' {
      QuoteOpen(s, t, 1);
    } else if |s| == 1 {
      assert u[..2][1] == ')';
    }
  }

  lemma {:induction false} LexFails(rt: Runtime, s: string, t: string)
    requires Plain(rt, ')') && t != "" && t[0] == ')' && Unquoted(t) && Lex(rt, s).None?
    ensures Lex(rt, s + t).None?
    decreases |s|
  {
    if Next(rt, s).Fail? {
      NextFails(rt, s, t);
    } else {
      NextBefore(rt, s, t);
      match Next(rt, s)
      case Skip =>
        assert (s + t)[1..] == s[1..] + t;
        LexFails(rt, s[1..], t);
      case Read(token, size) =>
        assert (s + t)[size..] == s[size..] + t;
        LexFails(rt, s[size..], t);
    }
  }

  // The shapes fmt prints a positive number in with %g.
  ghost predicate Printed(rt: Runtime, mantissa: string, exponent: string, k: real) {
    && mantissa != "" && '0' <= mantissa[0] <= '9'
    && (forall i :: 0 <= i < |mantissa| ==> '0' <= mantissa[i] <= '9' || mantissa[i] == '.')
    && (exponent == "" || (|exponent| >= 3 && exponent[0] == 'e' && (exponent[1] == '+' || exponent[1] == '-')))
    && (forall i :: 2 <= i < |exponent| ==> '0' <= exponent[i] <= '9')
    && rt.parseFloat(mantissa + exponent) == Some(k)
  }

  lemma {:induction false} WithoutNone(s: string, c: char)
    requires c !in s
    ensures Without(s, c) == s
  {
    if s != "" {
      WithoutNone(s[1..], c);
      assert s == [s[0]] + s[1..];
    }
  }

  // What is left has none of them, and removing goes part by part.
  lemma {:induction false} WithoutRemoves(s: string, c: char)
    ensures c !in Without(s, c)
  {
    if s != "" { WithoutRemoves(s[1..], c); }
  }

  lemma {:induction false} WithoutParts(a: string, b: string, c: char)
    ensures Without(a + b, c) == Without(a, c) + Without(b, c)
  {
    if a == "" {
      assert a + b == b && Without(a, c) + Without(b, c) == Without(b, c);
    } else {
      var first := if a[0] == c then "" else [a[0]];
      assert (a + b)[1..] == a[1..] + b;
      WithoutParts(a[1..], b, c);
      assert first + (Without(a[1..], c) + Without(b, c)) == first + Without(a[1..], c) + Without(b, c);
    }
  }

  // A numeral reads as the number its characters, underscores left out, stand for.
  lemma NumeralReads(rt: Runtime, s: string, rest: string)
    requires s != "" && StartsNumeral(rt, s) && !rt.space(s[0]) && forall i :: 0 <= i < |s| ==> NumeralChar(rt, s[i])
    requires rest == "" || (!NumeralChar(rt, rest[0]) && rest[0] != 'e' && rest[0] != 'E')
    ensures Next(rt, s + rest) ==
            var value := rt.parseFloat(Without(s, '_')); if value.Some? then Read(NumberToken(Without(s, '_'), value.value), |s|) else Fail
  {
    var t := s + rest;
    forall k | 0 <= k < |s| ensures NumeralChar(rt, t[k]) { assert t[k] == s[k]; }
    assert rest != "" ==> t[|s|] == rest[0];
    SpanAll(t, 0, |s|, c => NumeralChar(rt, c));
    assert t[0] == s[0] && t[..|s|] == s && StartsNumeral(rt, t);
  }

  lemma {:induction false} SpanAll(s: string, i: nat, j: nat, p: char -> bool)
    requires i <= j <= |s| && (forall k :: i <= k < j ==> p(s[k])) && (j < |s| ==> !p(s[j]))
    ensures Span(s, i, p) == j
    decreases j - i
  {
    if i < j { SpanAll(s, i + 1, j, p); }
  }

  lemma PrintedNumeral(rt: Runtime, mantissa: string, exponent: string, k: real)
    requires Faithful(rt) && Printed(rt, mantissa, exponent, k)
    ensures NumeralEnd(rt, mantissa + exponent) == |mantissa + exponent| && '_' !in mantissa + exponent
  {
    var s := mantissa + exponent;
    SpanAll(s, 0, |mantissa|, c => NumeralChar(rt, c));
    if exponent != "" {
      assert s[|mantissa|] == exponent[0] && s[|mantissa| + 1] == exponent[1];
      forall i | |mantissa| + 2 <= i < |s| ensures rt.digit(s[i]) { assert s[i] == exponent[i - |mantissa|]; }
      SpanAll(s, |mantissa| + 2, |s|, c => rt.digit(c));
    }
  }

  // A printed number is read back as one token.
  lemma LexPrinted(rt: Runtime, mantissa: string, exponent: string, k: real)
    requires Faithful(rt) && Printed(rt, mantissa, exponent, k)
    ensures Lex(rt, mantissa + exponent) == Some([NumberToken(mantissa + exponent, k)])
  {
    var s := mantissa + exponent;
    PrintedNumeral(rt, mantissa, exponent, k);
    WithoutNone(s, '_');
    assert s[..|s|] == s && s[|s|..] == "";
    assert rt.digit(s[0]);
    assert Next(rt, s) == Read(NumberToken(s, k), |s|);
    assert [NumberToken(s, k)] + [] == [NumberToken(s, k)];
  }

  // An operator character that does not begin a two-character operator.
  lemma LexOperator(rt: Runtime, c: char, t: string)
    requires SingleOperator(c) && Plain(rt, c) && c !in "=!<>&|._"
    ensures Lex(rt, [c] + t) == Prefixed([OperatorToken([c])], Lex(rt, t))
  {
    var s := [c] + t;
    assert s[..1] == [c] && s[1..] == t;
    assert |s| >= 2 ==> s[..2][0] == c;
    assert Next(rt, s) == Read(OperatorToken([c]), 1);
  }

  lemma LexSpace(rt: Runtime, t: string)
    requires rt.space(' ')
    ensures Lex(rt, [' '] + t) == Lex(rt, t)
  {
    assert ([' '] + t)[1..] == t;
  }

  // Wrapping: "(" + body + ") * " + number lexes to the body's tokens between the new ones.
  lemma LexScaled(rt: Runtime, body: string, mantissa: string, exponent: string, k: real)
    requires Faithful(rt) && Lex(rt, body).Some? && Printed(rt, mantissa, exponent, k)
    ensures Lex(rt, "(" + body + ") * " + (mantissa + exponent)) ==
            Some([OperatorToken("(")] + Lex(rt, body).value +
                 [OperatorToken(")"), OperatorToken("*"), NumberToken(mantissa + exponent, k)])
  {
    var number := mantissa + exponent;
    var tail := [')'] + ([' '] + (['*'] + ([' '] + number)));
    LexTail(rt, mantissa, exponent, k);
    LexBefore(rt, body, tail);
    LexOperator(rt, '(', body + tail);
    PrefixedTwice([OperatorToken("(")], Lex(rt, body).value, Lex(rt, tail));
    ScaledText(body, number);
  }

  // A body that does not lex does not lex once wrapped.
  lemma LexScaledFails(rt: Runtime, body: string, mantissa: string, exponent: string, k: real)
    requires Faithful(rt) && Lex(rt, body).None? && Printed(rt, mantissa, exponent, k)
    ensures Lex(rt, "(" + body + ") * " + (mantissa + exponent)).None?
  {
    var number := mantissa + exponent;
    var tail := [')'] + ([' '] + (['*'] + ([' '] + number)));
    assert Unquoted(number);
    LexFails(rt, body, tail);
    LexOperator(rt, '(', body + tail);
    ScaledText(body, number);
  }

  lemma ScaledText(body: string, number: string)
    ensures "(" + body + ") * " + number == ['('] + (body + ([')'] + ([' '] + (['*'] + ([' '] + number)))))
  {
  }

  lemma LexOperatorSpace(rt: Runtime, c: char, t: string)
    requires SingleOperator(c) && Plain(rt, c) && c !in "=!<>&|._" && rt.space(' ')
    ensures Lex(rt, [c] + ([' '] + t)) == Prefixed([OperatorToken([c])], Lex(rt, t))
  {
    LexSpace(rt, t);
    LexOperator(rt, c, [' '] + t);
  }

  lemma LexTail(rt: Runtime, mantissa: string, exponent: string, k: real)
    requires Faithful(rt) && Printed(rt, mantissa, exponent, k)
    ensures Lex(rt, [')'] + ([' '] + (['*'] + ([' '] + (mantissa + exponent))))) ==
            Some([OperatorToken(")"), OperatorToken("*"), NumberToken(mantissa + exponent, k)])
  {
    var number := mantissa + exponent;
    var product := ['*'] + ([' '] + number);
    LexPrinted(rt, mantissa, exponent, k);
    LexOperatorSpace(rt, '*', number);
    LexOperatorSpace(rt, ')', product);
    PrefixedThree(OperatorToken(")"), OperatorToken("*"), NumberToken(number, k));
  }

  lemma PrefixedThree(a: Token, b: Token, c: Token)
    ensures Prefixed([a], Prefixed([b], Some([c]))) == Some([a, b, c])
  {
    assert [a] + ([b] + [c]) == [a, b, c];
  }
}
