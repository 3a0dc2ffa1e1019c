/** The key of a model name: trimmed, without one trailing parenthesised suffix, in lower case; and which keys are
    their own key. */
module ModelKeys {
  import opened BillingLexer
  import opened BillingProgram

  // The last opening parenthesis, -1 if there is none.
  function LastOpen(s: string): (i: int)
    ensures -1 <= i < |s|
  {
    if s == "" then -1 else if s[|s| - 1] == '(' then |s| - 1 else LastOpen(s[..|s| - 1])
  }

  // parseModelSuffix: the name before a suffix.
  function Stem(s: string): string {
    if LastOpen(s) == -1 || s[|s| - 1] != ')' then s else s[..LastOpen(s)]
  }

  // canonicalModelKey.
  function Canonical(rt: Runtime, model: string): string {
    var trimmed := Trim(rt, model);
    if trimmed == "" then ""
    else if Trim(rt, Stem(trimmed)) == "" then trimmed
    else Trim(rt, Stem(trimmed))
  }

  function Lower(lower: char -> char, s: string): string { seq(|s|, i requires 0 <= i < |s| => lower(s[i])) }

  function KeyOf(rt: Runtime, lower: char -> char, model: string): string { Lower(lower, Canonical(rt, model)) }

  function Key(rt: Runtime, lower: char -> char): string -> string { model => KeyOf(rt, lower, model) }

  // unicode.ToLower as far as it matters here: it is idempotent and leaves parentheses and spaces apart.
  ghost predicate Folds(rt: Runtime, lower: char -> char) {
    && (forall c :: lower(lower(c)) == lower(c))
    && (forall c :: (lower(c) == '(' <==> c == '(') && (lower(c) == ')' <==> c == ')') && (rt.space(lower(c)) <==> rt.space(c)))
  }

  // A name that ends with a suffix and has something before it.
  predicate HasSuffix(rt: Runtime, name: string) {
    LastOpen(name) != -1 && name[|name| - 1] == ')' && Trim(rt, name[..LastOpen(name)]) != ""
  }

  // -- Lower case changes no structure -------------------------------------------------------

  lemma {:induction false} LowerLastOpen(rt: Runtime, lower: char -> char, s: string)
    requires Folds(rt, lower)
    ensures LastOpen(Lower(lower, s)) == LastOpen(s)
  {
    if s != "" {
      assert Lower(lower, s)[..|s| - 1] == Lower(lower, s[..|s| - 1]);
      LowerLastOpen(rt, lower, s[..|s| - 1]);
    }
  }

  lemma {:induction false} LowerTrimRight(rt: Runtime, lower: char -> char, s: string)
    requires Folds(rt, lower)
    ensures TrimRight(rt, Lower(lower, s)) == Lower(lower, TrimRight(rt, s))
  {
    if s != "" {
      assert Lower(lower, s)[..|s| - 1] == Lower(lower, s[..|s| - 1]);
      LowerTrimRight(rt, lower, s[..|s| - 1]);
    }
  }

  lemma {:induction false} LowerSpan(rt: Runtime, lower: char -> char, s: string, i: nat)
    requires Folds(rt, lower) && i <= |s|
    ensures Span(Lower(lower, s), i, rt.space) == Span(s, i, rt.space)
    decreases |s| - i
  {
    if i < |s| { LowerSpan(rt, lower, s, i + 1); }
  }

  lemma LowerTrim(rt: Runtime, lower: char -> char, s: string)
    requires Folds(rt, lower)
    ensures Trim(rt, Lower(lower, s)) == Lower(lower, Trim(rt, s))
  {
    var start := Span(s, 0, rt.space);
    LowerSpan(rt, lower, s, 0);
    assert Lower(lower, s)[start..] == Lower(lower, s[start..]);
    LowerTrimRight(rt, lower, s[start..]);
  }

  lemma LowerCanonical(rt: Runtime, lower: char -> char, s: string)
    requires Folds(rt, lower)
    ensures Canonical(rt, Lower(lower, s)) == Lower(lower, Canonical(rt, s))
  {
    LowerTrim(rt, lower, s);
    var t := Trim(rt, s);
    LowerLastOpen(rt, lower, t);
    assert Stem(Lower(lower, t)) == Lower(lower, Stem(t));
    LowerTrim(rt, lower, Stem(t));
  }

  lemma LowerTwice(rt: Runtime, lower: char -> char, s: string)
    requires Folds(rt, lower)
    ensures Lower(lower, Lower(lower, s)) == Lower(lower, s)
  {
  }

  // -- Own keys ------------------------------------------------------------------------------

  lemma {:induction false} TrimRightShorter(rt: Runtime, s: string)
    ensures |TrimRight(rt, s)| <= |s|
  {
    if s != "" { TrimRightShorter(rt, s[..|s| - 1]); }
  }

  // Canonicalising again strips another suffix, if there is one.
  lemma CanonicalAgain(rt: Runtime, name: string)
    requires Trimmed(rt, name)
    ensures HasSuffix(rt, name) ==> |Canonical(rt, name)| < |name|
    ensures !HasSuffix(rt, name) ==> Canonical(rt, name) == name
  {
    TrimIdempotent(rt, name);
    if HasSuffix(rt, name) {
      TrimRightShorter(rt, Stem(name)[Span(Stem(name), 0, rt.space)..]);
    }
  }

  lemma CanonicalTrimmed(rt: Runtime, model: string)
    ensures Trimmed(rt, Canonical(rt, model))
  {
    TrimIdempotent(rt, model);
    TrimIdempotent(rt, Stem(Trim(rt, model)));
  }

  // The key of a key is that of the name canonicalised twice.
  lemma KeyTwice(rt: Runtime, lower: char -> char, model: string)
    requires Folds(rt, lower)
    ensures KeyOf(rt, lower, KeyOf(rt, lower, model)) == Lower(lower, Canonical(rt, Canonical(rt, model)))
  {
    var name := Canonical(rt, model);
    LowerCanonical(rt, lower, name);
    LowerTwice(rt, lower, Canonical(rt, name));
  }

  lemma LowerDiffers(lower: char -> char, a: string, b: string)
    requires |a| < |b| || a == b
    ensures Lower(lower, a) == Lower(lower, b) <==> a == b
  {
  }

  lemma SameKey(rt: Runtime, lower: char -> char, name: string)
    requires Trimmed(rt, name)
    ensures Lower(lower, Canonical(rt, name)) == Lower(lower, name) <==> !HasSuffix(rt, name)
  {
    CanonicalAgain(rt, name);
    LowerDiffers(lower, Canonical(rt, name), name);
  }

  // The key of a model is its own key exactly if the canonical name has no further suffix.
  lemma OwnKey(rt: Runtime, lower: char -> char, model: string)
    requires Folds(rt, lower)
    ensures KeyOf(rt, lower, KeyOf(rt, lower, model)) == KeyOf(rt, lower, model) <==> !HasSuffix(rt, Canonical(rt, model))
  {
    KeyTwice(rt, lower, model);
    CanonicalTrimmed(rt, model);
    SameKey(rt, lower, Canonical(rt, model));
  }

  // -- Suffixes one by one -------------------------------------------------------------------

  lemma {:induction false} LastOpenBefore(stem: string, suffix: string)
    requires '(' !in suffix
    ensures LastOpen(stem + "(" + suffix) == |stem|
  {
    var s := stem + "(" + suffix;
    if suffix == "" {
      assert s[|s| - 1] == '(';
    } else {
      assert s[..|s| - 1] == stem + "(" + suffix[..|suffix| - 1] && s[|s| - 1] == suffix[|suffix| - 1];
      LastOpenBefore(stem, suffix[..|suffix| - 1]);
    }
  }

  // One suffix is stripped, whatever the name before it looks like.
  lemma SuffixStripped(rt: Runtime, stem: string, suffix: string)
    requires stem != "" && Trimmed(rt, stem) && '(' !in suffix && !rt.space(')')
    ensures Canonical(rt, stem + "(" + suffix + ")") == stem && HasSuffix(rt, stem + "(" + suffix + ")")
  {
    var s := stem + "(" + suffix + ")";
    assert s == stem + "(" + (suffix + ")") && s[0] == stem[0] && s[|s| - 1] == ')';
    LastOpenBefore(stem, suffix + ")");
    assert s[..|stem|] == stem;
    TrimIdempotent(rt, s);
    TrimIdempotent(rt, stem);
  }
}
