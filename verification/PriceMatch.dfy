/** Price rule selection: the loops over levels, candidates, keys, tiers and bands find the most specific eligible
    rule. Model names are those that lower-casing and trimming leave. */
module PriceMatch {
  import opened Wrappers

  datatype Rule = Rule(id: int, provider: string, key: string, tier: string, minInput: int)

  const ANY: string := "*"

  predicate IsPattern(key: string) { key != "" && key[|key| - 1] == '*' }

  predicate Matches(key: string, model: string, pattern: bool) {
    && model != ""
    && if pattern then IsPattern(key) && key[..|key| - 1] <= model else !IsPattern(key) && key == model
  }

  // What is asked for at one level for one candidate.
  datatype Query = Query(provider: string, model: string, pattern: bool, tier: string, context: int)

  predicate InScope(rule: Rule, q: Query) { rule.provider == q.provider && rule.minInput <= q.context && Matches(rule.key,
      q.model, q.pattern) }

  predicate Eligible(rule: Rule, q: Query) { InScope(rule, q) && (rule.tier == q.tier || rule.tier == ANY) }

  // rules[i] is at least as specific as rules[j]: the longer key, then the exact tier, then the
  // earlier row, which has the greater band.
  predicate Outranks(rules: seq<Rule>, q: Query, i: nat, j: nat)
    requires i < |rules| && j < |rules|
  {
    if |rules[i].key| != |rules[j].key| then |rules[i].key| > |rules[j].key|
    else if (rules[i].tier == q.tier) != (rules[j].tier == q.tier) then rules[i].tier == q.tier
    else i <= j
  }

  ghost predicate Best(rules: seq<Rule>, q: Query, i: nat) {
    && i < |rules| && Eligible(rules[i], q)
    && forall j :: 0 <= j < |rules| && Eligible(rules[j], q) ==> Outranks(rules, q, i, j)
  }

  // The order of the query: greatest band first, then by id.
  ghost predicate Ordered(rules: seq<Rule>) {
    forall i, j :: 0 <= i < j < |rules| ==>
      rules[i].minInput > rules[j].minInput || (rules[i].minInput == rules[j].minInput && rules[i].id < rules[j].id)
  }

  // Of several bands of the best rule's key and tier, the best has the greatest.
  lemma BestBand(rules: seq<Rule>, q: Query, i: nat, j: nat)
    requires Ordered(rules) && Best(rules, q, i) && j < |rules| && Eligible(rules[j], q)
    requires rules[j].key == rules[i].key && rules[j].tier == rules[i].tier
    ensures rules[j].minInput <= rules[i].minInput
  {
  }

  lemma BestOnce(rules: seq<Rule>, q: Query, i: nat, j: nat)
    requires Best(rules, q, i) && Best(rules, q, j)
    ensures i == j
  {
  }

  // Keys that match one model and are equally long are equal.
  lemma SameLengthSameKey(a: string, b: string, model: string, pattern: bool)
    requires Matches(a, model, pattern) && Matches(b, model, pattern) && |a| == |b|
    ensures a == b
  {
    if pattern {
      assert a == a[..|a| - 1] + ['*'] && b == b[..|b| - 1] + ['*'];
      assert a[..|a| - 1] == model[..|a| - 1];
    }
  }

  // -- The loops -------------------------------------------------------------------------

  ghost predicate Descending(keys: seq<string>) { forall i, j :: 0 <= i < j < |keys| ==> |keys[i]| >= |keys[j]| }

  // The key after the ones that are at least as long.
  function Insert(sorted: seq<string>, key: string): (r: seq<string>)
    requires Descending(sorted)
    ensures Descending(r) && forall k :: k in r <==> k == key || k in sorted
  {
    if sorted == [] || |sorted[0]| < |key| then [key] + sorted
    else
      assert forall k :: k in sorted[1..] ==> |k| <= |sorted[0]|;
      assert sorted == [sorted[0]] + sorted[1..];
      [sorted[0]] + Insert(sorted[1..], key)
  }

  // Longest first, equally long ones in their old order.
  method SortKeys(keys: seq<string>) returns (sorted: seq<string>)
    ensures Descending(sorted) && forall key :: key in sorted <==> key in keys
  {
    sorted := [];
    var i := 0;
    while i < |keys|
      invariant 0 <= i <= |keys| && Descending(sorted) && forall key :: key in sorted <==> key in keys[..i]
    {
      assert keys[..i + 1] == keys[..i] + [keys[i]];
      sorted := Insert(sorted, keys[i]);
      i := i + 1;
    }
    assert keys[..|keys|] == keys;
  }

  // The indices of the rules in scope, and their distinct keys in order of appearance.
  method Scope(rules: seq<Rule>, q: Query) returns (matching: seq<nat>, keys: seq<string>)
    ensures forall k :: 0 <= k < |matching| ==> matching[k] < |rules| && InScope(rules[matching[k]], q)
    ensures forall k, l :: 0 <= k < l < |matching| ==> matching[k] < matching[l]
    ensures forall i :: 0 <= i < |rules| && InScope(rules[i], q) ==> i in matching && rules[i].key in keys
    ensures forall key :: key in keys ==> exists i :: 0 <= i < |rules| && InScope(rules[i], q) && rules[i].key == key
  {
    matching, keys := [], [];
    var seen: set<string> := {};
    var i := 0;
    while i < |rules|
      invariant 0 <= i <= |rules|
      invariant forall k :: 0 <= k < |matching| ==> matching[k] < i && InScope(rules[matching[k]], q)
      invariant forall k, l :: 0 <= k < l < |matching| ==> matching[k] < matching[l]
      invariant forall j :: 0 <= j < i && InScope(rules[j], q) ==> j in matching && rules[j].key in keys
      invariant forall key :: key in seen <==> key in keys
      invariant forall key :: key in keys ==> exists j :: 0 <= j < i && InScope(rules[j], q) && rules[j].key == key
    {
      if InScope(rules[i], q) {
        matching := matching + [i];
        if rules[i].key !in seen {
          seen := seen + {rules[i].key};
          keys := keys + [rules[i].key];
        }
      }
      i := i + 1;
    }
  }

  // The first rule in scope with this key and tier.
  method FirstOf(rules: seq<Rule>, matching: seq<nat>, key: string, tier: string) returns (r: Option<nat>)
    requires forall k :: 0 <= k < |matching| ==> matching[k] < |rules|
    requires forall k, l :: 0 <= k < l < |matching| ==> matching[k] < matching[l]
    ensures r.None? ==> forall i :: i in matching ==> rules[i].key != key || rules[i].tier != tier
    ensures r.Some? ==> r.value in matching && rules[r.value].key == key && rules[r.value].tier == tier
                        && forall i :: i in matching && rules[i].key == key && rules[i].tier == tier ==> r.value <= i
  {
    var index := 0;
    while index < |matching|
      invariant 0 <= index <= |matching|
      invariant forall k :: 0 <= k < index ==> rules[matching[k]].key != key || rules[matching[k]].tier != tier
    {
      if rules[matching[index]].key == key && rules[matching[index]].tier == tier { return Some(matching[index]); }
      index := index + 1;
    }
    r := None;
  }

  // No rule of these keys is eligible.
  ghost predicate Passed(rules: seq<Rule>, q: Query, keys: seq<string>) {
    forall i :: 0 <= i < |rules| && Eligible(rules[i], q) ==> rules[i].key !in keys
  }

  lemma FoundBest(rules: seq<Rule>, q: Query, keys: seq<string>, k: nat, i: nat)
    requires Descending(keys) && k < |keys| && Passed(rules, q, keys[..k]) && i < |rules| && Eligible(rules[i], q)
        && rules[i].key == keys[k]
    requires forall j :: 0 <= j < |rules| && InScope(rules[j], q) ==> rules[j].key in keys
    requires forall j :: 0 <= j < |rules| && Eligible(rules[j], q) && rules[j].key == keys[k] ==> Outranks(rules, q, i, j)
    ensures Best(rules, q, i)
  {
    forall j | 0 <= j < |rules| && Eligible(rules[j], q) ensures Outranks(rules, q, i, j) {
      assert keys == keys[..k] + keys[k..];
      assert rules[j].key in keys[k..];
      var l :| k <= l < |keys| && keys[l] == rules[j].key;
      if |rules[j].key| == |keys[k]| { SameLengthSameKey(rules[j].key, keys[k], q.model, q.pattern); }
    }
  }

  // billingSelectPriceRule: the best eligible rule, or none exactly if none is eligible.
  method SelectPriceRule(rules: seq<Rule>, q: Query) returns (r: Option<nat>)
    ensures r.None? <==> forall i :: 0 <= i < |rules| ==> !Eligible(rules[i], q)
    ensures r.Some? ==> Best(rules, q, r.value)
  {
    var matching, found := Scope(rules, q);
    var keys := SortKeys(found);
    var k := 0;
    while k < |keys|
      invariant 0 <= k <= |keys| && Passed(rules, q, keys[..k])
    {
      var exact := FirstOf(rules, matching, keys[k], q.tier);
      if exact.Some? {
        FoundBest(rules, q, keys, k, exact.value);
        return exact;
      }
      var any := FirstOf(rules, matching, keys[k], ANY);
      if any.Some? {
        FoundBest(rules, q, keys, k, any.value);
        return any;
      }
      assert keys[..k + 1] == keys[..k] + [keys[k]];
      k := k + 1;
    }
    assert keys[..|keys|] == keys;
    r := None;
  }

  // -- Levels and candidates ---------------------------------------------------------------

  datatype Level = Level(anyProvider: bool, pattern: bool)

  // exact, model_pattern, any_provider, any_provider_model_pattern
  const LEVELS: seq<Level> := [Level(false, false), Level(false, true), Level(true, false), Level(true, true)]

  function At(level: Level, provider: string, model: string, tier: string, context: int): Query {
    Query(if level.anyProvider then ANY else provider, model, level.pattern, tier, context)
  }

  // No rule is eligible at this level for this candidate.
  ghost predicate NoneAt(rules: seq<Rule>, q: Query) { forall i :: 0 <= i < |rules| ==> !Eligible(rules[i], q) }

  datatype Price = Price(level: nat, candidate: nat, rule: nat)

  // The best rule of the first candidate, at the first level, that has an eligible one; none exactly if
  // there is none at all.
  ghost predicate Finds(rules: seq<Rule>, provider: string, candidates: seq<string>, tier: string, context: int, r: Option<Price>) {
    match r
    case None =>
      forall l, c :: 0 <= l < |LEVELS| && 0 <= c < |candidates| ==> NoneAt(rules, At(LEVELS[l], provider, candidates[c], tier, context))
    case Some(price) =>
      && price.level < |LEVELS| && price.candidate < |candidates|
      && Best(rules, At(LEVELS[price.level], provider, candidates[price.candidate], tier, context), price.rule)
      && forall l, c ::
        0 <= l < |LEVELS| && 0 <= c < |candidates| && (l < price.level || (l == price.level && c < price.candidate))
        ==> NoneAt(rules, At(LEVELS[l], provider, candidates[c], tier, context))
  }

  // billingFindPrice on the rules the query returned.
  method FindPrice(rules: seq<Rule>, provider: string, candidates: seq<string>, tier: string, context: int) returns (r: Option<Price>)
    ensures Finds(rules, provider, candidates, tier, context, r)
  {
    if forall c :: 0 <= c < |candidates| ==> candidates[c] == "" { return None; }
    var l := 0;
    while l < |LEVELS|
      invariant 0 <= l <= |LEVELS|
      invariant forall m, c :: 0 <= m < l && 0 <= c < |candidates| ==> NoneAt(rules, At(LEVELS[m], provider, candidates[c], tier, context))
    {
      var c := 0;
      while c < |candidates|
        invariant 0 <= c <= |candidates|
        invariant forall d :: 0 <= d < c ==> NoneAt(rules, At(LEVELS[l], provider, candidates[d], tier, context))
      {
        var i := SelectPriceRule(rules, At(LEVELS[l], provider, candidates[c], tier, context));
        if i.Some? { return Some(Price(l, c, i.value)); }
        c := c + 1;
      }
      l := l + 1;
    }
    r := None;
  }

  // -- What is found -----------------------------------------------------------------------

  // The key names the model, or names a beginning of it and ends with an asterisk.
  ghost predicate Covers(key: string, model: string) {
    && model != ""
    && ((key == model && !IsPattern(key)) || exists stem, rest :: key == stem + "*" && model == stem + rest)
  }

  // The rule can price this candidate.
  ghost predicate Usable(rule: Rule, provider: string, model: string, tier: string, context: int) {
    && (rule.provider == provider || rule.provider == "*") && (rule.tier == tier || rule.tier == "*")
    && rule.minInput <= context && Covers(rule.key, model)
  }

  // The order of preference: the own provider's rules, full names, earlier candidates, longer keys, the own tier, and then
  // the earlier row of the query.
  predicate Preferred(rules: seq<Rule>, provider: string, tier: string, i: nat, c: nat, j: nat, d: nat)
    requires i < |rules| && j < |rules|
  {
    var (a, b) := (rules[i], rules[j]);
    if (a.provider == provider) != (b.provider == provider) then a.provider == provider
    else if IsPattern(a.key) != IsPattern(b.key) then IsPattern(b.key)
    else if c != d then c < d
    else if |a.key| != |b.key| then |a.key| > |b.key|
    else if (a.tier == tier) != (b.tier == tier) then a.tier == tier
    else i <= j
  }

  lemma CoversMatches(key: string, model: string)
    ensures Matches(key, model, IsPattern(key)) <==> Covers(key, model)
  {
    if IsPattern(key) {
      var stem := key[..|key| - 1];
      assert key == stem + "*";
      if Matches(key, model, true) { assert model == stem + model[|stem|..]; }
      if model != "" && exists stem, rest :: key == stem + "*" && model == stem + rest {
        var other, rest :| key == other + "*" && model == other + rest;
        assert other == stem && stem <= model;
      }
    } else {
      assert forall stem: string :: (stem + "*")[|stem + "*"| - 1] == '*';
    }
  }

  // The level at which a rule is looked for.
  function LevelOf(rule: Rule, provider: string): nat {
    (if rule.provider == provider then 0 else 2) + (if IsPattern(rule.key) then 1 else 0)
  }

  lemma UsableAt(rule: Rule, provider: string, model: string, tier: string, context: int)
    ensures Usable(rule, provider, model, tier, context) ==> Eligible(rule, At(LEVELS[LevelOf(rule, provider)], provider, model, tier, context))
    ensures forall l :: 0 <= l < |LEVELS| && Eligible(rule, At(LEVELS[l], provider, model, tier, context)) ==>
              Usable(rule, provider, model, tier, context) && (l == LevelOf(rule, provider) || (provider == ANY && l == LevelOf(rule, provider) + 2))
  {
    CoversMatches(rule.key, model);
    assert LEVELS[0] == Level(false, false) && LEVELS[1] == Level(false, true) && LEVELS[2] == Level(true, false) && LEVELS[3] == Level(true, true);
  }

  // Nothing is found exactly if no rule can price any candidate, and what is found can price its
  // candidate and is preferred to whatever else could price one.
  lemma FoundMeans(rules: seq<Rule>, provider: string, candidates: seq<string>, tier: string, context: int, r: Option<Price>)
    requires Finds(rules, provider, candidates, tier, context, r)
    ensures r.None? <==> forall i, c :: 0 <= i < |rules| && 0 <= c < |candidates| ==> !Usable(rules[i], provider, candidates[c], tier, context)
    ensures r.Some? ==>
              && r.value.rule < |rules| && r.value.candidate < |candidates|
              && Usable(rules[r.value.rule], provider, candidates[r.value.candidate], tier, context)
              && forall j, d :: 0 <= j < |rules| && 0 <= d < |candidates| && Usable(rules[j], provider, candidates[d], tier, context)
                   ==> Preferred(rules, provider, tier, r.value.rule, r.value.candidate, j, d)
  {
    forall i, c | 0 <= i < |rules| && 0 <= c < |candidates|
      ensures Usable(rules[i], provider, candidates[c], tier, context) ==>
                !NoneAt(rules, At(LEVELS[LevelOf(rules[i], provider)], provider, candidates[c], tier, context))
    {
      UsableAt(rules[i], provider, candidates[c], tier, context);
    }
    if r.Some? {
      FoundUsable(rules, provider, candidates, tier, context, r.value);
      forall j, d | 0 <= j < |rules| && 0 <= d < |candidates| && Usable(rules[j], provider, candidates[d], tier, context)
        ensures Preferred(rules, provider, tier, r.value.rule, r.value.candidate, j, d)
      {
        FoundPreferred(rules, provider, candidates, tier, context, r.value, j, d);
      }
    }
  }

  lemma FoundUsable(rules: seq<Rule>, provider: string, candidates: seq<string>, tier: string, context: int, price: Price)
    requires Finds(rules, provider, candidates, tier, context, Some(price))
    ensures price.rule < |rules| && Usable(rules[price.rule], provider, candidates[price.candidate], tier, context)
    ensures price.level == LevelOf(rules[price.rule], provider)
  {
    UsableAt(rules[price.rule], provider, candidates[price.candidate], tier, context);
    var level := LevelOf(rules[price.rule], provider);
    assert !NoneAt(rules, At(LEVELS[level], provider, candidates[price.candidate], tier, context));
  }

  lemma FoundPreferred(rules: seq<Rule>, provider: string, candidates: seq<string>, tier: string, context: int, price: Price, j: nat, d: nat)
    requires Finds(rules, provider, candidates, tier, context, Some(price))
    requires j < |rules| && d < |candidates| && Usable(rules[j], provider, candidates[d], tier, context)
    ensures price.rule < |rules| && Preferred(rules, provider, tier, price.rule, price.candidate, j, d)
  {
    FoundUsable(rules, provider, candidates, tier, context, price);
    UsableAt(rules[j], provider, candidates[d], tier, context);
    var level := LevelOf(rules[j], provider);
    assert !NoneAt(rules, At(LEVELS[level], provider, candidates[d], tier, context));
    if level == price.level && d == price.candidate {
      assert Outranks(rules, At(LEVELS[level], provider, candidates[d], tier, context), price.rule, j);
    }
  }
}
