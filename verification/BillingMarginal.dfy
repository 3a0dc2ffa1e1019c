/** The items of an expression charge: each bucket's marginal cost, found by evaluating the expression once more with the
    bucket set to zero for a moment. Amounts are not rounded here. */
module BillingMarginal {
  import opened Wrappers
  import opened BillingLexer
  import opened BillingSyntax
  import opened BillingEval
  import opened BillingLaws

  datatype Item = Item(tokens: real, cost: real)

  // What the expression is worth without a bucket.
  function Without(rt: Runtime, env: Env, root: Node, name: string): Result<(real, string), EvalError> {
    EvalUSD(rt, env.(numbers := env.numbers[name := 0.0]), root)
  }

  // A bucket's item: nothing is charged to it if the expression fails or costs no less without it.
  function Marginal(rt: Runtime, env: Env, root: Node, amount: real, name: string): Item {
    var without := Without(rt, env, root, name);
    Item(env.NumberOf(name), if without.Ok? && amount > without.value.0 then amount - without.value.0 else 0.0)
  }

  // The items after the buckets in names have been looked at.
  ghost predicate Recorded(rt: Runtime, env: Env, root: Node, amount: real, names: seq<string>, before: map<string, Item>,
      after: map<string, Item>) {
    forall name ::
      if name in names && env.NumberOf(name) > 0.0 then name in after && after[name] == Marginal(rt, env, root, amount, name)
      else (name in after <==> name in before) && (name in before ==> after[name] == before[name])
  }

  lemma RecordedNext(rt: Runtime, env: Env, root: Node, amount: real, names: seq<string>, name: string, before: map<string,
      Item>, after: map<string, Item>)
    requires Recorded(rt, env, root, amount, names, before, after)
    ensures Recorded(rt, env, root, amount, names + [name], before,
                     if env.NumberOf(name) > 0.0 then after[name := Marginal(rt, env, root, amount, name)] else after)
  {
  }

  class Charge {
    var numbers: map<string, real>
    var items: map<string, Item>

    // The environment as evaluation sees it at this moment.
    function Seen(env: Env): Env
      reads this
    {
      env.(numbers := numbers)
    }

    // Every bucket that holds tokens gets its item; the numbers are what they were.
    method RecordItems(rt: Runtime, env: Env, root: Node, amount: real, names: seq<string>)
      modifies this
      ensures numbers == old(numbers)
      ensures Recorded(rt, old(Seen(env)), root, amount, names, old(items), items)
    {
      ghost var all := Seen(env);
      var i := 0;
      while i < |names|
        invariant 0 <= i <= |names| && numbers == old(numbers)
        invariant Recorded(rt, all, root, amount, names[..i], old(items), items)
      {
        assert names[..i + 1] == names[..i] + [names[i]];
        var name := names[i];
        RecordedNext(rt, all, root, amount, names[..i], name, old(items), items);
        var tokens := if name in numbers then numbers[name] else 0.0;
        if tokens > 0.0 {
          numbers := numbers[name := 0.0];
          var without := EvalUSD(rt, Seen(env), root);
          numbers := numbers[name := tokens];
          assert numbers == old(numbers);
          items := items[name := Item(tokens, if without.Ok? && amount > without.value.0 then amount - without.value.0 else 0.0)];
        }
        i := i + 1;
      }
      assert names[..|names|] == names;
    }
  }

  // A bucket the expression does not refer to costs nothing at the margin, and no bucket costs less
  // than nothing or more than the whole charge.
  lemma MarginalBounds(rt: Runtime, env: Env, root: Node, amount: real, name: string)
    requires EvalUSD(rt, env, root).Ok? && EvalUSD(rt, env, root).value.0 == amount
    ensures 0.0 <= Marginal(rt, env, root, amount, name).cost <= amount
    ensures name !in Vars(root) && name != "req" ==> Marginal(rt, env, root, amount, name).cost == 0.0
  {
    var without := env.(numbers := env.numbers[name := 0.0]);
    if name !in Vars(root) && name != "req" {
      assert Alike(env, without, Vars(root));
      EvalDepends(rt, env, without, root, "");
    }
    AmountNatural(rt, env, root);
    AmountNatural(rt, without, root);
  }

  // A bucket's item has its tokens; it has no cost exactly if the expression fails or costs no less without the bucket.
  lemma MarginalNothing(rt: Runtime, env: Env, root: Node, amount: real, name: string)
    ensures Marginal(rt, env, root, amount, name).tokens == if name in env.numbers then env.numbers[name] else 0.0
    ensures Marginal(rt, env, root, amount, name).cost == 0.0 <==>
            Without(rt, env, root, name).Err? || Without(rt, env, root, name).value.0 >= amount
  {
  }

  // The share of one bucket in a sum: x of the sum is due to the bucket and y is not.
  ghost predicate Shares(rt: Runtime, env: Env, name: string, a: Node, b: Node, x: real, y: real) {
    var without := env.(numbers := env.numbers[name := 0.0]);
    x >= 0.0 && y >= 0.0 && Is(rt, env, a, x) && Is(rt, without, a, 0.0) && Is(rt, env, b, y) && Is(rt, without, b, y)
  }

  // The marginal cost of the bucket is what its share is worth.
  lemma MarginalShare(rt: Runtime, env: Env, name: string, a: Node, b: Node, x: real, y: real)
    requires Shares(rt, env, name, a, b, x, y)
    ensures EvalUSD(rt, env, Both("+", a, b)) == Ok(((x + y) / 1000000.0, ""))
    ensures Marginal(rt, env, Both("+", a, b), (x + y) / 1000000.0, name).cost == x / 1000000.0
    ensures Marginal(rt, env, Both("+", b, a), (x + y) / 1000000.0, name).cost == x / 1000000.0
  {
    var without := env.(numbers := env.numbers[name := 0.0]);
    Arithmetics(rt, env, a, b, x, y);
    Worth(rt, env, Both("+", a, b), x + y);
    Arithmetics(rt, without, a, b, 0.0, y);
    Worth(rt, without, Both("+", a, b), 0.0 + y);
    Arithmetics(rt, without, b, a, y, 0.0);
    Worth(rt, without, Both("+", b, a), y + 0.0);
  }

  // Two buckets with a rate each: the items add up to the amount.
  lemma SharesAdd(rt: Runtime, env: Env, first: string, second: string, low: real, high: real)
    requires first != second && env.NumberOf(first) >= 0.0 && env.NumberOf(second) >= 0.0 && low >= 0.0 && high >= 0.0
    ensures var root := Both("+", Both("*", NumberVar(first), NumberLiteral(low)), Both("*", NumberVar(second), NumberLiteral(high)));
            var charged := EvalUSD(rt, env, root);
            && charged.Ok?
            && var (x, y) := (Marginal(rt, env, root, charged.value.0, first).cost, Marginal(rt, env, root, charged.value.0, second).cost);
               && x == Product(env.NumberOf(first), low) / 1000000.0 && y == Product(env.NumberOf(second), high) / 1000000.0
               && x + y == charged.value.0
  {
    var a, b := Both("*", NumberVar(first), NumberLiteral(low)), Both("*", NumberVar(second), NumberLiteral(high));
    RateIs(rt, env, first, low);
    RateIs(rt, env, second, high);
    RateIs(rt, env.(numbers := env.numbers[first := 0.0]), first, low);
    RateIs(rt, env.(numbers := env.numbers[first := 0.0]), second, high);
    RateIs(rt, env.(numbers := env.numbers[second := 0.0]), first, low);
    RateIs(rt, env.(numbers := env.numbers[second := 0.0]), second, high);
    var x, y := Product(env.NumberOf(first), low), Product(env.NumberOf(second), high);
    MarginalShare(rt, env, first, a, b, x, y);
    MarginalShare(rt, env, second, b, a, y, x);
  }

  lemma RateIs(rt: Runtime, env: Env, name: string, rate: real)
    requires rate >= 0.0
    ensures Is(rt, env, Both("*", NumberVar(name), NumberLiteral(rate)), Product(env.NumberOf(name), rate))
    ensures env.NumberOf(name) >= 0.0 ==> Product(env.NumberOf(name), rate) >= 0.0
    ensures env.NumberOf(name) == 0.0 ==> Product(env.NumberOf(name), rate) == 0.0
  {
    Operands(rt, env, rate, false, name);
    Arithmetics(rt, env, NumberVar(name), NumberLiteral(rate), env.NumberOf(name), rate);
  }

  lemma AmountNatural(rt: Runtime, env: Env, root: Node)
    ensures EvalUSD(rt, env, root).Ok? ==> EvalUSD(rt, env, root).value.0 >= 0.0
  {
  }
}
