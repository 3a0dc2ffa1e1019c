/** Totals over tables whose missing entries hold nothing, and what moving entries does to them. */
module TokenTotals {
  function Get<T>(m: map<T, real>, b: T): real { if b in m then m[b] else 0.0 }

  ghost predicate Distinct<T>(order: seq<T>) { forall i, j :: 0 <= i < j < |order| ==> order[i] != order[j] }

  // A list of all keys, each once.
  ghost predicate Enumerates<T(!new)>(order: seq<T>) { Distinct(order) && forall b: T :: b in order }

  // The tokens of those listed keys that keep selects.
  function Total<T>(m: map<T, real>, keep: T -> bool, order: seq<T>): real {
    if order == [] then 0.0 else (if keep(order[0]) then Get(m, order[0]) else 0.0) + Total(m, keep, order[1..])
  }

  // The tokens that end in v when nothing is lost.
  function Landing<T(==)>(m: map<T, real>, target: T -> T, v: T, order: seq<T>): real {
    Total(m, b => target(b) == v, order)
  }

  function Pick<T>(m: map<T, real>, keep: T -> bool, b: T): real { if keep(b) then Get(m, b) else 0.0 }

  lemma TotalFirst<T>(m: map<T, real>, keep: T -> bool, a: T, rest: seq<T>)
    ensures Total(m, keep, [a] + rest) == Pick(m, keep, a) + Total(m, keep, rest)
  {
    assert ([a] + rest)[1..] == rest;
  }

  lemma TotalThree<T>(m: map<T, real>, keep: T -> bool, a: T, b: T, c: T, rest: seq<T>)
    ensures Total(m, keep, [a, b, c] + rest) == Pick(m, keep, a) + Pick(m, keep, b) + Pick(m, keep, c) + Total(m, keep, rest)
  {
    TotalFirst(m, keep, c, rest);
    TotalFirst(m, keep, b, [c] + rest);
    TotalFirst(m, keep, a, [b] + ([c] + rest));
    assert [a] + ([b] + ([c] + rest)) == [a, b, c] + rest;
  }

  lemma {:induction false} TotalNatural<T>(m: map<T, real>, keep: T -> bool, order: seq<T>)
    requires forall b :: b in order ==> Get(m, b) >= 0.0
    ensures Total(m, keep, order) >= 0.0
  {
    if order != [] { TotalNatural(m, keep, order[1..]); }
  }

  lemma LandingNatural<T>(m: map<T, real>, target: T -> T, v: T, order: seq<T>)
    requires forall b :: b in order ==> Get(m, b) >= 0.0
    ensures Landing(m, target, v, order) >= 0.0
  {
    TotalNatural(m, b => target(b) == v, order);
  }

  // Totals only depend on what is selected.
  lemma {:induction false} TotalSame<T(!new)>(m: map<T, real>, f: T -> bool, g: T -> bool, order: seq<T>)
    requires forall b :: f(b) <==> g(b)
    ensures Total(m, f, order) == Total(m, g, order)
  {
    if order != [] { TotalSame(m, f, g, order[1..]); }
  }

  lemma LandingSame<T(!new)>(m: map<T, real>, target: T -> T, v: T, keep: T -> bool, order: seq<T>)
    requires forall b :: target(b) == v <==> keep(b)
    ensures Landing(m, target, v, order) == Total(m, keep, order)
  {
    TotalSame(m, b => target(b) == v, keep, order);
  }

  // The tokens of a list of keys.
  function Listed<T>(m: map<T, real>, list: seq<T>): real { if list == [] then 0.0 else Get(m, list[0]) + Listed(m, list[1..]) }

  lemma {:induction false} TotalPlus<T(!new)>(m: map<T, real>, keep: T -> bool, others: T -> bool, a: T, order: seq<T>)
    requires Distinct(order) && !others(a) && forall b :: keep(b) <==> b == a || others(b)
    ensures Total(m, keep, order) == Total(m, others, order) + (if a in order then Get(m, a) else 0.0)
  {
    if order != [] {
      ListMembers(order);
      TotalPlus(m, keep, others, a, order[1..]);
    }
  }

  lemma {:induction false} TotalListed<T(!new)>(m: map<T, real>, keep: T -> bool, list: seq<T>, order: seq<T>)
    requires Enumerates(order) && Distinct(list) && forall b :: keep(b) <==> b in list
    ensures Total(m, keep, order) == Listed(m, list)
  {
    if list == [] {
      TotalNone(m, keep, order);
    } else {
      ListMembers(list);
      var rest := list[1..];
      TotalPlus(m, keep, b => b in rest, list[0], order);
      TotalListed(m, b => b in rest, rest, order);
    }
  }

  lemma {:induction false} TotalNone<T(!new)>(m: map<T, real>, keep: T -> bool, order: seq<T>)
    requires forall b :: !keep(b)
    ensures Total(m, keep, order) == 0.0
  {
    if order != [] { TotalNone(m, keep, order[1..]); }
  }

  // All of one key's tokens go to another.
  function Moved<T>(m: map<T, real>, from: T, to: T): map<T, real>
    requires from != to
  {
    m[to := Get(m, to) + Get(m, from)][from := 0.0]
  }

  lemma ListMembers<T>(order: seq<T>)
    requires order != []
    ensures forall b :: b in order <==> b == order[0] || b in order[1..]
    ensures Distinct(order) ==> order[0] !in order[1..] && Distinct(order[1..])
  {
  }

  lemma {:induction false} MovedTotal<T>(m: map<T, real>, from: T, to: T, keep: T -> bool, order: seq<T>)
    requires from != to && keep(from) == keep(to) && Distinct(order)
    ensures Total(Moved(m, from, to), keep, order) == Total(m, keep, order)
      + (if keep(to) && to in order then Get(m, from) else 0.0) - (if keep(from) && from in order then Get(m, from) else 0.0)
  {
    if order != [] {
      ListMembers(order);
      MovedTotal(m, from, to, keep, order[1..]);
    }
  }

  // Moving within a selection changes no total of it.
  lemma MovedSame<T(!new)>(m: map<T, real>, from: T, to: T, keep: T -> bool, order: seq<T>)
    requires from != to && keep(from) == keep(to) && Enumerates(order)
    ensures Total(Moved(m, from, to), keep, order) == Total(m, keep, order)
  {
    MovedTotal(m, from, to, keep, order);
  }

  lemma MovedLandings<T(!new)>(m: map<T, real>, from: T, to: T, target: T -> T, order: seq<T>)
    requires from != to && target(from) == target(to) && Enumerates(order)
    ensures forall v :: Landing(Moved(m, from, to), target, v, order) == Landing(m, target, v, order)
  {
    forall v ensures Landing(Moved(m, from, to), target, v, order) == Landing(m, target, v, order) {
      MovedSame(m, from, to, b => target(b) == v, order);
    }
  }

  // Only keys that are their own target hold tokens.
  ghost predicate Settled<T(!new)>(m: map<T, real>, target: T -> T) {
    forall b :: target(b) == b || Get(m, b) == 0.0
  }

  lemma {:induction false} SettledTotal<T(!new)>(m: map<T, real>, target: T -> T, v: T, order: seq<T>)
    requires Settled(m, target) && Distinct(order) && target(v) == v
    ensures Landing(m, target, v, order) == if v in order then Get(m, v) else 0.0
  {
    if order != [] {
      ListMembers(order);
      SettledTotal(m, target, v, order[1..]);
    }
  }

  lemma {:induction false} NothingLands<T(!new)>(m: map<T, real>, target: T -> T, v: T, order: seq<T>)
    requires forall b :: target(b) != v
    ensures Landing(m, target, v, order) == 0.0
  {
    if order != [] { NothingLands(m, target, v, order[1..]); }
  }

  // In a settled table every key holds just what lands there.
  lemma SettledLandings<T(!new)>(m: map<T, real>, target: T -> T, order: seq<T>)
    requires Settled(m, target) && Enumerates(order) && forall b :: target(target(b)) == target(b)
    ensures forall v :: Landing(m, target, v, order) == Get(m, v)
  {
    forall v ensures Landing(m, target, v, order) == Get(m, v) {
      if target(v) == v { SettledTotal(m, target, v, order); } else { NothingLands(m, target, v, order); }
    }
  }
}
