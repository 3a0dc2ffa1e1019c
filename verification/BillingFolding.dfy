/** FoldTokens: token buckets that a program does not refer to are moved into coarser ones before it is
    evaluated. Every token ends in the nearest bucket above its own that the program uses or, failing that,
    among plain input or output; none is lost, and folding twice is folding once. */
module BillingFolding {
  import opened BillingCarving
  import opened TokenTotals

  // -- Where a token ends ----------------------------------------------------------------

  // The next coarser bucket. 12-hour cache writes prefer the longest retention that is priced.
  function Parent(uses: set<Bucket>, b: Bucket): Bucket {
    match b
    case CC12H => if CC1H in uses then CC1H else if CC30M in uses then CC30M else CC
    case CC1H => if CC30M in uses then CC30M else CC
    case CC30M => CC
    case CT => CR
    case IMG_CR => CR
    case ACR => CR
    case _ => Root(b)
  }

  function Height(b: Bucket): nat {
    match b
    case P => 0
    case C => 0
    case CC12H => 4
    case CC1H => 3
    case CC30M => 2
    case CT => 2
    case IMG_CR => 2
    case ACR => 2
    case _ => 1
  }

  predicate Settles(uses: set<Bucket>, b: Bucket) { b in uses || b == P || b == C }

  function Target(uses: set<Bucket>, b: Bucket): (t: Bucket)
    ensures Settles(uses, t) && Root(t) == Root(b)
    decreases Height(b)
  {
    if Settles(uses, b) then b else Target(uses, Parent(uses, b))
  }

  // The tokens of one family, input (P) or output (C).
  function Family(m: map<Bucket, real>, root: Bucket, order: seq<Bucket>): real { Total(m, Rooted(root), order) }

  function Rooted(root: Bucket): Bucket -> bool { b => Root(b) == root }

  // Where each bucket's tokens end, for programs that use these buckets.
  function Targets(uses: set<Bucket>): Bucket -> Bucket { b => Target(uses, b) }

  lemma TargetsSettle(uses: set<Bucket>)
    ensures forall b :: Targets(uses)(Targets(uses)(b)) == Targets(uses)(b)
    ensures forall b :: Settles(uses, b) <==> Targets(uses)(b) == b
  {
  }

  // -- The imperative fold ---------------------------------------------------------------

  // Where folding has got to: the destinations hold what they will, and the buckets done are empty unless used.
  ghost predicate Folding(start: map<Bucket, real>, m: map<Bucket, real>, uses: set<Bucket>, done: set<Bucket>, order: seq<Bucket>) {
    && Enumerates(order)
    && (forall v :: Landing(m, Targets(uses), v, order) == Landing(start, Targets(uses), v, order))
    && (forall root :: Family(m, root, order) == Family(start, root, order))
    && (forall b :: b in done ==> b in uses || Get(m, b) == 0.0)
  }

  lemma ParentTarget(uses: set<Bucket>, b: Bucket)
    requires Height(b) > 0
    ensures b != Parent(uses, b) && Root(b) == Root(Parent(uses, b))
    ensures b !in uses ==> Target(uses, b) == Target(uses, Parent(uses, b))
  {
  }

  lemma MoveKeeps(start: map<Bucket, real>, m: map<Bucket, real>, uses: set<Bucket>, from: Bucket, to: Bucket,
      done: set<Bucket>, order: seq<Bucket>)
    requires Height(from) > 0 && to == Parent(uses, from) != from && from !in uses && to !in done && Folding(start, m, uses, done, order)
    ensures Folding(start, Moved(m, from, to), uses, done + {from}, order)
  {
    ParentTarget(uses, from);
    MovedLandings(m, from, to, Targets(uses), order);
    forall root ensures Family(Moved(m, from, to), root, order) == Family(m, root, order) {
      MovedSame(m, from, to, Rooted(root), order);
    }
  }

  lemma MoveSkipped(start: map<Bucket, real>, m: map<Bucket, real>, uses: set<Bucket>, from: Bucket, done: set<Bucket>, order: seq<Bucket>)
    requires from in uses && Folding(start, m, uses, done, order)
    ensures Folding(start, m, uses, done + {from}, order)
  {
  }

  const CACHE_WRITES: set<Bucket> := {CC12H, CC1H, CC30M}
  const CACHES: set<Bucket> := {CT, IMG_CR, ACR, CC, CR}
  const MEDIA: set<Bucket> := {IMG, AI, VI, FI}
  const OUTPUTS: set<Bucket> := {IMGO, AO, VO, R}

  lemma FoldingDone(start: map<Bucket, real>, m: map<Bucket, real>, uses: set<Bucket>, done: set<Bucket>, order: seq<Bucket>)
    requires Folding(start, m, uses, done, order) && forall b :: b in done || b == P || b == C
    ensures forall v :: Get(m, v) == Landing(start, Targets(uses), v, order)
    ensures forall b :: Settles(uses, b) || Get(m, b) == 0.0
  {
    TargetsSettle(uses);
    SettledLandings(m, Targets(uses), order);
  }

  class TokenTable {
    var numbers: map<Bucket, real>

    constructor (numbers: map<Bucket, real>)
      ensures this.numbers == numbers
    {
      this.numbers := numbers;
    }

    method Move(uses: set<Bucket>, from: Bucket, to: Bucket, ghost start: map<Bucket, real>, ghost done: set<Bucket>,
        ghost order: seq<Bucket>)
      requires Height(from) > 0 && from != to == Parent(uses, from) && to !in done && Folding(start, numbers, uses, done, order)
      modifies this
      ensures Folding(start, numbers, uses, done + {from}, order)
    {
      if from in uses {
        MoveSkipped(start, numbers, uses, from, done, order);
        return;
      }
      MoveKeeps(start, numbers, uses, from, to, done, order);
      ghost var moved := Moved(numbers, from, to);
      numbers := numbers[to := Get(numbers, to) + Get(numbers, from)];
      numbers := numbers[from := 0.0];
      assert numbers == moved;
    }

    // Every bucket ends with the tokens whose destination it is, and only used buckets and the
    // roots keep any.
    method FoldTokens(uses: set<Bucket>, ghost order: seq<Bucket>)
      requires Enumerates(order)
      modifies this
      ensures forall v :: Get(numbers, v) == Landing(old(numbers), Targets(uses), v, order)
      ensures forall b :: Settles(uses, b) || Get(numbers, b) == 0.0
      ensures forall root :: Family(numbers, root, order) == Family(old(numbers), root, order)
    {
      ghost var start := numbers;
      FoldCacheWrites(uses, start, order);
      FoldCaches(uses, start, CACHE_WRITES, order);
      FoldMedia(uses, start, CACHE_WRITES + CACHES, order);
      FoldingDone(start, numbers, uses, CACHE_WRITES + CACHES + MEDIA + OUTPUTS, order);
    }

    method FoldCaches(uses: set<Bucket>, ghost start: map<Bucket, real>, ghost done: set<Bucket>, ghost order: seq<Bucket>)
      requires P !in done && CC !in done && CR !in done && Folding(start, numbers, uses, done, order)
      modifies this
      ensures Folding(start, numbers, uses, done + CACHES, order)
    {
      Move(uses, CT, CR, start, done, order);
      Move(uses, IMG_CR, CR, start, done + {CT}, order);
      Move(uses, ACR, CR, start, done + {CT} + {IMG_CR}, order);
      Move(uses, CC, P, start, done + {CT} + {IMG_CR} + {ACR}, order);
      Move(uses, CR, P, start, done + {CT} + {IMG_CR} + {ACR} + {CC}, order);
      assert done + {CT} + {IMG_CR} + {ACR} + {CC} + {CR} == done + CACHES;
    }

    method FoldCacheWrites(uses: set<Bucket>, ghost start: map<Bucket, real>, ghost order: seq<Bucket>)
      requires Enumerates(order) && numbers == start
      modifies this
      ensures Folding(start, numbers, uses, CACHE_WRITES, order)
    {
      if CC1H in uses {
        Move(uses, CC12H, CC1H, start, {}, order);
      } else if CC30M in uses {
        Move(uses, CC12H, CC30M, start, {}, order);
      } else {
        Move(uses, CC12H, CC, start, {}, order);
      }
      if CC30M in uses {
        Move(uses, CC1H, CC30M, start, {CC12H}, order);
      } else {
        Move(uses, CC1H, CC, start, {CC12H}, order);
      }
      Move(uses, CC30M, CC, start, {CC12H, CC1H}, order);
    }

    method FoldMedia(uses: set<Bucket>, ghost start: map<Bucket, real>, ghost done: set<Bucket>, ghost order: seq<Bucket>)
      requires P !in done && C !in done && Folding(start, numbers, uses, done, order)
      modifies this
      ensures Folding(start, numbers, uses, done + MEDIA + OUTPUTS, order)
    {
      Move(uses, IMG, P, start, done, order);
      Move(uses, AI, P, start, done + {IMG}, order);
      Move(uses, VI, P, start, done + {IMG} + {AI}, order);
      Move(uses, FI, P, start, done + {IMG} + {AI} + {VI}, order);
      assert done + {IMG} + {AI} + {VI} + {FI} == done + MEDIA;
      ghost var input := done + MEDIA;
      Move(uses, IMGO, C, start, input, order);
      Move(uses, AO, C, start, input + {IMGO}, order);
      Move(uses, VO, C, start, input + {IMGO} + {AO}, order);
      Move(uses, R, C, start, input + {IMGO} + {AO} + {VO}, order);
      assert input + {IMGO} + {AO} + {VO} + {R} == input + OUTPUTS;
    }
  }

  // Folding a second time changes nothing: what a settled table holds lands where it is.
  lemma FoldTwice(first: map<Bucket, real>, second: map<Bucket, real>, uses: set<Bucket>, order: seq<Bucket>)
    requires Enumerates(order) && forall b :: Settles(uses, b) || Get(first, b) == 0.0
    requires forall v :: Get(second, v) == Landing(first, Targets(uses), v, order)
    ensures forall v :: Get(second, v) == Get(first, v)
  {
    TargetsSettle(uses);
    SettledLandings(first, Targets(uses), order);
  }

  // -- Conservation from the report to the evaluated table ---------------------------------

  function Order(): seq<Bucket> { [P, IMG, AI] + ([VI, FI, IMG_CR] + ([ACR, CT, CR] + ([CC, CC30M, CC1H] + ([CC12H, C, R]
      + ([IMGO, AO, VO] + []))))) }

  lemma OrderEnumerates()
    ensures Enumerates(Order())
  {
    var order := [P, IMG, AI, VI, FI, IMG_CR, ACR, CT, CR, CC, CC30M, CC1H, CC12H, C, R, IMGO, AO, VO];
    assert Order() == order;
    forall b: Bucket ensures b in order {
      assert order[Place(b)] == b;
    }
  }

  function Place(b: Bucket): nat {
    match b
    case P => 0 case IMG => 1 case AI => 2 case VI => 3 case FI => 4 case IMG_CR => 5 case ACR => 6 case CT => 7 case CR => 8
    case CC => 9 case CC30M => 10 case CC1H => 11 case CC12H => 12 case C => 13 case R => 14 case IMGO => 15 case AO => 16 case VO => 17
  }

  // What billingExpressionTokens hands to FoldTokens, with the buckets' variables for keys.
  function Table(b: Breakdown, d: Details): map<Bucket, real> {
    map bucket: Bucket | true :: Count(b, d, bucket) as real
  }

  function AllPicks(m: map<Bucket, real>, keep: Bucket -> bool): real {
    Pick(m, keep, P) + Pick(m, keep, IMG) + Pick(m, keep, AI) + Pick(m, keep, VI) + Pick(m, keep, FI) + Pick(m, keep, IMG_CR)
    + Pick(m, keep, ACR) + Pick(m, keep, CT) + Pick(m, keep, CR) + Pick(m, keep, CC) + Pick(m, keep, CC30M) + Pick(m, keep, CC1H)
    + Pick(m, keep, CC12H) + Pick(m, keep, C) + Pick(m, keep, R) + Pick(m, keep, IMGO) + Pick(m, keep, AO) + Pick(m, keep, VO)
  }

  // What is needed of a list of all buckets to add up a table.
  ghost predicate SumsUp(order: seq<Bucket>) { forall m, keep :: Total(m, keep, order) == AllPicks(m, keep) }

  lemma OrderSumsUp()
    ensures SumsUp(Order())
  {
    forall m, keep ensures Total(m, keep, Order()) == AllPicks(m, keep) {
      TotalOfTable(m, keep);
    }
  }

  lemma TotalOfTable(m: map<Bucket, real>, keep: Bucket -> bool)
    ensures Total(m, keep, Order()) == AllPicks(m, keep)
  {
    var e := [CC12H, C, R] + ([IMGO, AO, VO] + []);
    var c := [ACR, CT, CR] + ([CC, CC30M, CC1H] + e);
    TotalThree(m, keep, IMGO, AO, VO, []);
    TotalThree(m, keep, CC12H, C, R, [IMGO, AO, VO] + []);
    TotalThree(m, keep, CC, CC30M, CC1H, e);
    TotalThree(m, keep, ACR, CT, CR, [CC, CC30M, CC1H] + e);
    TotalThree(m, keep, VI, FI, IMG_CR, c);
    TotalThree(m, keep, P, IMG, AI, [VI, FI, IMG_CR] + c);
  }

  // keep picks the buckets of one family.
  ghost predicate Picks(keep: Bucket -> bool, root: Bucket) { forall b :: keep(b) <==> Root(b) == root }

  lemma RootedPicks(root: Bucket)
    ensures Picks(Rooted(root), root)
  {
  }

  // Counts per bucket that add up to a report.
  ghost predicate AddUp(m: map<Bucket, real>, count: Bucket -> int, input: int, output: int) {
    && (forall x :: Get(m, x) == count(x) as real)
    && count(P) + count(IMG) + count(AI) + count(VI) + count(FI) + count(IMG_CR) + count(ACR)
       + count(CT) + count(CR) + count(CC) + count(CC30M) + count(CC1H) + count(CC12H) == input
    && count(C) + count(R) + count(IMGO) + count(AO) + count(VO) == output
  }

  lemma InputAddsUp(m: map<Bucket, real>, count: Bucket -> int, input: int, output: int, keep: Bucket -> bool)
    requires AddUp(m, count, input, output) && Picks(keep, P)
    ensures AllPicks(m, keep) == input as real
  {
  }

  lemma OutputAddsUp(m: map<Bucket, real>, count: Bucket -> int, input: int, output: int, keep: Bucket -> bool)
    requires AddUp(m, count, input, output) && Picks(keep, C)
    ensures AllPicks(m, keep) == output as real
  {
  }

  function Counts(b: Breakdown, d: Details): Bucket -> int { x => Count(b, d, x) }

  lemma TableAddsUp(b: Breakdown, d: Details)
    ensures AddUp(Table(b, d), Counts(b, d), b.Input(), b.Output())
  {
    CountsAdd(b, d);
  }

  // The buckets of one family add up to what the report says.
  lemma TableFamilies(b: Breakdown, d: Details, order: seq<Bucket>)
    requires SumsUp(order)
    ensures Family(Table(b, d), P, order) == b.Input() as real
    ensures Family(Table(b, d), C, order) == b.Output() as real
  {
    TableAddsUp(b, d);
    RootedPicks(P);
    RootedPicks(C);
    InputAddsUp(Table(b, d), Counts(b, d), b.Input(), b.Output(), Rooted(P));
    OutputAddsUp(Table(b, d), Counts(b, d), b.Input(), b.Output(), Rooted(C));
  }

  // The tokens of a bucket an expression is evaluated on.
  function Folded(b: Breakdown, d: Details, uses: set<Bucket>, bucket: Bucket): real {
    Landing(Table(b, d), Targets(uses), bucket, Order())
  }

  // -- Where tokens land, said without the way there -----------------------------------------

  // How long a cache write is kept, in minutes; 0 for what is no cache write.
  function Retention(b: Bucket): nat { match b case CC12H => 720 case CC1H => 60 case CC30M => 30 case CC => 5 case _ => 0 }

  const CACHED: set<Bucket> := {CT, IMG_CR, ACR}

  // A cache write lands in the used cache write of the greatest retention that is no longer than its own; cached
  // text and media land in plain cache reads if those are used; what finds no place so lands in its root.
  ghost predicate Lands(uses: set<Bucket>, b: Bucket, t: Bucket) {
    if b in uses then t == b
    else if Retention(b) > 0 then
      if exists w :: w in uses && 0 < Retention(w) <= Retention(b)
      then t in uses && 0 < Retention(t) <= Retention(b)
           && forall w :: w in uses && 0 < Retention(w) <= Retention(b) ==> Retention(w) <= Retention(t)
      else t == P
    else if b in CACHED && CR in uses then t == CR
    else t == Root(b)
  }

  lemma TargetLands(uses: set<Bucket>, b: Bucket)
    ensures Lands(uses, b, Target(uses, b))
  {
    match b
    case CC12H => WriteLands(uses, CC12H);
    case CC1H => WriteLands(uses, CC1H);
    case CC30M => WriteLands(uses, CC30M);
    case CC => WriteLands(uses, CC);
    case _ =>
  }

  lemma WriteLands(uses: set<Bucket>, b: Bucket)
    requires Retention(b) > 0
    ensures Lands(uses, b, Target(uses, b))
  {
    assert Retention(CC12H) == 720 && Retention(CC1H) == 60 && Retention(CC30M) == 30 && Retention(CC) == 5;
    assert Parent(uses, CC) == P && Target(uses, CC) == if CC in uses then CC else P;
    assert Target(uses, CC30M) == if CC30M in uses then CC30M else Target(uses, CC);
    assert Target(uses, CC1H) == if CC1H in uses then CC1H else Target(uses, CC30M);
    assert Target(uses, CC12H) == if CC12H in uses then CC12H else Target(uses, CC1H);
    if w :| w in uses && 0 < Retention(w) <= Retention(b) {
      assert w in {CC12H, CC1H, CC30M, CC};
    }
  }

  // The tokens of a bucket if the program does not use it, and otherwise none.
  function Loose(b: Breakdown, d: Details, uses: set<Bucket>, bucket: Bucket): int { if bucket in uses then 0 else Count(b, d, bucket) }

  lemma TableHolds(b: Breakdown, d: Details, x: Bucket)
    ensures Get(Table(b, d), x) == Count(b, d, x) as real
  {
  }

  // A bucket in which exactly these end has their tokens.
  lemma FoldedAre(b: Breakdown, d: Details, uses: set<Bucket>, v: Bucket, list: seq<Bucket>)
    requires Distinct(list) && forall x :: Lands(uses, x, v) <==> x in list
    ensures Folded(b, d, uses, v) == Listed(Table(b, d), list)
  {
    forall x ensures Targets(uses)(x) == v <==> x in list {
      TargetLands(uses, x);
      if x in list { LandsOnce(uses, x, v, Target(uses, x)); }
    }
    OrderEnumerates();
    LandingSame(Table(b, d), Targets(uses), v, x => x in list, Order());
    TotalListed(Table(b, d), x => x in list, list, Order());
  }

  lemma ListedOne(b: Breakdown, d: Details, x: Bucket, rest: seq<Bucket>)
    ensures Listed(Table(b, d), [x] + rest) == Count(b, d, x) as real + Listed(Table(b, d), rest)
  {
    assert ([x] + rest)[1..] == rest;
    TableHolds(b, d, x);
  }

  lemma ListedFew(b: Breakdown, d: Details, w: Bucket, x: Bucket, y: Bucket, z: Bucket)
    ensures Listed(Table(b, d), [w]) == Count(b, d, w) as real
    ensures Listed(Table(b, d), [w, x]) == (Count(b, d, w) + Count(b, d, x)) as real
    ensures Listed(Table(b, d), [w, x, y]) == (Count(b, d, w) + Count(b, d, x) + Count(b, d, y)) as real
    ensures Listed(Table(b, d), [w, x, y, z]) == (Count(b, d, w) + Count(b, d, x) + Count(b, d, y) + Count(b, d, z)) as real
  {
    ListedOne(b, d, w, []);
    ListedOne(b, d, x, []);
    ListedOne(b, d, y, []);
    ListedOne(b, d, z, []);
    ListedOne(b, d, w, [x]);
    ListedOne(b, d, x, [y]);
    ListedOne(b, d, y, [z]);
    ListedOne(b, d, w, [x, y]);
    ListedOne(b, d, x, [y, z]);
    ListedOne(b, d, w, [x, y, z]);
    assert [w] + [] == [w] && [x] + [] == [x] && [y] + [] == [y] && [z] + [] == [z];
    assert [w] + [x] == [w, x] && [x] + [y] == [x, y] && [y] + [z] == [y, z];
    assert [w] + [x, y] == [w, x, y] && [x] + [y, z] == [x, y, z] && [w] + [x, y, z] == [w, x, y, z];
  }

  // The cache writes that end in a used one: its own tokens and those of the unused ones of longer
  // retention, up to the next used one.
  function From(uses: set<Bucket>, v: Bucket): seq<Bucket> {
    match v
    case CC1H => if CC12H in uses then [CC1H] else [CC1H, CC12H]
    case CC30M => if CC1H in uses then [CC30M] else if CC12H in uses then [CC30M, CC1H] else [CC30M, CC1H, CC12H]
    case CC =>
      if CC30M in uses then [CC] else if CC1H in uses then [CC, CC30M] else if CC12H in uses then [CC, CC30M, CC1H]
      else [CC, CC30M, CC1H, CC12H]
    case _ => [v]
  }

  lemma FoldedFrom(b: Breakdown, d: Details, uses: set<Bucket>, v: Bucket)
    requires v in uses && Retention(v) > 0
    ensures Folded(b, d, uses, v) == Listed(Table(b, d), From(uses, v))
  {
    FoldedAre(b, d, uses, v, From(uses, v));
  }

  // The cache-write part of the folded table. So 12-hour tokens are billed as one-hour ones exactly if those are used and
  // 12-hour ones are not.
  lemma FoldedWrites(b: Breakdown, d: Details, uses: set<Bucket>)
    ensures var kept12h := Loose(b, d, uses, CC12H);
            var kept1h := if CC1H in uses then 0 else Count(b, d, CC1H) + kept12h;
            var kept30m := if CC30M in uses then 0 else Count(b, d, CC30M) + kept1h;
            && (CC12H in uses ==> Folded(b, d, uses, CC12H) == Count(b, d, CC12H) as real)
            && (CC1H in uses ==> Folded(b, d, uses, CC1H) == (Count(b, d, CC1H) + kept12h) as real)
            && (CC30M in uses ==> Folded(b, d, uses, CC30M) == (Count(b, d, CC30M) + kept1h) as real)
            && (CC in uses ==> Folded(b, d, uses, CC) == (Count(b, d, CC) + kept30m) as real)
  {
    if CC12H in uses { FoldedFrom(b, d, uses, CC12H); }
    if CC1H in uses { FoldedFrom(b, d, uses, CC1H); }
    if CC30M in uses { FoldedFrom(b, d, uses, CC30M); }
    if CC in uses { FoldedFrom(b, d, uses, CC); }
    ListedFew(b, d, CC, CC30M, CC1H, CC12H);
    ListedFew(b, d, CC30M, CC1H, CC12H, CC12H);
    ListedFew(b, d, CC1H, CC12H, CC12H, CC12H);
    ListedFew(b, d, CC12H, CC12H, CC12H, CC12H);
  }

  // The unused ones of a list.
  function Unused(uses: set<Bucket>, list: seq<Bucket>): seq<Bucket> {
    if list == [] then [] else (if list[0] in uses then [] else [list[0]]) + Unused(uses, list[1..])
  }

  lemma ListedUnused(b: Breakdown, d: Details, uses: set<Bucket>, list: seq<Bucket>)
    requires list != []
    ensures Listed(Table(b, d), Unused(uses, list)) ==
            Loose(b, d, uses, list[0]) as real + Listed(Table(b, d), Unused(uses, list[1..]))
  {
    ListedOne(b, d, list[0], Unused(uses, list[1..]));
    assert [] + Unused(uses, list[1..]) == Unused(uses, list[1..]);
  }

  lemma {:induction false} UnusedMembers(uses: set<Bucket>, list: seq<Bucket>)
    requires Distinct(list)
    ensures Distinct(Unused(uses, list)) && forall x :: x in Unused(uses, list) <==> x in list && x !in uses
  {
    if list != [] {
      ListMembers(list);
      UnusedMembers(uses, list[1..]);
      var rest := Unused(uses, list[1..]);
      assert list[0] !in rest;
      if list[0] in uses { assert [] + rest == rest; } else { assert ([list[0]] + rest)[1..] == rest; }
    }
  }

  lemma LooseThree(b: Breakdown, d: Details, uses: set<Bucket>, x: Bucket, y: Bucket, z: Bucket)
    requires Distinct([x, y, z])
    ensures Listed(Table(b, d), Unused(uses, [x, y, z])) == (Loose(b, d, uses, x) + Loose(b, d, uses, y) + Loose(b, d, uses, z)) as real
  {
    assert [x, y, z][1..] == [y, z] && [y, z][1..] == [z] && [z][1..] == [];
    ListedUnused(b, d, uses, [x, y, z]);
    ListedUnused(b, d, uses, [y, z]);
    ListedUnused(b, d, uses, [z]);
  }

  // A bucket that ends with its own tokens and those of the unused ones of some kinds.
  lemma FoldedWith(b: Breakdown, d: Details, uses: set<Bucket>, v: Bucket, kinds: seq<Bucket>)
    requires v !in kinds && Distinct(kinds) && forall x :: Lands(uses, x, v) <==> x == v || (x in kinds && x !in uses)
    ensures Folded(b, d, uses, v) == Count(b, d, v) as real + Listed(Table(b, d), Unused(uses, kinds))
  {
    UnusedMembers(uses, kinds);
    ListedOne(b, d, v, Unused(uses, kinds));
    FoldedAre(b, d, uses, v, [v] + Unused(uses, kinds));
  }

  const READ_KINDS: seq<Bucket> := [CT, IMG_CR, ACR]

  const OUTPUT_KINDS: seq<Bucket> := [R, IMGO, AO, VO]

  lemma KindsLand(uses: set<Bucket>)
    ensures CR in uses ==> forall x :: Lands(uses, x, CR) <==> x == CR || (x in READ_KINDS && x !in uses)
    ensures forall x :: Lands(uses, x, C) <==> x == C || (x in OUTPUT_KINDS && x !in uses)
  {
  }

  // Plain cache reads end with their own tokens and those of the unused kinds of cache reads.
  lemma FoldedReads(b: Breakdown, d: Details, uses: set<Bucket>)
    requires CR in uses
    ensures Folded(b, d, uses, CR) == (Count(b, d, CR) + Loose(b, d, uses, CT) + Loose(b, d, uses, IMG_CR) + Loose(b, d, uses, ACR)) as real
  {
    KindsLand(uses);
    FoldedWith(b, d, uses, CR, READ_KINDS);
    LooseThree(b, d, uses, CT, IMG_CR, ACR);
  }

  // A medium or a finer kind that is used ends with its own tokens.
  lemma FoldedOwn(b: Breakdown, d: Details, uses: set<Bucket>, v: Bucket)
    requires v in uses && v in {CT, IMG_CR, ACR, IMG, AI, VI, FI, R, IMGO, AO, VO}
    ensures Folded(b, d, uses, v) == Count(b, d, v) as real
  {
    FoldedAre(b, d, uses, v, [v]);
    ListedFew(b, d, v, v, v, v);
  }

  // Plain output ends with the output of the kinds that are not used.
  lemma FoldedOutput(b: Breakdown, d: Details, uses: set<Bucket>)
    ensures Folded(b, d, uses, C) == (Count(b, d, C) + Loose(b, d, uses, R) + Loose(b, d, uses, IMGO) + Loose(b, d, uses, AO)
                                      + Loose(b, d, uses, VO)) as real
  {
    KindsLand(uses);
    FoldedWith(b, d, uses, C, OUTPUT_KINDS);
    LooseFour(b, d, uses);
  }

  lemma LooseFour(b: Breakdown, d: Details, uses: set<Bucket>)
    ensures Listed(Table(b, d), Unused(uses, OUTPUT_KINDS)) ==
      (Loose(b, d, uses, R) + Loose(b, d, uses, IMGO) + Loose(b, d, uses, AO) + Loose(b, d, uses, VO)) as real
  {
    assert OUTPUT_KINDS[1..] == [IMGO, AO, VO];
    ListedUnused(b, d, uses, OUTPUT_KINDS);
    LooseThree(b, d, uses, IMGO, AO, VO);
  }

  lemma LandsOnce(uses: set<Bucket>, b: Bucket, s: Bucket, t: Bucket)
    requires Lands(uses, b, s) && Lands(uses, b, t)
    ensures s == t
  {
  }

  // The table an expression is evaluated on: every bucket holds what lands there, no bucket is negative, only
  // buckets the program uses and plain input and output hold any, and together they hold the reported totals.
  method ExpressionTokens(b: Breakdown, d: Details, uses: set<Bucket>) returns (numbers: map<Bucket, real>)
    ensures forall bucket :: Get(numbers, bucket) == Folded(b, d, uses, bucket) >= 0.0
    ensures forall bucket :: Settles(uses, bucket) || Get(numbers, bucket) == 0.0
    ensures Family(numbers, P, Order()) == b.Input() as real
    ensures Family(numbers, C, Order()) == b.Output() as real
  {
    var table := new TokenTable(Table(b, d));
    OrderEnumerates();
    table.FoldTokens(uses, Order());
    OrderSumsUp();
    TableFamilies(b, d, Order());
    numbers := table.numbers;
    TableNatural(b, d);
    forall bucket ensures Get(numbers, bucket) >= 0.0 {
      LandingNatural(Table(b, d), Targets(uses), bucket, Order());
    }
  }

  lemma TableNatural(b: Breakdown, d: Details)
    ensures forall bucket :: Get(Table(b, d), bucket) >= 0.0
  {
    forall bucket ensures Get(Table(b, d), bucket) >= 0.0 {
      CountNatural(b, d, bucket);
    }
  }
}
