/** The amount of an expression charge, from the usage report to the evaluated program: the program's variables decide
    which token buckets are folded, and the folded buckets are the numbers it is evaluated with. */
module BillingTokens {
  import opened Wrappers
  import opened BillingLexer
  import opened BillingSyntax
  import opened BillingEval
  import opened BillingCarving
  import opened BillingFolding
  import opened TokenTotals
  import Program = BillingProgram

  // The variable of a bucket.
  function NameOf(b: Bucket): string {
    match b
    case P => "p" case C => "c" case R => "r" case CR => "cr" case CC => "cc" case CC30M => "cc30m" case CC1H => "cc1h"
    case CC12H => "cc12h" case IMG => "img" case IMGO => "imgo" case AI => "ai" case AO => "ao" case VI => "vi" case VO => "vo"
    case FI => "fi" case IMG_CR => "img_cr" case ACR => "acr" case CT => "ct"
  }

  function BucketOf(name: string): (b: Option<Bucket>)
    ensures b.Some? ==> NameOf(b.value) == name
  {
    if name == "p" then Some(P) else if name == "c" then Some(C) else if name == "r" then Some(R)
    else if name == "cr" then Some(CR) else if name == "cc" then Some(CC) else if name == "cc30m" then Some(CC30M)
    else if name == "cc1h" then Some(CC1H) else if name == "cc12h" then Some(CC12H) else if name == "img" then Some(IMG)
    else if name == "imgo" then Some(IMGO) else if name == "ai" then Some(AI) else if name == "ao" then Some(AO)
    else if name == "vi" then Some(VI) else if name == "vo" then Some(VO) else if name == "fi" then Some(FI)
    else if name == "img_cr" then Some(IMG_CR) else if name == "acr" then Some(ACR) else if name == "ct" then Some(CT)
    else None
  }

  // The names are distinct, and none of them is req.
  lemma NamesBack(b: Bucket)
    ensures BucketOf(NameOf(b)) == Some(b) && BucketOf("req") == None
  {
  }

  // The buckets a program refers to.
  function Used(root: Node): set<Bucket> { set b: Bucket | NameOf(b) in Vars(root) }

  // The numbers with the buckets filled in.
  function Filled(others: map<string, real>, table: map<Bucket, real>): (numbers: map<string, real>) {
    others + map name | name in (set b: Bucket | true :: NameOf(b)) :: if BucketOf(name).Some? then Get(table, BucketOf(name).value) else 0.0
  }

  // Every bucket's variable has the folded tokens of its bucket, and every other number is what it was.
  ghost predicate FoldsTo(others: map<string, real>, numbers: map<string, real>, b: Breakdown, d: Details, uses: set<Bucket>) {
    && (forall bucket :: NameOf(bucket) in numbers && numbers[NameOf(bucket)] == Folded(b, d, uses, bucket))
    && (forall name :: BucketOf(name) == None ==> (name in numbers <==> name in others) && (name in others ==> numbers[name] == others[name]))
  }

  lemma FilledFolds(others: map<string, real>, table: map<Bucket, real>, b: Breakdown, d: Details, uses: set<Bucket>)
    requires forall bucket :: Get(table, bucket) == Folded(b, d, uses, bucket)
    ensures FoldsTo(others, Filled(others, table), b, d, uses)
  {
    forall bucket ensures NameOf(bucket) in Filled(others, table) && Filled(others, table)[NameOf(bucket)] == Folded(b, d, uses, bucket) {
      NamesBack(bucket);
    }
    forall name | BucketOf(name) == None ensures name !in (set b: Bucket | true :: NameOf(b)) {
      forall bucket: Bucket ensures NameOf(bucket) != name { NamesBack(bucket); }
    }
  }

  datatype ChargeError = CompileFailed(error: Program.CompileError) | EvalFailed(evalError: EvalError)

  // billingExpressionChargeCost up to the amount: compile, fill and fold the buckets, evaluate.
  method ExpressionAmount(rt: Runtime, text: string, b: Breakdown, d: Details, env: Env)
    returns (r: Result<(real, string), ChargeError>, numbers: map<string, real>)
    ensures match Program.Compile(rt, text)
            case Err(e) => r == Err(CompileFailed(e))
            case Ok(tree) =>
              var root := Erase(rt, tree);
              && FoldsTo(env.numbers, numbers, b, d, Used(root))
              && (forall bucket :: numbers[NameOf(bucket)] > 0.0 ==> NameOf(bucket) in Vars(root) || bucket == P || bucket == C)
              && match EvalUSD(rt, env.(numbers := numbers), root)
                 case Err(e) => r == Err(EvalFailed(e))
                 case Ok(amount) => r == Ok(amount)
  {
    numbers := env.numbers;
    var program := Program.CompileProgram(rt, text);
    if program.Err? { return Err(CompileFailed(program.error)), numbers; }
    var uses := set b: Bucket | NameOf(b) in program.value.uses;
    var table := ExpressionTokens(b, d, uses);
    numbers := Filled(env.numbers, table);
    FilledFolds(env.numbers, table, b, d, uses);
    forall bucket | numbers[NameOf(bucket)] > 0.0 ensures bucket in uses || bucket == P || bucket == C {
      assert Settles(uses, bucket) || Get(table, bucket) == 0.0;
    }
    var amount := EvalUSD(rt, env.(numbers := numbers), program.value.root);
    r := if amount.Err? then Err(EvalFailed(amount.error)) else Ok(amount.value);
  }

  // The variables of a program read what a coherent report says: a variable that is used has its own detail.
  lemma ReportedNumbers(root: Node, others: map<string, real>, numbers: map<string, real>, b: Breakdown, d: Details)
    requires FoldsTo(others, numbers, b, d, Used(root)) && Coherent(b.uncached, b.cacheRead, d) && CoherentRest(b, d)
    ensures "img" in Vars(root) ==> Get(numbers, "img") == (d.imageInput - d.imageCacheRead) as real
    ensures "ai" in Vars(root) ==> Get(numbers, "ai") == (d.audioInput - d.audioCacheRead) as real
    ensures "vi" in Vars(root) ==> Get(numbers, "vi") == d.videoInput as real
    ensures "fi" in Vars(root) ==> Get(numbers, "fi") == d.fileInput as real
    ensures "img_cr" in Vars(root) ==> Get(numbers, "img_cr") == d.imageCacheRead as real
    ensures "acr" in Vars(root) ==> Get(numbers, "acr") == d.audioCacheRead as real
    ensures "ct" in Vars(root) ==> Get(numbers, "ct") == d.cachedText as real
    ensures "r" in Vars(root) ==> Get(numbers, "r") == b.reasoning as real
    ensures "imgo" in Vars(root) ==> Get(numbers, "imgo") == d.imageOutput as real
    ensures "ao" in Vars(root) ==> Get(numbers, "ao") == d.audioOutput as real
    ensures "vo" in Vars(root) ==> Get(numbers, "vo") == d.videoOutput as real
    ensures "cc12h" in Vars(root) ==> Get(numbers, "cc12h") == d.cacheWrite12h as real
    ensures {"cc12h", "cc1h"} <= Vars(root) ==> Get(numbers, "cc1h") == d.cacheWrite1h as real
    ensures {"cc1h", "cc30m"} <= Vars(root) ==> Get(numbers, "cc30m") == d.cacheWrite30m as real
    ensures {"cc30m", "cc"} <= Vars(root) ==>
              Get(numbers, "cc") == (b.cacheWrite - d.cacheWrite30m - d.cacheWrite1h - d.cacheWrite12h) as real
  {
    var uses := Used(root);
    CountsReported(b, d);
    FoldedWrites(b, d, uses);
    forall v | v in uses && v in {CT, IMG_CR, ACR, IMG, AI, VI, FI, R, IMGO, AO, VO} ensures Folded(b, d, uses, v) == Count(b, d, v) as real {
      FoldedOwn(b, d, uses, v);
    }
    forall v: Bucket ensures NameOf(v) in Vars(root) ==> v in uses {}
    NamesAre();
  }

  // The names, as programs spell them.
  lemma NamesAre()
    ensures NameOf(IMG) == "img" && NameOf(AI) == "ai" && NameOf(VI) == "vi" && NameOf(FI) == "fi" && NameOf(IMG_CR) == "img_cr"
    ensures NameOf(ACR) == "acr" && NameOf(CT) == "ct" && NameOf(R) == "r" && NameOf(IMGO) == "imgo" && NameOf(AO) == "ao" && NameOf(VO) == "vo"
    ensures NameOf(CC12H) == "cc12h" && NameOf(CC1H) == "cc1h" && NameOf(CC30M) == "cc30m" && NameOf(CC) == "cc"
    ensures NameOf(P) == "p" && NameOf(C) == "c" && NameOf(CR) == "cr"
  {
  }

  // -- What the amount depends on --------------------------------------------------------------

  // Reports that put the same tokens into the buckets a program refers to cost the same.
  lemma SameBuckets(rt: Runtime, root: Node, env: Env, n1: map<string, real>, b1: Breakdown, d1: Details,
      n2: map<string, real>, b2: Breakdown, d2: Details)
    requires FoldsTo(env.numbers, n1, b1, d1, Used(root)) && FoldsTo(env.numbers, n2, b2, d2, Used(root))
    requires forall bucket :: bucket in Used(root) ==> Folded(b1, d1, Used(root), bucket) == Folded(b2, d2, Used(root), bucket)
    ensures EvalUSD(rt, env.(numbers := n1), root) == EvalUSD(rt, env.(numbers := n2), root)
  {
    var e1, e2 := env.(numbers := n1), env.(numbers := n2);
    NamesBack(P);
    forall name | name in Vars(root) ensures e1.NumberOf(name) == e2.NumberOf(name) {
      if BucketOf(name).Some? { assert BucketOf(name).value in Used(root) && NameOf(BucketOf(name).value) == name; }
    }
    EvalDepends(rt, e1, e2, root, "");
  }

  lemma PlainLanding(b: Breakdown, d: Details, uses: set<Bucket>, root: Bucket)
    requires uses <= {P, C}
    ensures Folded(b, d, uses, root) == Family(Table(b, d), root, Order())
  {
    forall x ensures Targets(uses)(x) == root <==> Rooted(root)(x) {
      TargetPlain(uses, x);
    }
    LandingSame(Table(b, d), Targets(uses), root, Rooted(root), Order());
  }

  // Without finer buckets every input token counts as plain input and every output token as plain output.
  lemma PlainFolds(b: Breakdown, d: Details, uses: set<Bucket>)
    requires uses <= {P, C}
    ensures Folded(b, d, uses, P) == b.Input() as real && Folded(b, d, uses, C) == b.Output() as real
  {
    PlainLanding(b, d, uses, P);
    PlainLanding(b, d, uses, C);
    OrderSumsUp();
    TableFamilies(b, d, Order());
  }

  lemma TargetPlain(uses: set<Bucket>, x: Bucket)
    requires uses <= {P, C}
    ensures Target(uses, x) == Root(x)
  {
    assert Settles(uses, Target(uses, x));
  }

  // So a program that refers to p and c only costs the same whatever the details say: every reported
  // input token is billed as p and every output token as c.
  lemma PlainAmount(rt: Runtime, root: Node, env: Env, numbers: map<string, real>, b: Breakdown, d: Details)
    requires Used(root) <= {P, C} && FoldsTo(env.numbers, numbers, b, d, Used(root))
    ensures EvalUSD(rt, env.(numbers := numbers), root) ==
            EvalUSD(rt, env.(numbers := env.numbers["p" := b.Input() as real]["c" := b.Output() as real]), root)
  {
    var plain := env.numbers["p" := b.Input() as real]["c" := b.Output() as real];
    var e1, e2 := env.(numbers := numbers), env.(numbers := plain);
    PlainFolds(b, d, Used(root));
    NamesBack(P);
    NamesBack(C);
    forall name | name in Vars(root) ensures e1.NumberOf(name) == e2.NumberOf(name) {
      PlainNumber(root, env.numbers, numbers, b, d, name);
    }
    EvalDepends(rt, e1, e2, root, "");
  }

  lemma PlainNumber(root: Node, others: map<string, real>, numbers: map<string, real>, b: Breakdown, d: Details, name: string)
    requires Used(root) <= {P, C} && FoldsTo(others, numbers, b, d, Used(root)) && name in Vars(root)
    requires Folded(b, d, Used(root), P) == b.Input() as real && Folded(b, d, Used(root), C) == b.Output() as real
    ensures Get(numbers, name) == Get(others["p" := b.Input() as real]["c" := b.Output() as real], name)
  {
    if BucketOf(name).Some? {
      assert BucketOf(name).value in Used(root) && NameOf(BucketOf(name).value) == name;
    } else {
      NamesBack(P);
      NamesBack(C);
    }
  }
}
