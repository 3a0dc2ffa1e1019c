/** Policy patches and Home registrations both hold the activation gate's row lock; heartbeats, retirement, fencing and
    expiry do not. However they interleave, a limiter in force has only Homes that know it. */
module ActivationProtocol {
  import opened Wrappers
  import opened PolicyPatch
  import opened HomeIncarnations

  // The transaction that holds the gate. A patch that has verified its activation also holds the
  // rows of the active Homes and of those it expires, until it ends.
  datatype GateTx = Held | Verified(credential: string, n: Normalized, expected: Option<int>, cutoff: int)

  datatype State = State(tables: Tables, homes: Homes, holder: Option<GateTx>)

  datatype Step =
    | LockGate
    | CommitRegister(ip: string, port: int, capabilities: set<string>, now: int, cutoff: int, latest: Option<int>, step: nat)
    | VerifyPatch(credential: string, n: Normalized, expected: Option<int>, cutoff: int, legacyMemberships: nat)
    | CommitPatch(credential: string, n: Normalized, expected: Option<int>)
    | CommitVerified
    | Abort
    | HeartbeatHome(id: HomeId, now: int)
    | RetireHome(id: HomeId)
    | FenceHome(id: HomeId)
    | ExpireHomes(cutoff: int)

  ghost predicate Enabled(s: State, step: Step, sqlite: bool) {
    match step
    case LockGate => s.holder.None?
    case CommitRegister(ip, port, capabilities, now, cutoff, latest, tick) =>
      && s.holder == Some(Held) && tick > 0 && Latest(s.homes, ip, port, latest)
      && Register(s.homes, ip, port, capabilities, now, cutoff, latest, tick, s.tables.gate, sqlite).Ok?
    case VerifyPatch(_, n, _, cutoff, legacyMemberships) =>
      && s.holder == Some(Held) && Storable(n) && CanActivate(n)
      && VerifyActivation(Expire(s.homes, cutoff), legacyMemberships, sqlite).None?
    case CommitPatch(_, n, _) => s.holder == Some(Held) && Storable(n) && !CanActivate(n)
    case CommitVerified => s.holder.Some? && s.holder.value.Verified?
    case Abort => s.holder.Some?
    case _ => s.holder.None? || s.holder.value.Held?
  }

  // A transaction that fails leaves everything as it was.
  function Commit(s: State, r: Result<Tables, PolicyError>, homes: Homes): State {
    match r
    case Ok(tables) => State(tables, homes, None)
    case Err(_) => s.(holder := None)
  }

  function Transition(s: State, r: Result<Homes, HomeError>): State {
    match r
    case Ok(homes) => s.(homes := homes)
    case Err(_) => s
  }

  ghost function Apply(s: State, step: Step, sqlite: bool): State
    requires Enabled(s, step, sqlite)
  {
    match step
    case LockGate => s.(holder := Some(Held))
    case CommitRegister(ip, port, capabilities, now, cutoff, latest, tick) =>
      State(s.tables, Register(s.homes, ip, port, capabilities, now, cutoff, latest, tick, s.tables.gate, sqlite).value.1, None)
    case VerifyPatch(credential, n, expected, cutoff, _) => s.(holder := Some(Verified(credential, n, expected, cutoff)))
    case CommitPatch(credential, n, expected) => Commit(s, Patch(s.tables, credential, n, expected), s.homes)
    case CommitVerified =>
      var tx := s.holder.value;
      Commit(s, Patch(s.tables, tx.credential, tx.n, tx.expected), Expire(s.homes, tx.cutoff))
    case Abort => s.(holder := None)
    case HeartbeatHome(id, now) => Transition(s, Heartbeat(s.homes, id, now))
    case RetireHome(id) => Transition(s, Retire(s.homes, id))
    case FenceHome(id) => Transition(s, Fence(s.homes, id))
    case ExpireHomes(cutoff) => s.(homes := Expire(s.homes, cutoff))
  }

  // Active policies need ready Homes; and a verified patch still has them.
  ghost predicate Inv(s: State, sqlite: bool) {
    && Agree(s.tables) && s.tables.barrier >= 0
    && (s.tables.gate > 0 ==> LimiterReady(s.homes, sqlite))
    && (s.holder.Some? && s.holder.value.Verified? ==> Storable(s.holder.value.n) && LimiterReady(Expire(s.homes,
        s.holder.value.cutoff), sqlite))
  }

  lemma CommitPatchSafe(s: State, credential: string, n: Normalized, expected: Option<int>, homes: Homes, sqlite: bool)
    requires Agree(s.tables) && s.tables.barrier >= 0 && Storable(n) && NoneNew(s.homes, homes)
    requires s.tables.gate > 0 ==> LimiterReady(s.homes, sqlite)
    requires CanActivate(n) ==> LimiterReady(homes, sqlite)
    ensures Inv(Commit(s, Patch(s.tables, credential, n, expected), homes), sqlite)
  {
    PatchAgrees(s.tables, credential, n, expected);
    var r := Patch(s.tables, credential, n, expected);
    if r.Ok? && r.value.gate > 0 {
      if s.tables.gate > 0 {
        AgedReady(s.homes, homes, sqlite);
      } else {
        ActivationCarriesLimit(s.tables, credential, n, expected);
      }
    }
  }

  lemma TransitionSafe(s: State, r: Result<Homes, HomeError>, sqlite: bool)
    requires Inv(s, sqlite) && (s.holder.None? || s.holder.value.Held?) && (r.Ok? ==> NoneNew(s.homes, r.value))
    ensures Inv(Transition(s, r), sqlite)
  {
    if r.Ok? && s.tables.gate > 0 { AgedReady(s.homes, r.value, sqlite); }
  }

  lemma StepKeepsInv(s: State, step: Step, sqlite: bool)
    requires Inv(s, sqlite) && Enabled(s, step, sqlite)
    ensures Inv(Apply(s, step, sqlite), sqlite)
  {
    match step
    case CommitRegister(ip, port, capabilities, now, cutoff, latest, tick) =>
      RegisterReady(s.homes, ip, port, capabilities, now, cutoff, latest, tick, s.tables.gate, sqlite);
    case VerifyPatch(_, _, _, cutoff, legacyMemberships) => VerifiedReady(Expire(s.homes, cutoff), legacyMemberships, sqlite);
    case CommitPatch(credential, n, expected) =>
      CommitPatchSafe(s, credential, n, expected, s.homes, sqlite);
    case CommitVerified =>
      var tx := s.holder.value;
      ExpireAges(s.homes, tx.cutoff);
      CommitPatchSafe(s, tx.credential, tx.n, tx.expected, Expire(s.homes, tx.cutoff), sqlite);
    case HeartbeatHome(id, now) =>
      TransitionsAge(s.homes, id, now);
      TransitionSafe(s, Heartbeat(s.homes, id, now), sqlite);
    case RetireHome(id) =>
      TransitionsAge(s.homes, id, 0);
      TransitionSafe(s, Retire(s.homes, id), sqlite);
    case FenceHome(id) =>
      TransitionsAge(s.homes, id, 0);
      TransitionSafe(s, Fence(s.homes, id), sqlite);
    case ExpireHomes(cutoff) =>
      ExpireAges(s.homes, cutoff);
      TransitionSafe(s, Ok(Expire(s.homes, cutoff)), sqlite);
    case _ =>
  }

  // What a committing step leaves in the tables and among the Homes.
  lemma StepStores(s: State, step: Step, sqlite: bool)
    requires Inv(s, sqlite) && Enabled(s, step, sqlite)
    ensures var s' := Apply(s, step, sqlite);
            match step
            case CommitPatch(credential, n, expected) => Stores(s, s', credential, n, expected) && s'.homes == s.homes
            case CommitVerified =>
              var tx := s.holder.value;
              && Stores(s, s', tx.credential, tx.n, tx.expected)
              && s'.homes == if Conflicts(s, tx.credential, tx.expected) then s.homes else Expire(s.homes, tx.cutoff)
            case CommitRegister(ip, port, capabilities, now, cutoff, latest, tick) =>
              && s'.tables == s.tables && s'.holder == None
              && exists id :: Register(s.homes, ip, port, capabilities, now, cutoff, latest, tick, s.tables.gate, sqlite) == Ok((id, s'.homes))
            case HeartbeatHome(id, now) => Transits(s, s', Heartbeat(s.homes, id, now))
            case RetireHome(id) => Transits(s, s', Retire(s.homes, id))
            case FenceHome(id) => Transits(s, s', Fence(s.homes, id))
            case ExpireHomes(cutoff) => s' == s.(homes := Expire(s.homes, cutoff))
            case _ => s'.tables == s.tables && s'.homes == s.homes
  {
    match step
    case CommitPatch(credential, n, expected) => PatchStores(s.tables, credential, n, expected);
    case CommitVerified => PatchStores(s.tables, s.holder.value.credential, s.holder.value.n, s.holder.value.expected);
    case CommitRegister(ip, port, capabilities, now, cutoff, latest, tick) =>
      var r := Register(s.homes, ip, port, capabilities, now, cutoff, latest, tick, s.tables.gate, sqlite);
      assert r == Ok((r.value.0, Apply(s, step, sqlite).homes));
    case _ =>
  }

  predicate Transits(s: State, s': State, r: Result<Homes, HomeError>) {
    s'.tables == s.tables && s'.holder == s.holder && s'.homes == if r.Ok? then r.value else s.homes
  }

  predicate Conflicts(s: State, credential: string, expected: Option<int>) {
    expected.Some? && expected.value != VersionOf(s.tables, credential)
  }

  ghost predicate Stores(s: State, s': State, credential: string, n: Normalized, expected: Option<int>) {
    && s'.holder == None
    && if Conflicts(s, credential, expected) || (!n.totalSet && !n.modelsSet) then s'.tables == s.tables
       else s'.tables.policies == s.tables.policies[credential := NextPolicy(s.tables, credential, n)]
  }

  // -- Runs ------------------------------------------------------------------------------

  ghost predicate Possible(s: State, steps: seq<Step>, sqlite: bool)
    decreases |steps|
  {
    steps == [] || (Enabled(s, steps[0], sqlite) && Possible(Apply(s, steps[0], sqlite), steps[1..], sqlite))
  }

  ghost function Run(s: State, steps: seq<Step>, sqlite: bool): State
    requires Possible(s, steps, sqlite)
    decreases |steps|
  {
    if steps == [] then s else Run(Apply(s, steps[0], sqlite), steps[1..], sqlite)
  }

  const EMPTY := State(Tables(map[], 0, 0), map[], None)

  // In every state that can be reached from an empty database: while any policy has a limit, every
  // active Home has the capability, and on SQLite at most one Home is active.
  lemma ActivationSafety(steps: seq<Step>, sqlite: bool)
    requires Possible(EMPTY, steps, sqlite)
    ensures var s := Run(EMPTY, steps, sqlite);
            && Agree(s.tables)
            && (ActivePolicies(s.tables) != {} ==> LimiterReady(s.homes, sqlite))
  {
    assert ActivePolicies(EMPTY.tables) == {};
    RunKeepsInv(EMPTY, steps, sqlite);
  }

  // What the Homes declared when they registered, over a run: the row a registration adds has the
  // capabilities of that registration.
  ghost function Declared(s: State, declared: map<HomeId, set<string>>, steps: seq<Step>, sqlite: bool): map<HomeId, set<string>>
    requires Possible(s, steps, sqlite)
    decreases |steps|
  {
    if steps == [] then declared
    else
      var next := Apply(s, steps[0], sqlite);
      var more := if steps[0].CommitRegister?
                  then map id | id in next.homes :: if id in declared then declared[id] else steps[0].capabilities
                  else declared;
      Declared(next, more, steps[1..], sqlite)
  }

  ghost predicate Honest(homes: Homes, declared: map<HomeId, set<string>>) {
    homes.Keys == declared.Keys && forall id :: id in homes ==> homes[id].capabilities == declared[id]
  }

  lemma StepHonest(s: State, declared: map<HomeId, set<string>>, step: Step, sqlite: bool)
    requires Inv(s, sqlite) && Enabled(s, step, sqlite) && Honest(s.homes, declared)
    ensures var next := Apply(s, step, sqlite);
            Honest(next.homes, if step.CommitRegister? then map id | id in next.homes :: if id in declared then declared[id] else step.capabilities
                               else declared)
  {
    match step
    case CommitRegister(ip, port, capabilities, now, cutoff, latest, tick) =>
      RegisterReady(s.homes, ip, port, capabilities, now, cutoff, latest, tick, s.tables.gate, sqlite);
      RegisterStores(s.homes, ip, port, capabilities, now, cutoff, latest, tick, s.tables.gate, sqlite);
    case CommitVerified => ExpireAges(s.homes, s.holder.value.cutoff);
    case HeartbeatHome(id, now) => TransitionsAge(s.homes, id, now);
    case RetireHome(id) => TransitionsAge(s.homes, id, 0);
    case FenceHome(id) => TransitionsAge(s.homes, id, 0);
    case ExpireHomes(cutoff) => ExpireAges(s.homes, cutoff);
    case _ =>
  }

  lemma {:induction false} RunHonest(s: State, declared: map<HomeId, set<string>>, steps: seq<Step>, sqlite: bool)
    requires Inv(s, sqlite) && Possible(s, steps, sqlite) && Honest(s.homes, declared)
    ensures Honest(Run(s, steps, sqlite).homes, Declared(s, declared, steps, sqlite))
    decreases |steps|
  {
    if steps != [] {
      StepKeepsInv(s, steps[0], sqlite);
      StepHonest(s, declared, steps[0], sqlite);
      var next := Apply(s, steps[0], sqlite);
      RunHonest(next, if steps[0].CommitRegister?
                      then map id | id in next.homes :: if id in declared then declared[id] else steps[0].capabilities
                      else declared, steps[1..], sqlite);
    }
  }

  // So the safety above is about what the Homes themselves have declared: while a policy has a limit,
  // every active Home registered with the capability.
  lemma DeclaredSafety(steps: seq<Step>, sqlite: bool)
    requires Possible(EMPTY, steps, sqlite)
    ensures var s, declared := Run(EMPTY, steps, sqlite), Declared(EMPTY, map[], steps, sqlite);
            && declared.Keys == s.homes.Keys
            && (ActivePolicies(s.tables) != {} ==> forall id :: id in ActiveHomes(s.homes) ==> LIMITER in declared[id])
  {
    ActivationSafety(steps, sqlite);
    assert ActivePolicies(EMPTY.tables) == {};
    RunHonest(EMPTY, map[], steps, sqlite);
  }

  // And a limiter does get into force: with a Home that declares the capability, a patch with a limit
  // is verified and committed.
  lemma ActivationHappens(credential: string, n: Normalized, sqlite: bool)
    requires Storable(n) && n.total.Some?
    ensures var steps := [LockGate, CommitRegister("home", 1, {LIMITER}, 0, 0, None, 1), LockGate,
                          VerifyPatch(credential, n, None, 0, 0), CommitVerified];
            Possible(EMPTY, steps, sqlite) && credential in ActivePolicies(Run(EMPTY, steps, sqlite).tables)
  {
    var register := CommitRegister("home", 1, {LIMITER}, 0, 0, None, 1);
    var verify := VerifyPatch(credential, n, None, 0, 0);
    var steps := [LockGate, register, LockGate, verify, CommitVerified];
    var s1 := Apply(EMPTY, LockGate, sqlite);
    var s2 := Apply(s1, register, sqlite);
    var id := HomeId("home", 1, 0);
    assert s2.homes == map[id := Home(0, Active, {LIMITER})];
    assert ActiveHomes(Expire(s2.homes, 0)) == {id};
    VerifiedReady(Expire(s2.homes, 0), 0, sqlite);
    var s3 := Apply(s2, LockGate, sqlite);
    var s4 := Apply(s3, verify, sqlite);
    var s5 := Apply(s4, CommitVerified, sqlite);
    assert steps[1..] == [register, LockGate, verify, CommitVerified] && steps[1..][1..] == [LockGate, verify, CommitVerified];
    assert steps[1..][1..][1..] == [verify, CommitVerified] && steps[1..][1..][1..][1..] == [CommitVerified];
    assert [CommitVerified][1..] == [];
    assert Possible(s5, [], sqlite) && Run(s5, [], sqlite) == s5;
    assert Possible(s4, [CommitVerified], sqlite) && Run(s4, [CommitVerified], sqlite) == s5;
    assert Possible(s3, [verify, CommitVerified], sqlite) && Run(s3, [verify, CommitVerified], sqlite) == s5;
    assert Possible(s2, steps[1..][1..], sqlite) && Run(s2, steps[1..][1..], sqlite) == s5;
    assert Possible(s1, steps[1..], sqlite) && Run(s1, steps[1..], sqlite) == s5;
  }

  lemma {:induction false} RunKeepsInv(s: State, steps: seq<Step>, sqlite: bool)
    requires Inv(s, sqlite) && Possible(s, steps, sqlite)
    ensures Inv(Run(s, steps, sqlite), sqlite)
    decreases |steps|
  {
    if steps != [] {
      StepKeepsInv(s, steps[0], sqlite);
      RunKeepsInv(Apply(s, steps[0], sqlite), steps[1..], sqlite);
    }
  }
}
