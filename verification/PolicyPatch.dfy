/** Concurrency policies: normalising a patch, and applying it to the policy rows together with the counters derived
    from them, the number of active policies and the barrier revision. */
module PolicyPatch {
  import opened Wrappers

  const MAX_CONFIGURED_LIMIT: int := 1_000_000

  datatype PolicyError = InvalidModel | DuplicateModel | InvalidLimit | InvalidMaximum | VersionConflict | NegativeCount

  // -- Normalisation ---------------------------------------------------------------------

  datatype OptionalLimit = OmittedLimit | NullLimit | LimitValue(value: int)

  // A model map, in the order in which its entries happen to be visited.
  datatype OptionalModels = OmittedModels | NullModels | ModelValues(entries: seq<(string, Option<int>)>)

  datatype Normalized = Normalized(totalSet: bool, total: Option<int>, modelsSet: bool, models: map<string, int>)

  function ValidateLimit(limit: int, maximum: int): Option<PolicyError> {
    if maximum < 1 || maximum > MAX_CONFIGURED_LIMIT then Some(InvalidMaximum)
    else if limit < 0 || limit > maximum then Some(InvalidLimit)
    else None
  }

  // canonical is the model key a raw name stands for, None if it stands for none.
  predicate ValidEntry(canonical: string -> Option<string>, entry: (string, Option<int>), maximum: int) {
    canonical(entry.0).Some?
    && (entry.1.None? || entry.1.value == 0 || (1 <= maximum <= MAX_CONFIGURED_LIMIT && 0 <= entry.1.value <= maximum))
  }

  ghost predicate Repeats(canonical: string -> Option<string>, entries: seq<(string, Option<int>)>) {
    exists i, j :: 0 <= i < j < |entries| && canonical(entries[i].0) == canonical(entries[j].0)
  }

  ghost predicate Acceptable(canonical: string -> Option<string>, entries: seq<(string, Option<int>)>, maximum: int) {
    (forall e :: e in entries ==> ValidEntry(canonical, e, maximum)) && !Repeats(canonical, entries)
  }

  function LimitOf(entry: (string, Option<int>)): int { if entry.1.None? then 0 else entry.1.value }

  // Some entry gives this model a positive limit.
  ghost predicate Names(canonical: string -> Option<string>, entries: seq<(string, Option<int>)>, model: string, limit: int) {
    exists e :: e in entries && canonical(e.0) == Some(model) && LimitOf(e) == limit
  }

  // models holds exactly the positive limits of the entries, under their canonical names.
  ghost predicate Keeps(canonical: string -> Option<string>, entries: seq<(string, Option<int>)>, models: map<string, int>) {
    && (forall model :: model in models ==> models[model] > 0 && Names(canonical, entries, model, models[model]))
    && (forall e :: e in entries && LimitOf(e) > 0 ==>
          canonical(e.0).Some? && canonical(e.0).value in models && models[canonical(e.0).value] == LimitOf(e))
  }

  // The error is one that some entry has.
  ghost predicate Blames(canonical: string -> Option<string>, entries: seq<(string, Option<int>)>, maximum: int, error: PolicyError) {
    match error
    case InvalidModel => exists e :: e in entries && canonical(e.0).None?
    case DuplicateModel => Repeats(canonical, entries)
    case InvalidMaximum => !(1 <= maximum <= MAX_CONFIGURED_LIMIT)
    case InvalidLimit => exists e :: e in entries && e.1.Some? && !(0 <= e.1.value <= maximum)
    case _ => false
  }

  // Accepted exactly if every entry is valid and no two name one model.
  method NormalizeModels(canonical: string -> Option<string>, entries: seq<(string, Option<int>)>, maximum: int)
    returns (r: Result<map<string, int>, PolicyError>)
    ensures r.Ok? <==> Acceptable(canonical, entries, maximum)
    ensures r.Err? ==> Blames(canonical, entries, maximum, r.error)
    ensures r.Ok? ==> Keeps(canonical, entries, r.value)
    ensures r.Ok? ==> forall model :: model in r.value ==> r.value[model] <= maximum <= MAX_CONFIGURED_LIMIT
  {
    var models: map<string, int> := map[];
    var i := 0;
    while i < |entries|
      invariant 0 <= i <= |entries|
      invariant Acceptable(canonical, entries[..i], maximum)
      invariant forall model :: model in models ==> Names(canonical, entries[..i], model, models[model])
      invariant forall e :: e in entries[..i] ==> canonical(e.0).value in models && models[canonical(e.0).value] == LimitOf(e)
    {
      var entry := entries[i];
      assert entry in entries && entries[..i + 1] == entries[..i] + [entry];
      if canonical(entry.0).None? { return Err(InvalidModel); }
      var model := canonical(entry.0).value;
      if model in models {
        AlreadyNamed(canonical, entries, i, model, models[model]);
        return Err(DuplicateModel);
      }
      NotRepeated(canonical, entries, i);
      if entry.1.None? || entry.1.value == 0 {
        models := models[model := 0];
      } else {
        var invalid := ValidateLimit(entry.1.value, maximum);
        if invalid.Some? { return Err(invalid.value); }
        models := models[model := entry.1.value];
      }
      i := i + 1;
    }
    assert entries[..|entries|] == entries;
    r := Ok(map model | model in models && models[model] != 0 :: models[model]);
  }

  lemma AlreadyNamed(canonical: string -> Option<string>, entries: seq<(string, Option<int>)>, i: nat, model: string, limit: int)
    requires i < |entries| && canonical(entries[i].0) == Some(model) && Names(canonical, entries[..i], model, limit)
    ensures Repeats(canonical, entries)
  {
    var e :| e in entries[..i] && canonical(e.0) == Some(model);
    var j :| 0 <= j < i && entries[..i][j] == e;
    assert canonical(entries[j].0) == canonical(entries[i].0);
  }

  lemma NotRepeated(canonical: string -> Option<string>, entries: seq<(string, Option<int>)>, i: nat)
    requires i < |entries| && !Repeats(canonical, entries[..i])
    requires forall e :: e in entries[..i] ==> canonical(e.0) != canonical(entries[i].0)
    ensures !Repeats(canonical, entries[..i + 1])
  {
    var next := entries[..i + 1];
    forall a, b | 0 <= a < b < |next| ensures canonical(next[a].0) != canonical(next[b].0) {
      assert entries[..i][a] == next[a];
      if b < i { assert entries[..i][b] == next[b]; }
    }
  }

  // A normalised patch only holds limits that may be stored.
  ghost predicate Storable(n: Normalized) {
    && (n.total.Some? ==> n.totalSet && 0 < n.total.value <= MAX_CONFIGURED_LIMIT)
    && (n.models != map[] ==> n.modelsSet)
    && forall model :: model in n.models ==> 0 < n.models[model] <= MAX_CONFIGURED_LIMIT
  }

  method Normalize(canonical: string -> Option<string>, total: OptionalLimit, models: OptionalModels,
      maximum: int) returns (r: Result<Normalized, PolicyError>)
    ensures r.Ok? <==> (total.LimitValue? ==> 1 <= maximum <= MAX_CONFIGURED_LIMIT && 0 <= total.value <= maximum)
                       && (models.ModelValues? ==> Acceptable(canonical, models.entries, maximum))
    ensures total.LimitValue? && !(1 <= maximum <= MAX_CONFIGURED_LIMIT) ==> r == Err(InvalidMaximum)
    ensures total.LimitValue? && 1 <= maximum <= MAX_CONFIGURED_LIMIT && !(0 <= total.value <= maximum) ==> r == Err(InvalidLimit)
    ensures r.Ok? ==> Storable(r.value) && r.value.totalSet == !total.OmittedLimit? && r.value.modelsSet == !models.OmittedModels?
    ensures r.Ok? ==> r.value.total == if total.LimitValue? && total.value > 0 then Some(total.value) else None
    ensures r.Ok? ==> if models.ModelValues? then Keeps(canonical, models.entries, r.value.models) else r.value.models == map[]
  {
    var next: Option<int> := None;
    if total.LimitValue? {
      var invalid := ValidateLimit(total.value, maximum);
      if invalid.Some? { return Err(invalid.value); }
      if total.value > 0 { next := Some(total.value); }
    }
    if !models.ModelValues? { return Ok(Normalized(!total.OmittedLimit?, next, !models.OmittedModels?, map[])); }
    var normalized := NormalizeModels(canonical, models.entries, maximum);
    if normalized.Err? { return Err(normalized.error); }
    r := Ok(Normalized(!total.OmittedLimit?, next, true, normalized.value));
  }

  predicate CanActivate(n: Normalized) { n.total.Some? || n.models != map[] }

  // -- The tables ------------------------------------------------------------------------

  datatype Policy = Policy(total: Option<int>, models: map<string, int>, version: int, barrier: int)

  datatype Tables = Tables(policies: map<string, Policy>, barrier: int, gate: int)

  predicate Limits(p: Policy) { p.total.Some? || p.models != map[] }

  predicate ActiveIn(t: Tables, credential: string) { credential in t.policies && Limits(t.policies[credential]) }

  function ActivePolicies(t: Tables): set<string> { set credential | credential in t.policies && Limits(t.policies[credential]) }

  // Applies a normalised patch. expected is the version the caller wants to replace, 0 for none.
  function Patch(t: Tables, credential: string, n: Normalized, expected: Option<int>): Result<Tables, PolicyError> {
    var current := if credential in t.policies then t.policies[credential] else Policy(None, map[], 0, 0);
    if expected.Some? && expected.value != current.version then Err(VersionConflict)
    else if !n.totalSet && !n.modelsSet then Ok(t)
    else
      var next := Policy(if n.totalSet then n.total else current.total, if n.modelsSet then n.models else current.models,
          current.version + 1, t.barrier + 1);
      var gate := t.gate + (if Limits(next) then 1 else 0) - (if ActiveIn(t, credential) then 1 else 0);
      if gate < 0 && Limits(next) != ActiveIn(t, credential) then Err(NegativeCount)
      else Ok(Tables(t.policies[credential := next], t.barrier + 1, gate))
  }

  // Every limit is positive and bounded; the gate counts the active policies; barrier revisions are
  // distinct and no larger than the global one.
  ghost predicate Agree(t: Tables) {
    && t.gate == |ActivePolicies(t)|
    && (forall credential :: credential in t.policies ==> Stored(t.policies[credential]) && 0 < t.policies[credential].barrier <= t.barrier)
    && (forall a, b :: a in t.policies && b in t.policies && a != b ==> t.policies[a].barrier != t.policies[b].barrier)
  }

  ghost predicate Stored(p: Policy) {
    && (p.total.Some? ==> 0 < p.total.value <= MAX_CONFIGURED_LIMIT) && p.version > 0
    && forall model :: model in p.models ==> 0 < p.models[model] <= MAX_CONFIGURED_LIMIT
  }

  // How storing one row changes the number of active policies.
  lemma CountStored(policies: map<string, Policy>, credential: string, p: Policy, t: Tables, t': Tables)
    requires t.policies == policies && t'.policies == policies[credential := p]
    ensures |ActivePolicies(t')| == |ActivePolicies(t)| + (if Limits(p) then 1 else 0) - (if ActiveIn(t, credential) then 1 else 0)
  {
    var before := ActivePolicies(t);
    var others := before - {credential};
    assert ActivePolicies(t') == if Limits(p) then others + {credential} else others;
    if credential in before { assert before == others + {credential}; } else { assert before == others; }
  }

  // The row a patch stores.
  function NextPolicy(t: Tables, credential: string, n: Normalized): Policy {
    var current := if credential in t.policies then t.policies[credential] else Policy(None, map[], 0, 0);
    Policy(if n.totalSet then n.total else current.total, if n.modelsSet then n.models else current.models, current.version
        + 1, t.barrier + 1)
  }

  function VersionOf(t: Tables, credential: string): int { if credential in t.policies then t.policies[credential].version else 0 }

  // A patch fails exactly for the wrong version. Otherwise one that sets nothing changes nothing, and any
  // other stores the next row, raises the barrier to that row's revision, and moves the gate by the
  // change in the number of active policies.
  lemma PatchStores(t: Tables, credential: string, n: Normalized, expected: Option<int>)
    requires Agree(t)
    ensures match Patch(t, credential, n, expected)
            case Err(e) => e == VersionConflict && expected.Some? && expected.value != VersionOf(t, credential)
            case Ok(t') =>
              && (expected.Some? ==> expected.value == VersionOf(t, credential))
              && if !n.totalSet && !n.modelsSet then t' == t
                 else t'.policies == t.policies[credential := NextPolicy(t, credential, n)] && t'.barrier == t.barrier + 1
                      && t'.gate == |ActivePolicies(t')|
  {
    var next := NextPolicy(t, credential, n);
    CountStored(t.policies, credential, next, t, Tables(t.policies[credential := next], t.barrier + 1, 0));
    assert ActivePolicies(Tables(t.policies[credential := next], t.barrier + 1, 0)) ==
           ActivePolicies(Tables(t.policies[credential := next], t.barrier + 1, t.gate
               + (if Limits(next) then 1 else 0) - (if ActiveIn(t, credential) then 1 else 0)));
  }

  lemma StoredAgrees(t: Tables, credential: string, next: Policy, gate: int)
    requires Agree(t) && t.barrier >= 0 && Stored(next) && next.barrier == t.barrier + 1
    requires gate == |ActivePolicies(Tables(t.policies[credential := next], t.barrier + 1, gate))|
    ensures Agree(Tables(t.policies[credential := next], t.barrier + 1, gate))
  {
  }

  lemma NextStored(t: Tables, credential: string, n: Normalized)
    requires Agree(t) && t.barrier >= 0 && Storable(n)
    ensures Stored(NextPolicy(t, credential, n))
  {
  }

  // Every patch keeps the derived counters in agreement, and versions and the barrier rise by one.
  lemma PatchAgrees(t: Tables, credential: string, n: Normalized, expected: Option<int>)
    requires Agree(t) && t.barrier >= 0 && Storable(n)
    ensures match Patch(t, credential, n, expected)
            case Err(e) => e == VersionConflict
            case Ok(t') => Agree(t') && t'.barrier >= 0 && if !n.totalSet && !n.modelsSet then t' == t else Rises(t, t', credential)
  {
    PatchStores(t, credential, n, expected);
    var r := Patch(t, credential, n, expected);
    if r.Ok? && (n.totalSet || n.modelsSet) {
      NextStored(t, credential, n);
      StoredAgrees(t, credential, NextPolicy(t, credential, n), r.value.gate);
    }
  }

  ghost predicate Rises(t: Tables, t': Tables, credential: string) {
    && t'.barrier == t.barrier + 1 && credential in t'.policies && t'.policies[credential].barrier == t'.barrier
    && t'.policies[credential].version == 1 + VersionOf(t, credential)
    && t'.policies - {credential} == t.policies - {credential}
  }

  // What a patch stores, part by part: what it sets replaces what was there, what it omits stays.
  lemma PatchSets(t: Tables, credential: string, n: Normalized, expected: Option<int>)
    requires Agree(t) && Patch(t, credential, n, expected).Ok?
    ensures var t' := Patch(t, credential, n, expected).value;
            if !n.totalSet && !n.modelsSet then t' == t
            else
              && credential in t'.policies
              && t'.policies[credential].total ==
                   (if n.totalSet then n.total else if credential in t.policies then t.policies[credential].total else None)
              && t'.policies[credential].models ==
                   (if n.modelsSet then n.models else if credential in t.policies then t.policies[credential].models else map[])
              && t'.policies[credential].version == (if credential in t.policies then t.policies[credential].version else 0) + 1
              && t'.policies[credential].barrier == t'.barrier == t.barrier + 1
              && t'.policies - {credential} == t.policies - {credential}
  {
    PatchStores(t, credential, n, expected);
  }

  // A first limit can only come from the patch itself.
  lemma ActivationCarriesLimit(t: Tables, credential: string, n: Normalized, expected: Option<int>)
    requires Agree(t) && Storable(n) && t.gate == 0
    requires Patch(t, credential, n, expected).Ok? && Patch(t, credential, n, expected).value.gate > 0
    ensures CanActivate(n)
  {
    PatchStores(t, credential, n, expected);
    assert credential !in ActivePolicies(t);
  }

  class PolicyStore {
    var policies: map<string, Policy>
    var barrier: int
    var gate: int

    function Rows(): Tables
      reads this
    {
      Tables(policies, barrier, gate)
    }

    // The writes of a patch whose activation, if it has one, has been verified.
    method ApplyPatch(credential: string, n: Normalized, expected: Option<int>) returns (error: Option<PolicyError>)
      requires Agree(Rows()) && barrier >= 0 && Storable(n)
      modifies this
      ensures match Patch(old(Rows()), credential, n, expected)
              case Ok(t) => error == None && Rows() == t
              case Err(e) => error == Some(e) && Rows() == old(Rows())
    {
      PatchAgrees(Rows(), credential, n, expected);
      var exist := credential in policies;
      var record := if exist then policies[credential] else Policy(None, map[], 0, 0);
      if expected.Some? && expected.value != record.version { return Some(VersionConflict); }
      if !n.totalSet && !n.modelsSet { return None; }
      var total := if n.totalSet then n.total else record.total;
      var models := if n.modelsSet then n.models else record.models;
      var nextActive := total.Some? || models != map[];
      var currentActive := exist && (record.total.Some? || record.models != map[]);
      barrier := barrier + 1;
      policies := policies[credential := Policy(total, models, record.version + 1, barrier)];
      if currentActive != nextActive {
        gate := if nextActive then gate + 1 else gate - 1;
      }
      error := None;
    }
  }
}
