/** The limiter's tables and its whole transactions, each all-or-nothing. */
module LimiterTables {
  import opened Wrappers
  import opened TableSums
  import opened Limiter
  import opened LimiterProtocol

  datatype Admission = Unaccounted | Accounted | Refused(error: LimiterError)

  // A row of the grouped query ReadConcurrencyState starts from.
  datatype Group = Group(credential: string, model: string, minimum: int, active: int)

  // The grouped rows of a table: each pair once, with its total and its least row, and every row in some group.
  ghost predicate Groups(counters: Counters, groups: seq<Group>) {
    && (forall i, j :: 0 <= i < j < |groups| ==> groups[i].credential != groups[j].credential || groups[i].model != groups[j].model)
    && (forall i :: 0 <= i < |groups| ==> groups[i].active == ModelTotal(counters, groups[i].credential, groups[i].model))
    && (forall key :: key in counters ==> key.model in ModelsOf(groups, key.credential))
    && (forall g, key ::
        g in groups && key in counters && g.credential == key.credential && g.model == key.model
        ==> g.minimum <= counters[key].active)
    && (forall g :: g in groups ==> Attained(counters, g))
  }

  ghost predicate Attained(counters: Counters, g: Group) {
    exists key :: key in counters && key.credential == g.credential && key.model == g.model && counters[key].active == g.minimum
  }

  // Rows or totals that cannot be reported: a negative row, or a credential's total beyond int64.
  ghost predicate Corrupt(counters: Counters) {
    exists key :: key in counters && (counters[key].active < 0 || CredentialTotal(counters, key.credential) > MAX_INT64)
  }

  // A negative least row or total of a group comes from a negative row.
  lemma NegativeCorrupt(counters: Counters, groups: seq<Group>, g: Group)
    requires Groups(counters, groups) && g in groups && (g.minimum < 0 || g.active < 0)
    ensures Corrupt(counters)
  {
    assert Attained(counters, g);
    if g.minimum >= 0 && forall key :: key in counters ==> counters[key].active >= 0 {
      SumDelete(counters, {}, (key: Key, counter: Counter) => if key.credential == g.credential && key.model == g.model then counter.active else 0);
    }
  }

  // Groups without negative values and totals within int64 come from rows that can be reported.
  lemma Reportable(counters: Counters, groups: seq<Group>)
    requires Groups(counters, groups) && forall g :: g in groups ==> g.minimum >= 0
    requires forall credential :: CredentialTotal(counters, credential) <= MAX_INT64
    ensures !Corrupt(counters)
  {
    forall key | key in counters ensures counters[key].active >= 0 {
      var g :| g in groups && g.credential == key.credential && g.model == key.model;
    }
  }

  // What a credential's rows outside some models hold.
  ghost function Rest(counters: Counters, credential: string, seen: set<string>): int {
    Sum(counters, (key: Key, counter: Counter) => if key.credential == credential && key.model !in seen then counter.active else 0)
  }

  ghost function ModelsOf(groups: seq<Group>, credential: string): set<string> {
    set g | g in groups && g.credential == credential :: g.model
  }

  lemma RestSplits(counters: Counters, credential: string, seen: set<string>, model: string)
    requires model !in seen
    ensures Rest(counters, credential, seen) == ModelTotal(counters, credential, model) + Rest(counters, credential, seen + {model})
  {
    SumAdds(counters, (key: Key, counter: Counter) => if key.credential == credential && key.model == model then counter.active else 0,
            (key: Key, counter: Counter) => if key.credential == credential && key.model !in seen + {model} then counter.active else 0,
            (key: Key, counter: Counter) => if key.credential == credential && key.model !in seen then counter.active else 0);
  }

  lemma RestEnds(counters: Counters, credential: string, seen: set<string>)
    requires forall key :: key in counters && key.credential == credential ==> key.model in seen
    ensures Rest(counters, credential, seen) == 0
  {
    SumZero(counters, (key: Key, counter: Counter) => if key.credential == credential && key.model !in seen then counter.active else 0);
  }

  lemma RestStarts(counters: Counters, credential: string)
    ensures Rest(counters, credential, {}) == CredentialTotal(counters, credential)
  {
    var none: set<string> := {};
    SumSame(counters, (key: Key, counter: Counter) => if key.credential == credential && key.model !in none then counter.active else 0,
            (key: Key, counter: Counter) => if key.credential == credential then counter.active else 0);
  }

  lemma RestNatural(counters: Counters, groups: seq<Group>, credential: string, seen: set<string>)
    requires Groups(counters, groups) && forall g :: g in groups ==> g.minimum >= 0
    ensures Rest(counters, credential, seen) >= 0
  {
    forall key | key in counters ensures counters[key].active >= 0 {
      var g :| g in groups && g.credential == key.credential && g.model == key.model;
    }
    SumDelete(counters, {}, (key: Key, counter: Counter) => if key.credential == credential
        && key.model !in seen then counter.active else 0);
  }

  function Total(totals: map<string, int>, credential: string): int { if credential in totals then totals[credential] else 0 }

  // The first i groups have been added up.
  ghost predicate Counting(counters: Counters, groups: seq<Group>, i: nat, totals: map<string, int>) {
    && i <= |groups|
    && forall credential :: Total(totals, credential) + Rest(counters, credential, ModelsOf(groups[..i], credential))
        == CredentialTotal(counters, credential)
  }

  lemma CountingStarts(counters: Counters, groups: seq<Group>)
    ensures Counting(counters, groups, 0, map[])
  {
    forall credential ensures Rest(counters, credential, ModelsOf(groups[..0], credential)) == CredentialTotal(counters, credential) {
      assert ModelsOf(groups[..0], credential) == {};
      RestStarts(counters, credential);
    }
  }

  lemma ModelsGrow(groups: seq<Group>, i: nat, credential: string)
    requires i < |groups|
    ensures ModelsOf(groups[..i + 1], credential) == ModelsOf(groups[..i], credential) + (if groups[i].credential
        == credential then {groups[i].model} else {})
  {
    assert groups[..i + 1] == groups[..i] + [groups[i]];
  }

  lemma CountingStep(counters: Counters, groups: seq<Group>, i: nat, totals: map<string, int>)
    requires Groups(counters, groups) && i < |groups| && Counting(counters, groups, i, totals)
    ensures Counting(counters, groups, i + 1, totals[groups[i].credential := Total(totals, groups[i].credential) + groups[i].active])
  {
    var g := groups[i];
    var next := totals[g.credential := Total(totals, g.credential) + g.active];
    forall credential
      ensures Total(next, credential) + Rest(counters, credential, ModelsOf(groups[..i + 1], credential))
          == CredentialTotal(counters, credential)
    {
      ModelsGrow(groups, i, credential);
      if credential == g.credential {
        assert g.model !in ModelsOf(groups[..i], credential);
        RestSplits(counters, credential, ModelsOf(groups[..i], credential), g.model);
      } else {
        assert ModelsOf(groups[..i + 1], credential) == ModelsOf(groups[..i], credential);
      }
    }
  }

  lemma CountingEnds(counters: Counters, groups: seq<Group>, totals: map<string, int>)
    requires Groups(counters, groups) && Counting(counters, groups, |groups|, totals)
    ensures forall credential :: Total(totals, credential) == CredentialTotal(counters, credential)
  {
    assert groups[..|groups|] == groups;
    forall credential ensures Total(totals, credential) == CredentialTotal(counters, credential) {
      RestEnds(counters, credential, ModelsOf(groups, credential));
    }
  }

  // A partial total beyond int64 means that the table cannot be reported.
  lemma OverflowCorrupt(counters: Counters, groups: seq<Group>, i: nat, totals: map<string, int>)
    requires Groups(counters, groups) && i < |groups| && Counting(counters, groups, i, totals)
    requires Total(totals, groups[i].credential) + groups[i].active > MAX_INT64
    ensures Corrupt(counters)
  {
    if forall g :: g in groups ==> g.minimum >= 0 {
      CountingStep(counters, groups, i, totals);
      RestNatural(counters, groups, groups[i].credential, ModelsOf(groups[..i + 1], groups[i].credential));
      assert groups[i] in groups && Attained(counters, groups[i]);
    } else {
      var g :| g in groups && g.minimum < 0;
      NegativeCorrupt(counters, groups, g);
    }
  }

  // -- Admission as one transaction --------------------------------------------------------

  // The answer of the totals query of an admission.
  datatype Counts = Counts(minimum: int, total: int, modelTotal: int)

  ghost predicate Answers(counters: Counters, key: Key, counts: Counts) {
    && counts.total == CredentialTotal(counters, key.credential) && counts.modelTotal == ModelTotal(counters, key.credential, key.model)
    && (counts.minimum < 0 <==> exists k :: k in counters && k.credential == key.credential && counters[k].active < 0)
  }

  function AdmitOutcome(policy: Option<Policy>, counters: Counters, req: Request, counts: Counts): (Admission, Counters) {
    if Unlimited(policy, req.key.model) then (Unaccounted, counters)
    else if req.protocol != 1 then (Refused(ProtocolRequired), counters)
    else if counts.minimum < 0 || counts.total < 0 || counts.modelTotal < 0 then (Refused(TrackerUnavailable), counters)
    else match Verdict(policy, req.key.model, counts.total, counts.modelTotal)
      case Some(e) => (Refused(e), counters)
      case None =>
        match Increment(counters, req.key)
        case Err(e) => (Refused(e), counters)
        case Ok(next) => (Accounted, next)
  }

  // A counted admission raises both totals by one, to no more than their limits.
  lemma AdmitCounts(policy: Option<Policy>, counters: Counters, req: Request, counts: Counts)
    requires Answers(counters, req.key, counts) && AdmitOutcome(policy, counters, req, counts).0.Accounted?
    ensures var next := AdmitOutcome(policy, counters, req, counts).1;
            && CredentialTotal(next, req.key.credential) == counts.total + 1
            && ModelTotal(next, req.key.credential, req.key.model) == counts.modelTotal + 1
            && (CredentialLimit(policy) > 0 ==> counts.total + 1 <= CredentialLimit(policy))
            && (ModelLimit(policy, req.key.model) > 0 ==> counts.modelTotal + 1 <= ModelLimit(policy, req.key.model))
  {
    var next := Increment(counters, req.key).value;
    assert next == counters[req.key := next[req.key]];
    TotalSet(counters, req.key, next[req.key], req.key.credential, req.key.model);
  }

  // Exactly when an admission is counted, unaccounted or refused for want of room: a request is
  // counted if and only if a limit applies, it speaks the protocol, the counters are sound, both
  // totals are below their limits, and the row can still count.
  lemma AdmitExact(policy: Option<Policy>, counters: Counters, req: Request, counts: Counts)
    ensures var limit := if policy.Some? && policy.value.limit.Some? && policy.value.limit.value > 0 then policy.value.limit.value else 0;
            var modelLimit := if policy.Some? && req.key.model in policy.value.models && policy.value.models[req.key.model] > 0
                              then policy.value.models[req.key.model] else 0;
            var sound := req.protocol == 1 && counts.minimum >= 0 && counts.total >= 0 && counts.modelTotal >= 0;
            var (r, after) := AdmitOutcome(policy, counters, req, counts);
            && (r.Unaccounted? <==> limit == 0 && modelLimit == 0)
            && (r == Refused(CredentialExceeded) <==> sound && limit > 0 && counts.total >= limit)
            && (r == Refused(ModelExceeded)
                <==> sound && (limit == 0 || counts.total < limit) && modelLimit > 0 && counts.modelTotal >= modelLimit)
            && (r.Accounted? <==> sound && (limit > 0 || modelLimit > 0) && (limit == 0 || counts.total < limit)
                                  && (modelLimit == 0 || counts.modelTotal < modelLimit)
                                  && (req.key in counters ==> 0 <= counters[req.key].active < MAX_INT64))
            && (r == Refused(ProtocolRequired) <==> (limit > 0 || modelLimit > 0) && req.protocol != 1)
            && (r.Refused? ==> r.error in {ProtocolRequired, CredentialExceeded, ModelExceeded, TrackerUnavailable})
            && (if r.Accounted? then OneMore(counters, after, req.key) else after == counters)
  {
  }

  // Run alone, the small steps of an admission leave what the whole transaction leaves.
  lemma AdmitRunsAlone(s: State, tx: nat, req: Request, counts: Counts)
    requires Inv(s) && Enabled(s, BeginAdmit(tx, req)) && Answers(s.counters, req.key, counts)
    requires req.protocol == 1 && !Unlimited(s.PolicyOf(req.key.credential), req.key.model)
    ensures var s1 := Apply(s, BeginAdmit(tx, req));
            && Enabled(s1, CountRows(tx)) && Enabled(Apply(s1, CountRows(tx)), CommitAdmit(tx))
            && Apply(Apply(s1, CountRows(tx)), CommitAdmit(tx)).counters ==
               AdmitOutcome(s.PolicyOf(req.key.credential), s.counters, req, counts).1
  {
    TotalsNatural(s.counters, req.key.credential, req.key.model);
  }

  lemma TotalsNatural(counters: Counters, credential: string, model: string)
    requires Natural(counters)
    ensures CredentialTotal(counters, credential) >= 0 && ModelTotal(counters, credential, model) >= 0
  {
    SumDelete(counters, {}, (k: Key, c: Counter) => if k.credential == credential then c.active else 0);
    SumDelete(counters, {}, (k: Key, c: Counter) => if k.credential == credential && k.model == model then c.active else 0);
  }

  // -- The tables ------------------------------------------------------------------------

  // The counters of credentials that have a policy.
  function Governed(policies: map<string, Policy>, counters: Counters): Counters {
    map key | key in counters && key.credential in policies :: counters[key]
  }

  lemma GovernedTotal(policies: map<string, Policy>, counters: Counters, credential: string)
    requires credential in policies
    ensures CredentialTotal(Governed(policies, counters), credential) == CredentialTotal(counters, credential)
  {
    var others := set key | key in counters && key.credential !in policies;
    assert Governed(policies, counters) == counters - others;
    SumWithout(counters, others, (key: Key, counter: Counter) => if key.credential == credential then counter.active else 0);
  }

  class Tables {
    var policies: map<string, Policy>
    var counters: Counters

    function PolicyOf(credential: string): Option<Policy>
      reads this
    {
      if credential in policies then Some(policies[credential]) else None
    }

    // AdmitCredentialConcurrency for an active lifetime. counts is what the totals query answers.
    method Admit(req: Request, counts: Counts) returns (r: Admission)
      requires Answers(counters, req.key, counts)
      modifies this`counters
      ensures (r, counters) == AdmitOutcome(PolicyOf(req.key.credential), old(counters), req, counts)
    {
      var policy := PolicyOf(req.key.credential);
      var credentialLimit := CredentialLimit(policy);
      var modelLimit := ModelLimit(policy, req.key.model);
      if credentialLimit == 0 && modelLimit == 0 { return Unaccounted; }
      if req.protocol != 1 { return Refused(ProtocolRequired); }
      if counts.minimum < 0 || counts.total < 0 || counts.modelTotal < 0 { return Refused(TrackerUnavailable); }
      if credentialLimit > 0 && counts.total >= credentialLimit { return Refused(CredentialExceeded); }
      if modelLimit > 0 && counts.modelTotal >= modelLimit { return Refused(ModelExceeded); }
      var counted := IncrementRow(req.key);
      r := if counted then Accounted else Refused(TrackerUnavailable);
    }

    // The conflict update keeps the release baseline of an existing row.
    method IncrementRow(key: Key) returns (ok: bool)
      modifies this`counters
      ensures if ok then OneMore(old(counters), counters, key) else counters == old(counters)
      ensures ok <==> key in old(counters) ==> 0 <= old(counters)[key].active < MAX_INT64
      ensures match Increment(old(counters), key)
              case Ok(next) => ok && counters == next
              case Err(_) => !ok && counters == old(counters)
    {
      if key in counters {
        var row := counters[key];
        if row.active < 0 || row.active >= MAX_INT64 { return false; }
        counters := counters[key := Counter(row.active + 1, row.released)];
      } else {
        counters := counters[key := Counter(1, 0)];
      }
      ok := true;
    }

    // applyConcurrencyReleaseTx for an active lifetime.
    method ApplyRelease(key: Key, releaseSeq: int) returns (error: Option<LimiterError>)
      modifies this`counters
      ensures Releases(old(counters), counters, key, releaseSeq, error)
      ensures match ReleaseRow(old(counters), key, releaseSeq)
              case Ok(next) => error == None && counters == next
              case Err(e) => error == Some(e) && counters == old(counters)
    {
      if releaseSeq <= 0 { return Some(InvalidRelease); }
      if key !in counters { return Some(ReleaseExceedsActive); }
      var row := counters[key];
      if row.active < 0 || row.released < 0 { return Some(CounterInvalid); }
      var delta := releaseSeq - row.released;
      if delta <= 0 {
        assert counters[key := row] == counters;
        return None;
      }
      if delta > row.active { return Some(ReleaseExceedsActive); }
      counters := counters[key := Counter(row.active - delta, releaseSeq)];
      error := None;
    }

    // Every row of the fingerprint goes, and no other.
    method DeleteFingerprint(fingerprint: string)
      modifies this`counters
      ensures counters == old(counters) - RowsOf(old(counters), fingerprint)
      ensures forall key ::
        if key in old(counters) && key.fingerprint != fingerprint then key in counters && counters[key] == old(counters)[key]
        else key !in counters
    {
      counters := map key | key in counters && key.fingerprint != fingerprint :: counters[key];
    }

    // The totals of ReadConcurrencyState: from the grouped rows of the credentials that have a policy, one
    // total per credential, the one that admission compares with its limit.
    method ReadTotals(groups: seq<Group>) returns (r: Result<map<string, int>, LimiterError>)
      requires Groups(Governed(policies, counters), groups)
      ensures r.Err? <==> Corrupt(Governed(policies, counters))
      ensures r.Ok? ==> forall credential :: credential in policies ==> Total(r.value, credential) == CredentialTotal(counters, credential)
      ensures r.Err? ==> r.error == CounterInvalid
    {
      ghost var rows := Governed(policies, counters);
      r := AddUp(groups, rows);
      forall credential | credential in policies ensures CredentialTotal(rows, credential) == CredentialTotal(counters, credential) {
        GovernedTotal(policies, counters, credential);
      }
    }
  }

  method AddUp(groups: seq<Group>, ghost counters: Counters) returns (r: Result<map<string, int>, LimiterError>)
    requires Groups(counters, groups)
    ensures r.Err? <==> Corrupt(counters)
    ensures r.Ok? ==> forall credential :: Total(r.value, credential) == CredentialTotal(counters, credential)
    ensures r.Err? ==> r.error == CounterInvalid
  {
    var totals: map<string, int> := map[];
    CountingStarts(counters, groups);
    var i := 0;
    while i < |groups|
      invariant 0 <= i <= |groups| && Counting(counters, groups, i, totals)
      invariant forall g :: g in groups[..i] ==> g.minimum >= 0 && g.active >= 0
      invariant forall credential :: Total(totals, credential) <= MAX_INT64
    {
      var g := groups[i];
      assert g in groups && groups[..i + 1] == groups[..i] + [g];
      if g.minimum < 0 || g.active < 0 {
        NegativeCorrupt(counters, groups, g);
        return Err(CounterInvalid);
      }
      if Total(totals, g.credential) > MAX_INT64 - g.active {
        OverflowCorrupt(counters, groups, i, totals);
        return Err(CounterInvalid);
      }
      CountingStep(counters, groups, i, totals);
      totals := totals[g.credential := Total(totals, g.credential) + g.active];
      i := i + 1;
    }
    CountingEnds(counters, groups, totals);
    assert groups[..|groups|] == groups;
    Reportable(counters, groups);
    r := Ok(totals);
  }
}
