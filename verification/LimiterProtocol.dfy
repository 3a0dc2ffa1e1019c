/** The limiter's transactions in small steps. An admission takes the policy row lock, reads the limits, reads the
    totals and only then writes; releases, deletions, policy changes and other admissions run in between. */
module LimiterProtocol {
  import opened Wrappers
  import opened Limiter

  // Where an open transaction stands. An admission remembers what it has read.
  datatype Tx =
    | Locked(req: Request, policy: Policy)
    | Counted(req: Request, policy: Policy, total: int, modelTotal: int)
    | Releasing(key: Key, n: int, locked: bool)

  // holder says which transaction holds the lock of a credential's policy row. admitted is how many
  // accounted admissions a counter row has seen since it was created; nothing reads it.
  datatype State = State(policies: map<string, Policy>, counters: Counters, holder: map<string, nat>, txs: map<nat, Tx>,
                         admitted: map<Key, nat>)
  {
    function PolicyOf(credential: string): Option<Policy> {
      if credential in policies then Some(policies[credential]) else None
    }

    function Limit(credential: string): nat { CredentialLimit(PolicyOf(credential)) }

    function LimitFor(credential: string, model: string): nat { ModelLimit(PolicyOf(credential), model) }
  }

  datatype Step =
    | BeginAdmit(tx: nat, req: Request)       // lock the policy row, read the limits
    | CountRows(tx: nat)                      // sum the counters
    | CommitAdmit(tx: nat)                    // decide, count, unlock
    | BeginRelease(tx: nat, key: Key, n: int) // lock the policy row if there is one
    | CommitRelease(tx: nat)                  // update the counter row, unlock
    | Abort(tx: nat)
    | DeleteFingerprint(fingerprint: string)  // takes no policy lock
    | Patch(credential: string, policy: Policy)

  // The credential whose lock a transaction holds.
  function Holds(tx: Tx): Option<string> {
    match tx
    case Locked(req, _) => Some(req.key.credential)
    case Counted(req, _, _, _) => Some(req.key.credential)
    case Releasing(key, _, locked) => if locked then Some(key.credential) else None
  }

  function Open(s: State, id: nat, tx: Tx): State {
    s.(txs := s.txs[id := tx], holder := if Holds(tx).Some? then s.holder[Holds(tx).value := id] else s.holder)
  }

  function Close(s: State, id: nat): State
    requires id in s.txs
  {
    s.(txs := s.txs - {id}, holder := if Holds(s.txs[id]).Some? then s.holder - {Holds(s.txs[id]).value} else s.holder)
  }

  // A step waits for the lock it takes and follows its transaction's earlier steps.
  predicate Enabled(s: State, step: Step) {
    match step
    case BeginAdmit(tx, req) => tx !in s.txs && req.key.credential in s.policies && req.key.credential !in s.holder
    case CountRows(tx) =>
      tx in s.txs && s.txs[tx].Locked? && !Unlimited(Some(s.txs[tx].policy), s.txs[tx].req.key.model) && s.txs[tx].req.protocol == 1
    case CommitAdmit(tx) => tx in s.txs && s.txs[tx].Counted?
    case BeginRelease(tx, key, _) => tx !in s.txs && key.credential !in s.holder
    case CommitRelease(tx) => tx in s.txs && s.txs[tx].Releasing?
    case Abort(tx) => tx in s.txs
    case DeleteFingerprint(_) => true
    case Patch(credential, _) => credential !in s.holder
  }

  ghost function Apply(s: State, step: Step): State
    requires Enabled(s, step)
  {
    match step
    case BeginAdmit(tx, req) => Open(s, tx, Locked(req, s.policies[req.key.credential]))
    case CountRows(tx) =>
      var t := s.txs[tx];
      Open(s, tx, Counted(t.req, t.policy, CredentialTotal(s.counters, t.req.key.credential),
                          ModelTotal(s.counters, t.req.key.credential, t.req.key.model)))
    case CommitAdmit(tx) =>
      var t := s.txs[tx];
      if Verdict(Some(t.policy), t.req.key.model, t.total, t.modelTotal).Some? then Close(s, tx)
      else Close(Admitted(s, t.req.key), tx)
    case BeginRelease(tx, key, n) => Open(s, tx, Releasing(key, n, key.credential in s.policies))
    case CommitRelease(tx) => Close(Released(s, s.txs[tx].key, s.txs[tx].n), tx)
    case Abort(tx) => Close(s, tx)
    case DeleteFingerprint(fingerprint) =>
      s.(counters := s.counters - RowsOf(s.counters, fingerprint), admitted := s.admitted - RowsOf(s.counters, fingerprint))
    case Patch(credential, policy) => s.(policies := s.policies[credential := policy])
  }

  function Admitted(s: State, key: Key): State {
    match Increment(s.counters, key)
    case Err(_) => s
    case Ok(counters) => s.(counters := counters, admitted := s.admitted[key := 1 + if key in s.admitted then s.admitted[key] else 0])
  }

  function Released(s: State, key: Key, n: int): State {
    match ReleaseRow(s.counters, key, n)
    case Err(_) => s
    case Ok(counters) => s.(counters := counters)
  }

  // -- The invariant ---------------------------------------------------------------------

  // What an open transaction can rely on: it holds its lock, the policy is the one it read, and the
  // totals it read can only have gone down.
  ghost predicate Reliable(s: State, id: nat)
    requires id in s.txs
  {
    var tx := s.txs[id];
    && (Holds(tx).Some? ==> Holds(tx).value in s.holder && s.holder[Holds(tx).value] == id)
    && (!tx.Releasing? ==> s.PolicyOf(tx.req.key.credential) == Some(tx.policy))
    && (tx.Counted? ==>
          && CredentialTotal(s.counters, tx.req.key.credential) <= tx.total
          && ModelTotal(s.counters, tx.req.key.credential, tx.req.key.model) <= tx.modelTotal)
  }

  // For every row, what is active and what has been released add up to what was admitted.
  predicate Conserved(s: State) {
    && s.counters.Keys == s.admitted.Keys
    && forall key :: key in s.counters ==> s.counters[key].active + s.counters[key].released == s.admitted[key]
  }

  ghost predicate Inv(s: State) {
    && Natural(s.counters) && Conserved(s)
    && forall id :: id in s.txs ==> Reliable(s, id)
  }

  // A step raises a total only to a value within the limit in force, if there is one.
  ghost predicate Careful(s: State, s': State) {
    && (forall credential :: CredentialTotal(s'.counters, credential) > CredentialTotal(s.counters, credential) && s'.Limit(credential) > 0
          ==> CredentialTotal(s'.counters, credential) <= s'.Limit(credential))
    && (forall credential, model ::
        ModelTotal(s'.counters, credential, model) > ModelTotal(s.counters, credential, model) && s'.LimitFor(credential, model) > 0
        ==> ModelTotal(s'.counters, credential, model) <= s'.LimitFor(credential, model))
  }

  // Totals of s' are at most those of s.
  ghost predicate Fewer(s: State, s': State) {
    && (forall credential :: CredentialTotal(s'.counters, credential) <= CredentialTotal(s.counters, credential))
    && (forall credential, model :: ModelTotal(s'.counters, credential, model) <= ModelTotal(s.counters, credential, model))
  }

  lemma ReleasedKeeps(s: State, key: Key, n: int)
    requires Natural(s.counters) && Conserved(s)
    ensures Natural(Released(s, key, n).counters) && Conserved(Released(s, key, n)) && Fewer(s, Released(s, key, n))
  {
    var r := ReleaseRow(s.counters, key, n);
    if r.Ok? {
      assert r.value == s.counters[key := r.value[key]];
      forall credential ensures CredentialTotal(r.value, credential) <= CredentialTotal(s.counters, credential) {
        TotalSet(s.counters, key, r.value[key], credential, key.model);
      }
      forall credential, model ensures ModelTotal(r.value, credential, model) <= ModelTotal(s.counters, credential, model) {
        TotalSet(s.counters, key, r.value[key], credential, model);
      }
    }
  }

  lemma DeletedKeeps(s: State, keys: set<Key>)
    requires Natural(s.counters) && Conserved(s)
    ensures var s' := s.(counters := s.counters - keys, admitted := s.admitted - keys);
            Natural(s'.counters) && Conserved(s') && Fewer(s, s')
  {
    forall credential ensures CredentialTotal(s.counters - keys, credential) <= CredentialTotal(s.counters, credential) {
      TotalDelete(s.counters, keys, credential, "");
    }
    forall credential, model ensures ModelTotal(s.counters - keys, credential, model) <= ModelTotal(s.counters, credential, model) {
      TotalDelete(s.counters, keys, credential, model);
    }
  }

  // An admission raises the totals of its own credential and model by one, and no others.
  lemma AdmittedRaises(s: State, key: Key)
    requires Natural(s.counters) && Conserved(s)
    ensures var s' := Admitted(s, key);
            && Natural(s'.counters) && Conserved(s')
            && (forall credential ::
                CredentialTotal(s'.counters, credential) <= CredentialTotal(s.counters, credential)
                  + (if credential == key.credential then 1 else 0))
            && (forall credential, model :: ModelTotal(s'.counters, credential, model) <=
                  ModelTotal(s.counters, credential, model) + (if credential == key.credential && model == key.model then 1 else 0))
  {
    var r := Increment(s.counters, key);
    if r.Ok? {
      assert r.value == s.counters[key := r.value[key]];
      forall credential
        ensures CredentialTotal(r.value, credential) <= CredentialTotal(s.counters, credential) + (if credential
            == key.credential then 1 else 0)
      {
        TotalSet(s.counters, key, r.value[key], credential, key.model);
      }
      forall credential, model
        ensures ModelTotal(r.value, credential, model) <=
                ModelTotal(s.counters, credential, model) + (if credential == key.credential && model == key.model then 1 else 0)
      {
        TotalSet(s.counters, key, r.value[key], credential, model);
      }
    }
  }

  // Closing a transaction does not disturb the others: no two hold one lock.
  lemma CloseKeeps(s: State, tx: nat)
    requires tx in s.txs && Natural(s.counters) && Conserved(s)
    requires forall id :: id in s.txs && id != tx ==> Reliable(s, id)
    requires Holds(s.txs[tx]).Some? ==> Holds(s.txs[tx]).value in s.holder && s.holder[Holds(s.txs[tx]).value] == tx
    ensures Inv(Close(s, tx))
  {
    var s' := Close(s, tx);
    forall id | id in s'.txs ensures Reliable(s', id) {
      assert Reliable(s, id) && s'.txs[id] == s.txs[id];
    }
  }

  // The totals that others have read only go down when totals go down.
  lemma FewerReliable(s: State, s': State)
    requires Inv(s) && Fewer(s, s') && s'.txs == s.txs && s'.holder == s.holder && s'.policies == s.policies
    ensures forall id :: id in s'.txs ==> Reliable(s', id)
  {
    forall id | id in s'.txs ensures Reliable(s', id) {
      assert Reliable(s, id);
    }
  }

  lemma CommitAdmitSafe(s: State, tx: nat)
    requires Inv(s) && Enabled(s, CommitAdmit(tx))
    ensures Inv(Apply(s, CommitAdmit(tx))) && Careful(s, Apply(s, CommitAdmit(tx)))
  {
    var t := s.txs[tx];
    assert Reliable(s, tx);
    if Verdict(Some(t.policy), t.req.key.model, t.total, t.modelTotal).Some? {
      CloseKeeps(s, tx);
    } else {
      var s1 := Admitted(s, t.req.key);
      AdmittedRaises(s, t.req.key);
      forall id | id in s1.txs && id != tx ensures Reliable(s1, id) {
        assert Reliable(s, id);
      }
      CloseKeeps(s1, tx);
    }
  }

  lemma BeginSafe(s: State, id: nat, tx: Tx)
    requires Inv(s) && Holds(tx).Some? ==> (Holds(tx).value in s.holder ==> s.holder[Holds(tx).value] == id)
    requires Inv(s) && (id in s.txs ==> Holds(s.txs[id]) == Holds(tx))
    requires !tx.Releasing? ==> s.PolicyOf(tx.req.key.credential) == Some(tx.policy)
    requires tx.Counted? ==> CredentialTotal(s.counters, tx.req.key.credential) <= tx.total
                             && ModelTotal(s.counters, tx.req.key.credential, tx.req.key.model) <= tx.modelTotal
    ensures Inv(Open(s, id, tx))
  {
    var s' := Open(s, id, tx);
    forall other | other in s'.txs ensures Reliable(s', other) {
      if other != id { assert Reliable(s, other) && s'.txs[other] == s.txs[other]; }
    }
  }

  // Every step of every transaction keeps the invariant and is careful.
  lemma StepSafe(s: State, step: Step)
    requires Inv(s) && Enabled(s, step)
    ensures Inv(Apply(s, step)) && Careful(s, Apply(s, step))
  {
    match step
    case BeginAdmit(tx, req) => BeginSafe(s, tx, Locked(req, s.policies[req.key.credential]));
    case CountRows(tx) =>
      var t := s.txs[tx];
      assert Reliable(s, tx);
      BeginSafe(s, tx, Counted(t.req, t.policy, CredentialTotal(s.counters, t.req.key.credential),
                               ModelTotal(s.counters, t.req.key.credential, t.req.key.model)));
    case CommitAdmit(tx) => CommitAdmitSafe(s, tx);
    case BeginRelease(tx, key, n) => BeginSafe(s, tx, Releasing(key, n, key.credential in s.policies));
    case CommitRelease(tx) =>
      var s1 := Released(s, s.txs[tx].key, s.txs[tx].n);
      ReleasedKeeps(s, s.txs[tx].key, s.txs[tx].n);
      FewerReliable(s, s1);
      assert Reliable(s, tx);
      CloseKeeps(s1, tx);
    case Abort(tx) =>
      assert Reliable(s, tx);
      CloseKeeps(s, tx);
    case DeleteFingerprint(fingerprint) =>
      DeletedKeeps(s, RowsOf(s.counters, fingerprint));
      FewerReliable(s, Apply(s, step));
    case Patch(credential, policy) =>
      forall id | id in s.txs ensures Reliable(Apply(s, step), id) {
        assert Reliable(s, id);
      }
  }

  // -- Runs ------------------------------------------------------------------------------

  // No total exceeds a limit in force.
  ghost predicate Within(s: State) {
    && (forall credential :: s.Limit(credential) > 0 ==> CredentialTotal(s.counters, credential) <= s.Limit(credential))
    && (forall credential, model ::
        s.LimitFor(credential, model) > 0
        ==> ModelTotal(s.counters, credential, model) <= s.LimitFor(credential, model))
  }

  // A patch that neither lowers a limit nor introduces one.
  ghost predicate Relaxing(s: State, step: Step) {
    step.Patch? ==>
      && (0 < CredentialLimit(Some(step.policy)) ==> 0 < s.Limit(step.credential) <= CredentialLimit(Some(step.policy)))
      && forall model :: 0 < ModelLimit(Some(step.policy), model)
          ==> 0 < s.LimitFor(step.credential, model) <= ModelLimit(Some(step.policy), model)
  }

  ghost predicate Possible(s: State, steps: seq<Step>)
    decreases |steps|
  {
    steps == [] || (Enabled(s, steps[0]) && Relaxing(s, steps[0]) && Possible(Apply(s, steps[0]), steps[1..]))
  }

  ghost function Run(s: State, steps: seq<Step>): State
    requires Possible(s, steps)
    decreases |steps|
  {
    if steps == [] then s else Run(Apply(s, steps[0]), steps[1..])
  }

  lemma StepWithin(s: State, step: Step)
    requires Inv(s) && Within(s) && Enabled(s, step) && Relaxing(s, step)
    ensures Within(Apply(s, step))
  {
    var s' := Apply(s, step);
    StepSafe(s, step);
    PoliciesKept(s, step);
  }

  lemma PoliciesKept(s: State, step: Step)
    requires Enabled(s, step)
    ensures var s' := Apply(s, step);
            && (!step.Patch? ==> s'.policies == s.policies)
            && (step.Patch? ==> s'.counters == s.counters && s'.policies == s.policies[step.credential := step.policy])
  {
  }

  // In every interleaving in which no limit is lowered or introduced, totals stay within limits.
  lemma {:induction false} RunWithin(s: State, steps: seq<Step>)
    requires Inv(s) && Within(s) && Possible(s, steps)
    ensures Inv(Run(s, steps)) && Within(Run(s, steps))
    decreases |steps|
  {
    if steps != [] {
      StepSafe(s, steps[0]);
      StepWithin(s, steps[0]);
      RunWithin(Apply(s, steps[0]), steps[1..]);
    }
  }

  lemma InitialSafe(policies: map<string, Policy>)
    ensures var s := State(policies, map[], map[], map[], map[]); Inv(s) && Within(s)
  {
  }

  // So with no counters to begin with, in every interleaving of such steps, no total ever exceeds its limit.
  lemma RunFromEmpty(policies: map<string, Policy>, steps: seq<Step>)
    requires Possible(State(policies, map[], map[], map[], map[]), steps)
    ensures Within(Run(State(policies, map[], map[], map[], map[]), steps))
  {
    InitialSafe(policies);
    RunWithin(State(policies, map[], map[], map[], map[]), steps);
  }
}
