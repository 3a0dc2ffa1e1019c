/** What the limiter's operations do to the rows and the totals, said of the rows and the policies themselves. */
module LimiterLaws {
  import opened Wrappers
  import opened TableSums
  import opened Limiter
  import opened LimiterProtocol
  import opened LimiterReleases

  // -- Releases ------------------------------------------------------------------------------

  function ErrorOf<T>(r: Result<T, LimiterError>): Option<LimiterError> { if r.Err? then Some(r.error) else None }

  function After(counters: Counters, r: Result<Counters, LimiterError>): Counters { if r.Ok? then r.value else counters }

  lemma RowReleases(counters: Counters, key: Key, n: int)
    ensures var r := ReleaseRow(counters, key, n); Releases(counters, After(counters, r), key, n, ErrorOf(r))
  {
    if key in counters { assert counters[key := counters[key]] == counters; }
  }

  // The totals of its credential and model drop by exactly what is newly released, and no others change.
  lemma TotalsDrop(before: Counters, after: Counters, key: Key, n: int, error: Option<LimiterError>, credential: string, model: string)
    requires Releases(before, after, key, n, error)
    ensures var moved := if Moves(before, key, n) then n - before[key].released else 0;
            && CredentialTotal(after, credential) == CredentialTotal(before, credential) - (if credential == key.credential then moved else 0)
            && ModelTotal(after, credential, model) ==
               ModelTotal(before, credential, model) - (if credential == key.credential && model == key.model then moved else 0)
  {
    if Moves(before, key, n) { TotalSet(before, key, after[key], credential, model); }
  }

  // -- Releases of many rows in any order -----------------------------------------------------

  datatype Notice = Notice(key: Key, n: int)

  // One transaction per message; a refused one changes nothing.
  function DeliverTable(counters: Counters, messages: seq<Notice>): Counters
    decreases |messages|
  {
    if messages == [] then counters
    else DeliverTable(After(counters, ReleaseRow(counters, messages[0].key, messages[0].n)), messages[1..])
  }

  // The sequence numbers for one row.
  function For(messages: seq<Notice>, key: Key): seq<int> {
    if messages == [] then []
    else (if messages[0].key == key then [messages[0].n] else []) + For(messages[1..], key)
  }

  lemma {:induction false} ForMembers(messages: seq<Notice>, key: Key)
    ensures forall n :: n in For(messages, key) <==> Notice(key, n) in messages
  {
    if messages != [] {
      ForMembers(messages[1..], key);
      assert messages == [messages[0]] + messages[1..];
    }
  }

  lemma ReleasedRowWise(counters: Counters, key: Key, n: int)
    requires key in counters
    ensures After(counters, ReleaseRow(counters, key, n)) == counters[key := Deliver(counters[key], n)]
  {
  }

  // Whatever the order of the messages, each row goes its own way.
  lemma {:induction false} DeliveredRows(counters: Counters, messages: seq<Notice>)
    ensures var end := DeliverTable(counters, messages);
            end.Keys == counters.Keys && forall key :: key in counters ==> end[key] == DeliverAll(counters[key], For(messages, key))
    decreases |messages|
  {
    if messages != [] {
      var m := messages[0];
      var next := After(counters, ReleaseRow(counters, m.key, m.n));
      if m.key in counters { ReleasedRowWise(counters, m.key, m.n); }
      DeliveredRows(next, messages[1..]);
      forall key | key in counters ensures DeliverTable(counters, messages)[key] == DeliverAll(counters[key], For(messages, key)) {
        if key == m.key {
          assert For(messages, key)[0] == m.n && For(messages, key)[1..] == For(messages[1..], key);
        } else {
          assert For(messages, key) == For(messages[1..], key);
        }
      }
    }
  }

  // After any messages every row has released up to the largest of its sequence numbers within its
  // admissions, and the rest of its admissions is active.
  lemma TableLargest(counters: Counters, messages: seq<Notice>, key: Key)
    requires Natural(counters) && key in counters
    ensures var end := DeliverTable(counters, messages);
            && key in end
            && end[key].released == Largest(For(messages, key), Admissions(counters[key]), counters[key].released)
            && end[key].active == Admissions(counters[key]) - end[key].released
  {
    DeliveredRows(counters, messages);
    DeliveredLargest(counters[key], For(messages, key));
  }

  // The same messages in any order, with any repetitions, leave the same table.
  lemma TableConfluence(counters: Counters, a: seq<Notice>, b: seq<Notice>)
    requires Natural(counters) && forall m :: m in a <==> m in b
    ensures DeliverTable(counters, a) == DeliverTable(counters, b)
  {
    DeliveredRows(counters, a);
    DeliveredRows(counters, b);
    forall key | key in counters ensures DeliverTable(counters, a)[key] == DeliverTable(counters, b)[key] {
      ForMembers(a, key);
      ForMembers(b, key);
      ReleaseConfluence(counters[key], For(a, key), For(b, key));
    }
  }

  // -- Steps of the protocol --------------------------------------------------------------------

  // Committing a release releases, commits an admission counts one, and deleting a fingerprint
  // deletes exactly its rows; nothing else touches a counter.
  lemma StepCounters(s: State, step: Step)
    requires Inv(s) && Enabled(s, step)
    ensures var s' := Apply(s, step);
            match step
            case CommitRelease(tx) =>
              exists error :: Releases(s.counters, s'.counters, s.txs[tx].key, s.txs[tx].n, error)
            case CommitAdmit(tx) =>
              s'.counters == s.counters || OneMore(s.counters, s'.counters, s.txs[tx].req.key)
            case DeleteFingerprint(fingerprint) =>
              forall key :: if key in s.counters && key.fingerprint != fingerprint then key in s'.counters && s'.counters[key] == s.counters[key]
                            else key !in s'.counters
            case _ => s'.counters == s.counters
  {
    match step
    case CommitRelease(tx) =>
      var r := ReleaseRow(s.counters, s.txs[tx].key, s.txs[tx].n);
      RowReleases(s.counters, s.txs[tx].key, s.txs[tx].n);
      assert Apply(s, step).counters == After(s.counters, r);
      assert Releases(s.counters, Apply(s, step).counters, s.txs[tx].key, s.txs[tx].n, ErrorOf(r));
    case _ =>
  }

  // What an admission with these totals is allowed to do under a policy.
  predicate Room(policy: Policy, model: string, total: int, modelTotal: int) {
    && (policy.limit.Some? && policy.limit.value > 0 ==> total < policy.limit.value)
    && (model in policy.models && policy.models[model] > 0 ==> modelTotal < policy.models[model])
  }

  // It counts exactly if there is room under both limits of the policy and the row can still count.
  lemma CommitAdmitExact(s: State, tx: nat)
    requires Inv(s) && Enabled(s, CommitAdmit(tx))
    ensures var t := s.txs[tx];
            var key := t.req.key;
            OneMore(s.counters, Apply(s, CommitAdmit(tx)).counters, key) <==>
            Room(t.policy, key.model, t.total, t.modelTotal) && (key in s.counters ==> s.counters[key].active < MAX_INT64)
  {
    var key := s.txs[tx].req.key;
    OneMoreChanges(s.counters, key);
    if key in s.counters { assert s.counters[key].active >= 0; }
  }

  lemma OneMoreChanges(counters: Counters, key: Key)
    ensures !OneMore(counters, counters, key)
  {
    var next := if key in counters then Counter(counters[key].active + 1, counters[key].released) else Counter(1, 0);
    assert counters[key := next][key] == next;
  }

  // A request is limited at all exactly if its policy has a positive limit for it.
  lemma LimitedExactly(policy: Policy, model: string)
    ensures !Unlimited(Some(policy), model) <==>
            (policy.limit.Some? && policy.limit.value > 0) || (model in policy.models && policy.models[model] > 0)
    ensures Unlimited(None, model)
  {
  }
}
