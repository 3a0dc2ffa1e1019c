/** Credential concurrency counters: admission against the limits of a policy, cumulative releases, and the
    deletion of a closed node's rows. */
module Limiter {
  import opened Wrappers
  import opened TableSums

  // -- Rows ------------------------------------------------------------------------------

  datatype Key = Key(credential: string, model: string, fingerprint: string)

  datatype Counter = Counter(active: int, released: int)

  type Counters = map<Key, Counter>

  datatype Policy = Policy(limit: Option<int>, models: map<string, int>)

  function Positive(value: int): nat { if value <= 0 then 0 else value }

  // The limits in force; 0 is none.
  function CredentialLimit(policy: Option<Policy>): nat {
    if policy.None? || policy.value.limit.None? then 0 else Positive(policy.value.limit.value)
  }

  function ModelLimit(policy: Option<Policy>, model: string): nat {
    if policy.None? || model !in policy.value.models then 0 else Positive(policy.value.models[model])
  }

  ghost function CredentialTotal(counters: Counters, credential: string): int {
    Sum(counters, (key: Key, counter: Counter) => if key.credential == credential then counter.active else 0)
  }

  ghost function ModelTotal(counters: Counters, credential: string, model: string): int {
    Sum(counters, (key: Key, counter: Counter) => if key.credential == credential && key.model == model then counter.active else 0)
  }

  predicate Natural(counters: Counters) {
    forall key :: key in counters ==> counters[key].active >= 0 && counters[key].released >= 0
  }

  // -- Transactions ----------------------------------------------------------------------

  datatype LimiterError =
    | ProtocolRequired | TrackerUnavailable | CredentialExceeded | ModelExceeded
    | InvalidRelease | ReleaseExceedsActive | CounterInvalid

  datatype Request = Request(key: Key, protocol: int)

  // Whether an admission is counted at all.
  predicate Unlimited(policy: Option<Policy>, model: string) { CredentialLimit(policy) == 0 && ModelLimit(policy, model) == 0 }

  // The verdict on a limited admission, from the totals that were read.
  function Verdict(policy: Option<Policy>, model: string, total: int, modelTotal: int): Option<LimiterError> {
    if 0 < CredentialLimit(policy) <= total then Some(CredentialExceeded)
    else if 0 < ModelLimit(policy, model) <= modelTotal then Some(ModelExceeded)
    else None
  }

  // The upsert: a new row starts at one, an existing one counts up within int64.
  function Increment(counters: Counters, key: Key): Result<Counters, LimiterError> {
    if key !in counters then Ok(counters[key := Counter(1, 0)])
    else if counters[key].active < 0 || counters[key].active >= MAX_INT64 then Err(TrackerUnavailable)
    else Ok(counters[key := counters[key].(active := counters[key].active + 1)])
  }

  // A cumulative release of one row: everything up to sequence number n has been released.
  function Release(counter: Counter, n: int): Result<Counter, LimiterError> {
    if counter.active < 0 || counter.released < 0 then Err(CounterInvalid)
    else if n <= counter.released then Ok(counter)
    else if n - counter.released > counter.active then Err(ReleaseExceedsActive)
    else Ok(Counter(counter.active - (n - counter.released), n))
  }

  function ReleaseRow(counters: Counters, key: Key, n: int): Result<Counters, LimiterError> {
    if n <= 0 then Err(InvalidRelease)
    else if key !in counters then Err(ReleaseExceedsActive)
    else match Release(counters[key], n)
      case Err(e) => Err(e)
      case Ok(counter) => Ok(counters[key := counter])
  }

  ghost function RowsOf(counters: Counters, fingerprint: string): set<Key> {
    set key | key in counters && key.fingerprint == fingerprint
  }

  // -- What they leave, said of the rows ---------------------------------------------------

  // A sequence number that moves something: beyond what was released and within what was admitted.
  predicate Moves(counters: Counters, key: Key, n: int) {
    key in counters && counters[key].active >= 0 && 0 <= counters[key].released < n <= counters[key].active + counters[key].released
  }

  // Afterwards everything up to n is released and the rest active; whatever is not to be moved stays, and it
  // is an error unless a sound row has released n before.
  ghost predicate Releases(before: Counters, after: Counters, key: Key, n: int, error: Option<LimiterError>) {
    if Moves(before, key, n)
    then error == None && after == before[key := Counter(before[key].active + before[key].released - n, n)]
    else
      && after == before
      && error == (if n <= 0 then Some(InvalidRelease)
                   else if key !in before then Some(ReleaseExceedsActive)
                   else if before[key].active < 0 || before[key].released < 0 then Some(CounterInvalid)
                   else if n <= before[key].released then None
                   else Some(ReleaseExceedsActive))
  }

  // One more active request in the row, which starts with one.
  predicate OneMore(before: Counters, after: Counters, key: Key) {
    after == before[key := if key in before then Counter(before[key].active + 1, before[key].released) else Counter(1, 0)]
  }

  // -- What transactions do to totals ------------------------------------------------------

  lemma TotalSet(counters: Counters, key: Key, counter: Counter, credential: string, model: string)
    ensures var change := counter.active - (if key in counters then counters[key].active else 0);
            && CredentialTotal(counters[key := counter], credential) ==
               CredentialTotal(counters, credential) + (if key.credential == credential then change else 0)
            && ModelTotal(counters[key := counter], credential, model) ==
               ModelTotal(counters, credential, model) + (if key.credential == credential && key.model == model then change else 0)
  {
    SumSet(counters, key, counter, (k: Key, c: Counter) => if k.credential == credential then c.active else 0);
    SumSet(counters, key, counter, (k: Key, c: Counter) => if k.credential == credential && k.model == model then c.active else 0);
  }

  lemma TotalDelete(counters: Counters, keys: set<Key>, credential: string, model: string)
    requires Natural(counters)
    ensures CredentialTotal(counters - keys, credential) <= CredentialTotal(counters, credential)
    ensures ModelTotal(counters - keys, credential, model) <= ModelTotal(counters, credential, model)
  {
    SumDelete(counters, keys, (k: Key, c: Counter) => if k.credential == credential then c.active else 0);
    SumDelete(counters, keys, (k: Key, c: Counter) => if k.credential == credential && k.model == model then c.active else 0);
  }
}
