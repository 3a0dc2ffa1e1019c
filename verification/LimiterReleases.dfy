/** Cumulative releases may repeat and arrive in any order: where a counter row ends depends only on which
    messages were delivered. */
module LimiterReleases {
  import opened Wrappers
  import opened Limiter

  // One message for a row; a refused one changes nothing.
  function Deliver(counter: Counter, n: int): Counter {
    if n <= 0 then counter
    else match Release(counter, n)
      case Err(_) => counter
      case Ok(next) => next
  }

  function DeliverAll(counter: Counter, messages: seq<int>): Counter
    decreases |messages|
  {
    if messages == [] then counter else DeliverAll(Deliver(counter, messages[0]), messages[1..])
  }

  // The accounted admissions a row has seen.
  function Admissions(counter: Counter): int { counter.active + counter.released }

  // The largest of from and of those messages that do not exceed the bound.
  function Largest(messages: seq<int>, bound: int, from: int): (r: int)
    ensures r >= from
    ensures r == from || (r in messages && r <= bound)
    ensures forall n :: n in messages && n <= bound ==> n <= r
  {
    if messages == [] then from
    else
      assert forall n :: n in messages <==> n == messages[0] || n in messages[1..];
      Largest(messages[1..], bound, if from < messages[0] <= bound then messages[0] else from)
  }

  // The final sequence number is the largest one delivered that does not exceed the admissions, if
  // that is larger than the old one; the admissions of the row stay what they were.
  lemma {:induction false} DeliveredLargest(counter: Counter, messages: seq<int>)
    requires counter.active >= 0 && counter.released >= 0
    ensures var end := DeliverAll(counter, messages);
            && end.released == Largest(messages, Admissions(counter), counter.released)
            && Admissions(end) == Admissions(counter) && end.active >= 0
    decreases |messages|
  {
    if messages != [] { DeliveredLargest(Deliver(counter, messages[0]), messages[1..]); }
  }

  // Any order with any repetition of the same messages ends in the same row.
  lemma ReleaseConfluence(counter: Counter, a: seq<int>, b: seq<int>)
    requires counter.active >= 0 && counter.released >= 0
    requires forall n :: n in a <==> n in b
    ensures DeliverAll(counter, a) == DeliverAll(counter, b)
  {
    DeliveredLargest(counter, a);
    DeliveredLargest(counter, b);
  }
}
