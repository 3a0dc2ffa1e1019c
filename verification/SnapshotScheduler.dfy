/** The coalescing refresh scheduler: requests leave a signal in a one-slot channel, one loop turns signals into a pending
    flag and refreshes on ticks. However they interleave, no request is forgotten. */
module SnapshotScheduler {
  class Scheduler {
    const heartbeatInterval: int
    var signal: bool       // the channel's one slot
    var pending: bool
    var lastSuccess: int
    ghost var requested: nat   // requests so far
    ghost var served: nat      // how many of them a successful synchronisation has followed
    ghost var syncing: bool    // the loop is inside a synchronisation
    ghost var covered: nat     // the requests that came before it

    // A request that no successful synchronisation has followed is still in the channel or pending;
    // while one runs, requests it does not cover are in the channel.
    ghost predicate Valid()
      reads this
    {
      && served <= requested && covered <= requested
      && (served < requested ==> signal || pending)
      && (syncing && covered < requested ==> signal)
    }

    constructor (heartbeatInterval: int, startedAt: int)
      ensures Valid() && !syncing && requested == 0 && lastSuccess == startedAt
    {
      this.heartbeatInterval := heartbeatInterval;
      signal, pending, lastSuccess := false, false, startedAt;
      requested, served, syncing, covered := 0, 0, false, 0;
    }

    // Never blocks; a full channel already holds the news.
    method RequestRefresh()
      requires Valid()
      modifies this`signal, this`requested
      ensures Valid() && requested == old(requested) + 1 && signal
    {
      requested := requested + 1;
      if !signal { signal := true; }
    }

    // The loop receives a signal.
    method Receive()
      requires Valid() && !syncing && signal
      modifies this`signal, this`pending
      ensures Valid() && pending && !signal
    {
      signal := false;
      pending := true;
    }

    // A tick: decides whether to synchronise. Without a request it waits out the interval.
    method Begin(scheduledAt: int, initialized: bool) returns (sync: bool)
      requires Valid() && !syncing
      modifies this`signal, this`pending, this`syncing, this`covered
      ensures Valid() && syncing == sync && (sync ==> covered == requested)
      ensures sync <==> initialized && (old(signal) || old(pending) || scheduledAt - lastSuccess >= heartbeatInterval)
      ensures old(served < requested) && initialized ==> sync
    {
      if signal {
        signal := false;
        pending := true;
      }
      if !pending && scheduledAt - lastSuccess < heartbeatInterval { return false; }
      if !initialized { return false; }
      syncing, covered := true, requested;
      sync := true;
    }

    // The synchronisation ends; requests may have come in meanwhile. A success serves those it
    // covers, a failure keeps them pending.
    method End(scheduledAt: int, succeeded: bool)
      requires Valid() && syncing
      modifies this`pending, this`lastSuccess, this`syncing, this`served
      ensures Valid() && !syncing
      ensures succeeded ==> served >= covered && lastSuccess == scheduledAt && (served < requested ==> signal)
      ensures !succeeded ==> pending && served == old(served) && lastSuccess == old(lastSuccess)
    {
      syncing := false;
      if !succeeded {
        pending := true;
        return;
      }
      lastSuccess := scheduledAt;
      pending := false;
      if served < covered { served := covered; }
    }
  }
}
