/** Home process incarnations: registration, heartbeat, retirement, fencing and expiry. Rows are only ever added, and
    a row that has left the active state does not come back. */
module HomeIncarnations {
  import opened Wrappers

  datatype HomeId = HomeId(ip: string, port: int, startedAt: int)

  datatype HomeState = Active | Expired | Retired | Fenced

  datatype Home = Home(lastSeen: int, state: HomeState, capabilities: set<string>)

  type Homes = map<HomeId, Home>

  const LIMITER: string := "credential_concurrency_limits_v2"

  datatype HomeError = CapabilityRequired | CapabilityMissing | SQLiteMultiHome | HomeFenced | HomeNotFound | HomeInactive | LegacyMembership

  function ActiveHomes(homes: Homes): set<HomeId> { set id | id in homes && homes[id].state.Active? }

  // Homes that have not been seen since the cutoff expire.
  function Expire(homes: Homes, cutoff: int): Homes {
    map id | id in homes :: if homes[id].state.Active? && homes[id].lastSeen < cutoff then homes[id].(state := Expired) else homes[id]
  }

  // What an active limiter asks of the active Homes: all know it and, on SQLite, there is at most one.
  ghost predicate LimiterReady(homes: Homes, sqlite: bool) {
    && (forall id :: id in homes && homes[id].state.Active? ==> LIMITER in homes[id].capabilities)
    && (sqlite ==> |ActiveHomes(homes)| <= 1)
  }

  // verifyConcurrencyPolicyActivation, on Homes of which the stale ones have been expired.
  function VerifyActivation(homes: Homes, legacyMemberships: nat, sqlite: bool): Option<HomeError> {
    if legacyMemberships != 0 then Some(LegacyMembership)
    else if exists id :: id in ActiveHomes(homes) && LIMITER !in homes[id].capabilities then Some(CapabilityMissing)
    else if sqlite && |ActiveHomes(homes)| > 1 then Some(SQLiteMultiHome)
    else None
  }

  lemma VerifiedReady(homes: Homes, legacyMemberships: nat, sqlite: bool)
    ensures VerifyActivation(homes, legacyMemberships, sqlite).None? <==> legacyMemberships == 0 && LimiterReady(homes, sqlite)
    ensures VerifyActivation(homes, legacyMemberships, sqlite) == Some(LegacyMembership) <==> legacyMemberships != 0
    ensures VerifyActivation(homes, legacyMemberships, sqlite) == Some(CapabilityMissing) <==>
            legacyMemberships == 0 && exists id :: id in homes && homes[id].state == Active && LIMITER !in homes[id].capabilities
    ensures VerifyActivation(homes, legacyMemberships, sqlite).Some? ==>
              VerifyActivation(homes, legacyMemberships, sqlite).value in {LegacyMembership, CapabilityMissing, SQLiteMultiHome}
  {
    assert forall id :: id in ActiveHomes(homes) <==> id in homes && homes[id].state.Active?;
  }

  // RegisterHomeIncarnation: latest is the newest start of this address, gate the number of active
  // policies. Every start of an address is later than the ones before.
  function Register(homes: Homes, ip: string, port: int, capabilities: set<string>, now: int, cutoff: int, latest: Option<int>, step: nat,
                    gate: int, sqlite: bool): Result<(HomeId, Homes), HomeError> {
    var live := Expire(homes, cutoff);
    if gate > 0 && LIMITER !in capabilities then Err(CapabilityRequired)
    else if gate > 0 && sqlite && ActiveHomes(live) != {} then Err(SQLiteMultiHome)
    else
      var start := if latest.Some? && now <= latest.value then latest.value + step else now;
      var id := HomeId(ip, port, start);
      Ok((id, live[id := Home(start, Active, capabilities)]))
  }

  ghost predicate Latest(homes: Homes, ip: string, port: int, latest: Option<int>) {
    && (latest.Some? ==> HomeId(ip, port, latest.value) in homes)
    && forall id :: id in homes && id.ip == ip && id.port == port ==> latest.Some? && id.startedAt <= latest.value
  }

  function Heartbeat(homes: Homes, id: HomeId, now: int): Result<Homes, HomeError> {
    if id !in homes then Err(HomeNotFound)
    else if homes[id].state.Fenced? then Err(HomeFenced)
    else if !homes[id].state.Active? then Err(HomeInactive)
    else Ok(homes[id := homes[id].(lastSeen := now)])
  }

  function Retire(homes: Homes, id: HomeId): Result<Homes, HomeError> {
    if id !in homes then Err(HomeNotFound)
    else if homes[id].state.Fenced? then Err(HomeFenced)
    else if !homes[id].state.Active? then Err(HomeInactive)
    else Ok(homes[id := homes[id].(state := Retired)])
  }

  // Fencing twice is fencing once.
  function Fence(homes: Homes, id: HomeId): Result<Homes, HomeError> {
    if id !in homes then Err(HomeNotFound)
    else if homes[id].state.Fenced? then Ok(homes)
    else if !homes[id].state.Active? then Err(HomeInactive)
    else Ok(homes[id := homes[id].(state := Fenced)])
  }

  // No row is lost, none leaves a final state, none changes its capabilities, and none starts living
  // but a new one.
  ghost predicate Ages(before: Homes, after: Homes) {
    forall id :: id in before
        ==> id in after && after[id].capabilities == before[id].capabilities
            && (before[id].state.Active? || after[id].state == before[id].state)
  }

  ghost predicate NoneNew(before: Homes, after: Homes) { Ages(before, after) && after.Keys == before.Keys }

  lemma ExpireAges(homes: Homes, cutoff: int)
    ensures NoneNew(homes, Expire(homes, cutoff))
    ensures forall id :: id in ActiveHomes(Expire(homes, cutoff)) <==> id in ActiveHomes(homes) && homes[id].lastSeen >= cutoff
    ensures forall id :: id in homes ==>
      Expire(homes, cutoff)[id] == if homes[id].state == Active && homes[id].lastSeen < cutoff
                                   then Home(homes[id].lastSeen, Expired, homes[id].capabilities) else homes[id]
  {
  }

  lemma TransitionsAge(homes: Homes, id: HomeId, now: int)
    ensures Heartbeat(homes, id, now).Ok? ==> NoneNew(homes, Heartbeat(homes, id, now).value)
    ensures Retire(homes, id).Ok? ==> NoneNew(homes, Retire(homes, id).value)
    ensures Fence(homes, id).Ok? ==> NoneNew(homes, Fence(homes, id).value)
  {
  }

  // A Home that has sent a heartbeat at now is not expired by a cutoff up to now; one that has retired
  // or been fenced sends none any more, and fencing again changes nothing.
  lemma LifeCycle(homes: Homes, id: HomeId, now: int, cutoff: int)
    requires cutoff <= now
    ensures Heartbeat(homes, id, now).Ok? ==> id in ActiveHomes(Expire(Heartbeat(homes, id, now).value, cutoff))
    ensures Heartbeat(homes, id, now).Ok? <==> id in ActiveHomes(homes)
    ensures Retire(homes, id).Ok? <==> id in ActiveHomes(homes)
    ensures Retire(homes, id).Ok?
        ==> Heartbeat(Retire(homes, id).value, id, now) == Err(HomeInactive)
            && ActiveHomes(Retire(homes, id).value) == ActiveHomes(homes) - {id}
    ensures Fence(homes, id).Ok?
        ==> Heartbeat(Fence(homes, id).value, id, now) == Err(HomeFenced)
            && ActiveHomes(Fence(homes, id).value) == ActiveHomes(homes) - {id}
    ensures Fence(homes, id).Ok? ==> Fence(Fence(homes, id).value, id) == Fence(homes, id)
  {
  }

  // One row's transition, or the reason there is none.
  ghost predicate Moved(homes: Homes, id: HomeId, r: Result<Homes, HomeError>, next: Home, repeatable: bool) {
    if id !in homes then r == Err(HomeNotFound)
    else match homes[id].state
      case Active => r == Ok(homes[id := next])
      case Fenced => r == if repeatable then Ok(homes) else Err(HomeFenced)
      case _ => r == Err(HomeInactive)
  }

  // A heartbeat refreshes an active Home's time and nothing else, retiring and fencing end it and nothing
  // else; and what is no longer active answers why.
  lemma TransitionsExact(homes: Homes, id: HomeId, now: int)
    ensures id in homes ==>
      && Moved(homes, id, Heartbeat(homes, id, now), Home(now, Active, homes[id].capabilities), false)
      && Moved(homes, id, Retire(homes, id), Home(homes[id].lastSeen, Retired, homes[id].capabilities), false)
      && Moved(homes, id, Fence(homes, id), Home(homes[id].lastSeen, Fenced, homes[id].capabilities), true)
    ensures id !in homes ==> Heartbeat(homes, id, now) == Err(HomeNotFound) && Retire(homes, id) == Err(HomeNotFound)
                             && Fence(homes, id) == Err(HomeNotFound)
  {
    if id in homes { assert homes[id := homes[id]] == homes; }
  }

  lemma SubsetSize<T>(a: set<T>, b: set<T>)
    requires a <= b
    ensures |a| <= |b|
  {
    if a != {} {
      var x := AnyMember(a);
      SubsetSize(a - {x}, b - {x});
    }
  }

  // Homes that stop being active cannot make a ready limiter unready.
  lemma AgedReady(before: Homes, after: Homes, sqlite: bool)
    requires NoneNew(before, after) && LimiterReady(before, sqlite)
    ensures LimiterReady(after, sqlite)
  {
    assert ActiveHomes(after) <= ActiveHomes(before);
    SubsetSize(ActiveHomes(after), ActiveHomes(before));
  }

  // Registration adds one row, the newest of its address, and keeps a limiter in force ready.
  lemma RegisterReady(homes: Homes, ip: string, port: int, capabilities: set<string>, now: int, cutoff: int,
      latest: Option<int>, step: nat, gate: int, sqlite: bool)
    requires step > 0 && Latest(homes, ip, port, latest) && (gate > 0 ==> LimiterReady(homes, sqlite))
    ensures match Register(homes, ip, port, capabilities, now, cutoff, latest, step, gate, sqlite)
            case Err(e) => gate > 0
            case Ok((id, after)) =>
              && id !in homes && Ages(homes, after) && after.Keys == homes.Keys + {id} && after[id].state.Active?
              && (forall other :: other in homes && other.ip == ip && other.port == port ==> other.startedAt < id.startedAt)
              && (gate > 0 ==> LimiterReady(after, sqlite))
  {
    var r := Register(homes, ip, port, capabilities, now, cutoff, latest, step, gate, sqlite);
    if r.Ok? {
      var (id, after) := r.value;
      var live := Expire(homes, cutoff);
      ExpireAges(homes, cutoff);
      assert ActiveHomes(after) == ActiveHomes(live) + {id};
      if gate > 0 { AgedReady(homes, live, sqlite); }
    }
  }

  // What a registration stores: a row for the address, active and seen at its start, with exactly the
  // capabilities that were declared; it starts now, unless the address has a start that is no earlier. No
  // cutoff up to now expires it, and every other row is that of the table after expiry. It is refused exactly
  // while a policy is active, for a missing capability or, on SQLite, for another active Home.
  lemma RegisterStores(homes: Homes, ip: string, port: int, capabilities: set<string>, now: int, cutoff: int,
      latest: Option<int>, step: nat, gate: int, sqlite: bool)
    requires step > 0 && Latest(homes, ip, port, latest)
    ensures var live := Expire(homes, cutoff);
            match Register(homes, ip, port, capabilities, now, cutoff, latest, step, gate, sqlite)
            case Err(e) => gate > 0 && if LIMITER !in capabilities then e == CapabilityRequired
                                       else e == SQLiteMultiHome && sqlite && ActiveHomes(live) != {}
            case Ok((id, after)) =>
              && (gate > 0 ==> LIMITER in capabilities && (sqlite ==> ActiveHomes(live) == {}))
              && id.ip == ip && id.port == port && id !in homes && id.startedAt >= now
              && ((latest.None? || latest.value < now) ==> id.startedAt == now)
              && after[id].capabilities == capabilities && after[id].lastSeen == id.startedAt
              && (forall expiry :: expiry <= now ==> id in ActiveHomes(Expire(after, expiry)))
              && after == live[id := after[id]]
  {
  }

  // -- The imperative table --------------------------------------------------------------

  class HomeTable {
    var homes: Homes

    // Nothing is written unless the registration is accepted: a refused one also leaves stale rows active.
    method RegisterHome(ip: string, port: int, capabilities: set<string>, now: int, cutoff: int, latest: Option<int>,
        step: nat, gate: int, sqlite: bool)
      returns (r: Result<HomeId, HomeError>)
      modifies this
      ensures match Register(old(homes), ip, port, capabilities, now, cutoff, latest, step, gate, sqlite)
              case Ok((id, after)) => r == Ok(id) && homes == after
              case Err(e) => r == Err(e) && homes == old(homes)
    {
      var live := Expire(homes, cutoff);
      if gate > 0 && LIMITER !in capabilities { return Err(CapabilityRequired); }
      if gate > 0 && sqlite && |ActiveHomes(live)| > 0 { return Err(SQLiteMultiHome); }
      var start := now;
      if latest.Some? && now <= latest.value { start := latest.value + step; }
      homes := live[HomeId(ip, port, start) := Home(start, Active, capabilities)];
      r := Ok(HomeId(ip, port, start));
    }

    method HeartbeatHome(id: HomeId, now: int) returns (error: Option<HomeError>)
      modifies this
      ensures match Heartbeat(old(homes), id, now)
              case Ok(after) => error == None && homes == after
              case Err(e) => error == Some(e) && homes == old(homes)
    {
      if id !in homes { return Some(HomeNotFound); }
      var record := homes[id];
      if record.state == Fenced { return Some(HomeFenced); }
      if record.state != Active { return Some(HomeInactive); }
      homes := homes[id := record.(lastSeen := now)];
      error := None;
    }

    method RetireHome(id: HomeId) returns (error: Option<HomeError>)
      modifies this
      ensures match Retire(old(homes), id)
              case Ok(after) => error == None && homes == after
              case Err(e) => error == Some(e) && homes == old(homes)
    {
      if id !in homes { return Some(HomeNotFound); }
      var record := homes[id];
      if record.state == Fenced { return Some(HomeFenced); }
      if record.state != Active { return Some(HomeInactive); }
      homes := homes[id := record.(state := Retired)];
      error := None;
    }

    method FenceHome(id: HomeId) returns (error: Option<HomeError>)
      modifies this
      ensures match Fence(old(homes), id)
              case Ok(after) => error == None && homes == after
              case Err(e) => error == Some(e) && homes == old(homes)
    {
      if id !in homes { return Some(HomeNotFound); }
      var record := homes[id];
      if record.state == Fenced { return None; }
      if record.state != Active { return Some(HomeInactive); }
      homes := homes[id := record.(state := Fenced)];
      error := None;
    }

    // rows lists the active Homes after the stale ones have expired.
    method Verify(rows: seq<HomeId>, legacyMemberships: nat, sqlite: bool) returns (error: Option<HomeError>)
      requires |rows| == |ActiveHomes(homes)| && forall id :: id in rows <==> id in ActiveHomes(homes)
      ensures error == VerifyActivation(homes, legacyMemberships, sqlite)
    {
      if legacyMemberships != 0 { return Some(LegacyMembership); }
      var i := 0;
      while i < |rows|
        invariant 0 <= i <= |rows|
        invariant forall id :: id in rows[..i] ==> id in homes && LIMITER in homes[id].capabilities
      {
        assert rows[i] in rows && rows[..i + 1] == rows[..i] + [rows[i]];
        if LIMITER !in homes[rows[i]].capabilities {
          return Some(CapabilityMissing);
        }
        i := i + 1;
      }
      assert rows[..|rows|] == rows;
      error := if sqlite && |rows| > 1 then Some(SQLiteMultiHome) else None;
    }
  }
}
