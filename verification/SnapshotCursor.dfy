/** The paginated cursor store: a capture is written in batches, read in pages, and cleaned up in bounded passes after
    it has expired. Each transaction is stated as a relation between what the store holds before and after it. */
module SnapshotCursor {
  import opened Wrappers
  import opened SnapshotRows
  import opened TextOrder

  const SCHEMA_VERSION: int := 1
  const WRITE_BATCH: nat := 250
  const CLEANUP_CURSORS: nat := 8
  const CLEANUP_ROWS: nat := 1000

  // What is captured beside the details: the observed credentials, and the limiter states by credential
  // with their models.
  datatype Extras = Extras(observed: seq<string>, states: seq<(string, seq<string>)>)

  datatype CursorError = InvalidTTL | Repeated | Expired | BadPagination | BadTotal | IncompletePage | BadOrdinal | ExpiredWhilePersisted

  // The capture as rows.
  function Numbered(details: seq<Detail>): seq<Row> { seq(|details|, i requires 0 <= i < |details| => ItemRow(i, details[i])) }

  function Credentials(states: seq<(string, seq<string>)>): seq<string> {
    seq(|states|, i requires 0 <= i < |states| => states[i].0)
  }

  // No observed credential, no credential of a state and no model of one state repeats.
  predicate Unrepeated(extras: Extras) {
    && Distinct(extras.observed) && Distinct(Credentials(extras.states))
    && forall i :: 0 <= i < |extras.states| ==> Distinct(extras.states[i].1)
  }

  function ObservedRows(observed: seq<string>): seq<Row> { seq(|observed|, i requires 0 <= i < |observed| => ObservedRow(observed[i])) }

  function StateRows(states: seq<(string, seq<string>)>): seq<Row> {
    seq(|states|, i requires 0 <= i < |states| => StateRow(states[i].0))
  }

  function ModelsOf(credential: string, models: seq<string>): seq<Row> {
    seq(|models|, i requires 0 <= i < |models| => ModelRow(credential, models[i]))
  }

  function ModelRows(states: seq<(string, seq<string>)>): seq<Row> {
    if states == [] then [] else ModelRows(states[..|states| - 1]) + ModelsOf(states[|states| - 1].0, states[|states| - 1].1)
  }

  function PageCount(total: nat, offset: nat, limit: nat): nat {
    if offset >= total then 0 else if total - offset < limit then total - offset else limit
  }

  // A page of a capture.
  function Page(details: seq<Detail>, offset: nat, limit: nat): (page: seq<Detail>)
    ensures |page| == PageCount(|details|, offset, limit)
  {
    if offset >= |details| then [] else details[offset..offset + PageCount(|details|, offset, limit)]
  }

  // -- What the store holds ----------------------------------------------------------------

  // captured is what was captured under each cursor there has been; clock is the database time of
  // the latest transaction.
  datatype State = State(tables: Tables, captured: map<string, seq<Detail>>, clock: int)

  ghost predicate Intact(s: State, cursor: string) {
    && cursor in s.tables.headers && cursor in s.captured
    && s.tables.headers[cursor].total == |s.captured[cursor]| && s.tables.Rows(Items, cursor) == Numbered(s.captured[cursor])
  }

  // A cursor that has not expired is complete, and rows only belong to cursors there have been.
  ghost predicate Consistent(s: State) {
    && (forall cursor :: cursor in s.tables.headers && s.tables.headers[cursor].expiresAt > s.clock ==> Intact(s, cursor))
    && (forall cursor :: cursor in s.tables.headers ==> cursor in s.captured)
    && (forall child, cursor :: cursor !in s.captured ==> s.tables.Rows(child, cursor) == [])
  }

  // A transaction with what it was asked and what it answered.
  datatype Transaction =
    | Create(cursor: string, header: Header, details: seq<Detail>, extras: Extras, ttl: int, now: int, readAt: int, created: Result<(), CursorError>)
    | Read(cursor: string, credential: string, model: string, offset: int, limit: int, now: int, page: Result<seq<Detail>, CursorError>)

  ghost predicate Commits(s: State, tx: Transaction, s': State) { if tx.Create? then Creates(s, tx, s') else Reads(s, tx, s') }

  // A successful read returns the page of the capture, under the filters it was made with.
  ghost predicate Reads(s: State, tx: Transaction, s': State)
    requires tx.Read?
  {
    && s.clock <= tx.now && s' == s.(clock := tx.now)
    && (tx.page.Ok? <==> tx.offset >= 0 && tx.limit > 0 && Readable(s, tx))
    && (tx.page.Ok? ==> tx.cursor in s.captured && tx.page.value == Page(s.captured[tx.cursor], tx.offset, tx.limit))
    && (tx.page.Err? ==> tx.page.error == if tx.offset < 0 || tx.limit <= 0 then BadPagination else CursorError.Expired)
  }

  ghost predicate Readable(s: State, tx: Transaction)
    requires tx.Read?
  {
    && tx.cursor in s.tables.headers
    && var header := s.tables.headers[tx.cursor];
       header.expiresAt > tx.now && header.schema == SCHEMA_VERSION && header.credential == tx.credential && header.model == tx.model
  }

  // A capture is written under a new cursor, after a cleanup pass; one with repetitions, or that has expired by
  // the time it is written, leaves nothing behind, and no cleanup either.
  ghost predicate Creates(s: State, tx: Transaction, s': State)
    requires tx.Create?
  {
    && s.clock <= tx.now <= tx.readAt && tx.cursor !in s.captured && s'.clock == tx.readAt
    && tx.header.schema == SCHEMA_VERSION && tx.header.total == |tx.details| && tx.header.expiresAt == tx.now + tx.ttl
    && tx.created == (if tx.ttl <= 0 then Err(InvalidTTL)
                      else if !Unrepeated(tx.extras) then Err(Repeated)
                      else if tx.now + tx.ttl <= tx.readAt then Err(ExpiredWhilePersisted) else Ok(()))
    && (tx.created.Err? ==> s'.tables == s.tables && s'.captured == s.captured)
    && (tx.created.Ok? ==>
          && s'.captured == s.captured[tx.cursor := tx.details]
          && exists cleaned, deleted ::
            Passed(s.tables, cleaned, tx.now, deleted) && Adds(cleaned, s'.tables, tx.cursor, tx.header, tx.details, tx.extras))
  }

  ghost predicate Adds(before: Tables, after: Tables, cursor: string, header: Header, details: seq<Detail>, extras: Extras) {
    && after.headers == before.headers[cursor := header]
    && after.Rows(Items, cursor) == Numbered(details) && after.Rows(Observed, cursor) == ObservedRows(extras.observed)
    && after.Rows(States, cursor) == StateRows(extras.states) && after.Rows(Models, cursor) == ModelRows(extras.states)
    && (forall other, child :: other != cursor ==> after.Rows(child, other) == before.Rows(child, other))
  }

  // -- Cleanup passes ----------------------------------------------------------------------

  // One bounded pass: only expired cursors lose rows, and a header goes only with the last of its
  // children; at most CLEANUP_ROWS rows go, each of them counted; whatever time one looks back to, there
  // are fewer rows that had expired by then, if there were any; and a pass that stops short of the bound
  // has removed the full number of expired cursors.
  ghost predicate Passed(before: Tables, after: Tables, now: int, deleted: nat) {
    && deleted <= CLEANUP_ROWS && OnlyTouches(before, after, before.Expired(now))
    && after.ExpiredRows(now) == before.ExpiredRows(now) - deleted
    && (forall cut :: cut <= now ==> Drops(before, after, cut))
    && (deleted < CLEANUP_ROWS ==>
          |after.Expired(now)| == if |before.Expired(now)| <= CLEANUP_CURSORS then 0 else |before.Expired(now)| - CLEANUP_CURSORS)
  }

  ghost predicate Drops(before: Tables, after: Tables, cut: int) {
    if before.Expired(cut) == {} then after.Expired(cut) == {} else after.ExpiredRows(cut) < before.ExpiredRows(cut)
  }

  // What the query for expired cursors answers: the first few of them, in order.
  ghost predicate Oldest(t: Tables, batch: seq<string>, now: int) {
    && |batch| <= CLEANUP_CURSORS
    && Doomed(t, batch, now)
    && (forall i, j :: 0 <= i < j < |batch| ==> t.Before(batch[i], batch[j]))
    && (forall cursor, b :: t.Stale(cursor, now) && cursor !in batch && b in batch ==> t.Before(b, cursor))
    && (forall cursor :: t.Stale(cursor, now) && cursor !in batch ==> |batch| == CLEANUP_CURSORS)
  }

  // Expired cursors, each once.
  ghost predicate Doomed(t: Tables, batch: seq<string>, now: int) {
    (forall i :: 0 <= i < |batch| ==> t.Stale(batch[i], now)) && forall i, j :: 0 <= i < j < |batch| ==> batch[i] != batch[j]
  }

  function Members(cursors: seq<string>): set<string> { set cursor | cursor in cursors }

  lemma {:induction false} MembersCounted(cursors: seq<string>)
    requires forall i, j :: 0 <= i < j < |cursors| ==> cursors[i] != cursors[j]
    ensures |Members(cursors)| == |cursors|
  {
    if cursors != [] {
      var n := |cursors| - 1;
      MembersCounted(cursors[..n]);
      assert Members(cursors) == Members(cursors[..n]) + {cursors[n]};
    }
  }

  // Where a pass has got to: the first i cursors of the batch have been visited.
  ghost predicate Cleaning(before: Tables, t: Tables, batch: seq<string>, i: nat, now: int, deleted: nat) {
    && i <= |batch| && deleted <= CLEANUP_ROWS && OnlyTouches(before, t, Members(batch[..i]))
    && t.ExpiredRows(now) == before.ExpiredRows(now) - deleted
    && AllLowered(before, t, batch, i)
    && (forall j :: i <= j < |batch| ==> batch[j] in t.headers)
    && (deleted < CLEANUP_ROWS ==> forall j :: 0 <= j < i ==> batch[j] !in t.headers)
  }

  ghost predicate AllLowered(before: Tables, t: Tables, batch: seq<string>, i: nat) { forall cut :: Lowered(before, t, batch, i, cut) }

  ghost predicate Lowered(before: Tables, t: Tables, batch: seq<string>, i: nat, cut: int) {
    && t.ExpiredRows(cut) <= before.ExpiredRows(cut)
    && (i > 0 && batch != [] && before.Stale(batch[0], cut) ==> t.ExpiredRows(cut) < before.ExpiredRows(cut))
  }

  lemma CleaningStarts(before: Tables, batch: seq<string>, now: int)
    requires Oldest(before, batch, now)
    ensures Cleaning(before, before, batch, 0, now, 0)
  {
    assert forall j :: 0 <= j < |batch| ==> before.Stale(batch[j], now);
  }

  lemma CleaningStep(before: Tables, t: Tables, t': Tables, batch: seq<string>, i: nat, now: int, deleted: nat, count: nat)
    requires Doomed(before, batch, now) && Cleaning(before, t, batch, i, now, deleted) && i < |batch|
    requires Shrunk(t, t', batch[i], count) && 0 < count <= CLEANUP_ROWS - deleted
    requires count < CLEANUP_ROWS - deleted ==> batch[i] !in t'.headers
    ensures Cleaning(before, t', batch, i + 1, now, deleted + count)
  {
    var cursor := batch[i];
    assert batch[..i + 1] == batch[..i] + [cursor];
    assert Members(batch[..i + 1]) == Members(batch[..i]) + {cursor};
    assert cursor in batch && before.Stale(cursor, now) && cursor !in Members(batch[..i]);
    TouchesOne(before, t, t', Members(batch[..i]), cursor);
    ShrunkRows(t, t', cursor, count, now);
    LoweredStep(before, t, t', batch, i, count);
  }

  lemma LoweredStep(before: Tables, t: Tables, t': Tables, batch: seq<string>, i: nat, count: nat)
    requires i < |batch| && AllLowered(before, t, batch, i)
    requires Shrunk(t, t', batch[i], count) && 0 < count && batch[i] in t.headers && OnlyTouches(before, t, Members(batch[..i]))
    ensures AllLowered(before, t', batch, i + 1)
  {
    var next := i + 1;
    forall cut ensures Lowered(before, t', batch, next, cut) {
      assert Lowered(before, t, batch, i, cut);
      ShrunkRows(t, t', batch[i], count, cut);
    }
  }

  lemma TouchesOne(t0: Tables, t1: Tables, t2: Tables, cursors: set<string>, cursor: string)
    requires OnlyTouches(t0, t1, cursors) && OnlyTouches(t1, t2, {cursor}) && cursor !in cursors
    ensures OnlyTouches(t0, t2, cursors + {cursor})
  {
    forall other | other in t0.headers && other !in t2.headers ensures other in cursors + {cursor} && t2.Childless(other) {
      if other !in t1.headers { assert t1.Childless(other) && other != cursor; }
    }
  }

  // Among the expired cursors the query's first one is the oldest, so it has expired by any time by
  // which one of them has.
  lemma OldestFirst(t: Tables, batch: seq<string>, now: int, cut: int)
    requires Oldest(t, batch, now) && cut <= now && t.Expired(cut) != {}
    ensures batch != [] && t.Stale(batch[0], cut)
  {
    var cursor :| cursor in t.Expired(cut);
    assert t.Stale(cursor, now);
    assert batch == [] ==> cursor !in batch;
    if cursor in batch {
      var k :| 0 <= k < |batch| && batch[k] == cursor;
    } else {
      assert t.Before(batch[0], cursor);
    }
  }

  lemma CleaningDrops(before: Tables, t: Tables, batch: seq<string>, i: nat, now: int, cut: int)
    requires Oldest(before, batch, now) && AllLowered(before, t, batch, i) && (i == 0 ==> batch == []) && cut <= now
    ensures Drops(before, t, cut)
  {
    assert Lowered(before, t, batch, i, cut);
    RowsPositive(before, cut);
    RowsPositive(t, cut);
    if before.Expired(cut) != {} { OldestFirst(before, batch, now, cut); }
  }

  lemma CleaningEnds(before: Tables, t: Tables, batch: seq<string>, i: nat, now: int, deleted: nat)
    requires Oldest(before, batch, now) && Cleaning(before, t, batch, i, now, deleted)
    requires i == |batch| || (i > 0 && deleted == CLEANUP_ROWS)
    ensures Passed(before, t, now, deleted)
  {
    assert forall cursor :: cursor in batch[..i] ==> cursor in batch && before.Stale(cursor, now);
    assert Members(batch[..i]) <= before.Expired(now);
    forall cut | cut <= now ensures Drops(before, t, cut) {
      CleaningDrops(before, t, batch, i, now, cut);
    }
    if deleted < CLEANUP_ROWS {
      assert batch[..i] == batch;
      CleaningCounts(before, t, batch, now);
    }
  }

  // With its whole batch gone a pass has removed every expired cursor, or as many as it may visit.
  lemma CleaningCounts(before: Tables, t: Tables, batch: seq<string>, now: int)
    requires Oldest(before, batch, now) && OnlyTouches(before, t, Members(batch)) && forall cursor :: cursor in batch ==> cursor !in t.headers
    ensures |t.Expired(now)| == if |before.Expired(now)| <= CLEANUP_CURSORS then 0 else |before.Expired(now)| - CLEANUP_CURSORS
  {
    MembersCounted(batch);
    assert t.Expired(now) == before.Expired(now) - Members(batch);
    if cursor :| before.Stale(cursor, now) && cursor !in batch {
      assert |batch| == CLEANUP_CURSORS && cursor in t.Expired(now);
    } else {
      assert before.Expired(now) == Members(batch);
    }
  }

  // -- What transactions keep --------------------------------------------------------------

  // Captures stay what they are.
  ghost predicate Extends(s: State, s': State) {
    s.clock <= s'.clock && forall cursor :: cursor in s.captured ==> cursor in s'.captured && s'.captured[cursor] == s.captured[cursor]
  }

  // Every transaction keeps unexpired cursors complete, and the captures.
  lemma CommitsKeep(s: State, tx: Transaction, s': State)
    requires Consistent(s) && Commits(s, tx, s')
    ensures Consistent(s') && Extends(s, s')
  {
    if tx.Create? && tx.created.Ok? {
      var cleaned, deleted :| Passed(s.tables, cleaned, tx.now, deleted) && Adds(cleaned, s'.tables, tx.cursor, tx.header, tx.details, tx.extras);
      CreateKeeps(s, tx, cleaned, s');
    } else {
      forall cursor | cursor in s'.tables.headers && s'.tables.headers[cursor].expiresAt > s'.clock ensures Intact(s', cursor) {
        assert Intact(s, cursor);
      }
    }
  }

  lemma CreateKeeps(s: State, tx: Transaction, cleaned: Tables, s': State)
    requires Consistent(s) && tx.Create? && tx.created.Ok? && Creates(s, tx, s')
    requires OnlyTouches(s.tables, cleaned, s.tables.Expired(tx.now)) && Adds(cleaned, s'.tables, tx.cursor, tx.header, tx.details, tx.extras)
    ensures Consistent(s')
  {
    forall cursor | cursor in s'.tables.headers && s'.tables.headers[cursor].expiresAt > s'.clock ensures Intact(s', cursor) {
      if cursor != tx.cursor { assert Intact(s, cursor) && cursor !in s.tables.Expired(tx.now); }
    }
    forall child, cursor | cursor !in s'.captured ensures s'.tables.Rows(child, cursor) == [] {
      assert cursor != tx.cursor && cursor !in s.tables.Expired(tx.now);
      assert s'.tables.Rows(child, cursor) == cleaned.Rows(child, cursor) == s.tables.Rows(child, cursor);
    }
  }

  class Store {
    var headers: map<string, Header>
    var children: map<(Child, string), seq<Row>>
    ghost var captured: map<string, seq<Detail>>
    ghost var clock: int

    function Rows(): Tables
      reads this
    {
      Tables(headers, children)
    }

    ghost function Holds(): State
      reads this
    {
      State(Rows(), captured, clock)
    }

    ghost predicate Valid()
      reads this
    {
      Consistent(Holds())
    }

    constructor ()
      ensures Valid() && Holds() == State(Tables(map[], map[]), map[], 0)
    {
      headers, children, captured, clock := map[], map[], map[], 0;
    }

    // -- Reading -------------------------------------------------------------------------

    method ReadPage(cursor: string, credential: string, model: string, offset: int, limit: int, now: int)
      returns (r: Result<seq<Detail>, CursorError>)
      requires Valid() && now >= clock
      modifies this`clock
      ensures Reads(old(Holds()), Transaction.Read(cursor, credential, model, offset, limit, now, r), Holds())
      ensures Valid()
    {
      clock := now;
      if offset < 0 || limit <= 0 { return Err(BadPagination); }
      if cursor !in headers { return Err(CursorError.Expired); }
      var record := headers[cursor];
      if record.expiresAt <= now || record.schema != SCHEMA_VERSION { return Err(CursorError.Expired); }
      if record.credential != credential || record.model != model { return Err(CursorError.Expired); }
      assert Intact(old(Holds()), cursor);
      if record.total < 0 { return Err(BadTotal); }
      var expected := PageCount(record.total, offset, limit);
      if expected == 0 { return Ok([]); }
      var records := Query(Rows().Rows(Items, cursor), offset, expected, captured[cursor]);
      if |records| != expected { return Err(IncompletePage); }
      var details: seq<Detail> := [];
      var index := 0;
      while index < |records|
        invariant 0 <= index <= |records| && details == captured[cursor][offset..offset + index]
      {
        assert records[index] == Numbered(captured[cursor])[offset + index];
        if !records[index].ItemRow? || records[index].ordinal != offset + index { return Err(BadOrdinal); }
        details := details + [records[index].detail];
        index := index + 1;
      }
      r := Ok(details);
    }

    // The rows from ordinal offset on, at most so many of them, in order.
    method Query(rows: seq<Row>, offset: nat, limit: nat, ghost details: seq<Detail>) returns (found: seq<Row>)
      requires rows == Numbered(details) && offset + limit <= |details|
      ensures found == rows[offset..offset + limit]
    {
      found := [];
      var i := 0;
      while i < |rows| && |found| < limit
        invariant 0 <= i <= |rows| && |found| <= limit
        invariant if i <= offset then found == [] else i <= offset + limit && found == rows[offset..i]
      {
        if rows[i].ItemRow? && rows[i].ordinal >= offset { found := found + [rows[i]]; }
        i := i + 1;
      }
    }

    // -- Writing -------------------------------------------------------------------------

    // The transaction of CreateInFlightSnapshotCursor. An error undoes it, with the cleanup.
    method Create(cursor: string, credential: string, model: string, details: seq<Detail>, extras: Extras, ttl: int, now: int, readAt: int)
      returns (r: Result<(), CursorError>)
      requires Valid() && clock <= now <= readAt && cursor !in captured
      modifies this
      ensures Creates(old(Holds()), Transaction.Create(cursor, Header(credential, model, SCHEMA_VERSION, |details|, now + ttl), details,
                                                       extras, ttl, now, readAt, r), Holds())
      ensures Valid()
    {
      clock := readAt;
      if ttl <= 0 { return Err(InvalidTTL); }
      var undo := Rows();
      ghost var deleted := CleanupExpired(now);
      ghost var cleaned := Rows();
      var header := Header(credential, model, SCHEMA_VERSION, |details|, now + ttl);
      var written := Write(cursor, header, details, extras);
      if !written || now + ttl <= readAt {
        headers, children := undo.headers, undo.children;
        return Err(if written then ExpiredWhilePersisted else Repeated);
      }
      captured := captured[cursor := details];
      r := Ok(());
      assert Passed(old(Rows()), cleaned, now, deleted) && Adds(cleaned, Rows(), cursor, header, details, extras);
      CommitsKeep(old(Holds()), Transaction.Create(cursor, header, details, extras, ttl, now, readAt, r), Holds());
    }

    // The header and the child rows of a capture; it stops at a repetition.
    method Write(cursor: string, header: Header, details: seq<Detail>, extras: Extras) returns (written: bool)
      modifies this`headers, this`children
      ensures written <==> Unrepeated(extras)
      ensures written ==> Adds(old(Rows()), Rows(), cursor, header, details, extras)
    {
      headers := headers[cursor := header];
      var items := NumberItems(details);
      children := children[(Items, cursor) := items];
      var observed := BuildObserved(extras.observed);
      if observed.None? { return false; }
      children := children[(Observed, cursor) := observed.value];
      var states := BuildStates(extras.states);
      if states.None? { return false; }
      children := children[(States, cursor) := states.value.0];
      children := children[(Models, cursor) := states.value.1];
      written := true;
    }

    // The rows of the observed credentials; None if one repeats.
    method BuildObserved(observed: seq<string>) returns (rows: Option<seq<Row>>)
      ensures rows.Some? <==> Distinct(observed)
      ensures rows.Some? ==> rows.value == ObservedRows(observed)
    {
      var records: seq<Row> := [];
      var seen: set<string> := {};
      var i := 0;
      while i < |observed|
        invariant 0 <= i <= |observed| && records == ObservedRows(observed)[..i]
        invariant Distinct(observed[..i]) && seen == Members(observed[..i])
      {
        assert observed[..i + 1] == observed[..i] + [observed[i]];
        if observed[i] in seen { return None; }
        seen := seen + {observed[i]};
        records := records + [ObservedRow(observed[i])];
        i := i + 1;
      }
      assert observed[..|observed|] == observed;
      rows := Some(records);
    }

    // The rows of the models of one state; None if one repeats.
    method BuildModels(credential: string, models: seq<string>) returns (rows: Option<seq<Row>>)
      ensures rows.Some? <==> Distinct(models)
      ensures rows.Some? ==> rows.value == ModelsOf(credential, models)
    {
      var records: seq<Row> := [];
      var seen: set<string> := {};
      var i := 0;
      while i < |models|
        invariant 0 <= i <= |models| && records == ModelsOf(credential, models)[..i]
        invariant Distinct(models[..i]) && seen == Members(models[..i])
      {
        assert models[..i + 1] == models[..i] + [models[i]];
        if models[i] in seen { return None; }
        seen := seen + {models[i]};
        records := records + [ModelRow(credential, models[i])];
        i := i + 1;
      }
      assert models[..|models|] == models;
      rows := Some(records);
    }

    // The rows of the limiter states and of their models; None if a credential or a model repeats.
    method BuildStates(states: seq<(string, seq<string>)>) returns (rows: Option<(seq<Row>, seq<Row>)>)
      ensures rows.Some? <==> Distinct(Credentials(states)) && forall i :: 0 <= i < |states| ==> Distinct(states[i].1)
      ensures rows.Some? ==> rows.value == (StateRows(states), ModelRows(states))
    {
      var records: seq<Row>, modelRecords: seq<Row> := [], [];
      var seen: set<string> := {};
      var i := 0;
      while i < |states|
        invariant 0 <= i <= |states| && records == StateRows(states)[..i] && modelRecords == ModelRows(states[..i])
        invariant Distinct(Credentials(states)[..i]) && seen == Members(Credentials(states)[..i])
        invariant forall k :: 0 <= k < i ==> Distinct(states[k].1)
      {
        assert Credentials(states)[..i + 1] == Credentials(states)[..i] + [states[i].0];
        assert states[..i + 1][..i] == states[..i];
        if states[i].0 in seen {
          var k :| 0 <= k < i && Credentials(states)[..i][k] == states[i].0;
          assert Credentials(states)[k] == Credentials(states)[i];
          return None;
        }
        seen := seen + {states[i].0};
        records := records + [StateRow(states[i].0)];
        var models := BuildModels(states[i].0, states[i].1);
        if models.None? { return None; }
        modelRecords := modelRecords + models.value;
        i := i + 1;
      }
      assert states[..|states|] == states && Credentials(states)[..|states|] == Credentials(states);
      assert StateRows(states)[..|states|] == StateRows(states);
      rows := Some((records, modelRecords));
    }

    // The detail rows, built in write batches.
    method NumberItems(details: seq<Detail>) returns (rows: seq<Row>)
      ensures rows == Numbered(details)
    {
      rows := [];
      var start := 0;
      while start < |details|
        invariant 0 <= start && rows == Numbered(details)[..if start < |details| then start else |details|]
        decreases |details| - start
      {
        var end := if start + WRITE_BATCH < |details| then start + WRITE_BATCH else |details|;
        var records: seq<Row> := [];
        var index := start;
        while index < end
          invariant start <= index <= end && records == Numbered(details)[start..index]
        {
          records := records + [ItemRow(index, details[index])];
          index := index + 1;
        }
        rows := rows + records;
        start := start + WRITE_BATCH;
      }
    }

    // -- Cleanup -------------------------------------------------------------------------

    method DeleteBatch(child: Child, cursor: string, limit: nat) returns (complete: bool, count: nat)
      requires limit > 0
      modifies this`children
      ensures count == if |old(Rows()).Rows(child, cursor)| < limit then |old(Rows()).Rows(child, cursor)| else limit
      ensures complete <==> count < limit
      ensures Rows().Rows(child, cursor) == old(Rows()).Rows(child, cursor)[count..]
      ensures forall c, k :: (k, c) != (child, cursor) ==> Rows().Rows(k, c) == old(Rows()).Rows(k, c)
    {
      var records := Rows().Rows(child, cursor);
      if |records| < limit { complete, count := true, |records|; } else { complete, count := false, limit; }
      children := children[(child, cursor) := records[count..]];
    }

    // Two child tables in turn: the second only after the first is empty.
    method DeletePair(first: Child, second: Child, cursor: string, limit: nat) returns (complete: bool, count: nat)
      requires limit > 0 && first != second
      modifies this`children
      ensures complete ==> count < limit && Rows().Rows(first, cursor) == [] && Rows().Rows(second, cursor) == []
      ensures !complete ==> count == limit
      ensures |Rows().Rows(first, cursor)| + |Rows().Rows(second, cursor)| + count ==
              |old(Rows()).Rows(first, cursor)| + |old(Rows()).Rows(second, cursor)|
      ensures Rows().Rows(second, cursor) != old(Rows()).Rows(second, cursor) ==> Rows().Rows(first, cursor) == []
      ensures forall c, k :: c != cursor || (k != first && k != second) ==> Rows().Rows(k, c) == old(Rows()).Rows(k, c)
    {
      complete, count := DeleteBatch(first, cursor, limit);
      if !complete { return; }
      var more;
      complete, more := DeleteBatch(second, cursor, limit - count);
      count := count + more;
    }

    // At most limit rows of the cursor go, children before the header; fewer only if none is left.
    method DeleteCursor(cursor: string, limit: nat) returns (deleted: nat)
      modifies this`children, this`headers
      ensures deleted <= limit && Shrunk(old(Rows()), Rows(), cursor, deleted)
      ensures limit > 0 && cursor in old(headers) ==> deleted > 0
      ensures deleted < limit ==> Rows().Size(cursor) == 0 && cursor !in headers
    {
      if limit == 0 { return 0; }
      var complete, count := DeletePair(Models, States, cursor, limit);
      deleted := count;
      if !complete { return; }
      complete, count := DeletePair(Observed, Items, cursor, limit - deleted);
      deleted := deleted + count;
      if !complete { return; }
      if cursor in headers {
        headers := headers - {cursor};
        deleted := deleted + 1;
        forall child ensures Rows().Rows(child, cursor) == [] {
          match child case Models => case States => case Observed => case Items =>
        }
      }
    }

    method Least(cursors: set<string>) returns (least: string)
      requires cursors != {} && cursors <= headers.Keys
      ensures least in cursors && forall cursor :: cursor in cursors && cursor != least ==> Rows().Before(least, cursor)
    {
      least :| least in cursors;
      var left := cursors - {least};
      while left != {}
        invariant left <= cursors && least in cursors - left
        invariant forall cursor :: cursor in cursors - left && cursor != least ==> Rows().Before(least, cursor)
        decreases left
      {
        var next: string :| next in left;
        left := left - {next};
        BeforeTotal(Rows(), least, next);
        if Rows().Before(next, least) {
          forall cursor | cursor in cursors - left && cursor != next ensures Rows().Before(next, cursor) {
            if cursor != least { BeforeTransitive(Rows(), next, least, cursor); }
          }
          least := next;
        }
      }
    }

    // The expired cursors by time of expiry, no more than a pass visits.
    method QueryExpired(now: int) returns (batch: seq<string>)
      ensures Oldest(Rows(), batch, now)
    {
      batch := [];
      var left := Rows().Expired(now);
      while left != {} && |batch| < CLEANUP_CURSORS
        invariant Members(batch) + left == Rows().Expired(now) && Members(batch) !! left && |batch| <= CLEANUP_CURSORS
        invariant Doomed(Rows(), batch, now) && forall i, j :: 0 <= i < j < |batch| ==> Rows().Before(batch[i], batch[j])
        invariant forall b, cursor :: b in batch && cursor in left ==> Rows().Before(b, cursor)
        decreases left
      {
        var least := Least(left);
        assert Members(batch + [least]) == Members(batch) + {least} && least in Rows().Expired(now);
        assert forall i :: 0 <= i < |batch| ==> batch[i] in Members(batch);
        batch := batch + [least];
        left := left - {least};
      }
      forall cursor | Rows().Stale(cursor, now) && cursor !in batch ensures cursor in left {
        assert cursor in Rows().Expired(now);
      }
      assert forall cursor :: cursor in batch ==> cursor in Members(batch);
    }

    method CleanupExpired(now: int) returns (deleted: nat)
      modifies this`children, this`headers
      ensures Passed(old(Rows()), Rows(), now, deleted)
    {
      var batch := QueryExpired(now);
      ghost var before := Rows();
      CleaningStarts(before, batch, now);
      ghost var visited;
      deleted, visited := Visit(batch, before, now);
      CleaningEnds(before, Rows(), batch, visited, now, deleted);
    }

    // The cursors of the batch in turn, until the bound is reached.
    method Visit(batch: seq<string>, ghost before: Tables, ghost now: int) returns (deleted: nat, ghost visited: nat)
      requires Doomed(before, batch, now) && Cleaning(before, Rows(), batch, 0, now, 0)
      modifies this`children, this`headers
      ensures Cleaning(before, Rows(), batch, visited, now, deleted)
      ensures visited == |batch| || (visited > 0 && deleted == CLEANUP_ROWS)
    {
      deleted := 0;
      var i := 0;
      ghost var t := Rows();
      while i < |batch| && deleted < CLEANUP_ROWS
        invariant t == Rows() && Cleaning(before, t, batch, i, now, deleted) && (i == 0 ==> deleted == 0)
      {
        var count := VisitNext(batch, i, deleted, before, now);
        t := Rows();
        deleted := deleted + count;
        i := i + 1;
      }
      visited := i;
    }

    method VisitNext(batch: seq<string>, i: nat, deleted: nat, ghost before: Tables, ghost now: int) returns (count: nat)
      requires Doomed(before, batch, now) && Cleaning(before, Rows(), batch, i, now, deleted) && i < |batch| && deleted < CLEANUP_ROWS
      modifies this`children, this`headers
      ensures 0 < count <= CLEANUP_ROWS - deleted && Cleaning(before, Rows(), batch, i + 1, now, deleted + count)
    {
      ghost var t := Rows();
      count := DeleteCursor(batch[i], CLEANUP_ROWS - deleted);
      CleaningStep(before, t, Rows(), batch, i, now, deleted, count);
    }
  }
}
