/** Whole histories of the cursor store: pages that are read at any times among other transactions rebuild one capture,
    a capture can be read until it expires, and cleanup passes drain what has expired. */
module SnapshotHistory {
  import opened Wrappers
  import opened SnapshotRows
  import opened SnapshotCursor
  import opened TableSums

  // states[i] is what the store holds before txs[i].
  ghost predicate History(states: seq<State>, txs: seq<Transaction>) {
    && |states| == |txs| + 1 && Consistent(states[0])
    && forall i :: 0 <= i < |txs| ==> Commits(states[i], txs[i], states[i + 1])
  }

  lemma {:induction false} HistoryKeeps(states: seq<State>, txs: seq<Transaction>, i: nat, j: nat)
    requires History(states, txs) && i <= j <= |txs|
    ensures Consistent(states[j]) && Extends(states[i], states[j])
    decreases j
  {
    if j > 0 {
      HistoryKeeps(states, txs, if i < j then i else i - 1, j - 1);
      CommitsKeep(states[j - 1], txs[j - 1], states[j]);
    }
  }

  // -- Reading a capture page by page --------------------------------------------------------

  ghost predicate Made(txs: seq<Transaction>, created: nat) { created < |txs| && txs[created].Create? && txs[created].created.Ok? }

  // A successful read of the cursor.
  ghost predicate Answered(txs: seq<Transaction>, i: nat, cursor: string) {
    i < |txs| && txs[i].Read? && txs[i].cursor == cursor && txs[i].page.Ok? && txs[i].limit > 0 && txs[i].offset >= 0
  }

  ghost predicate AllAnswered(txs: seq<Transaction>, pages: seq<nat>, cursor: string) {
    forall k :: 0 <= k < |pages| ==> Answered(txs, pages[k], cursor)
  }

  // How many details some reads asked for.
  ghost function Asked(txs: seq<Transaction>, pages: seq<nat>, cursor: string): nat
    requires AllAnswered(txs, pages, cursor)
  {
    if pages == [] then 0 else Asked(txs, pages[..|pages| - 1], cursor) + txs[pages[|pages| - 1]].limit
  }

  // What they were given.
  ghost function Received(txs: seq<Transaction>, pages: seq<nat>, cursor: string): seq<Detail>
    requires AllAnswered(txs, pages, cursor)
  {
    if pages == [] then [] else Received(txs, pages[..|pages| - 1], cursor) + txs[pages[|pages| - 1]].page.value
  }

  // Each read starts where the one before it ended.
  ghost predicate Consecutive(txs: seq<Transaction>, pages: seq<nat>, cursor: string) {
    && AllAnswered(txs, pages, cursor)
    && forall k :: 0 <= k < |pages| ==> txs[pages[k]].offset == Asked(txs, pages[..k], cursor)
  }

  function Upto(details: seq<Detail>, n: nat): seq<Detail> { if n < |details| then details[..n] else details }

  lemma UptoNext(details: seq<Detail>, offset: nat, limit: nat)
    ensures Upto(details, offset) + Page(details, offset, limit) == Upto(details, offset + limit)
  {
  }

  lemma UptoWhole(details: seq<Detail>, n: nat)
    ensures Upto(details, n) == details <==> n >= |details|
  {
  }

  lemma ConsecutiveBefore(txs: seq<Transaction>, pages: seq<nat>, cursor: string)
    requires Consecutive(txs, pages, cursor) && pages != []
    ensures Consecutive(txs, pages[..|pages| - 1], cursor)
  {
    var before := pages[..|pages| - 1];
    forall k | 0 <= k < |before| ensures txs[before[k]].offset == Asked(txs, before[..k], cursor) {
      assert before[..k] == pages[..k];
    }
  }

  // A successful read gives a page of what was captured under its cursor.
  lemma ReadsCapture(states: seq<State>, txs: seq<Transaction>, created: nat, i: nat)
    requires History(states, txs) && Made(txs, created) && Answered(txs, i, txs[created].cursor)
    ensures txs[i].page.value == Page(txs[created].details, txs[i].offset, txs[i].limit)
  {
    var cursor := txs[created].cursor;
    assert cursor in states[created + 1].captured;
    HistoryKeeps(states, txs, created + 1, |txs|);
    HistoryKeeps(states, txs, i, |txs|);
    assert Commits(states[i], txs[i], states[i + 1]);
  }

  // Successful reads, each from where the one before it ended, by whichever clients, at any times
  // and with any other transactions in between, together give the beginning of one capture; and
  // they give all of it exactly if they asked for that much.
  lemma {:induction false} ReadsRebuild(states: seq<State>, txs: seq<Transaction>, created: nat, pages: seq<nat>)
    requires History(states, txs) && Made(txs, created) && Consecutive(txs, pages, txs[created].cursor)
    ensures var cursor, details := txs[created].cursor, txs[created].details;
            && Received(txs, pages, cursor) == Upto(details, Asked(txs, pages, cursor))
            && (Received(txs, pages, cursor) == details <==> Asked(txs, pages, cursor) >= |details|)
    decreases |pages|
  {
    UptoWhole(txs[created].details, Asked(txs, pages, txs[created].cursor));
    if pages != [] {
      var n := |pages| - 1;
      var cursor := txs[created].cursor;
      var before := pages[..n];
      ConsecutiveBefore(txs, pages, cursor);
      ReadsRebuild(states, txs, created, before);
      ReadsCapture(states, txs, created, pages[n]);
      UptoNext(txs[created].details, txs[pages[n]].offset, txs[pages[n]].limit);
    }
  }

  // -- When a capture can be read ------------------------------------------------------------

  // The header of a cursor that was made: there from then on until it expires, and never another one.
  lemma {:induction false} HeaderStays(states: seq<State>, txs: seq<Transaction>, created: nat, i: nat)
    requires History(states, txs) && Made(txs, created) && i <= |txs|
    ensures var cursor, header := txs[created].cursor, txs[created].header;
            && (cursor in states[i].tables.headers ==> i > created && states[i].tables.headers[cursor] == header)
            && (i > created && states[i].clock < header.expiresAt ==> cursor in states[i].tables.headers)
    decreases i
  {
    var cursor := txs[created].cursor;
    if i <= created {
      assert Commits(states[created], txs[created], states[created + 1]);
      HistoryKeeps(states, txs, 0, i);
      HistoryKeeps(states, txs, i, created);
    } else {
      var tx := txs[i - 1];
      assert Commits(states[i - 1], tx, states[i]);
      HeaderStays(states, txs, created, i - 1);
      if tx.Create? && tx.created.Ok? {
        var cleaned, deleted :| Passed(states[i - 1].tables, cleaned, tx.now, deleted)
                                && Adds(cleaned, states[i].tables, tx.cursor, tx.header, tx.details, tx.extras);
        if i - 1 != created { OtherCursor(states, txs, created, i - 1); }
      }
    }
  }

  lemma OtherCursor(states: seq<State>, txs: seq<Transaction>, created: nat, other: nat)
    requires History(states, txs) && Made(txs, created) && Made(txs, other) && created < other
    ensures txs[created].cursor != txs[other].cursor
  {
    assert Commits(states[created], txs[created], states[created + 1]) && Commits(states[other], txs[other], states[other + 1]);
    HistoryKeeps(states, txs, created + 1, other);
  }

  // A read of a cursor succeeds exactly if it comes after its creation and before its expiry, under
  // its filters and with a proper page, whatever else was created and cleaned up in between.
  lemma ReadSucceeds(states: seq<State>, txs: seq<Transaction>, created: nat, i: nat)
    requires History(states, txs) && Made(txs, created) && i < |txs| && txs[i].Read? && txs[i].cursor == txs[created].cursor
    ensures var header, tx := txs[created].header, txs[i];
            tx.page.Ok? <==> created < i && tx.now < header.expiresAt && tx.credential == header.credential && tx.model == header.model
                             && tx.offset >= 0 && tx.limit > 0
  {
    assert Commits(states[i], txs[i], states[i + 1]) && Commits(states[created], txs[created], states[created + 1]);
    HeaderStays(states, txs, created, i);
  }

  // -- Draining what has expired -------------------------------------------------------------

  // How many passes are made: one for every cursor that is created.
  function Passes(txs: seq<Transaction>): nat {
    if txs == [] then 0
    else Passes(txs[..|txs| - 1]) + (if txs[|txs| - 1].Create? && txs[|txs| - 1].created.Ok? then 1 else 0)
  }

  // A new cursor adds nothing to what had expired by an earlier time.
  lemma NewNotExpired(before: Tables, after: Tables, cursor: string, header: Header, details: seq<Detail>, extras: Extras, cut: int)
    requires Adds(before, after, cursor, header, details, extras) && cursor !in before.headers && header.expiresAt > cut
    ensures after.ExpiredRows(cut) == before.ExpiredRows(cut)
  {
    var f := (c: string, h: Header) => if h.expiresAt <= cut then before.Size(c) else 0;
    var g := (c: string, h: Header) => if h.expiresAt <= cut then after.Size(c) else 0;
    SumSet(before.headers, cursor, header, g);
    forall c | c in before.headers ensures f(c, before.headers[c]) == g(c, before.headers[c]) {
      assert c != cursor && before.Size(c) == after.Size(c);
    }
    SumSame(before.headers, f, g);
  }

  lemma CommitDrains(s: State, tx: Transaction, s': State, cut: int)
    requires Consistent(s) && Commits(s, tx, s') && cut <= s.clock
    ensures s'.tables.ExpiredRows(cut) <= s.tables.ExpiredRows(cut)
    ensures tx.Create? && tx.created.Ok? && s.tables.ExpiredRows(cut) > 0 ==> s'.tables.ExpiredRows(cut) < s.tables.ExpiredRows(cut)
  {
    if tx.Create? && tx.created.Ok? {
      var cleaned, deleted :| Passed(s.tables, cleaned, tx.now, deleted) && Adds(cleaned, s'.tables, tx.cursor, tx.header, tx.details, tx.extras);
      assert Drops(s.tables, cleaned, cut);
      RowsPositive(s.tables, cut);
      RowsPositive(cleaned, cut);
      NewNotExpired(cleaned, s'.tables, tx.cursor, tx.header, tx.details, tx.extras, cut);
    }
  }

  // Whatever had expired at some time is gone, all its rows, after as many later passes as it had
  // rows, whatever expires, is read or is created meanwhile.
  lemma {:induction false} Drained(states: seq<State>, txs: seq<Transaction>, cut: int)
    requires History(states, txs) && cut <= states[0].clock
    ensures var rows := states[0].tables.ExpiredRows(cut);
            && states[|txs|].tables.ExpiredRows(cut) <= (if Passes(txs) < rows then rows - Passes(txs) else 0)
            && (Passes(txs) >= rows ==> states[|txs|].tables.Expired(cut) == {})
    decreases |txs|
  {
    if txs == [] {
      RowsPositive(states[0].tables, cut);
    } else {
      var n := |txs| - 1;
      Drained(states[..n + 1], txs[..n], cut);
      HistoryKeeps(states, txs, 0, n);
      CommitDrains(states[n], txs[n], states[n + 1], cut);
      RowsPositive(states[n].tables, cut);
      RowsPositive(states[n + 1].tables, cut);
    }
  }
}
